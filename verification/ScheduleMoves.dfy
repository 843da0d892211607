/** What admission, dispatch and expulsion do to whole queues: who moves, in which order, and who stays. */
module ScheduleMoves {
  import opened Memory
  import opened CrewTable
  import opened Schedule
  import opened ScheduleLaws

  // ----- Admission ----------------------------------------------------------------------------------------

  /** Everybody in NEW goes to the end of READY, in order and with the first task; nothing else changes. */
  lemma {:induction false} NewsAdmitted(s: Sched)
    requires AllHoused(s)
    ensures var s' := AdmitNews(s);
      && s' == s.(news := [], ready := s.ready + s.news, crew := s'.crew) && s'.crew.Keys == s.crew.Keys
      && (forall x :: x in s.news ==> x in s.crew && s'.crew[x] == TakeTask(s.crew[x].(state := Ready)))
      && (forall x :: x in s.crew && x !in s.news ==> s'.crew[x] == s.crew[x])
    decreases |s.news|
  {
    if s.news == [] {
      assert s.ready + [] == s.ready;
    } else {
      var s1, tid, rest := AdmitOne(s), s.news[0], s.news[1..];
      OneAdmitted(s);
      NewsAdmitted(s1);
      assert s.news == [tid] + rest;
      assert s.ready + s.news == s.ready + [tid] + rest;
      hide AdmitOne, TakeTask, Housed;
    }
  }

  lemma OneAdmitted(s: Sched)
    requires AllHoused(s) && s.news != []
    ensures var s1, tid := AdmitOne(s), s.news[0];
      && AllHoused(s1) && tid in s.crew && tid !in s.news[1..]
      && s1 == s.(news := s.news[1..], ready := s.ready + [tid],
                  crew := s.crew[tid := TakeTask(s.crew[tid].(state := Ready))])
  {
    var s1, tid := AdmitOne(s), s.news[0];
    AdmitOneHoused(s);
    assert Housed(s, tid);
    StateOf(s, tid);
    CountPop(s.news, tid);
    CountIn(s.news[1..], tid);
  }

  // ----- Dispatch -------------------------------------------------------------------------------------------

  /** How many of READY there is room for. */
  function Room(c: Config, s: Sched): (k: nat)
    ensures k <= |s.ready|
  {
    if c.cpus == 0 || |s.exec| > c.cpus || |s.ready| <= c.cpus - |s.exec| then |s.ready| else c.cpus - |s.exec|
  }

  /** The first of READY, as many as there is room for, go to the end of EXEC, in order; nothing else changes. */
  lemma {:induction false} ExecFilled(c: Config, s: Sched)
    requires AllHoused(s)
    ensures var s', k := FillExec(c, s), Room(c, s);
      && s' == s.(ready := s.ready[k..], exec := s.exec + s.ready[..k], crew := s'.crew) && s'.crew.Keys == s.crew.Keys
      && (forall x :: x in s.ready[..k] ==> x in s.crew && s'.crew[x] == s.crew[x].(state := Exec))
      && (forall x :: x in s.crew && x !in s.ready[..k] ==> s'.crew[x] == s.crew[x])
    decreases |s.ready|
  {
    var k := Room(c, s);
    if Full(c, s) || s.ready == [] {
      assert s.exec + s.ready[..0] == s.exec;
    } else {
      var s1, tid := Dispatch(s), s.ready[0];
      OneDispatched(s);
      ExecFilled(c, s1);
      assert Room(c, s1) == k - 1;
      hide Dispatch, Housed, AllHoused, Room;
      FirstMoved(s.exec, s.ready, k);
      assert tid !in s1.ready[..k - 1];
    }
  }

  lemma FirstMoved(exec: seq<Word>, ready: seq<Word>, k: nat)
    requires 0 < k <= |ready|
    ensures ready[..k] == [ready[0]] + ready[1..][..k - 1] && ready[1..][k - 1..] == ready[k..]
    ensures exec + ready[..k] == exec + [ready[0]] + ready[1..][..k - 1]
  {
    assert ready[..k] == [ready[0]] + ready[1..][..k - 1];
  }

  lemma OneDispatched(s: Sched)
    requires AllHoused(s) && s.ready != []
    ensures var s1, tid := Dispatch(s), s.ready[0];
      && AllHoused(s1) && tid in s.crew && tid !in s.ready[1..]
      && s1 == s.(ready := s.ready[1..], exec := s.exec + [tid], crew := s.crew[tid := s.crew[tid].(state := Exec)])
  {
    var tid := s.ready[0];
    DispatchHoused(s);
    assert Housed(s, tid);
    StateOf(s, tid);
    CountPop(s.ready, tid);
    CountIn(s.ready[1..], tid);
  }

  // ----- How a cycle begins -----------------------------------------------------------------------------------

  /** Outside a sabotage, everybody in READY and then everybody in NEW line up, and as many of them as there are CPUs left
      go to EXEC, in that order; the others wait in READY. */
  lemma CalmBegins(c: Config, s: Sched)
    requires AllHoused(s) && !s.sabotage && |s.exec| <= c.cpus && c.cpus > 0
    ensures var q, free := s.ready + s.news, c.cpus - |s.exec|;
      var k := if |q| < free then |q| else free;
      && Prepare(c, s).Some? && var s' := Prepare(c, s).value;
         && s' == s.(news := [], exec := s.exec + q[..k], ready := q[k..], crew := s'.crew) && s'.crew.Keys == s.crew.Keys
         && (forall x :: x in s.crew && x !in q ==> s'.crew[x] == s.crew[x])
         && (forall x :: x in s.crew && x in q ==>
               s'.crew[x].state == (if x in q[..k] then Exec else Ready) && s'.crew[x].quantum == s.crew[x].quantum)
  {
    hide Housed, AdmitNews, FillExec, Room, TakeTask;
    var s1, free := AdmitNews(s), c.cpus - |s.exec|;
    NewsAdmitted(s);
    AdmittedHoused(s);
    ExecFilled(c, s1);
    var k := if |s1.ready| < free then |s1.ready| else free;
    assert Room(c, s1) == k by { RoomIs(c, s1); }
    ReadyStates(s);
    forall x | x in s.crew && x in s1.ready
      ensures s1.crew[x].state == Ready && s1.crew[x].quantum == s.crew[x].quantum
    {
      AdmittedTrip(s, x);
    }
  }

  lemma RoomIs(c: Config, s: Sched)
    requires c.cpus > 0 && |s.exec| <= c.cpus
    ensures Room(c, s) == if |s.ready| < c.cpus - |s.exec| then |s.ready| else c.cpus - |s.exec|
  {
  }

  lemma AdmittedTrip(s: Sched, x: Word)
    requires AllHoused(s) && x in s.crew && (x in s.ready || x in s.news)
    ensures var s1 := AdmitNews(s);
      x in s1.crew && s1.crew[x].state == Ready && s1.crew[x].quantum == s.crew[x].quantum
  {
    NewsAdmitted(s);
    assert Housed(s, x);
    StateOf(s, x);
  }

  /** On the way to a sabotage nobody is admitted. */
  lemma HuntBegins(c: Config, s: Sched)
    requires AllHoused(s) && s.sabotage && !s.starting && |s.exec| <= c.cpus && c.cpus > 0
    ensures var free := c.cpus - |s.exec|;
      var k := if |s.ready| < free then |s.ready| else free;
      && Prepare(c, s).Some? && var s' := Prepare(c, s).value;
         s' == s.(exec := s.exec + s.ready[..k], ready := s.ready[k..], crew := s'.crew) && s'.crew.Keys == s.crew.Keys
  {
    hide Housed;
    ExecFilled(c, s);
  }

  lemma ReadyStates(s: Sched)
    requires AllHoused(s)
    ensures forall x :: x in s.ready ==> x in s.crew && s.crew[x].state == Ready && x !in s.news
    ensures forall x :: x in s.news ==> x in s.crew
  {
    forall x ensures x in s.ready ==> x in s.crew && s.crew[x].state == Ready && x !in s.news
      ensures x in s.news ==> x in s.crew
    {
      assert Housed(s, x);
      StateOf(s, x);
    }
  }

  lemma {:induction false} AdmittedHoused(s: Sched)
    requires AllHoused(s)
    ensures AllHoused(AdmitNews(s))
    decreases |s.news|
  {
    if s.news != [] {
      AdmitOneHoused(s);
      AdmittedHoused(AdmitOne(s));
    }
  }

  // ----- Expulsion --------------------------------------------------------------------------------------------

  /** The queue without these tids. */
  function Excluding(q: seq<Word>, gone: set<Word>): seq<Word> {
    if q == [] then [] else (if q[0] in gone then [] else [q[0]]) + Excluding(q[1..], gone)
  }

  lemma {:induction false} ExcludingNone(q: seq<Word>, gone: set<Word>)
    requires forall x :: x in q ==> x !in gone
    ensures Excluding(q, gone) == q
  {
    if q != [] {
      assert q == [q[0]] + q[1..];
      ExcludingNone(q[1..], gone);
    }
  }

  /** Taking out a tid that occurs once is excluding it. */
  lemma {:induction false} WithoutExcludes(q: seq<Word>, tid: Word)
    requires Count(q, tid) == 1
    ensures tid in q && Without(q, tid) == Excluding(q, {tid})
  {
    CountIn(q, tid);
    CountPop(q, tid);
    CountIn(q[1..], tid);
    if q[0] == tid {
      ExcludingNone(q[1..], {tid});
      assert RemoveAt(q, 0) == q[1..];
    } else {
      WithoutExcludes(q[1..], tid);
      var i := IndexOf(q[1..], tid);
      assert RemoveAt(q, 1 + i) == [q[0]] + RemoveAt(q[1..], i);
    }
  }

  lemma {:induction false} ExcludingTwice(q: seq<Word>, a: set<Word>, b: set<Word>)
    ensures Excluding(Excluding(q, a), b) == Excluding(q, a + b)
  {
    if q != [] {
      ExcludingTwice(q[1..], a, b);
      var rest := Excluding(q[1..], a);
      if q[0] !in a {
        assert ([q[0]] + rest)[1..] == rest;
      } else {
        assert [] + rest == rest;
      }
    }
  }

  function Members(q: seq<Word>): set<Word> {
    set x | x in q
  }

  /** These members out of the crew and out of every queue, and everybody else where they were. */
  function Expelled(s: Sched, gone: set<Word>): Sched {
    s.(crew := s.crew - gone, news := Excluding(s.news, gone), ready := Excluding(s.ready, gone),
       exec := Excluding(s.exec, gone), frozen := Excluding(s.frozen, gone), blocked := Excluding(s.blocked, gone),
       device := if s.device.Some? && s.device.value in gone then None else s.device)
  }

  /** What taking a member out amounts to in a queue, whether the member is there or not. */
  lemma ExcludedFrom(q: seq<Word>, tid: Word)
    requires Count(q, tid) <= 1
    ensures Excluding(q, {tid}) == if tid in q then Without(q, tid) else q
  {
    CountIn(q, tid);
    if tid in q {
      WithoutExcludes(q, tid);
    } else {
      ExcludingNone(q, {tid});
    }
  }

  lemma TerminateExpels(s: Sched, tid: Word)
    requires Housed(s, tid)
    ensures Terminate(s, tid) == Expelled(s, {tid})
  {
    hide Housed, Excluding, Without, Count;
    OneQueue(s, tid);
    ExcludedFrom(s.news, tid);
    ExcludedFrom(s.ready, tid);
    ExcludedFrom(s.exec, tid);
    ExcludedFrom(s.frozen, tid);
    ExcludedFrom(s.blocked, tid);
    if tid !in s.crew {
      assert s.crew - {tid} == s.crew;
    }
  }

  /** A member is in one queue at most. */
  lemma OneQueue(s: Sched, tid: Word)
    requires Housed(s, tid)
    ensures Count(s.news, tid) <= 1 && Count(s.ready, tid) <= 1 && Count(s.exec, tid) <= 1
    ensures Count(s.frozen, tid) <= 1 && Count(s.blocked, tid) <= 1
    ensures tid in s.news ==> tid !in s.ready && tid !in s.exec && tid !in s.frozen && tid !in s.blocked && s.device != Some(tid)
    ensures tid in s.ready ==> tid !in s.exec && tid !in s.frozen && tid !in s.blocked && s.device != Some(tid)
    ensures tid in s.exec ==> tid !in s.frozen && tid !in s.blocked && s.device != Some(tid)
    ensures tid in s.frozen ==> tid !in s.blocked && s.device != Some(tid)
    ensures tid in s.blocked ==> s.device != Some(tid)
    ensures tid !in s.crew ==>
      tid !in s.news && tid !in s.ready && tid !in s.exec && tid !in s.frozen && tid !in s.blocked && s.device != Some(tid)
    ensures tid in s.crew ==>
      tid in s.news || tid in s.ready || tid in s.exec || tid in s.frozen || tid in s.blocked || s.device == Some(tid)
  {
    CountIn(s.news, tid);
    CountIn(s.ready, tid);
    CountIn(s.exec, tid);
    CountIn(s.frozen, tid);
    CountIn(s.blocked, tid);
  }

  lemma ExpelledTwice(s: Sched, a: set<Word>, b: set<Word>)
    ensures Expelled(Expelled(s, a), b) == Expelled(s, a + b)
  {
    ExcludingTwice(s.news, a, b);
    ExcludingTwice(s.ready, a, b);
    ExcludingTwice(s.exec, a, b);
    ExcludingTwice(s.frozen, a, b);
    ExcludingTwice(s.blocked, a, b);
    assert s.crew - a - b == s.crew - (a + b);
  }

  lemma ExpelledNobody(s: Sched)
    ensures Expelled(s, {}) == s
  {
    ExcludingNone(s.news, {});
    ExcludingNone(s.ready, {});
    ExcludingNone(s.exec, {});
    ExcludingNone(s.frozen, {});
    ExcludingNone(s.blocked, {});
    assert s.crew - {} == s.crew;
  }

  /** Everybody whose expulsion was requested leaves the crew and the place they were in; all others stay, in order. */
  lemma {:induction false} RequestsServed(s: Sched)
    requires AllHoused(s)
    ensures ServeRequests(s) == Expelled(s, Members(s.requests)).(requests := [])
    decreases |s.requests|
  {
    if s.requests == [] {
      assert Members(s.requests) == {};
      ExpelledNobody(s);
    } else {
      var tid, rest := s.requests[0], s.requests[1..];
      ServeOne(s, tid, rest);
      RequestsServed(Terminate(s, tid).(requests := rest));
      assert Housed(s, tid);
      ServedAll(s, tid, rest);
    }
  }

  lemma ServedAll(s: Sched, tid: Word, rest: seq<Word>)
    requires Housed(s, tid) && s.requests == [tid] + rest
    ensures Expelled(Terminate(s, tid).(requests := rest), Members(rest)).(requests := [])
         == Expelled(s, Members(s.requests)).(requests := [])
  {
    assert Members(s.requests) == {tid} + Members(rest);
    TerminateExpels(s, tid);
    ExpelledTwice(s, {tid}, Members(rest));
  }

  lemma ServeOne(s: Sched, tid: Word, rest: seq<Word>)
    requires AllHoused(s) && s.requests != [] && tid == s.requests[0] && rest == s.requests[1..]
    ensures AllHoused(Terminate(s, tid).(requests := rest))
    ensures ServeRequests(s) == ServeRequests(Terminate(s, tid).(requests := rest))
  {
    TerminateHoused(s, tid);
    RequestsHoused(Terminate(s, tid), rest);
  }
}
