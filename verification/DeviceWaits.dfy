/** Nobody waits for the I/O device for ever: outside a sabotage, a member of BLOCK is through after as many cycles as the
    tasks ahead of it and its own take, or earlier if somebody ahead is expelled. */
module DeviceWaits {
  import opened Memory
  import opened CrewTable
  import opened Schedule
  import opened ScheduleLaws
  import opened ScheduleMoves
  import opened ScheduleRuns
  import opened SweepLaws
  import opened DeviceLaws

  /** Whom the device works for, and then those in BLOCK. */
  function Line(s: Sched): seq<Word> {
    (if s.device.Some? then [s.device.value] else []) + s.blocked
  }

  function Need(crew: map<Word, Trip>, x: Word): nat {
    if x in crew && crew[x].task.Some? then Takes(crew[x].task.value) else 0
  }

  /** The cycles that the tasks of those in the queue take, up to this member's own. */
  function Work(crew: map<Word, Trip>, q: seq<Word>, tid: Word): nat {
    if q == [] then 0 else Need(crew, q[0]) + if q[0] == tid then 0 else Work(crew, q[1..], tid)
  }

  function Wait(s: Sched, tid: Word): nat {
    Work(s.crew, Line(s), tid)
  }

  lemma {:induction false} WorkSame(crew: map<Word, Trip>, crew': map<Word, Trip>, q: seq<Word>, tid: Word)
    requires forall x :: x in q ==> Need(crew', x) == Need(crew, x)
    ensures Work(crew', q, tid) == Work(crew, q, tid)
  {
    if q != [] {
      WorkSame(crew, crew', q[1..], tid);
    }
  }

  lemma {:induction false} WorkMore(crew: map<Word, Trip>, q: seq<Word>, more: seq<Word>, tid: Word)
    requires tid in q
    ensures Work(crew, q + more, tid) == Work(crew, q, tid)
  {
    assert (q + more)[1..] == q[1..] + more;
    if q[0] != tid {
      WorkMore(crew, q[1..], more, tid);
    }
  }

  lemma {:induction false} WorkFewer(crew: map<Word, Trip>, q: seq<Word>, gone: set<Word>, tid: Word)
    requires tid !in gone
    ensures Work(crew, Excluding(q, gone), tid) <= Work(crew, q, tid)
  {
    if q != [] {
      WorkFewer(crew, q[1..], gone, tid);
      var rest := Excluding(q[1..], gone);
      if q[0] in gone {
        assert [] + rest == rest;
      } else {
        assert ([q[0]] + rest)[1..] == rest;
      }
    }
  }

  // ----- One cycle ----------------------------------------------------------------------------------------------------

  lemma InLine(c: Config, s: Sched, x: Word)
    requires Mid(c, s) && x in Line(s)
    ensures x in s.crew && s.crew[x].task.Some? && x !in s.exec && x !in s.ready && Need(s.crew, x) > 0
  {
    WaitsWithTask(c, s, x);
    assert Housed(s, x);
    OneQueue(s, x);
  }

  lemma FirstInLine(s: Sched)
    requires AllHoused(s) && Line(s) != []
    ensures Line(s)[0] !in Line(s)[1..]
    ensures !s.sabotage ==> IoStep(s) == IoStep(s.(device := Some(Line(s)[0]), blocked := Line(s)[1..]))
  {
    var h := Line(s)[0];
    assert Housed(s, h);
    OneQueue(s, h);
    if s.device.None? {
      assert Line(s) == s.blocked;
      CountPop(s.blocked, h);
      CountIn(s.blocked[1..], h);
    } else {
      assert Line(s)[1..] == s.blocked;
      assert s.(device := Some(h), blocked := s.blocked) == s;
    }
  }

  /** A cycle of the device takes one off what everybody in line has to wait; whoever had one cycle left is through. */
  lemma DeviceServes(s: Sched, s': Sched, tid: Word)
    requires AllHoused(s) && !s.sabotage && IoStep(s) == Some(s') && tid in Line(s)
    requires forall x :: x in Line(s) ==> x in s.crew && s.crew[x].task.Some?
    ensures tid in Line(s') <==> Wait(s, tid) > 1
    ensures tid in Line(s') ==> Wait(s', tid) == Wait(s, tid) - 1
    ensures forall x :: x in Line(s') ==> x in Line(s)
    ensures s'.exec == s.exec && s'.requests == s.requests && !s'.sabotage
  {
    var h, rest := Line(s)[0], Line(s)[1..];
    FirstInLine(s);
    var s1 := s.(device := Some(h), blocked := rest);
    assert Line(s) == [h] + rest;
    hide IoStep, AllHoused, Line;
    ServedFirst(s1, s', h, rest, tid);
    assert Line(s1) == [h] + rest by { LineIs(s1); }
  }

  lemma LineIs(s: Sched)
    requires s.device.Some?
    ensures Line(s) == [s.device.value] + s.blocked
  {
  }

  lemma ServedFirst(s: Sched, s': Sched, h: Word, rest: seq<Word>, tid: Word)
    requires !s.sabotage && s.device == Some(h) && s.blocked == rest && h !in rest && IoStep(s) == Some(s')
    requires forall x :: x == h || x in rest ==> x in s.crew && s.crew[x].task.Some?
    requires tid == h || tid in rest
    ensures tid in Line(s') <==> Work(s.crew, [h] + rest, tid) > 1
    ensures tid in Line(s') ==> Work(s'.crew, Line(s'), tid) == Work(s.crew, [h] + rest, tid) - 1
    ensures forall x :: x in Line(s') ==> x == h || x in rest
    ensures s'.exec == s.exec && s'.requests == s.requests && !s'.sabotage
  {
    hide IoStep, WithTime, Released;
    if Takes(s.crew[h].task.value) > 1 {
      OneLess(s, h);
      WorkedOn(s, h, rest, tid);
    } else {
      LastOne(s, h);
      LetGo(s, h, rest, tid);
    }
  }

  lemma HeadWork(crew: map<Word, Trip>, h: Word, rest: seq<Word>, tid: Word)
    ensures Work(crew, [h] + rest, tid) == Need(crew, h) + if h == tid then 0 else Work(crew, rest, tid)
  {
    assert ([h] + rest)[1..] == rest;
  }

  lemma WorkedOn(s: Sched, h: Word, rest: seq<Word>, tid: Word)
    requires s.device == Some(h) && s.blocked == rest && h !in rest && (tid == h || tid in rest)
    requires h in s.crew && s.crew[h].task.Some? && Takes(s.crew[h].task.value) > 1
    ensures var s' := WithTime(s, h, Takes(s.crew[h].task.value) - 1);
      && Line(s') == [h] + rest && Work(s'.crew, Line(s'), tid) == Work(s.crew, [h] + rest, tid) - 1 > 0
      && s'.exec == s.exec && s'.requests == s.requests && s'.sabotage == s.sabotage
  {
    hide Work;
    var s' := WithTime(s, h, Takes(s.crew[h].task.value) - 1);
    HeadWork(s.crew, h, rest, tid);
    HeadWork(s'.crew, h, rest, tid);
    WorkSame(s.crew, s'.crew, rest, tid);
  }

  lemma LetGo(s: Sched, h: Word, rest: seq<Word>, tid: Word)
    requires s.device == Some(h) && s.blocked == rest && h !in rest && (tid == h || tid in rest)
    requires h in s.crew && s.crew[h].task.Some? && Takes(s.crew[h].task.value) == 1
    requires forall x :: x in rest ==> x in s.crew && s.crew[x].task.Some?
    ensures var s' := Released(s, h);
      && Line(s') == rest && s'.exec == s.exec && s'.requests == s.requests && s'.sabotage == s.sabotage
      && Work(s.crew, [h] + rest, tid) == 1 + (if tid == h then 0 else Work(s'.crew, rest, tid))
      && (tid in rest ==> Work(s'.crew, rest, tid) > 0)
  {
    hide Work, Released, Line, Need;
    var s' := Released(s, h);
    LetGoLine(s, h, rest);
    HeadWork(s.crew, h, rest, tid);
    OneToGo(s, h);
    WorkSame(s.crew, s'.crew, rest, tid);
    if tid in rest {
      WorkSome(s.crew, rest, tid);
    }
  }

  lemma OneToGo(s: Sched, h: Word)
    requires h in s.crew && s.crew[h].task.Some?
    ensures Need(s.crew, h) == Takes(s.crew[h].task.value)
  {
  }

  lemma LetGoLine(s: Sched, h: Word, rest: seq<Word>)
    requires s.device == Some(h) && s.blocked == rest && h in s.crew
    requires forall x :: x in rest ==> x != h && x in s.crew && s.crew[x].task.Some?
    ensures var s' := Released(s, h);
      && Line(s') == rest && s'.exec == s.exec && s'.requests == s.requests && s'.sabotage == s.sabotage
      && forall x :: x in rest ==> Need(s'.crew, x) == Need(s.crew, x) > 0
  {
    hide Released, Need;
    ReleasedState(s, h);
    NoDevice(Released(s, h));
    forall x | x in rest ensures Need(Released(s, h).crew, x) == Need(s.crew, x) > 0 {
      OthersNeed(s, h, x);
    }
  }

  lemma ReleasedState(s: Sched, h: Word)
    requires h in s.crew
    ensures var s' := Released(s, h);
      s'.device.None? && s'.blocked == s.blocked && s'.exec == s.exec && s'.requests == s.requests && s'.sabotage == s.sabotage
  {
  }

  lemma NoDevice(s: Sched)
    requires s.device.None?
    ensures Line(s) == s.blocked
  {
    assert [] + s.blocked == s.blocked;
  }

  lemma OthersNeed(s: Sched, h: Word, x: Word)
    requires h in s.crew && x in s.crew && x != h && s.crew[x].task.Some?
    ensures Need(Released(s, h).crew, x) == Need(s.crew, x) > 0
  {
    assert x in Released(s, h).crew && Released(s, h).crew[x] == s.crew[x];
  }

  lemma {:induction false} WorkSome(crew: map<Word, Trip>, q: seq<Word>, tid: Word)
    requires tid in q && Need(crew, tid) > 0
    ensures Work(crew, q, tid) > 0
  {
    if q[0] != tid {
      WorkSome(crew, q[1..], tid);
    }
  }

  lemma InBlocking(s: Sched, q: seq<Word>, x: Word)
    requires x in Blocking(s, q)
    ensures x in q
  {
    if !Get(s, q[0]).block || q[0] != x {
      InBlocking(s, q[1..], x);
    }
  }

  /** The walk over EXEC leaves those in line where they are. */
  lemma SweepServes(c: Config, s: Sched, s': Sched, tid: Word)
    requires AllHoused(s) && !s.sabotage && Sweep(c, s, 0) == s'
    requires forall x :: x in Line(s) ==> x !in s.exec
    requires tid !in s.exec
    ensures tid in Line(s') <==> tid in Line(s)
    ensures tid in Line(s) ==> Wait(s', tid) == Wait(s, tid)
    ensures s'.requests == s.requests && s'.device == s.device
  {
    hide Sweep, Remaining, Preempted, Swept;
    SweepLaw(c, s);
    var more := Blocking(s, s.exec);
    assert Line(s') == Line(s) + more;
    if tid in more {
      InBlocking(s, s.exec, tid);
    }
    if tid in Line(s) {
      WorkMore(s'.crew, Line(s), more, tid);
      WorkSame(s.crew, s'.crew, Line(s), tid);
    }
  }

  lemma ExpelledServes(s: Sched, gone: set<Word>, tid: Word)
    ensures var s' := Expelled(s, gone);
      tid in Line(s') ==> tid in Line(s) && Wait(s', tid) <= Wait(s, tid)
  {
    var s' := Expelled(s, gone);
    var d := if s.device.Some? then [s.device.value] else [];
    assert Line(s') == Excluding(Line(s), gone) by {
      assert s.device.Some? ==> Line(s)[1..] == s.blocked;
      assert s.device.None? ==> Line(s) == s.blocked && Line(s') == s'.blocked;
    }
    if tid in Line(s') {
      ExcludingKeeps(Line(s), gone);
      WorkFewer(s.crew, Line(s), gone, tid);
      WorkSame(s.crew, s'.crew, Line(s'), tid);
    }
  }

  lemma {:induction false} ExcludingKeeps(q: seq<Word>, gone: set<Word>)
    ensures forall x :: x in Excluding(q, gone) ==> x in q && x !in gone
  {
    if q != [] {
      ExcludingKeeps(q[1..], gone);
    }
  }


  /** The state in which the device does its work, for those in line. */
  lemma LineBefore(c: Config, s: Sched, runs: seq<Word>, after: seq<Word>, s1: Sched, s2: Sched, s3: Sched, s4: Sched, tid: Word)
    requires Good(c, s) && Possible(c, s, Turn(runs, after)) && !s.sabotage && CalmParts(c, s, runs, after, s1, s2, s3, s4)
    requires tid in Line(s)
    ensures Line(s2) == Line(s) && Wait(s2, tid) == Wait(s, tid)
    ensures forall x :: x in Line(s2) ==> x in s2.crew && s2.crew[x].task.Some? && x !in s2.exec && x !in s2.ready
  {
    hide Line, CalmParts, Possible, Wait, Work;
    forall x | x in Line(s)
      ensures x in s2.crew && s2.crew[x].task.Some? && x !in s2.exec && x !in s2.ready
      ensures s2.blocked == s.blocked && s2.device == s.device && Need(s2.crew, x) == Need(s.crew, x)
    {
      InLineBefore(c, s, runs, after, s1, s2, s3, s4, x);
    }
    SameLine(s, s2, tid);
  }

  lemma SameLine(s: Sched, s2: Sched, tid: Word)
    requires s2.blocked == s.blocked && s2.device == s.device && forall x :: x in Line(s) ==> Need(s2.crew, x) == Need(s.crew, x)
    ensures Line(s2) == Line(s) && Wait(s2, tid) == Wait(s, tid)
  {
    WorkSame(s.crew, s2.crew, Line(s), tid);
  }

  lemma InLineBefore(c: Config, s: Sched, runs: seq<Word>, after: seq<Word>, s1: Sched, s2: Sched, s3: Sched, s4: Sched, x: Word)
    requires Good(c, s) && Possible(c, s, Turn(runs, after)) && !s.sabotage && CalmParts(c, s, runs, after, s1, s2, s3, s4)
    requires x in Line(s)
    ensures x in s2.crew && s2.crew[x].task.Some? && x !in s2.exec && x !in s2.ready
    ensures s2.blocked == s.blocked && s2.device == s.device && Need(s2.crew, x) == Need(s.crew, x)
  {
    hide Possible;
    InLine(c, s, x);
    BeforeDevice(c, s, runs, after, s1, s2, s3, s4, x);
    assert Housed(s2, x);
    OneQueue(s2, x);
  }

  /** A cycle of the planner outside a sabotage takes at least one off. */
  lemma TurnServes(c: Config, s: Sched, runs: seq<Word>, after: seq<Word>, tid: Word)
    requires Good(c, s) && Possible(c, s, Turn(runs, after)) && !s.sabotage && tid in Line(s)
    ensures var s' := Follow(c, s, Turn(runs, after));
      tid in Line(s') ==> Wait(s', tid) < Wait(s, tid)
  {
    var s1, s2, s3, s4 := CalmCycle(c, s, runs, after);
    LineBefore(c, s, runs, after, s1, s2, s3, s4, tid);
    RestServes(c, s2, s3, s4, tid);
  }

  lemma RestServes(c: Config, s2: Sched, s3: Sched, s4: Sched, tid: Word)
    requires AllHoused(s2) && AllHoused(s3) && AllHoused(s4) && !s2.sabotage && tid in Line(s2)
    requires IoStep(s2) == Some(s3) && Sweep(c, s3, 0) == s4
    requires forall x :: x in Line(s2) ==> x in s2.crew && s2.crew[x].task.Some? && x !in s2.exec && x !in s2.ready
    ensures var s' := ServeRequests(s4); tid in Line(s') ==> Wait(s', tid) < Wait(s2, tid)
  {
    hide Line, Wait, IoStep, Sweep, AllHoused, Expelled;
    DeviceServes(s2, s3, tid);
    SweepServes(c, s3, s4, tid);
    RequestsServed(s4);
    ExpelledServes(s4, Members(s4.requests), tid);
    LineOfExpelled(Expelled(s4, Members(s4.requests)), tid);
  }

  lemma LineOfExpelled(s: Sched, tid: Word)
    ensures Line(s.(requests := [])) == Line(s) && Wait(s.(requests := []), tid) == Wait(s, tid)
  {
  }

  // ----- Over histories -----------------------------------------------------------------------------------------------

  lemma EventServes(c: Config, s: Sched, e: Event, tid: Word)
    requires Good(c, s) && Possible(c, s, e) && !s.sabotage && tid in Line(s) && tid in Line(Follow(c, s, e))
    ensures Wait(Follow(c, s, e), tid) + One(e.Turn?) <= Wait(s, tid)
  {
    match e
    case Arrive(x, t) =>
      forall y | y in Line(s) ensures y != x {
        InLine(c, s, y);
      }
      SameLine(s, Follow(c, s, e), tid);
    case Announce(_) =>
    case Ask(_) =>
    case Drop(x) =>
      assert Housed(s, x);
      TerminateExpels(s, x);
      ExpelledServes(s, {x}, tid);
    case Turn(runs, after) => TurnServes(c, s, runs, after, tid);
  }

  /** In line in all these states, and no sabotage in all but the last. */
  ghost predicate Queues(ss: seq<Sched>, i: nat, j: nat, tid: Word) {
    && i <= j < |ss|
    && (forall m :: i <= m <= j ==> tid in Line(ss[m]))
    && (forall m :: i <= m < j ==> !ss[m].sabotage)
  }

  lemma QueuesBefore(ss: seq<Sched>, i: nat, j: nat, tid: Word)
    requires i < j < |ss| && Queues(ss, i, j, tid)
    ensures Queues(ss, i, j - 1, tid) && !ss[j - 1].sabotage && tid in Line(ss[j - 1]) && tid in Line(ss[j])
  {
  }

  /** Every cycle brings whoever is in line nearer to the end of the wait, and nothing else delays it. */
  lemma {:induction false} WaitRuns(c: Config, ss: seq<Sched>, es: seq<Event>, i: nat, j: nat, tid: Word)
    requires IsHistory(c, ss, es) && i <= j < |ss| && Queues(ss, i, j, tid)
    ensures |ss| == |es| + 1 && Wait(ss[j], tid) + Cycles(Flags(es[i..j])) <= Wait(ss[i], tid)
    decreases j
  {
    hide *;
    HistoryLength(c, ss, es);
    if i == j {
      NoCycles(es, i);
    } else {
      QueuesBefore(ss, i, j, tid);
      WaitRuns(c, ss, es, i, j - 1, tid);
      CyclesSnoc(es, i, j);
      HistoryGood(c, ss, es, j - 1);
      HistoryStep(c, ss, es, j);
      EventServes(c, ss[j - 1], es[j - 1], tid);
    }
  }

  lemma HistoryLength(c: Config, ss: seq<Sched>, es: seq<Event>)
    requires IsHistory(c, ss, es)
    ensures |ss| == |es| + 1
  {
  }

  /** So nobody starves: a member in line is through with the device, or expelled, after as many cycles as it had to wait,
      unless a sabotage is announced before. */
  lemma NobodyStarves(c: Config, ss: seq<Sched>, es: seq<Event>, i: nat, j: nat, tid: Word)
    requires IsHistory(c, ss, es) && |ss| == |es| + 1 && i <= j < |ss| && tid in Line(ss[i])
    requires forall m :: i <= m < j ==> !ss[m].sabotage
    requires Cycles(Flags(es[i..j])) >= Wait(ss[i], tid)
    ensures exists m :: i <= m <= j && tid !in Line(ss[m])
  {
    if forall m :: i <= m <= j ==> tid in Line(ss[m]) {
      WaitRuns(c, ss, es, i, j, tid);
      HistoryGood(c, ss, es, j);
      InLine(c, ss[j], tid);
      WorkSome(ss[j].crew, Line(ss[j]), tid);
    }
  }
}
