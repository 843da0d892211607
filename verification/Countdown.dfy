/** How long a sabotage lasts, and where it ends: the frozen crew waits out the configured duration, to the cycle, and the
    waiting begins when somebody has come to the place that was announced. */
module Countdown {
  import opened Memory
  import opened CrewTable
  import opened Schedule
  import opened ScheduleLaws
  import opened ScheduleMoves
  import opened ScheduleRuns
  import opened SweepLaws

  // ----- One event --------------------------------------------------------------------------------------------

  /** A cycle of the waiting takes one off the time, or ends the sabotage if none is left. */
  lemma WaitingTurn(c: Config, s: Sched, runs: seq<Word>, after: seq<Word>)
    requires Good(c, s) && s.handling && Possible(c, s, Turn(runs, after))
    ensures s.sabotage
    ensures var s' := Follow(c, s, Turn(runs, after));
      if s.remaining == 0 then !s'.sabotage && !s'.handling
      else s'.sabotage && s'.handling && s'.remaining == s.remaining - 1
  {
    assert FillExec(c, s) == s;
    assert |multiset(after)| == |after| && |multiset(runs)| == |runs|;
    forall x ensures multiset(runs)[x] == 0 {
      assert x in runs ==> x in s.exec;
    }
    assert multiset(runs) == multiset{};
    assert s.(exec := after) == s;
    assert Devices(s, runs, after) == Some(s);
    ServeFlags(CheckExec(c, s));
    UnfreezeMid(s);
  }

  /** A cycle of a sabotage before the waiting does not end it, and if the waiting begins, all of the duration is left. */
  lemma HuntingTurn(c: Config, s: Sched, runs: seq<Word>, after: seq<Word>)
    requires Good(c, s) && !s.handling && Possible(c, s, Turn(runs, after))
    ensures var s' := Follow(c, s, Turn(runs, after));
      && s'.sabotage == s.sabotage && s'.target == s.target
      && (s'.handling ==> s.sabotage && s'.remaining == c.duration)
  {
    PrepareGood(c, s);
    var s1 := Prepare(c, s).value;
    PreparedTarget(c, s, s1);
    DevicesFlags(c, s1, runs, after);
    var s2 := Devices(s1, runs, after).value;
    SweepLaw(c, s2);
    ServeFlags(CheckExec(c, s2));
  }

  lemma PreparedTarget(c: Config, s: Sched, s1: Sched)
    requires Good(c, s) && Prepare(c, s) == Some(s1)
    ensures s1.target == s.target && s1.handling == s.handling && s1.remaining == s.remaining
  {
    if !s.sabotage {
      NewsAdmitted(s);
      AdmittedHoused(s);
      ExecFilled(c, AdmitNews(s));
    } else if s.starting {
      InitSabotageEffect(c, s);
      ExecFilled(c, InitSabotage(s).value);
      InitRemaining(c, s);
    } else {
      ExecFilled(c, s);
    }
  }

  lemma InitRemaining(c: Config, s: Sched)
    requires InitSabotage(s).Some?
    ensures InitSabotage(s).value.remaining == s.remaining
  {
    FrozenRemaining(SortExec(s.(starting := false)));
    var s1 := FreezeExec(SortExec(s.(starting := false)));
    FrozenRemaining(SortReady(s1));
  }

  lemma {:induction false} FrozenRemaining(s: Sched)
    ensures FreezeExec(s).remaining == s.remaining && FreezeReady(s).remaining == s.remaining
    decreases |s.exec| + |s.ready|
  {
    if s.exec != [] {
      FrozenRemaining(FreezeOneExec(s));
    }
    if s.ready != [] {
      FrozenRemaining(FreezeOneReady(s));
    }
  }

  lemma DevicesFlags(c: Config, s: Sched, runs: seq<Word>, after: seq<Word>)
    requires Good(c, s) && Working(s) && Fair(c, s.exec, runs, after) && Devices(s, runs, after).Some?
    ensures var s' := Devices(s, runs, after).value;
      && AllHoused(s') && s'.sabotage == s.sabotage && s'.target == s.target && s'.handling == s.handling
      && s'.remaining == s.remaining
  {
    forall y | y in runs ensures y in s.crew {
      assert Housed(s, y);
      StateOf(s, y);
    }
    RunAllFrom(s, runs);
    DevicesMid(c, s, runs, after);
  }

  /** What else may happen does not touch the sabotage. */
  lemma OtherEvent(c: Config, s: Sched, e: Event)
    requires Possible(c, s, e) && !e.Turn?
    ensures var s' := Follow(c, s, e);
      && s'.handling == s.handling && s'.remaining == s.remaining
      && (s.sabotage ==> s'.sabotage && s'.target == s.target)
      && (s'.sabotage && !s.sabotage ==> e.Announce? && s'.target == e.target)
  {
    if e.Drop? {
      TerminateShrinks(s, e.tid);
    }
  }

  // ----- The waiting, over histories ----------------------------------------------------------------------------

  /** The waiting begins in the `i`-th state. */
  ghost predicate Blocks(ss: seq<Sched>, i: nat) {
    0 < i < |ss| && ss[i].handling && !ss[i - 1].handling
  }

  lemma BlocksFull(c: Config, ss: seq<Sched>, es: seq<Event>, i: nat)
    requires IsHistory(c, ss, es) && Blocks(ss, i)
    ensures es[i - 1].Turn? && ss[i - 1].sabotage && ss[i].sabotage && ss[i].remaining == c.duration
  {
    HistoryGood(c, ss, es, i - 1);
    HistoryStep(c, ss, es, i);
    if es[i - 1].Turn? {
      HuntingTurn(c, ss[i - 1], es[i - 1].runs, es[i - 1].after);
    } else {
      OtherEvent(c, ss[i - 1], es[i - 1]);
    }
  }

  /** One event of the waiting. */
  lemma WaitingStep(c: Config, ss: seq<Sched>, es: seq<Event>, k: nat)
    requires IsHistory(c, ss, es) && k < |es| && |ss| == |es| + 1 && ss[k].handling
    ensures ss[k].sabotage
    ensures if es[k].Turn? && ss[k].remaining == 0 then !ss[k + 1].sabotage && !ss[k + 1].handling
            else ss[k + 1].sabotage && ss[k + 1].handling
                 && (if es[k].Turn? then ss[k + 1].remaining == ss[k].remaining - 1 else ss[k + 1].remaining == ss[k].remaining)
  {
    HistoryGood(c, ss, es, k);
    HistoryStep(c, ss, es, k + 1);
    if es[k].Turn? {
      WaitingTurn(c, ss[k], es[k].runs, es[k].after);
    } else {
      OtherEvent(c, ss[k], es[k]);
    }
  }

  /** From the state in which the waiting begins, the sabotage is on for the next `duration` cycles, and the time left goes
      down by one in each of them, whatever comes between. */
  lemma {:induction false} CountsDown(c: Config, ss: seq<Sched>, es: seq<Event>, i: nat, j: nat)
    requires IsHistory(c, ss, es) && i <= j < |ss| == |es| + 1 && Blocks(ss, i) && Cycles(Flags(es[i..j])) <= c.duration
    ensures ss[j].sabotage && ss[j].handling && ss[j].remaining == c.duration - Cycles(Flags(es[i..j]))
    decreases j
  {
    hide *;
    if i == j {
      BlocksHandling(ss, i);
      BlocksFull(c, ss, es, i);
      NoCycles(es, i);
    } else {
      CyclesMore(es, i, j);
      CountsDown(c, ss, es, i, j - 1);
      WaitingStep(c, ss, es, j - 1);
    }
  }

  lemma BlocksHandling(ss: seq<Sched>, i: nat)
    requires Blocks(ss, i)
    ensures i < |ss| && ss[i].handling && 0 < i
  {
  }

  lemma CyclesMore(es: seq<Event>, i: nat, j: nat)
    requires i < j <= |es|
    ensures Cycles(Flags(es[i..j])) == Cycles(Flags(es[i..j - 1])) + if es[j - 1].Turn? then 1 else 0
  {
    CyclesSnoc(es, i, j);
  }

  /** And the cycle after them ends it. */
  lemma CountdownOver(c: Config, ss: seq<Sched>, es: seq<Event>, i: nat, j: nat)
    requires IsHistory(c, ss, es) && i <= j < |es| && |ss| == |es| + 1 && Blocks(ss, i)
    requires Cycles(Flags(es[i..j])) == c.duration && es[j].Turn?
    ensures ss[j].sabotage && !ss[j + 1].sabotage
  {
    CountsDown(c, ss, es, i, j);
    WaitingStep(c, ss, es, j);
  }

  /** The cycle that brings the number of cycles over `d`. */
  lemma {:induction false} CycleAfter(es: seq<Event>, i: nat, j: nat, d: nat) returns (m: nat)
    requires i <= j <= |es| && Cycles(Flags(es[i..j])) > d
    ensures i <= m < j && Cycles(Flags(es[i..m])) == d && es[m].Turn?
    decreases j
  {
    if i == j {
      NoCycles(es, i);
    }
    CyclesMore(es, i, j);
    if Cycles(Flags(es[i..j - 1])) > d {
      m := CycleAfter(es, i, j - 1, d);
    } else {
      m := j - 1;
    }
  }

  lemma {:induction false} CyclesGrow(es: seq<Event>, i: nat, k: nat, j: nat)
    requires i <= k <= j <= |es|
    ensures Cycles(Flags(es[i..k])) <= Cycles(Flags(es[i..j]))
    decreases j
  {
    if k < j {
      CyclesMore(es, i, j);
      CyclesGrow(es, i, k, j - 1);
    }
  }

  lemma {:induction false} CyclesSum(es: seq<Event>, i: nat, k: nat, j: nat)
    requires i <= k <= j <= |es|
    ensures Cycles(Flags(es[i..j])) == Cycles(Flags(es[i..k])) + Cycles(Flags(es[k..j]))
    decreases j
  {
    if k < j {
      CyclesMore(es, i, j);
      CyclesMore(es, k, j);
      CyclesSum(es, i, k, j - 1);
    } else {
      NoCycles(es, k);
    }
  }

  /** From the beginning of the waiting the sabotage lasts for exactly the configured duration of cycles, and one more. */
  lemma WaitingExact(c: Config, ss: seq<Sched>, es: seq<Event>, i: nat, j: nat)
    requires IsHistory(c, ss, es) && i <= j < |ss| == |es| + 1 && Blocks(ss, i)
    ensures (forall m :: i <= m <= j ==> ss[m].sabotage) <==> Cycles(Flags(es[i..j])) <= c.duration
  {
    hide IsHistory, Blocks, Flags, Cycles;
    if Cycles(Flags(es[i..j])) <= c.duration {
      forall m | i <= m <= j ensures ss[m].sabotage {
        CyclesGrow(es, i, m, j);
        CountsDown(c, ss, es, i, m);
      }
    } else {
      var m := CycleAfter(es, i, j, c.duration);
      CountdownOver(c, ss, es, i, m);
    }
  }

  // ----- The whole sabotage -----------------------------------------------------------------------------------------

  /** A sabotage that has been announced and is not being waited out is on after the next event. */
  lemma HuntingStep(c: Config, ss: seq<Sched>, es: seq<Event>, k: nat)
    requires IsHistory(c, ss, es) && k < |es| && |ss| == |es| + 1 && ss[k].sabotage && !ss[k].handling
    ensures ss[k + 1].sabotage && ss[k + 1].target == ss[k].target && (ss[k + 1].handling ==> es[k].Turn?)
  {
    HistoryGood(c, ss, es, k);
    HistoryStep(c, ss, es, k + 1);
    if es[k].Turn? {
      HuntingTurn(c, ss[k], es[k].runs, es[k].after);
    } else {
      OtherEvent(c, ss[k], es[k]);
    }
  }

  /** A sabotage that ends takes the cycle in which somebody blocks at its place, the configured duration, and one more
      cycle, at the least. */
  lemma SabotageLasts(c: Config, ss: seq<Sched>, es: seq<Event>, i: nat, k: nat)
    requires IsHistory(c, ss, es) && i < k < |ss| == |es| + 1 && InPhase(ss[i], Notified)
    requires !ss[k].sabotage && forall m :: i <= m < k ==> ss[m].sabotage
    ensures Cycles(Flags(es[i..k])) >= c.duration + 2
  {
    var h := i;
    while h < k && !ss[h].handling
      invariant i <= h <= k && forall m :: i <= m < h ==> !ss[m].handling
      invariant ss[h].sabotage && h < k
      decreases k - h
    {
      HuntingStep(c, ss, es, h);
      h := h + 1;
    }
    assert h > i && !ss[h - 1].handling;
    assert Blocks(ss, h);
    hide IsHistory, Blocks, Flags, Cycles;
    BlocksFull(c, ss, es, h);
    WaitingExact(c, ss, es, h, k);
    CyclesMore(es, i, h);
    CyclesSum(es, i, h, k);
  }

  /** A sabotage whose chosen member is not expelled on its way ends after at least D + 2 and at most d + D + 2 cycles. */
  lemma SabotageLength(c: Config, ss: seq<Sched>, es: seq<Event>, i: nat, j: nat) returns (k: nat)
    requires Begins(c, ss, es, i, j) && Cycles(Flags(es[i..j])) >= Due(c, ss[i])
    requires forall m :: i <= m < j ==> !Struck(ss, es, i, m, Chosen(ss[i]))
    ensures i < k <= j < |ss| && !ss[k].sabotage && forall m :: i <= m < k ==> ss[m].sabotage
    ensures c.duration + 2 <= Cycles(Flags(es[i..k])) <= Distance(Get(ss[i], Chosen(ss[i])).pos, ss[i].target) + c.duration + 2
  {
    k := SabotageEnds(c, ss, es, i, j);
    hide IsHistory, Struck, Chosen;
    SabotageLasts(c, ss, es, i, k);
  }

  // ----- The place ----------------------------------------------------------------------------------------------------

  /** During a sabotage whoever waits to block is at its place. */
  ghost predicate AtPlace(s: Sched) {
    forall x :: x in s.crew && s.crew[x].block ==> s.crew[x].pos == s.target
  }

  lemma {:induction false} RunsAtPlace(s: Sched, runs: seq<Word>)
    requires s.sabotage && AtPlace(s) && RunAll(s, runs).Some?
    ensures AtPlace(RunAll(s, runs).value) && RunAll(s, runs).value.target == s.target
    decreases |runs|
  {
    if runs != [] {
      RunsAtPlace(RunOne(s, runs[0]).value, runs[1..]);
    }
  }

  lemma {:induction false} SomebodyBlocks(s: Sched, q: seq<Word>) returns (tid: Word)
    requires Blocking(s, q) != []
    ensures tid in q && Get(s, tid).block && tid in Blocking(s, q)
  {
    if Get(s, q[0]).block {
      tid := q[0];
    } else {
      tid := SomebodyBlocks(s, q[1..]);
    }
  }

  /** When the waiting begins, somebody has come to the place of the sabotage: it is among the frozen, or has been expelled
      in this very cycle as had been requested. */
  lemma PlaceReached(c: Config, s: Sched, runs: seq<Word>, after: seq<Word>) returns (tid: Word)
    requires Good(c, s) && !s.handling && Possible(c, s, Turn(runs, after)) && Follow(c, s, Turn(runs, after)).handling
    ensures var s' := Follow(c, s, Turn(runs, after));
      tid in s.requests || (tid in s'.frozen && tid in s'.crew && s'.crew[tid].pos == s.target == s'.target)
  {
    var s1 := Prepare(c, s).value;
    PrepareGood(c, s);
    PreparedTarget(c, s, s1);
    PreparedRequests(c, s, s1);
    HuntingTurn(c, s, runs, after);
    PlaceDevices(c, s1, runs, after);
    var s2 := Devices(s1, runs, after).value;
    hide Prepare, Devices, Good, Fair;
    tid := PlaceServed(c, s2);
  }

  lemma PlaceDevices(c: Config, s: Sched, runs: seq<Word>, after: seq<Word>)
    requires Good(c, s) && Working(s) && s.sabotage && !s.handling && Fair(c, s.exec, runs, after)
    requires Devices(s, runs, after).Some?
    ensures var s' := Devices(s, runs, after).value;
      && AllHoused(s') && AllHoused(Sweep(c, s', 0)) && AtPlace(s') && s'.requests == s.requests && s'.target == s.target
      && s'.sabotage && !s'.handling
  {
    DevicesFlags(c, s, runs, after);
    forall x | x in s.crew ensures !s.crew[x].block {
      assert TripGood(s, x);
    }
    RunsAtPlace(s, runs);
    SabotageRequests(s, runs);
    CheckedHoused(c, s, runs, after);
  }

  lemma PlaceServed(c: Config, s: Sched) returns (tid: Word)
    requires AllHoused(s) && AllHoused(Sweep(c, s, 0)) && AtPlace(s) && s.sabotage && !s.handling
    requires ServeRequests(Sweep(c, s, 0)).handling
    ensures var s' := ServeRequests(Sweep(c, s, 0));
      tid in s.requests || (tid in s'.frozen && tid in s'.crew && s'.crew[tid].pos == s.target == s'.target)
  {
    SweepLaw(c, s);
    ServeFlags(Sweep(c, s, 0));
    hide Sweep, AllHoused;
    tid := SomebodyBlocks(s, s.exec);
    PlaceKept(c, s, tid);
  }

  lemma PlaceKept(c: Config, s: Sched, tid: Word)
    requires AllHoused(s) && AllHoused(Sweep(c, s, 0)) && !s.handling && s.sabotage && AtPlace(s)
    requires tid in s.exec && Get(s, tid).block && tid in Blocking(s, s.exec)
    ensures var s' := ServeRequests(Sweep(c, s, 0));
      tid in s.requests || (tid in s'.frozen && tid in s'.crew && s'.crew[tid].pos == s.target)
  {
    assert Housed(s, tid);
    StateOf(s, tid);
    SweepLaw(c, s);
    var s1 := Sweep(c, s, 0);
    RequestsServed(s1);
    if tid !in s.requests {
      StillIn(s1.frozen, Members(s1.requests), tid);
    }
  }

  lemma {:induction false} StillIn(q: seq<Word>, gone: set<Word>, x: Word)
    requires x in q && x !in gone
    ensures x in Excluding(q, gone)
  {
    if q[0] != x {
      StillIn(q[1..], gone, x);
    }
  }

  lemma PreparedRequests(c: Config, s: Sched, s1: Sched)
    requires Good(c, s) && Prepare(c, s) == Some(s1)
    ensures s1.requests == s.requests
  {
    if !s.sabotage {
      NewsAdmitted(s);
      AdmittedHoused(s);
      ExecFilled(c, AdmitNews(s));
    } else if s.starting {
      InitSabotageEffect(c, s);
      ExecFilled(c, InitSabotage(s).value);
    } else {
      ExecFilled(c, s);
    }
  }

  lemma {:induction false} SabotageRequests(s: Sched, runs: seq<Word>)
    requires s.sabotage && RunAll(s, runs).Some?
    ensures RunAll(s, runs).value.requests == s.requests
    decreases |runs|
  {
    if runs != [] {
      SabotageRequests(RunOne(s, runs[0]).value, runs[1..]);
    }
  }

  /** From its announcement on, as long as it lasts, a sabotage is at the place announced. */
  lemma {:induction false} PlaceAnnounced(c: Config, ss: seq<Sched>, es: seq<Event>, i: nat, j: nat)
    requires IsHistory(c, ss, es) && i < j < |ss| == |es| + 1 && es[i].Announce? && forall m :: i < m <= j ==> ss[m].sabotage
    ensures ss[j].target == es[i].target
    decreases j
  {
    HistoryGood(c, ss, es, j - 1);
    HistoryStep(c, ss, es, j);
    if j > i + 1 {
      PlaceAnnounced(c, ss, es, i, j - 1);
      if es[j - 1].Turn? {
        TurnTarget(c, ss[j - 1], es[j - 1].runs, es[j - 1].after);
      } else {
        OtherEvent(c, ss[j - 1], es[j - 1]);
      }
    }
  }

  lemma TurnTarget(c: Config, s: Sched, runs: seq<Word>, after: seq<Word>)
    requires Good(c, s) && Possible(c, s, Turn(runs, after))
    ensures Follow(c, s, Turn(runs, after)).target == s.target
  {
    if s.handling {
      UnfreezeMid(s);
      WaitingTarget(c, s, runs, after);
    } else {
      HuntingTurn(c, s, runs, after);
    }
  }

  lemma WaitingTarget(c: Config, s: Sched, runs: seq<Word>, after: seq<Word>)
    requires Good(c, s) && s.handling && Possible(c, s, Turn(runs, after))
    requires Unfreeze(s) == s.(crew := Unfreeze(s).crew, ready := s.ready + s.frozen, frozen := [])
    ensures Follow(c, s, Turn(runs, after)).target == s.target
  {
    PrepareGood(c, s);
    var s1 := Prepare(c, s).value;
    PreparedTarget(c, s, s1);
    DevicesFlags(c, s1, runs, after);
    var s2 := Devices(s1, runs, after).value;
    UnfrozenTarget(s2);
    ServeFlags(CheckExec(c, s2));
  }

  lemma {:induction false} UnfrozenTarget(s: Sched)
    ensures Unfreeze(s).target == s.target
    decreases |s.frozen|
  {
    if s.frozen != [] {
      UnfrozenTarget(UnfreezeOne(s));
    }
  }

  /** So when the waiting for an announced sabotage begins, somebody is, or has just been expelled as requested, at the place
      that was announced. */
  lemma PlaceAttended(c: Config, ss: seq<Sched>, es: seq<Event>, i: nat, h: nat) returns (tid: Word)
    requires IsHistory(c, ss, es) && i < h < |ss| == |es| + 1 && es[i].Announce? && Blocks(ss, h)
    requires forall m :: i < m <= h ==> ss[m].sabotage
    ensures tid in ss[h - 1].requests || (tid in ss[h].frozen && tid in ss[h].crew && ss[h].crew[tid].pos == es[i].target)
  {
    HistoryGood(c, ss, es, h - 1);
    HistoryStep(c, ss, es, h);
    BlocksFull(c, ss, es, h);
    PlaceAnnounced(c, ss, es, i, h);
    TurnTarget(c, ss[h - 1], es[h - 1].runs, es[h - 1].after);
    hide Good, Follow, Possible, IsHistory;
    tid := PlaceReached(c, ss[h - 1], es[h - 1].runs, es[h - 1].after);
  }
}
