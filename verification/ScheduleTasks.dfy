/** A member that arrives with tasks to come has a task in every state after its admission: it is expelled in the very
    cycle in which it finishes its last one. */
module ScheduleTasks {
  import opened Memory
  import opened CrewTable
  import opened Schedule
  import opened ScheduleLaws
  import opened ScheduleMoves
  import opened ScheduleRuns
  import opened CycleFailures

  /** Between cycles: tasks to come, or a task. */
  ghost predicate Supplied(s: Sched, tid: Word) {
    tid in s.crew ==> if s.crew[tid].state == New then s.crew[tid].todo != [] else s.crew[tid].task.Some?
  }

  /** In the middle of a cycle: the same, or the expulsion has been requested. */
  ghost predicate Covered(s: Sched, tid: Word) {
    tid in s.requests || Supplied(s, tid)
  }

  /** Only position, quantum, state and the wish to block have changed, and nobody has been admitted. */
  ghost predicate SameTasks(s: Sched, s': Sched) {
    && s'.crew.Keys == s.crew.Keys && s'.requests == s.requests
    && forall x :: x in s.crew ==>
         && s'.crew[x].task == s.crew[x].task && s'.crew[x].todo == s.crew[x].todo
         && (s'.crew[x].state == New <==> s.crew[x].state == New)
  }

  // ----- The parts of a cycle ---------------------------------------------------------------------------------

  lemma PrepareSupplied(c: Config, s: Sched, tid: Word)
    requires Good(c, s) && Prepare(c, s).Some? && Supplied(s, tid)
    ensures Supplied(Prepare(c, s).value, tid)
  {
    if !s.sabotage {
      AdmittedSupplied(s, tid);
      AdmitNewsGood(c, s);
      FilledSupplied(c, AdmitNews(s), tid);
    } else if s.starting {
      InitSabotageEffect(c, s);
      FilledSupplied(c, InitSabotage(s).value, tid);
    } else {
      FilledSupplied(c, s, tid);
    }
  }

  lemma AdmittedSupplied(s: Sched, tid: Word)
    requires AllHoused(s) && Supplied(s, tid)
    ensures Supplied(AdmitNews(s), tid)
  {
    NewsAdmitted(s);
    assert Housed(s, tid);
    StateOf(s, tid);
  }

  lemma FilledSupplied(c: Config, s: Sched, tid: Word)
    requires AllHoused(s) && Supplied(s, tid)
    ensures Supplied(FillExec(c, s), tid)
  {
    ExecFilled(c, s);
    assert Housed(s, tid);
    StateOf(s, tid);
    assert tid in s.ready[..Room(c, s)] ==> tid in s.ready;
  }

  lemma RunOneCovered(s: Sched, x: Word, tid: Word)
    requires x in s.crew && s.crew[x].state != New && RunOne(s, x).Some? && Covered(s, tid)
    ensures Covered(RunOne(s, x).value, tid)
    ensures RunOne(s, x).value.crew.Keys == s.crew.Keys
    ensures forall y :: y in s.crew ==> RunOne(s, x).value.crew[y].state == s.crew[y].state
  {
    var s' := RunOne(s, x).value;
    RunOneMember(s, x);
    hide RunOne;
    assert tid in s.requests ==> tid in s'.requests;
  }

  /** One run, for the member and for the requests: its expulsion is requested exactly when it finishes its last task. */
  lemma RunOneMember(s: Sched, x: Word)
    requires x in s.crew && s.crew[x].state != New && RunOne(s, x).Some?
    ensures var s' := RunOne(s, x).value;
      && x in s'.crew && s'.crew == s.crew[x := s'.crew[x]] && s'.crew[x].state == s.crew[x].state
      && s'.requests == (if s.crew[x].task.Some? && s'.crew[x].task.None? then s.requests + [x] else s.requests)
  {
  }

  lemma {:induction false} RunAllCovered(s: Sched, runs: seq<Word>, tid: Word)
    requires Covered(s, tid) && RunAll(s, runs).Some?
    requires forall x :: x in runs ==> x in s.crew && s.crew[x].state != New
    ensures Covered(RunAll(s, runs).value, tid)
    decreases |runs|
  {
    if runs != [] {
      RunOneCovered(s, runs[0], tid);
      assert forall x :: x in runs[1..] ==> x in runs;
      RunAllCovered(RunOne(s, runs[0]).value, runs[1..], tid);
    }
  }

  lemma IoStepCovered(s: Sched, tid: Word)
    requires AllHoused(s) && IoStep(s).Some? && Covered(s, tid)
    ensures Covered(IoStep(s).value, tid)
  {
    if !s.sabotage && TakeIn(s).device.Some? {
      TakeInHoused(s);
      assert Housed(TakeIn(s), TakeIn(s).device.value);
      StateOf(TakeIn(s), TakeIn(s).device.value);
    }
  }

  lemma TickTasks(c: Config, s: Sched, i: nat)
    requires AllHoused(s) && i < |s.exec|
    ensures SameTasks(s, Tick(c, s, i))
  {
    var tid := s.exec[i];
    assert Housed(s, tid);
    StateOf(s, tid);
    hide Housed;
    TickMember(c, s, i);
    hide Tick;
  }

  lemma TickMember(c: Config, s: Sched, i: nat)
    requires i < |s.exec| && s.exec[i] in s.crew && s.crew[s.exec[i]].state == Exec
    ensures var s', tid := Tick(c, s, i), s.exec[i];
      && tid in s'.crew && s'.crew == s.crew[tid := s'.crew[tid]] && s'.requests == s.requests
      && s'.crew[tid].task == s.crew[tid].task && s'.crew[tid].todo == s.crew[tid].todo && s'.crew[tid].state != New
  {
    hide RemoveAt;
    assert s.crew[s.exec[i] := s.crew[s.exec[i]]] == s.crew;
  }

  lemma {:induction false} SweepTasks(c: Config, s: Sched, i: nat)
    requires AllHoused(s)
    ensures SameTasks(s, Sweep(c, s, i))
    decreases |s.exec| - i
  {
    if i < |s.exec| {
      TickTasks(c, s, i);
      TickHoused(c, s, i);
      SweepTasks(c, Tick(c, s, i), if Leaves(c, s, s.exec[i]) then i else i + 1);
    }
  }

  lemma {:induction false} UnfreezeTasks(s: Sched)
    requires AllHoused(s)
    ensures SameTasks(s, Unfreeze(s))
    decreases |s.frozen|
  {
    if s.frozen != [] {
      assert Housed(s, s.frozen[0]);
      StateOf(s, s.frozen[0]);
      UnfreezeOneHoused(s);
      UnfreezeTasks(UnfreezeOne(s));
    }
  }

  lemma CheckExecTasks(c: Config, s: Sched)
    requires AllHoused(s)
    ensures SameTasks(s, CheckExec(c, s))
  {
    if s.handling {
      UnfreezeTasks(s);
    } else {
      SweepTasks(c, s, 0);
    }
  }

  /** Serving the requests makes good for what was missing. */
  lemma ServedSupplied(s: Sched, tid: Word)
    requires AllHoused(s) && Covered(s, tid)
    ensures Supplied(ServeRequests(s), tid)
  {
    RequestsServed(s);
  }

  // ----- A cycle, and a history ---------------------------------------------------------------------------------

  lemma CycleSupplied(c: Config, s: Sched, runs: seq<Word>, after: seq<Word>, tid: Word)
    requires Good(c, s) && Prepare(c, s).Some? && Fair(c, Prepare(c, s).value.exec, runs, after)
    requires Cycle(c, s, runs, after).Some? && Supplied(s, tid)
    ensures Supplied(Cycle(c, s, runs, after).value, tid)
  {
    PrepareGood(c, s);
    PrepareSupplied(c, s, tid);
    var s1 := Prepare(c, s).value;
    DevicesCovered(c, s1, runs, after, tid);
    DevicesMid(c, s1, runs, after);
    var s2 := Devices(s1, runs, after).value;
    CheckExecTasks(c, s2);
    CheckExecMid(c, s2);
    ServedSupplied(CheckExec(c, s2), tid);
  }

  lemma DevicesCovered(c: Config, s: Sched, runs: seq<Word>, after: seq<Word>, tid: Word)
    requires Good(c, s) && Working(s) && Fair(c, s.exec, runs, after) && Devices(s, runs, after).Some? && Supplied(s, tid)
    ensures Covered(Devices(s, runs, after).value, tid)
  {
    forall x | x in runs ensures x in s.crew && s.crew[x].state != New {
      assert Housed(s, x);
      StateOf(s, x);
    }
    RunAllCovered(s, runs, tid);
    var s1 := RunAll(s, runs).value;
    var phase := if InPhase(s, Calm) then Calm else if InPhase(s, Hunting) then Hunting else Waiting;
    RunAllMid(c, s, runs, phase);
    ReorderMid(c, s1, after, phase);
    IoStepCovered(s1.(exec := after), tid);
  }

  /** Whenever this member arrives it has tasks to come. */
  predicate ComesSupplied(es: seq<Event>, tid: Word) {
    forall m :: 0 <= m < |es| && es[m].Arrive? && es[m].tid == tid ==> es[m].trip.todo != []
  }

  /** After any history, a member that came with tasks has one if it has been admitted, and still has all to come if not:
      whoever finishes the last task is gone by the end of the cycle. */
  lemma {:induction false} AlwaysSupplied(c: Config, ss: seq<Sched>, es: seq<Event>, i: nat, tid: Word)
    requires IsHistory(c, ss, es) && i < |ss| && ComesSupplied(es, tid)
    ensures Supplied(ss[i], tid)
  {
    if i > 0 {
      AlwaysSupplied(c, ss, es, i - 1, tid);
      HistoryGood(c, ss, es, i - 1);
      HistoryStep(c, ss, es, i);
      var e := es[i - 1];
      match e
      case Arrive(x, _) => assert x == tid ==> e.trip.todo != [];
      case Announce(_) =>
      case Ask(_) =>
      case Drop(x) => TerminateCrew(ss[i - 1], x);
      case Turn(runs, after) => CycleSupplied(c, ss[i - 1], runs, after, tid);
    }
  }

  /** So where everybody comes with tasks, a cycle with as many members in EXEC as CPUs never fails. */
  lemma FullNeverFails(c: Config, ss: seq<Sched>, es: seq<Event>, i: nat)
    requires IsHistory(c, ss, es) && i < |ss| && forall tid :: ComesSupplied(es, tid)
    requires Prepare(c, ss[i]).Some? && |Prepare(c, ss[i]).value.exec| == c.cpus
    ensures !MayFail(c, ss[i])
  {
    HistoryGood(c, ss, es, i);
    FullFailsIff(c, ss[i]);
    PrepareGood(c, ss[i]);
    var s1 := Prepare(c, ss[i]).value;
    forall tid | tid in s1.exec ensures Get(s1, tid).task.Some? {
      AlwaysSupplied(c, ss, es, i, tid);
      PrepareSupplied(c, ss[i], tid);
      assert Housed(s1, tid);
      StateOf(s1, tid);
    }
  }
}
