/** When a cycle of the planner makes the program fail: exactly when the protocol can make some member run without a
    task. */
module CycleFailures {
  import opened Memory
  import opened CrewTable
  import opened Schedule
  import opened ScheduleLaws
  import opened ProtocolOrders
  import CycleProtocol
  import ScheduleRuns

  // ----- A member on its own ------------------------------------------------------------------------------

  /** One run of a member that has a task, outside a sabotage. */
  function Ran(t: Trip): Trip
    requires t.task.Some?
  {
    var k := t.task.value;
    if t.pos != k.pos then t.(pos := Toward(t.pos, k.pos))
    else if k.blocking then t.(block := true)
    else if Predecessor(k.time) != 0 then t.(task := Some(k.(time := Predecessor(k.time))))
    else TakeTask(t)
  }

  lemma RunOneIs(s: Sched, tid: Word)
    requires !s.sabotage
    ensures RunOne(s, tid).None? <==> Get(s, tid).task.None?
    ensures RunOne(s, tid).Some? ==>
      RunOne(s, tid).value.crew == s.crew[tid := Ran(Get(s, tid))] && !RunOne(s, tid).value.sabotage
  {
  }

  /** Left without a task after at most `m` runs of its own. */
  predicate Spent(t: Trip, m: nat)
    decreases m
  {
    t.task.None? || (m > 0 && Spent(Ran(t), m - 1))
  }

  predicate NeverBlocks(tasks: seq<Task>) {
    forall k :: k in tasks ==> !k.blocking
  }

  /** The runs that a task takes at its place; a time of 0 wraps around. */
  function Span(time: Word): nat {
    if time == 0 then 0x1_0000_0000 else time
  }

  /** The runs that all tasks take, ways included. */
  function Journey(pos: Pos, tasks: seq<Task>): nat
    decreases |tasks|
  {
    if tasks == [] then 0 else Distance(pos, tasks[0].pos) + Span(tasks[0].time) + Journey(tasks[0].pos, tasks[1..])
  }

  /** A member runs out of tasks exactly when none of them blocks and there are runs enough for all. */
  lemma {:induction false} SpentIff(t: Trip, m: nat)
    requires t.task.Some?
    ensures Spent(t, m) <==> NeverBlocks([t.task.value] + t.todo) && Journey(t.pos, [t.task.value] + t.todo) <= m
    decreases m
  {
    var k, tasks := t.task.value, [t.task.value] + t.todo;
    assert tasks[0] == k && tasks[1..] == t.todo;
    if m > 0 {
      var t' := Ran(t);
      TowardCloser(t.pos, k.pos);
      if t'.task.Some? {
        SpentIff(t', m - 1);
        var tasks' := [t'.task.value] + t'.todo;
        assert tasks'[0] == t'.task.value && tasks'[1..] == t'.todo;
        assert forall x :: x in tasks <==> x == k || x in t.todo;
        assert forall x :: x in tasks' <==> x == t'.task.value || x in t'.todo;
      } else {
        assert t.todo == [];
      }
    }
  }

  // ----- All members ------------------------------------------------------------------------------------------

  /** Running that often in this order, the member runs without a task. */
  predicate RunsDry(s: Sched, runs: seq<Word>, tid: Word) {
    tid in runs && Spent(Get(s, tid), multiset(runs)[tid] - 1)
  }

  /** Runs of different members do not touch each other: running all of them fails exactly when one of them, on its own,
      runs once more than its tasks last. */
  lemma {:induction false} RunAllFailsIff(s: Sched, runs: seq<Word>)
    requires !s.sabotage
    ensures RunAll(s, runs).None? <==> exists tid :: RunsDry(s, runs, tid)
    decreases |runs|
  {
    if runs != [] {
      var first, rest := runs[0], runs[1..];
      RunOneIs(s, first);
      assert runs == [first] + rest;
      if RunOne(s, first).None? {
        assert RunsDry(s, runs, first);
      } else {
        var s1 := RunOne(s, first).value;
        RunAllFailsIff(s1, rest);
        forall tid ensures RunsDry(s, runs, tid) <==> RunsDry(s1, rest, tid) {
          DryNext(s, first, rest, tid);
        }
      }
    }
  }

  lemma DryNext(s: Sched, first: Word, rest: seq<Word>, tid: Word)
    requires !s.sabotage && RunOne(s, first).Some?
    ensures RunsDry(s, [first] + rest, tid) <==> RunsDry(RunOne(s, first).value, rest, tid)
  {
    RunOneIs(s, first);
    var runs: seq<Word> := [first] + rest;
    assert multiset(runs)[tid] == multiset(rest)[tid] + One(tid == first);
    assert tid in runs <==> tid == first || tid in rest;
  }

  /** Everybody runs at least once, so the others take up one run each. */
  lemma RunsAtMost(exec: seq<Word>, runs: seq<Word>, tid: Word)
    requires tid in exec && forall x :: x in exec ==> x in runs
    requires forall x :: multiset(exec)[x] <= 1
    ensures multiset(runs)[tid] + |exec| - 1 <= |runs|
  {
    var least := multiset(exec)[tid := multiset(runs)[tid]];
    forall x ensures least[x] <= multiset(runs)[x] {
      if x in exec {
        assert x in runs;
      }
    }
    assert multiset(runs) == least + (multiset(runs) - least);
    assert |multiset(runs)| == |runs| && |multiset(exec)| == |exec|;
  }

  // ----- The cycle ----------------------------------------------------------------------------------------------

  /** Some cycle of the protocol runs the members of EXEC in an order that makes the program fail. */
  ghost predicate MayFail(c: Config, s: Sched)
    requires Prepare(c, s).Some?
  {
    exists p: CycleProtocol.Config, runs, after ::
      p.cpus == c.cpus && Produces(p, Prepare(c, s).value.exec, runs, after) && Cycle(c, s, runs, after).None?
  }

  lemma ProducedFair(c: Config, p: CycleProtocol.Config, exec: seq<Word>, runs: seq<Word>, after: seq<Word>)
    requires p.cpus == c.cpus && Produces(p, exec, runs, after)
    ensures Fair(c, exec, runs, after)
  {
    var ws: seq<CycleProtocol.World>, steps: seq<CycleProtocol.Step>, i: nat :| Cycled(p, ws, steps, i)
      && ws[i + 1].start == exec && ws[i + 1].ran == runs && ws[i + 1].exec == after;
    ScheduleRuns.ProtocolIsFair(c, p, ws, steps, i);
  }

  /** Somebody in EXEC whose tasks do not outlast the CPUs that have nobody of their own. */
  ghost predicate Overrun(c: Config, s: Sched)
    requires |s.exec| <= c.cpus
  {
    exists tid :: tid in s.exec && Spent(Get(s, tid), c.cpus - |s.exec|)
  }

  /** A cycle can only fail while the members run. */
  lemma FailsRunning(c: Config, s: Sched, runs: seq<Word>, after: seq<Word>)
    requires Good(c, s) && Prepare(c, s).Some? && Fair(c, Prepare(c, s).value.exec, runs, after)
    ensures Cycle(c, s, runs, after).None? <==> RunAll(Prepare(c, s).value, runs).None?
  {
    PrepareGood(c, s);
    var s1 := Prepare(c, s).value;
    if RunAll(s1, runs).Some? {
      var phase := if InPhase(s1, Calm) then Calm else if InPhase(s1, Hunting) then Hunting else Waiting;
      RunAllMid(c, s1, runs, phase);
      ReorderMid(c, RunAll(s1, runs).value, after, phase);
      IoStepMid(c, RunAll(s1, runs).value.(exec := after), phase);
    }
  }

  /** Everybody in EXEC is there once. */
  lemma ExecOnce(c: Config, s: Sched, tid: Word)
    requires Good(c, s)
    ensures multiset(s.exec)[tid] <= 1
  {
    assert Housed(s, tid);
  }

  lemma {:induction false} SabotageRuns(s: Sched, runs: seq<Word>)
    requires s.sabotage
    ensures RunAll(s, runs).Some?
    decreases |runs|
  {
    if runs != [] {
      SabotageRuns(RunOne(s, runs[0]).value, runs[1..]);
    }
  }

  /** The protocol lets the CPUs that have nobody of their own all run this member again. */
  lemma OverrunFails(c: Config, s: Sched) returns (p: CycleProtocol.Config, runs: seq<Word>, after: seq<Word>)
    requires Good(c, s) && !s.sabotage && Overrun(c, s)
    ensures p.cpus == c.cpus && Produces(p, s.exec, runs, after) && RunAll(s, runs).None?
  {
    var n := c.cpus - |s.exec|;
    var k :| 0 <= k < |s.exec| && Spent(Get(s, s.exec[k]), n);
    var tid, more := s.exec[k], Again(s.exec[k], n);
    p, runs := CycleProtocol.Config(c.cpus, c.cpus), s.exec + more;
    forall i, j | 0 <= i < j < |s.exec| ensures s.exec[i] != s.exec[j] {
      OncePerQueue(s, i);
    }
    ExecOnce(c, s, tid);
    hide Good, Produces;
    after := AgainProduced(p, s.exec, k);
    assert multiset(runs) == multiset(s.exec) + multiset(more);
    assert multiset(s.exec)[tid] == 1;
    assert RunsDry(s, runs, tid);
    RunAllFailsIff(s, runs);
  }

  lemma FailsOverrun(c: Config, s: Sched, runs: seq<Word>, after: seq<Word>)
    requires Good(c, s) && !s.sabotage && Fair(c, s.exec, runs, after) && RunAll(s, runs).None?
    ensures Overrun(c, s)
  {
    RunAllFailsIff(s, runs);
    var tid :| RunsDry(s, runs, tid);
    forall x ensures multiset(s.exec)[x] <= 1 {
      ExecOnce(c, s, x);
    }
    ExecOnce(c, s, tid);
    RunsAtMost(s.exec, runs, tid);
    SpentMore(Get(s, tid), multiset(runs)[tid] - 1, c.cpus - |s.exec|);
  }

  lemma {:induction false} SpentMore(t: Trip, m: nat, n: nat)
    requires Spent(t, m) && m <= n
    ensures Spent(t, n)
    decreases m
  {
    if t.task.Some? {
      SpentMore(Ran(t), m - 1, n - 1);
    }
  }

  /** From any good state: the program can fail in the next cycle exactly when there is no sabotage and somebody in EXEC
      runs out of tasks within as many runs as there are CPUs without a member of their own. */
  lemma FailsIff(c: Config, s: Sched)
    requires Good(c, s) && Prepare(c, s).Some?
    ensures |Prepare(c, s).value.exec| <= c.cpus
    ensures MayFail(c, s) <==> !s.sabotage && Overrun(c, Prepare(c, s).value)
  {
    PrepareGood(c, s);
    var s1 := Prepare(c, s).value;
    if MayFail(c, s) {
      var p: CycleProtocol.Config, runs, after :|
        p.cpus == c.cpus && Produces(p, s1.exec, runs, after) && Cycle(c, s, runs, after).None?;
      ProducedFair(c, p, s1.exec, runs, after);
      FailsRunning(c, s, runs, after);
      if s1.sabotage {
        SabotageRuns(s1, runs);
      } else {
        FailsOverrun(c, s1, runs, after);
      }
    }
    if !s.sabotage && Overrun(c, s1) {
      var p, runs, after := OverrunFails(c, s1);
      ProducedFair(c, p, s1.exec, runs, after);
      FailsRunning(c, s, runs, after);
    }
  }

  /** With as many members in EXEC as there are CPUs, nobody runs twice, and no order fails unless somebody in EXEC has
      no task to begin with. */
  lemma FullFailsIff(c: Config, s: Sched)
    requires Good(c, s) && Prepare(c, s).Some?
    requires s.sabotage || |Prepare(c, s).value.exec| == c.cpus
    ensures var s1 := Prepare(c, s).value;
      MayFail(c, s) <==> !s.sabotage && exists tid :: tid in s1.exec && Get(s1, tid).task.None?
  {
    FailsIff(c, s);
  }

  /** A single member about to finish its last task. */
  const LAST := Task(Pos(0, 0), false, 1)
  const FINISHING := Sched([], [7], [], [], [], None, map[7 := Trip(Pos(0, 0), 1, Ready, false, Some(LAST), [])], [],
                           false, false, Pos(0, 0), false, 0)
  const TWO_CPUS := Config(2, 1, 0, Fifo)

  /** Two CPUs and that member: the protocol lets both CPUs run it in the same cycle, and then the program fails; if only
      one of them does, all is well. */
  lemma SecondStepFails()
    ensures Good(TWO_CPUS, FINISHING) && FillExec(TWO_CPUS, AdmitNews(FINISHING)).exec == [7]
    ensures Produces(CycleProtocol.Config(2, 2), [7], [7, 7], [7])
    ensures Cycle(TWO_CPUS, FINISHING, [7, 7], [7]).None?
    ensures Cycle(TWO_CPUS, FINISHING, [7], [7]).Some?
  {
    var c, s := TWO_CPUS, FINISHING;
    forall x ensures Housed(s, x) && TripMid(s, x) && TripGood(s, x) {
      CountPush([], 7, x);
    }
    var s1 := Dispatch(s);
    assert FillExec(c, s) == FillExec(c, s1) == s1 && s1.exec == [7];
    TwiceProduced();
    var once := RunOne(s1, 7).value;
    assert Get(once, 7).task.None? && RunOne(once, 7).None?;
    assert [7 as Word, 7][1..] == [7 as Word] && [7 as Word][1..] == [];
    assert RunAll(s1, [7, 7]).None?;
    assert RunAll(s1, [7]) == RunAll(once, []) == Some(once);
  }

  lemma TwiceProduced()
    ensures Produces(CycleProtocol.Config(2, 2), [7], [7, 7], [7])
  {
    var p := CycleProtocol.Config(2, 2);
    var after := AgainProduced(p, [7], 0);
    assert Again(7, 1) == Again(7, 0) + [7] == [7];
    assert [7 as Word] + [7] == [7, 7];
    ProducedFair(TWO_CPUS, p, [7], [7, 7], after);
    ScheduleRuns.SingleMultiset(after, 7);
  }
}
