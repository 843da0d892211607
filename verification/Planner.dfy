/** The planner: its queues, its flags and its loops, each proved against the function that says what it does. */
module Planner {
  import opened Memory
  import opened CrewTable
  import opened Schedule
  import opened Queues

  class Planner {
    const config: Config
    const news: Queue
    const ready: Queue
    const exec: Queue
    const blocked: Queue
    const frozen: Queue
    var device: Option<Word>
    var crew: map<Word, Trip>
    var requests: seq<Word>
    var sabotage: bool
    var starting: bool
    var target: Pos
    var handling: bool
    var remaining: Word

    ghost function Parts(): set<object> {
      {this, news, ready, exec, blocked, frozen}
    }

    ghost function S(): Sched
      reads Parts()
    {
      Sched(news.data, ready.data, exec.data, blocked.data, frozen.data, device, crew, requests,
            sabotage, starting, target, handling, remaining)
    }

    ghost predicate Valid()
      reads Parts()
    {
      && news != ready && news != exec && news != blocked && news != frozen
      && ready != exec && ready != blocked && ready != frozen
      && exec != blocked && exec != frozen && blocked != frozen
      && news.Valid() && ready.Valid() && exec.Valid() && blocked.Valid() && frozen.Valid()
      && exec.maxSize == config.cpus
      && news.maxSize == ready.maxSize == blocked.maxSize == frozen.maxSize == 0
    }

    constructor (config: Config)
      ensures Valid() && fresh(Parts() - {this})
      ensures S() == Sched([], [], [], [], [], None, map[], [], false, false, Pos(0, 0), false, 0)
    {
      this.config := config;
      news := new Queue(0);
      ready := new Queue(0);
      exec := new Queue(config.cpus);
      blocked := new Queue(0);
      frozen := new Queue(0);
      device, crew, requests := None, map[], [];
      sabotage, starting, target, handling, remaining := false, false, Pos(0, 0), false, 0;
    }

    function Member(tid: Word): Trip
      reads this
    {
      if tid in crew then crew[tid] else NOBODY
    }

    // ----- Admission ------------------------------------------------------------------------------------------

    /** The state with the member that has been taken from NEW still in it. */
    ghost function Pending(tid: Option<Word>): Sched
      reads Parts()
    {
      if tid.Some? then S().(news := [tid.value] + news.data) else S()
    }

    method AdmitFromNewToReady()
      requires Valid()
      modifies Parts()
      ensures Valid() && S() == AdmitNews(old(S()))
    {
      ghost var before := S();
      var tid := news.Pop();
      assert Pending(tid) == before;
      while tid.Some?
        invariant Valid() && (tid.None? ==> news.data == [])
        invariant AdmitNews(Pending(tid)) == AdmitNews(before)
        decreases |Pending(tid).news|
      {
        tid := AdmitMember(tid.value);
      }
    }

    /** The member taken from NEW gets its first task and goes to READY, and the next one is taken. */
    method AdmitMember(tid: Word) returns (next: Option<Word>)
      requires Valid()
      modifies Parts()
      ensures Valid() && (next.None? ==> news.data == [])
      ensures Pending(next) == AdmitOne(old(Pending(Some(tid))))
    {
      ghost var s := Pending(Some(tid));
      ghost var rest := news.data;
      assert s.news[1..] == rest;
      crew := crew[tid := TakeTask(Member(tid).(state := Ready))];
      ready.Push(tid);
      next := news.Pop();
      assert Pending(next).news == rest;
    }

    method AdmitFromReadyToExec()
      requires Valid()
      modifies Parts()
      ensures Valid() && S() == FillExec(config, old(S()))
    {
      while !exec.IsFull()
        invariant Valid() && FillExec(config, S()) == FillExec(config, old(S()))
        decreases |ready.data|
      {
        ghost var s := S();
        var tid := ready.Pop();
        if tid.Some? {
          crew := crew[tid.value := Member(tid.value).(state := Exec)];
          exec.Push(tid.value);
          assert S() == Dispatch(s);
        } else {
          break;
        }
      }
    }

    // ----- A member runs ------------------------------------------------------------------------------------------

    method RunMember(tid: Word)
      requires Valid() && RunOne(S(), tid).Some?
      modifies this
      ensures Valid() && S() == RunOne(old(S()), tid).value
    {
      var t := Member(tid);
      if sabotage {
        if t.pos == target {
          t := t.(block := true);
        } else {
          t := Moved(t, target);
        }
      } else {
        var k := t.task.value;
        if t.pos == k.pos {
          if k.blocking {
            t := t.(block := true);
          } else {
            k := k.(time := Predecessor(k.time));
            t := t.(task := Some(k));
            if k.time == 0 {
              t := TakeTask(t);
              if t.task.None? {
                requests := requests + [tid];
              }
            }
          }
        } else {
          t := Moved(t, k.pos);
        }
      }
      crew := crew[tid := t];
    }

    function Moved(t: Trip, to: Pos): Trip {
      t.(pos := Toward(t.pos, to))
    }

    /** The members run in the order that the CPUs gave them, and come back in the order `after`. */
    method RunCpus(runs: seq<Word>, after: seq<Word>)
      requires Valid() && RunAll(S(), runs).Some? && |after| == |exec.data|
      modifies Parts()
      ensures Valid() && S() == RunAll(old(S()), runs).value.(exec := after)
    {
      ghost var s := S();
      var i := 0;
      assert runs[0..] == runs;
      while i < |runs|
        invariant i <= |runs| && Valid() && RunAll(S(), runs[i..]) == RunAll(s, runs) && exec.data == s.exec
      {
        assert runs[i..][1..] == runs[i + 1..];
        RunMember(runs[i]);
        i := i + 1;
      }
      exec.data := after;
    }

    // ----- The I/O device -----------------------------------------------------------------------------------------

    method IoDevice()
      requires Valid() && IoStep(S()).Some?
      modifies Parts()
      ensures Valid() && S() == IoStep(old(S())).value
    {
      if !sabotage {
        if device.None? {
          device := blocked.Pop();
        }
        assert S() == TakeIn(old(S()));
        if device.Some? {
          ServeDevice(device.value);
        }
      }
    }

    method ServeDevice(tid: Word)
      requires Valid() && device == Some(tid) && CountDown(S()).Some?
      modifies Parts()
      ensures Valid() && S() == CountDown(old(S())).value
    {
      var t := Member(tid);
      var k := t.task.value.(time := Predecessor(t.task.value.time));
      if k.time != 0 {
        crew := crew[tid := t.(task := Some(k))];
      } else {
        t := TakeTask(t);
        if t.task.Some? {
          crew := crew[tid := t.(state := Ready)];
          ready.Push(tid);
        } else {
          crew := crew - {tid};
        }
        device := None;
      }
    }

    // ----- The end of the cycle -----------------------------------------------------------------------------------------

    /** FIFO: whoever waits to block leaves EXEC. */
    method AlgorithmFifo()
      requires Valid() && config.algorithm.Fifo?
      modifies Parts()
      ensures Valid() && S() == Sweep(config, old(S()), 0)
    {
      var it := new Walk(exec);
      while it.HasNext()
        invariant Valid() && it.Valid() && it.queue == exec && fresh(it)
        invariant Sweep(config, S(), it.Next()) == Sweep(config, old(S()), 0)
        decreases |exec.data| - it.at
      {
        ghost var s := S();
        var tid := it.Advance();
        var t := Member(tid);
        if t.block {
          it.Remove();
          Block(tid, t.(block := false));
          assert S() == Tick(config, s, it.Next());
        } else {
          assert S() == Tick(config, s, it.at);
        }
      }
    }

    /** Round robin: moreover the quantum runs down, and at its end the member goes back to READY. */
    method AlgorithmRoundRobin()
      requires Valid() && config.algorithm.RoundRobin?
      modifies Parts()
      ensures Valid() && S() == Sweep(config, old(S()), 0)
    {
      var it := new Walk(exec);
      while it.HasNext()
        invariant Valid() && it.Valid() && it.queue == exec && fresh(it)
        invariant Sweep(config, S(), it.Next()) == Sweep(config, old(S()), 0)
        decreases |exec.data| - it.at
      {
        QuantumOf(it);
      }
    }

    /** One step of the walk. */
    method QuantumOf(it: Walk)
      requires Valid() && it.Valid() && it.queue == exec && it.HasNext() && config.algorithm.RoundRobin?
      modifies Parts(), it
      ensures Valid() && it.Valid()
      ensures S() == Tick(config, old(S()), old(it.Next()))
      ensures it.Next() == if Leaves(config, old(S()), old(exec.data)[old(it.Next())]) then old(it.Next()) else old(it.Next()) + 1
    {
      var tid := it.Advance();
      var t := Member(tid).(quantum := Predecessor(Member(tid).quantum));
      if t.block {
        it.Remove();
        Block(tid, t.(block := false, quantum := config.quantum));
      } else if t.quantum == 0 {
        it.Remove();
        crew := crew[tid := t.(quantum := config.quantum, state := Ready)];
        ready.Push(tid);
      } else {
        crew := crew[tid := t];
      }
    }

    /** A member that blocks goes to the I/O device's queue, or has arrived at the sabotage. */
    method Block(tid: Word, t: Trip)
      requires Valid()
      modifies this, blocked, frozen
      ensures Valid() && exec.data == old(exec.data)
      ensures S() == if old(sabotage)
                     then Set(old(S()), tid, t.(state := BlockSabotage))
                            .(frozen := old(frozen.data) + [tid], handling := true, remaining := config.duration)
                     else Set(old(S()), tid, t.(state := BlockIo)).(blocked := old(blocked.data) + [tid])
    {
      if !sabotage {
        crew := crew[tid := t.(state := BlockIo)];
        blocked.Push(tid);
      } else {
        crew := crew[tid := t.(state := BlockSabotage)];
        frozen.Push(tid);
        handling := true;
        remaining := config.duration;
      }
    }

    method CheckExecQueue()
      requires Valid()
      modifies Parts()
      ensures Valid() && S() == CheckExec(config, old(S()))
    {
      if !handling {
        if config.algorithm.RoundRobin? {
          AlgorithmRoundRobin();
        } else {
          AlgorithmFifo();
        }
      } else {
        BlockedRoutine();
      }
    }

    // ----- Sabotage ---------------------------------------------------------------------------------------------------

    /** Everybody is frozen: the time runs down, and at its end everybody becomes READY. */
    method BlockedRoutine()
      requires Valid()
      modifies Parts()
      ensures Valid() && S() == CountFrozen(old(S()))
    {
      if remaining != 0 {
        remaining := remaining - 1;
      } else {
        UnfreezeEverybody();
        handling := false;
        sabotage := false;
      }
    }

    method UnfreezeEverybody()
      requires Valid()
      modifies Parts()
      ensures Valid() && S() == Unfreeze(old(S()))
    {
      while frozen.count != 0
        invariant Valid() && Unfreeze(S()) == Unfreeze(old(S()))
        decreases |frozen.data|
      {
        ghost var s := S();
        var tid := frozen.Pop();
        crew := crew[tid.value := Member(tid.value).(state := Ready)];
        ready.Push(tid.value);
        assert S() == UnfreezeOne(s);
      }
    }

    method FreezeExecQueue()
      requires Valid()
      modifies Parts()
      ensures Valid() && S() == FreezeExec(SortExec(old(S())))
    {
      exec.SortByLowestTid();
      while exec.count != 0
        invariant Valid() && FreezeExec(S()) == FreezeExec(SortExec(old(S())))
        decreases |exec.data|
      {
        ghost var s := S();
        var tid := exec.Pop();
        crew := crew[tid.value := Member(tid.value).(state := BlockSabotage)];
        frozen.Push(tid.value);
        assert S() == FreezeOneExec(s);
      }
    }

    method FreezeReadyQueue()
      requires Valid()
      modifies Parts()
      ensures Valid() && S() == FreezeReady(SortReady(old(S())))
    {
      ready.SortByLowestTid();
      while ready.count != 0
        invariant Valid() && FreezeReady(S()) == FreezeReady(SortReady(old(S())))
        decreases |ready.data|
      {
        ghost var s := S();
        var tid := ready.Pop();
        crew := crew[tid.value := Member(tid.value).(state := BlockSabotage)];
        frozen.Push(tid.value);
        assert S() == FreezeOneReady(s);
      }
    }

    /** The frozen member with the least gap. */
    method FindCloser() returns (tid: Word)
      requires Valid()
      ensures tid == Closest(S(), frozen.data, 0xFFFF_FFFF, 0)
    {
      var least: Word := 0xFFFF_FFFF;
      var sum := Plus(target.x, target.y);
      tid := 0;
      var i := 0;
      assert frozen.data[0..] == frozen.data;
      while i < |frozen.data|
        invariant i <= |frozen.data|
        invariant Closest(S(), frozen.data[i..], least, tid) == Closest(S(), frozen.data, 0xFFFF_FFFF, 0)
      {
        assert frozen.data[i..][1..] == frozen.data[i + 1..];
        var t := Member(frozen.data[i]);
        var gap := Minus(sum, Plus(t.pos.x, t.pos.y));
        if least > gap {
          least := gap;
          tid := frozen.data[i];
        }
        i := i + 1;
      }
    }

    method InitSabotageRoutine()
      requires Valid() && InitSabotage(S()).Some?
      modifies Parts()
      ensures Valid() && S() == InitSabotage(old(S())).value
    {
      starting := false;
      FreezeExecQueue();
      FreezeReadyQueue();
      SendCloser();
    }

    /** The closest of the frozen members becomes READY. */
    method SendCloser()
      requires Valid() && Closest(S(), frozen.data, 0xFFFF_FFFF, 0) in frozen.data
      modifies Parts()
      ensures Valid()
      ensures var s := old(S());
        var chosen := Closest(s, s.frozen, 0xFFFF_FFFF, 0);
        S() == Set(s, chosen, Get(s, chosen).(state := Ready))
                 .(frozen := Without(s.frozen, chosen), ready := s.ready + [chosen])
    {
      var tid := FindCloser();
      var chosen := frozen.PopByTid(tid);
      crew := crew[tid := Member(tid).(state := Ready)];
      ready.Push(tid);
    }

    // ----- Expulsion ---------------------------------------------------------------------------------------------------

    method CheckExpulsions()
      requires Valid()
      modifies Parts()
      ensures Valid() && S() == ServeRequests(old(S()))
    {
      while requests != []
        invariant Valid() && ServeRequests(S()) == ServeRequests(old(S()))
        decreases |requests|
      {
        ghost var s := S();
        var tid := requests[0];
        requests := requests[1..];
        TerminateRequests(s, tid, requests);
        FindAndTerminate(tid);
      }
    }

    /** Looks for the member in one queue after the other. */
    method FindAndTerminate(tid: Word)
      requires Valid()
      modifies Parts()
      ensures Valid() && S() == Terminate(old(S()), tid)
    {
      var found := RemoveFrom(news, tid);
      if !found {
        found := RemoveFrom(ready, tid);
      }
      if !found {
        found := RemoveFrom(exec, tid);
      }
      if !found {
        found := RemoveFrom(frozen, tid);
      }
      if !found && device == Some(tid) {
        device := None;
        found := true;
      }
      if !found {
        found := RemoveFrom(blocked, tid);
      }
      if found {
        crew := crew - {tid};
      }
    }

    // ----- The cycle -----------------------------------------------------------------------------------------------------

    /** One round of the planner's loop. The order in which the CPUs ran the members, and that in which they put them
        back, come from the protocol of a cycle. */
    method OneCycle(runs: seq<Word>, after: seq<Word>)
      requires Valid() && Cycle(config, S(), runs, after).Some? && Fair(config, Prepare(config, S()).value.exec, runs, after)
      modifies Parts()
      ensures Valid() && S() == Cycle(config, old(S()), runs, after).value
    {
      if !sabotage {
        AdmitFromNewToReady();
      } else if starting {
        InitSabotageRoutine();
      }
      AdmitFromReadyToExec();
      assert |multiset(after)| == |after| && |multiset(exec.data)| == |exec.data|;
      RunCpus(runs, after);
      IoDevice();
      CheckExecQueue();
      CheckExpulsions();
    }
  }

  lemma TerminateRequests(s: Sched, tid: Word, rest: seq<Word>)
    ensures Terminate(s.(requests := rest), tid) == Terminate(s, tid).(requests := rest)
  {
    if tid in s.news {
    } else if tid in s.ready {
    } else if tid in s.exec {
    } else if tid in s.frozen {
    } else if s.device == Some(tid) {
    } else if tid in s.blocked {
    }
  }
}
