/** What every cycle of the planner keeps: each crew member is in exactly one place, the one its state names. */
module ScheduleLaws {
  import opened Memory
  import opened CrewTable
  import opened Schedule

  // ----- How far it is ---------------------------------------------------------------------------------------

  function Apart(a: Word, b: Word): nat {
    if a < b then b - a else a - b
  }

  /** The moves that it takes from one position to the other. */
  function Distance(a: Pos, b: Pos): nat {
    Apart(a.x, b.x) + Apart(a.y, b.y)
  }

  lemma TowardCloser(p: Pos, to: Pos)
    ensures if p == to then Distance(p, to) == 0 && Toward(p, to) == p else Distance(Toward(p, to), to) == Distance(p, to) - 1
  {
  }

  // ----- Everybody is in one place --------------------------------------------------------------------------

  function Count(q: seq<Word>, tid: Word): nat {
    multiset(q)[tid]
  }

  function One(b: bool): nat {
    if b then 1 else 0
  }

  /** In how many places a tid is to be found. */
  function Places(s: Sched, tid: Word): nat {
    Count(s.news, tid) + Count(s.ready, tid) + Count(s.exec, tid) + Count(s.blocked, tid) + Count(s.frozen, tid)
      + One(s.device == Some(tid))
  }

  ghost predicate InPlace(s: Sched, tid: Word, state: State) {
    match state
    case New => tid in s.news
    case Ready => tid in s.ready
    case Exec => tid in s.exec
    case BlockIo => tid in s.blocked || s.device == Some(tid)
    case BlockSabotage => tid in s.frozen
  }

  /** A crew member is in exactly one place, the one its state names; nobody else is anywhere. */
  ghost predicate Housed(s: Sched, tid: Word) {
    && Places(s, tid) == One(tid in s.crew)
    && (tid in s.crew ==> InPlace(s, tid, s.crew[tid].state))
  }

  ghost predicate AllHoused(s: Sched) {
    forall tid {:trigger Housed(s, tid)} :: Housed(s, tid)
  }

  lemma CountPop(q: seq<Word>, tid: Word)
    requires q != []
    ensures Count(q[1..], tid) + One(tid == q[0]) == Count(q, tid)
  {
    assert q == [q[0]] + q[1..];
  }

  lemma CountPush(q: seq<Word>, t: Word, tid: Word)
    ensures Count(q + [t], tid) == Count(q, tid) + One(tid == t)
  {
  }

  lemma CountRemove(q: seq<Word>, i: nat, tid: Word)
    requires i < |q|
    ensures Count(RemoveAt(q, i), tid) + One(tid == q[i]) == Count(q, tid)
  {
    assert q == q[..i] + [q[i]] + q[i + 1..];
  }

  lemma CountIn(q: seq<Word>, tid: Word)
    ensures tid in q <==> Count(q, tid) > 0
  {
  }

  /** The states of the members named in the queues. */
  lemma StateOf(s: Sched, tid: Word)
    requires Housed(s, tid)
    ensures tid in s.news ==> tid in s.crew && s.crew[tid].state == New
    ensures tid in s.ready ==> tid in s.crew && s.crew[tid].state == Ready
    ensures tid in s.exec ==> tid in s.crew && s.crew[tid].state == Exec
    ensures tid in s.blocked || s.device == Some(tid) ==> tid in s.crew && s.crew[tid].state == BlockIo
    ensures tid in s.frozen ==> tid in s.crew && s.crew[tid].state == BlockSabotage
  {
    CountIn(s.news, tid);
    CountIn(s.ready, tid);
    CountIn(s.exec, tid);
    CountIn(s.blocked, tid);
    CountIn(s.frozen, tid);
  }

  lemma AdmitOneHoused(s: Sched)
    requires AllHoused(s) && s.news != []
    ensures AllHoused(AdmitOne(s))
  {
    var tid := s.news[0];
    forall x ensures Housed(AdmitOne(s), x) {
      assert Housed(s, x);
      StateOf(s, x);
      CountPop(s.news, x);
      CountPush(s.ready, tid, x);
    }
  }

  lemma DispatchHoused(s: Sched)
    requires AllHoused(s) && s.ready != []
    ensures AllHoused(Dispatch(s))
  {
    var tid := s.ready[0];
    forall x ensures Housed(Dispatch(s), x) {
      assert Housed(s, x);
      StateOf(s, x);
      CountPop(s.ready, x);
      CountPush(s.exec, tid, x);
    }
  }

  /** Changing a member without moving it. */
  lemma ChangedHoused(s: Sched, s': Sched)
    requires AllHoused(s)
    requires s' == s.(crew := s'.crew, requests := s'.requests) && s'.crew.Keys == s.crew.Keys
    requires forall x :: x in s.crew ==> s'.crew[x].state == s.crew[x].state
    ensures AllHoused(s')
  {
    forall x ensures Housed(s', x) {
      assert Housed(s, x);
      assert x in s'.crew <==> x in s.crew;
    }
  }

  lemma RunOneHoused(s: Sched, tid: Word)
    requires AllHoused(s) && tid in s.exec && RunOne(s, tid).Some?
    ensures AllHoused(RunOne(s, tid).value)
    ensures RunOne(s, tid).value.exec == s.exec
  {
    assert Housed(s, tid);
    StateOf(s, tid);
    ChangedHoused(s, RunOne(s, tid).value);
  }

  lemma TakeInHoused(s: Sched)
    requires AllHoused(s)
    ensures AllHoused(TakeIn(s))
  {
    if s.device.None? && s.blocked != [] {
      forall x ensures Housed(TakeIn(s), x) {
        assert Housed(s, x);
        StateOf(s, x);
        CountPop(s.blocked, x);
      }
    }
  }

  lemma CountDownHoused(s: Sched)
    requires AllHoused(s) && s.device.Some? && CountDown(s).Some?
    ensures AllHoused(CountDown(s).value)
  {
    var s', tid := CountDown(s).value, s.device.value;
    assert Housed(s, tid);
    StateOf(s, tid);
    if s'.device == s.device {
      ChangedHoused(s, s');
    } else {
      forall x ensures Housed(s', x) {
        assert Housed(s, x);
        DoneHoused(s, x);
      }
    }
  }

  lemma DoneHoused(s: Sched, x: Word)
    requires s.device.Some? && CountDown(s).Some? && CountDown(s).value.device.None?
    requires Housed(s, x) && Housed(s, s.device.value)
    ensures Housed(CountDown(s).value, x)
  {
    var tid := s.device.value;
    StateOf(s, x);
    if TakeTask(Get(s, tid)).task.Some? {
      CountPush(s.ready, tid, x);
    } else {
      Gone(s, CountDown(s).value, tid, x);
    }
  }

  /** A member leaves the crew and the one place it was in. */
  lemma Gone(s: Sched, s': Sched, tid: Word, x: Word)
    requires Housed(s, x) && Housed(s, tid) && tid in s.crew && s'.crew == s.crew - {tid}
    requires Places(s', x) + One(x == tid) == Places(s, x)
    requires x != tid ==> StaysPut(s, s', x)
    ensures Housed(s', x)
  {
  }

  /** Wherever the tid was found, it still is. */
  ghost predicate StaysPut(s: Sched, s': Sched, x: Word) {
    && (x in s.news ==> x in s'.news) && (x in s.ready ==> x in s'.ready) && (x in s.exec ==> x in s'.exec)
    && (x in s.blocked ==> x in s'.blocked) && (x in s.frozen ==> x in s'.frozen)
    && (s.device == Some(x) ==> s'.device == Some(x))
  }

  lemma IoStepHoused(s: Sched)
    requires AllHoused(s) && IoStep(s).Some?
    ensures AllHoused(IoStep(s).value)
  {
    TakeInHoused(s);
    if !s.sabotage && TakeIn(s).device.Some? {
      CountDownHoused(TakeIn(s));
    }
  }

  lemma TickHoused(c: Config, s: Sched, i: nat)
    requires AllHoused(s) && i < |s.exec|
    ensures AllHoused(Tick(c, s, i))
  {
    var tid := s.exec[i];
    assert Housed(s, tid);
    StateOf(s, tid);
    if !Leaves(c, s, tid) {
      ChangedHoused(s, Tick(c, s, i));
    } else {
      forall x ensures Housed(Tick(c, s, i), x) {
        assert Housed(s, x);
        LeaveHoused(c, s, i, x);
      }
    }
  }

  lemma LeaveHoused(c: Config, s: Sched, i: nat, x: Word)
    requires i < |s.exec| && Housed(s, x) && Housed(s, s.exec[i]) && Leaves(c, s, s.exec[i])
    ensures Housed(Tick(c, s, i), x)
  {
    var tid := s.exec[i];
    StateOf(s, x);
    StateOf(s, tid);
    CountRemove(s.exec, i, x);
    if !Get(s, tid).block {
      CountPush(s.ready, tid, x);
    } else if s.sabotage {
      CountPush(s.frozen, tid, x);
    } else {
      CountPush(s.blocked, tid, x);
    }
  }

  lemma TerminateHoused(s: Sched, tid: Word)
    requires AllHoused(s)
    ensures AllHoused(Terminate(s, tid)) && tid !in Terminate(s, tid).crew
    ensures forall x :: x in Terminate(s, tid).crew ==> x in s.crew && Terminate(s, tid).crew[x] == s.crew[x]
    ensures forall x :: x in s.crew && x != tid ==> x in Terminate(s, tid).crew && Terminate(s, tid).crew[x] == s.crew[x]
  {
    assert Housed(s, tid);
    StateOf(s, tid);
    forall x ensures Housed(Terminate(s, tid), x) {
      assert Housed(s, x);
      TerminateHousedAt(s, tid, x);
    }
  }

  lemma TerminateHousedAt(s: Sched, tid: Word, x: Word)
    requires Housed(s, x) && Housed(s, tid)
    ensures Housed(Terminate(s, tid), x)
  {
    StateOf(s, tid);
    if tid in s.crew {
      TerminatePlaces(s, tid, x);
      Gone(s, Terminate(s, tid), tid, x);
    }
  }

  lemma TerminatePlaces(s: Sched, tid: Word, x: Word)
    requires tid in s.crew && Housed(s, tid)
    ensures Places(Terminate(s, tid), x) + One(x == tid) == Places(s, x)
    ensures x != tid ==> StaysPut(s, Terminate(s, tid), x)
    ensures Terminate(s, tid).crew == s.crew - {tid}
  {
    if tid in s.news {
      RemovedFrom(s.news, tid, x);
    } else if tid in s.ready {
      RemovedFrom(s.ready, tid, x);
    } else if tid in s.exec {
      RemovedFrom(s.exec, tid, x);
    } else {
      TerminateElsewhere(s, tid, x);
    }
  }

  lemma TerminateElsewhere(s: Sched, tid: Word, x: Word)
    requires tid in s.crew && Housed(s, tid) && tid !in s.news && tid !in s.ready && tid !in s.exec
    ensures Places(Terminate(s, tid), x) + One(x == tid) == Places(s, x)
    ensures x != tid ==> StaysPut(s, Terminate(s, tid), x)
    ensures Terminate(s, tid).crew == s.crew - {tid}
  {
    if tid in s.frozen {
      RemovedFrom(s.frozen, tid, x);
    } else if s.device != Some(tid) {
      RemovedFrom(s.blocked, tid, x);
    }
  }

  lemma RemovedFrom(q: seq<Word>, tid: Word, x: Word)
    ensures tid in q ==> Count(Without(q, tid), x) + One(x == tid) == Count(q, x)
    ensures tid in q && x != tid && x in q ==> x in Without(q, tid)
  {
    if tid in q {
      CountRemove(q, IndexOf(q, tid), x);
      CountIn(q, x);
      CountIn(Without(q, tid), x);
    }
  }

  lemma FreezeOneExecHoused(s: Sched)
    requires AllHoused(s) && s.exec != []
    ensures AllHoused(FreezeOneExec(s))
  {
    forall x ensures Housed(FreezeOneExec(s), x) {
      assert Housed(s, x);
      StateOf(s, x);
      CountPop(s.exec, x);
      CountPush(s.frozen, s.exec[0], x);
    }
  }

  lemma FreezeOneReadyHoused(s: Sched)
    requires AllHoused(s) && s.ready != []
    ensures AllHoused(FreezeOneReady(s))
  {
    forall x ensures Housed(FreezeOneReady(s), x) {
      assert Housed(s, x);
      StateOf(s, x);
      CountPop(s.ready, x);
      CountPush(s.frozen, s.ready[0], x);
    }
  }

  lemma UnfreezeOneHoused(s: Sched)
    requires AllHoused(s) && s.frozen != []
    ensures AllHoused(UnfreezeOne(s))
  {
    forall x ensures Housed(UnfreezeOne(s), x) {
      assert Housed(s, x);
      StateOf(s, x);
      CountPop(s.frozen, x);
      CountPush(s.ready, s.frozen[0], x);
    }
  }

  // ----- What holds in the middle of a cycle, and what at its ends --------------------------------------------

  datatype Phase = Calm | Notified | Hunting | Waiting

  /** Where the sabotage protocol is: off; announced; one member on its way, nobody else in READY or EXEC; or everybody
      frozen until the time is over. */
  ghost predicate InPhase(s: Sched, phase: Phase) {
    match phase
    case Calm => !s.sabotage && !s.starting && !s.handling && s.frozen == []
    case Notified => s.sabotage && s.starting && !s.handling && s.frozen == []
    case Hunting => s.sabotage && !s.starting && !s.handling && |s.ready| + |s.exec| <= 1
    case Waiting => s.sabotage && !s.starting && s.handling && s.ready == [] && s.exec == []
  }

  /** Any phase but the announcement. */
  ghost predicate Working(s: Sched) {
    InPhase(s, Calm) || InPhase(s, Hunting) || InPhase(s, Waiting)
  }

  /** A member that is to block is in EXEC; one that has not been admitted has no task yet; one that waits for the I/O
      device has one. */
  ghost predicate TripMid(s: Sched, tid: Word) {
    tid in s.crew ==>
      var t := s.crew[tid];
      && (t.block ==> t.state == Exec && (s.sabotage || (t.task.Some? && t.task.value.blocking && t.task.value.pos == t.pos)))
      && (t.state == New ==> t.task.None?)
      && (t.state == BlockIo ==> t.task.Some?)
  }

  ghost predicate Mid(c: Config, s: Sched) {
    && c.cpus > 0
    && AllHoused(s)
    && (forall tid {:trigger TripMid(s, tid)} :: TripMid(s, tid))
    && |s.exec| <= c.cpus
    && (Working(s) || InPhase(s, Notified))
  }

  ghost predicate TripGood(s: Sched, tid: Word) {
    tid in s.crew ==> !s.crew[tid].block
  }

  /** At the end of a cycle moreover nobody is waiting to block. */
  ghost predicate Good(c: Config, s: Sched) {
    && Mid(c, s)
    && forall tid {:trigger TripGood(s, tid)} :: TripGood(s, tid)
  }

  /** A step that leaves all members but one alone. */
  lemma MidOthers(s: Sched, s': Sched, tid: Word)
    requires forall x {:trigger TripMid(s, x)} :: TripMid(s, x)
    requires forall x :: x in s'.crew && x != tid ==> x in s.crew && s'.crew[x] == s.crew[x]
    requires TripMid(s', tid) && (forall x :: x in s.requests ==> x in s'.requests) && s'.sabotage == s.sabotage
    ensures forall x {:trigger TripMid(s', x)} :: TripMid(s', x)
  {
    forall x ensures TripMid(s', x) {
      assert TripMid(s, x);
    }
  }

  ghost predicate TripsMid(s: Sched) {
    forall tid {:trigger TripMid(s, tid)} :: TripMid(s, tid)
  }

  /** Everybody is in place and nobody waits to block; unlike the invariant in the middle of a cycle this survives being
      frozen. */
  ghost predicate Settled(s: Sched) {
    AllHoused(s) && TripsMid(s) && forall tid {:trigger TripGood(s, tid)} :: TripGood(s, tid)
  }

  lemma SettledOthers(s: Sched, s': Sched, tid: Word)
    requires Settled(s) && AllHoused(s') && TripMid(s', tid) && TripGood(s', tid)
    requires forall x :: x in s'.crew && x != tid ==> x in s.crew && s'.crew[x] == s.crew[x]
    requires s'.requests == s.requests && s'.sabotage == s.sabotage
    ensures Settled(s')
  {
    MidOthers(s, s', tid);
    forall x ensures TripGood(s', x) {
      assert TripGood(s, x);
    }
  }

  lemma AdmitOneGood(c: Config, s: Sched)
    requires Good(c, s) && InPhase(s, Calm) && s.news != []
    ensures Good(c, AdmitOne(s)) && InPhase(AdmitOne(s), Calm)
  {
    var tid := s.news[0];
    assert Housed(s, tid) && TripMid(s, tid) && TripGood(s, tid);
    StateOf(s, tid);
    AdmitOneHoused(s);
    SettledOthers(s, AdmitOne(s), tid);
  }

  lemma {:induction false} AdmitNewsGood(c: Config, s: Sched)
    requires Good(c, s) && InPhase(s, Calm)
    ensures Good(c, AdmitNews(s)) && InPhase(AdmitNews(s), Calm)
    decreases |s.news|
  {
    if s.news != [] {
      AdmitOneGood(c, s);
      AdmitNewsGood(c, AdmitOne(s));
    }
  }

  lemma DispatchGood(c: Config, s: Sched, phase: Phase)
    requires Good(c, s) && InPhase(s, phase) && !phase.Notified? && !Full(c, s) && s.ready != []
    ensures Good(c, Dispatch(s)) && InPhase(Dispatch(s), phase)
  {
    var tid := s.ready[0];
    assert Housed(s, tid) && TripMid(s, tid) && TripGood(s, tid);
    StateOf(s, tid);
    DispatchHoused(s);
    SettledOthers(s, Dispatch(s), tid);
  }

  lemma {:induction false} FillExecGood(c: Config, s: Sched, phase: Phase)
    requires Good(c, s) && InPhase(s, phase) && !phase.Notified?
    ensures Good(c, FillExec(c, s)) && InPhase(FillExec(c, s), phase)
    decreases |s.ready|
  {
    if !Full(c, s) && s.ready != [] {
      DispatchGood(c, s, phase);
      FillExecGood(c, Dispatch(s), phase);
    }
  }

  // ----- The members run --------------------------------------------------------------------------------------------

  lemma RunOneMid(c: Config, s: Sched, tid: Word, phase: Phase)
    requires Mid(c, s) && InPhase(s, phase) && tid in s.exec && RunOne(s, tid).Some?
    ensures Mid(c, RunOne(s, tid).value) && InPhase(RunOne(s, tid).value, phase)
    ensures RunOne(s, tid).value.exec == s.exec
  {
    assert Housed(s, tid) && TripMid(s, tid);
    StateOf(s, tid);
    RunOneHoused(s, tid);
    MidOthers(s, RunOne(s, tid).value, tid);
  }

  lemma {:induction false} RunAllMid(c: Config, s: Sched, runs: seq<Word>, phase: Phase)
    requires Mid(c, s) && InPhase(s, phase) && RunAll(s, runs).Some? && forall tid :: tid in runs ==> tid in s.exec
    ensures Mid(c, RunAll(s, runs).value) && InPhase(RunAll(s, runs).value, phase)
    ensures RunAll(s, runs).value.exec == s.exec
    decreases |runs|
  {
    if runs != [] {
      RunOneMid(c, s, runs[0], phase);
      RunAllMid(c, RunOne(s, runs[0]).value, runs[1..], phase);
    }
  }

  /** The order in EXEC does not matter. */
  lemma ReorderMid(c: Config, s: Sched, after: seq<Word>, phase: Phase)
    requires Mid(c, s) && InPhase(s, phase) && multiset(after) == multiset(s.exec)
    ensures Mid(c, s.(exec := after)) && InPhase(s.(exec := after), phase)
  {
    var s' := s.(exec := after);
    assert |multiset(after)| == |after| && |multiset(s.exec)| == |s.exec|;
    if s.exec == [] {
      assert after == [];
    }
    forall x ensures Housed(s', x) {
      assert Housed(s, x);
      CountIn(s.exec, x);
      CountIn(after, x);
    }
    forall x ensures TripMid(s', x) {
      assert TripMid(s, x);
    }
  }

  /** The I/O device always finds a task to count down. */
  lemma IoStepMid(c: Config, s: Sched, phase: Phase)
    requires Mid(c, s) && InPhase(s, phase)
    ensures IoStep(s).Some?
    ensures Mid(c, IoStep(s).value) && InPhase(IoStep(s).value, phase)
  {
    if !s.sabotage {
      TakeInHoused(s);
      var s1 := TakeIn(s);
      if s1.device.Some? {
        var tid := s1.device.value;
        assert Housed(s1, tid) && TripMid(s, tid);
        StateOf(s1, tid);
        CountDownHoused(s1);
        MidOthers(s, IoStep(s).value, tid);
      } else {
        MidOthers(s, IoStep(s).value, 0);
      }
    }
  }

  // ----- The end of the cycle ------------------------------------------------------------------------------------------

  /** Nobody in EXEC before position `i` is waiting to block. */
  ghost predicate RestedUpTo(s: Sched, i: nat) {
    i <= |s.exec| && forall j :: 0 <= j < i ==> !Get(s, s.exec[j]).block
  }

  lemma TickMid(c: Config, s: Sched, i: nat)
    requires Mid(c, s) && Working(s) && i < |s.exec| && RestedUpTo(s, i)
    ensures Mid(c, Tick(c, s, i)) && Working(Tick(c, s, i))
    ensures RestedUpTo(Tick(c, s, i), if Leaves(c, s, s.exec[i]) then i else i + 1)
  {
    hide AllHoused, Housed, Places;
    var tid := s.exec[i];
    var s' := Tick(c, s, i);
    InExec(s, i);
    TickHoused(c, s, i);
    OncePerQueue(s, i);
    assert TripMid(s, tid);
    MidOthers(s, s', tid);
  }

  lemma InExec(s: Sched, i: nat)
    requires AllHoused(s) && i < |s.exec|
    ensures s.exec[i] in s.crew && s.crew[s.exec[i]].state == Exec
  {
    assert Housed(s, s.exec[i]);
    StateOf(s, s.exec[i]);
  }

  lemma OncePerQueue(s: Sched, i: nat)
    requires AllHoused(s) && i < |s.exec|
    ensures forall j :: 0 <= j < |s.exec| && j != i ==> s.exec[j] != s.exec[i]
  {
    var rest := RemoveAt(s.exec, i);
    assert Housed(s, s.exec[i]);
    CountRemove(s.exec, i, s.exec[i]);
    CountIn(rest, s.exec[i]);
    forall j | 0 <= j < |s.exec| && j != i ensures s.exec[j] != s.exec[i] {
      assert rest[if j < i then j else j - 1] == s.exec[j];
    }
  }

  lemma {:induction false} SweepMid(c: Config, s: Sched, i: nat)
    requires Mid(c, s) && Working(s) && RestedUpTo(s, i)
    ensures Mid(c, Sweep(c, s, i)) && Working(Sweep(c, s, i))
    ensures RestedUpTo(Sweep(c, s, i), |Sweep(c, s, i).exec|)
    decreases |s.exec| - i
  {
    if i < |s.exec| {
      TickMid(c, s, i);
      SweepMid(c, Tick(c, s, i), if Leaves(c, s, s.exec[i]) then i else i + 1);
    }
  }

  lemma UnfreezeOneMid(s: Sched)
    requires AllHoused(s) && TripsMid(s) && s.frozen != []
    ensures AllHoused(UnfreezeOne(s)) && TripsMid(UnfreezeOne(s)) && UnfreezeOne(s).crew.Keys == s.crew.Keys
  {
    var tid := s.frozen[0];
    assert Housed(s, tid) && TripMid(s, tid);
    StateOf(s, tid);
    UnfreezeOneHoused(s);
    MidOthers(s, UnfreezeOne(s), tid);
  }

  lemma {:induction false} UnfreezeMid(s: Sched)
    requires AllHoused(s) && TripsMid(s)
    ensures AllHoused(Unfreeze(s)) && TripsMid(Unfreeze(s))
    ensures Unfreeze(s).frozen == [] && Unfreeze(s).exec == s.exec && Unfreeze(s).ready == s.ready + s.frozen
    ensures Unfreeze(s) == s.(crew := Unfreeze(s).crew, ready := s.ready + s.frozen, frozen := [])
    ensures Unfreeze(s).crew.Keys == s.crew.Keys
    ensures forall tid :: tid in s.crew ==> Unfreeze(s).crew[tid].block == s.crew[tid].block
    decreases |s.frozen|
  {
    if s.frozen != [] {
      UnfreezeOneMid(s);
      UnfreezeMid(UnfreezeOne(s));
      assert s.frozen == [s.frozen[0]] + s.frozen[1..];
    } else {
      assert s.ready + [] == s.ready;
    }
  }

  lemma CheckExecMid(c: Config, s: Sched)
    requires Mid(c, s) && Working(s)
    ensures Mid(c, CheckExec(c, s)) && Working(CheckExec(c, s))
    ensures forall tid :: tid in CheckExec(c, s).crew ==> !CheckExec(c, s).crew[tid].block
  {
    var s' := CheckExec(c, s);
    if s.handling {
      NobodyBlocks(c, s);
      if s.remaining == 0 {
        UnfreezeMid(s);
        ResetMid(Unfreeze(s), s');
      } else {
        ResetMid(s, s');
      }
    } else {
      SweepMid(c, s, 0);
    }
    NobodyBlocks(c, s');
  }

  /** The flags of the protocol are nobody's business. */
  lemma ResetMid(s: Sched, s': Sched)
    requires AllHoused(s) && TripsMid(s)
    requires s'.sabotage ==> s.sabotage
    requires s'.sabotage == s.sabotage || forall tid :: tid in s.crew ==> !s.crew[tid].block
    requires s' == s.(sabotage := s'.sabotage, starting := s'.starting, handling := s'.handling, remaining := s'.remaining)
    ensures AllHoused(s') && TripsMid(s')
  {
    forall x ensures Housed(s', x) && TripMid(s', x) {
      assert Housed(s, x) && TripMid(s, x);
    }
  }

  lemma NobodyBlocks(c: Config, s: Sched)
    requires Mid(c, s) && RestedUpTo(s, |s.exec|)
    ensures forall tid :: tid in s.crew ==> !s.crew[tid].block
  {
    forall tid | tid in s.crew ensures !s.crew[tid].block {
      assert Housed(s, tid) && TripMid(s, tid);
      if s.crew[tid].state == Exec {
        var j :| 0 <= j < |s.exec| && s.exec[j] == tid;
        assert !Get(s, s.exec[j]).block;
      }
    }
  }

  lemma TerminateMid(c: Config, s: Sched)
    requires Mid(c, s) && Working(s) && s.requests != []
    ensures Mid(c, Terminate(s, s.requests[0]).(requests := s.requests[1..]))
    ensures Working(Terminate(s, s.requests[0]).(requests := s.requests[1..]))
    ensures forall x :: x in Terminate(s, s.requests[0]).crew ==> x in s.crew && Terminate(s, s.requests[0]).crew[x] == s.crew[x]
  {
    var tid := s.requests[0];
    TerminateHoused(s, tid);
    TerminateShrinks(s, tid);
    RequestsHoused(Terminate(s, tid), s.requests[1..]);
    TerminateTrips(s, tid);
  }

  lemma RequestsHoused(s: Sched, requests: seq<Word>)
    requires AllHoused(s)
    ensures AllHoused(s.(requests := requests))
  {
    forall x ensures Housed(s.(requests := requests), x) {
      assert Housed(s, x);
    }
  }

  lemma TerminateTrips(s: Sched, tid: Word)
    requires AllHoused(s) && TripsMid(s) && s.requests != [] && s.requests[0] == tid
    ensures TripsMid(Terminate(s, tid).(requests := s.requests[1..]))
  {
    var s' := Terminate(s, tid).(requests := s.requests[1..]);
    TerminateHoused(s, tid);
    TerminateShrinks(s, tid);
    assert s.requests == [tid] + s.requests[1..];
    hide Terminate, Housed;
    forall x ensures TripMid(s', x) {
      assert TripMid(s, x);
    }
  }

  lemma TerminateShrinks(s: Sched, tid: Word)
    ensures var s' := Terminate(s, tid);
      && |s'.ready| <= |s.ready| && |s'.exec| <= |s.exec| && |s'.frozen| <= |s.frozen|
      && s'.requests == s.requests && s'.target == s.target && s'.remaining == s.remaining
      && s'.sabotage == s.sabotage && s'.starting == s.starting && s'.handling == s.handling
  {
  }

  /** When all requests have been served, the cycle is over. */
  lemma {:induction false} ServeGood(c: Config, s: Sched)
    requires Mid(c, s) && Working(s) && forall tid :: tid in s.crew ==> !s.crew[tid].block
    ensures Good(c, ServeRequests(s)) && Working(ServeRequests(s))
    decreases |s.requests|
  {
    if s.requests == [] {
      forall tid ensures TripGood(s, tid) {
        assert TripMid(s, tid);
      }
    } else {
      TerminateMid(c, s);
      ServeGood(c, Terminate(s, s.requests[0]).(requests := s.requests[1..]));
    }
  }

  // ----- The sabotage routine begins ----------------------------------------------------------------------------

  lemma {:induction false} InsertCounts(tid: Word, q: seq<Word>, x: Word)
    ensures Count(InsertTid(tid, q), x) == Count(q, x) + One(x == tid)
    ensures |InsertTid(tid, q)| == |q| + 1
  {
    if q != [] && q[0] < tid {
      InsertCounts(tid, q[1..], x);
      assert q == [q[0]] + q[1..];
    }
  }

  ghost predicate Ascending(q: seq<Word>) {
    forall i, j :: 0 <= i < j < |q| ==> q[i] <= q[j]
  }

  lemma {:induction false} InsertAscending(tid: Word, q: seq<Word>)
    requires Ascending(q)
    ensures Ascending(InsertTid(tid, q))
  {
    if q != [] && q[0] < tid {
      InsertAscending(tid, q[1..]);
      var r := InsertTid(tid, q[1..]);
      forall j | 0 <= j < |r| ensures q[0] <= r[j] {
        CountIn(r, r[j]);
        InsertCounts(tid, q[1..], r[j]);
        CountIn(q[1..], r[j]);
      }
    }
  }

  lemma {:induction false} SortIntoCounts(sorted: seq<Word>, q: seq<Word>, x: Word)
    requires Ascending(sorted)
    ensures Count(SortInto(sorted, q), x) == Count(sorted, x) + Count(q, x)
    ensures |SortInto(sorted, q)| == |sorted| + |q| && Ascending(SortInto(sorted, q))
    decreases |q|
  {
    if q != [] {
      InsertCounts(q[0], sorted, x);
      InsertAscending(q[0], sorted);
      SortIntoCounts(InsertTid(q[0], sorted), q[1..], x);
      CountPop(q, x);
    }
  }

  /** Sorting by tid loses nobody. */
  lemma SortCounts(q: seq<Word>, x: Word)
    ensures Count(SortTids(q), x) == Count(q, x)
    ensures |SortTids(q)| == |q| && Ascending(SortTids(q))
  {
    SortIntoCounts([], q, x);
  }

  lemma SortMid(s: Sched)
    requires AllHoused(s) && TripsMid(s)
    ensures AllHoused(SortExec(s)) && TripsMid(SortExec(s)) && |SortExec(s).exec| == |s.exec|
    ensures AllHoused(SortReady(s)) && TripsMid(SortReady(s)) && |SortReady(s).ready| == |s.ready|
  {
    forall x ensures Housed(SortExec(s), x) && Housed(SortReady(s), x) {
      assert Housed(s, x);
      SortCounts(s.exec, x);
      SortCounts(s.ready, x);
      CountIn(s.exec, x);
      CountIn(SortTids(s.exec), x);
      CountIn(s.ready, x);
      CountIn(SortTids(s.ready), x);
    }
    forall x ensures TripMid(SortExec(s), x) && TripMid(SortReady(s), x) {
      assert TripMid(s, x);
    }
    SortCounts(s.exec, 0);
    SortCounts(s.ready, 0);
  }

  /** Positions and tasks have stayed as they were. */
  ghost predicate SameTrips(s: Sched, s': Sched) {
    && s'.crew.Keys == s.crew.Keys
    && (forall x :: x in s.crew ==> s'.crew[x].pos == s.crew[x].pos && s'.crew[x].task == s.crew[x].task)
    && (forall x :: x in s.crew ==> s'.crew[x].quantum == s.crew[x].quantum)
    && (forall x :: x in s.crew ==> s'.crew[x].todo == s.crew[x].todo && (s'.crew[x].state == New <==> s.crew[x].state == New))
    && s'.target == s.target && s'.requests == s.requests && s'.news == s.news && s'.blocked == s.blocked && s'.device == s.device
    && s'.sabotage == s.sabotage && s'.handling == s.handling && s'.starting == s.starting
  }

  lemma FreezeOneExecSettled(s: Sched)
    requires Settled(s) && s.exec != []
    ensures Settled(FreezeOneExec(s)) && SameTrips(s, FreezeOneExec(s))
  {
    var tid := s.exec[0];
    assert Housed(s, tid) && TripMid(s, tid) && TripGood(s, tid);
    StateOf(s, tid);
    FreezeOneExecHoused(s);
    SettledOthers(s, FreezeOneExec(s), tid);
  }

  lemma {:induction false} FreezeExecAll(s: Sched)
    requires Settled(s)
    ensures Settled(FreezeExec(s)) && SameTrips(s, FreezeExec(s))
    ensures FreezeExec(s).exec == [] && FreezeExec(s).ready == s.ready && FreezeExec(s).frozen == s.frozen + s.exec
    decreases |s.exec|
  {
    if s.exec == [] {
      assert s.frozen + [] == s.frozen;
    } else {
      FreezeOneExecSettled(s);
      FreezeExecAll(FreezeOneExec(s));
      assert s.frozen + s.exec == s.frozen + [s.exec[0]] + s.exec[1..];
    }
  }

  lemma FreezeOneReadySettled(s: Sched)
    requires Settled(s) && s.ready != []
    ensures Settled(FreezeOneReady(s)) && SameTrips(s, FreezeOneReady(s))
  {
    var tid := s.ready[0];
    assert Housed(s, tid) && TripMid(s, tid) && TripGood(s, tid);
    StateOf(s, tid);
    FreezeOneReadyHoused(s);
    SettledOthers(s, FreezeOneReady(s), tid);
  }

  lemma {:induction false} FreezeReadyAll(s: Sched)
    requires Settled(s)
    ensures Settled(FreezeReady(s)) && SameTrips(s, FreezeReady(s))
    ensures FreezeReady(s).ready == [] && FreezeReady(s).exec == s.exec && FreezeReady(s).frozen == s.frozen + s.ready
    decreases |s.ready|
  {
    if s.ready == [] {
      assert s.frozen + [] == s.frozen;
    } else {
      FreezeOneReadySettled(s);
      FreezeReadyAll(FreezeOneReady(s));
      assert s.frozen + s.ready == s.frozen + [s.ready[0]] + s.ready[1..];
    }
  }

  /** Everybody who was in EXEC or READY, frozen in the order of tids, EXEC before READY. */
  function Frozen(s: Sched): seq<Word> {
    SortTids(s.exec) + SortTids(s.ready)
  }

  function FreezeAll(s: Sched): Sched {
    FreezeReady(SortReady(FreezeExec(SortExec(s.(starting := false)))))
  }

  lemma FreezeAllEffect(s: Sched)
    requires Settled(s) && InPhase(s, Notified)
    ensures var s' := FreezeAll(s);
      && Settled(s') && SameTrips(s.(starting := false), s')
      && s'.exec == [] && s'.ready == [] && s'.frozen == Frozen(s)
  {
    hide Housed, TripMid, TripGood, SortTids, Settled, FreezeExec, FreezeReady;
    var s0 := s.(starting := false);
    BegunSettled(s);
    SortSettled(s0);
    FreezeExecAll(SortExec(s0));
    SortSettled(FreezeExec(SortExec(s0)));
    FreezeReadyAll(SortReady(FreezeExec(SortExec(s0))));
  }

  lemma BegunSettled(s: Sched)
    requires Settled(s)
    ensures Settled(s.(starting := false))
  {
    forall x ensures Housed(s.(starting := false), x) && TripMid(s.(starting := false), x) && TripGood(s.(starting := false), x) {
      assert Housed(s, x) && TripMid(s, x) && TripGood(s, x);
    }
  }

  lemma SortSettled(s: Sched)
    requires Settled(s)
    ensures Settled(SortExec(s)) && Settled(SortReady(s))
  {
    SortMid(s);
    forall x ensures TripGood(SortExec(s), x) && TripGood(SortReady(s), x) {
      assert TripGood(s, x);
    }
  }

  /** The choice is the first member of the queue with the least gap, if some gap is below `best`. */
  lemma {:induction false} ClosestIs(s: Sched, q: seq<Word>, best: Word, tid: Word)
    ensures var r := Closest(s, q, best, tid);
      if forall x :: x in q ==> Gap(s, x) >= best then r == tid
      else r in q && Gap(s, r) < best && (forall j :: 0 <= j < |q| ==> Gap(s, r) <= Gap(s, q[j]))
           && (forall j :: 0 <= j < IndexOf(q, r) ==> Gap(s, r) < Gap(s, q[j]))
    decreases |q|
  {
    if q != [] {
      var rest := q[1..];
      assert forall x :: x in q <==> x == q[0] || x in rest;
      if Gap(s, q[0]) < best {
        ClosestIs(s, rest, Gap(s, q[0]), q[0]);
      } else {
        ClosestIs(s, rest, best, tid);
      }
    }
  }

  /** Somebody who can be sent to the sabotage. */
  ghost predicate Candidate(s: Sched) {
    exists tid :: (tid in s.exec || tid in s.ready) && Gap(s, tid) < 0xFFFF_FFFF
  }

  /** The routine finds somebody exactly when some gap is below the largest word, or tid 0 is there. */
  lemma InitSabotageIff(s: Sched)
    requires Settled(s) && InPhase(s, Notified)
    ensures InitSabotage(s).Some? <==> Candidate(s) || 0 in s.exec || 0 in s.ready
  {
    FreezeAllEffect(s);
    var s1 := FreezeAll(s);
    ClosestIs(s1, s1.frozen, 0xFFFF_FFFF, 0);
    forall x ensures x in s1.frozen <==> x in s.exec || x in s.ready {
      InFrozen(s, x);
    }
    forall x | x in s1.frozen ensures Gap(s1, x) == Gap(s, x) {
      assert Housed(s, x);
      StateOf(s, x);
    }
    if tid :| (tid in s.exec || tid in s.ready) && Gap(s, tid) < 0xFFFF_FFFF {
      assert tid in s1.frozen && Gap(s1, tid) < 0xFFFF_FFFF;
    }
  }

  lemma InFrozen(s: Sched, x: Word)
    ensures x in Frozen(s) <==> x in s.exec || x in s.ready
  {
    SortCounts(s.exec, x);
    SortCounts(s.ready, x);
    CountIn(s.exec, x);
    CountIn(SortTids(s.exec), x);
    CountIn(s.ready, x);
    CountIn(SortTids(s.ready), x);
  }

  /** Whom the routine sends: the first of the frozen with the least gap. */
  function Chosen(s: Sched): Word {
    Closest(FreezeAll(s), FreezeAll(s).frozen, 0xFFFF_FFFF, 0)
  }

  /** The member has been sent and nobody else is in READY or EXEC. */
  ghost predicate Hunts(c: Config, s: Sched, chosen: Word) {
    && Good(c, s) && InPhase(s, Hunting)
    && s.ready + s.exec == [chosen]
  }

  lemma InitSabotageEffect(c: Config, s: Sched)
    requires Good(c, s) && InPhase(s, Notified) && InitSabotage(s).Some?
    ensures Chosen(s) in Frozen(s)
    ensures Chosen(s) in s.exec || Chosen(s) in s.ready
    ensures var s' := InitSabotage(s).value;
      && Hunts(c, s', Chosen(s)) && SameTrips(s.(starting := false), s')
      && s'.ready == [Chosen(s)] && s'.exec == [] && s'.frozen == Without(Frozen(s), Chosen(s))
  {
    FreezeAllEffect(s);
    InFrozen(s, Chosen(s));
    SendSettled(FreezeAll(s), Chosen(s));
  }

  /** One of the frozen goes to READY. */
  function Send(s: Sched, tid: Word): Sched
    requires tid in s.frozen
  {
    Set(s, tid, Get(s, tid).(state := Ready)).(frozen := Without(s.frozen, tid), ready := s.ready + [tid])
  }

  lemma SendSettled(s: Sched, tid: Word)
    requires Settled(s) && tid in s.frozen
    ensures Settled(Send(s, tid)) && SameTrips(s, Send(s, tid))
  {
    assert Housed(s, tid) && TripMid(s, tid) && TripGood(s, tid);
    StateOf(s, tid);
    forall x ensures Housed(Send(s, tid), x) {
      assert Housed(s, x);
      SendHoused(s, tid, x);
    }
    SettledOthers(s, Send(s, tid), tid);
  }

  lemma SendHoused(s: Sched, tid: Word, x: Word)
    requires Housed(s, x) && Housed(s, tid) && tid in s.frozen
    ensures Housed(Send(s, tid), x)
  {
    StateOf(s, x);
    RemovedFrom(s.frozen, tid, x);
    CountPush(s.ready, tid, x);
  }

  /** Of all candidates none has a smaller gap than the chosen one. */
  lemma ChosenIsClosest(c: Config, s: Sched)
    requires Good(c, s) && InPhase(s, Notified) && Candidate(s)
    ensures InitSabotage(s).Some?
    ensures Gap(s, Chosen(s)) < 0xFFFF_FFFF
    ensures forall tid :: tid in s.exec || tid in s.ready ==> Gap(s, Chosen(s)) <= Gap(s, tid)
  {
    InitSabotageIff(s);
    FreezeAllEffect(s);
    var s1 := FreezeAll(s);
    ClosestIs(s1, s1.frozen, 0xFFFF_FFFF, 0);
    forall x | x in s.exec || x in s.ready ensures x in s1.frozen && Gap(s1, x) == Gap(s, x) {
      InFrozen(s, x);
      assert Housed(s, x);
      StateOf(s, x);
    }
    InFrozen(s, Chosen(s));
  }

  // ----- Every cycle keeps everybody in one place --------------------------------------------------------------

  lemma PrepareGood(c: Config, s: Sched)
    requires Good(c, s) && Prepare(c, s).Some?
    ensures Good(c, Prepare(c, s).value) && Working(Prepare(c, s).value)
    ensures Prepare(c, s).value.sabotage == s.sabotage
  {
    if !s.sabotage {
      AdmitNewsGood(c, s);
      FillExecGood(c, AdmitNews(s), Calm);
    } else if s.starting {
      InitSabotageEffect(c, s);
      FillExecGood(c, InitSabotage(s).value, Hunting);
    } else {
      FillExecGood(c, s, if InPhase(s, Hunting) then Hunting else Waiting);
    }
  }

  lemma DevicesMid(c: Config, s: Sched, runs: seq<Word>, after: seq<Word>)
    requires Mid(c, s) && Working(s) && Fair(c, s.exec, runs, after) && Devices(s, runs, after).Some?
    ensures Mid(c, Devices(s, runs, after).value) && Working(Devices(s, runs, after).value)
  {
    var phase := if InPhase(s, Calm) then Calm else if InPhase(s, Hunting) then Hunting else Waiting;
    RunAllMid(c, s, runs, phase);
    var s1 := RunAll(s, runs).value;
    ReorderMid(c, s1, after, phase);
    IoStepMid(c, s1.(exec := after), phase);
  }

  /** A whole cycle keeps every crew member in exactly one place, the one its state names. */
  lemma CycleKeeps(c: Config, s: Sched, runs: seq<Word>, after: seq<Word>)
    requires Good(c, s) && Prepare(c, s).Some? && Fair(c, Prepare(c, s).value.exec, runs, after)
    requires Cycle(c, s, runs, after).Some?
    ensures Good(c, Cycle(c, s, runs, after).value) && Working(Cycle(c, s, runs, after).value)
  {
    PrepareGood(c, s);
    var s1 := Prepare(c, s).value;
    DevicesMid(c, s1, runs, after);
    CheckExecMid(c, Devices(s1, runs, after).value);
    ServeGood(c, CheckExec(c, Devices(s1, runs, after).value));
  }

  // ----- Removal during the walk -------------------------------------------------------------------------------

  /** Those of `q` who stay in EXEC, in their order, and those who leave, in theirs. */
  function Stayers(c: Config, s: Sched, q: seq<Word>): seq<Word> {
    if q == [] then [] else (if Leaves(c, s, q[0]) then [] else [q[0]]) + Stayers(c, s, q[1..])
  }

  function Blockers(s: Sched, q: seq<Word>): seq<Word> {
    if q == [] then [] else (if Get(s, q[0]).block then [q[0]] else []) + Blockers(s, q[1..])
  }

  lemma {:induction false} SameLeavers(c: Config, s: Sched, s': Sched, q: seq<Word>)
    requires forall x :: x in q ==> Get(s', x) == Get(s, x)
    ensures Stayers(c, s', q) == Stayers(c, s, q) && Blockers(s', q) == Blockers(s, q)
  {
    if q != [] {
      assert forall x :: x in q[1..] ==> x in q;
      assert q[0] in q;
      SameLeavers(c, s, s', q[1..]);
    }
  }

  /** One look of the walk, with EXEC cut into what has been seen and what has not. */
  lemma TickOrder(c: Config, s: Sched, pre: seq<Word>, tid: Word, rest: seq<Word>)
    requires AllHoused(s) && s.exec == pre + [tid] + rest
    ensures |pre| < |s.exec|
    ensures Tick(c, s, |pre|).exec == if Leaves(c, s, tid) then pre + rest else pre + [tid] + rest
    ensures Tick(c, s, |pre|).sabotage == s.sabotage
    ensures !s.sabotage ==> Tick(c, s, |pre|).blocked == if Get(s, tid).block then s.blocked + [tid] else s.blocked
    ensures forall x :: x in rest ==> Get(Tick(c, s, |pre|), x) == Get(s, x)
  {
    assert s.exec[|pre|] == tid && RemoveAt(s.exec, |pre|) == pre + rest;
    OncePerQueue(s, |pre|);
    hide Housed, AllHoused, Leaves, RemoveAt, Predecessor, QuantumLeft;
    forall j | 0 <= j < |rest| ensures rest[j] != tid {
      assert s.exec[|pre| + 1 + j] == rest[j];
    }
  }

  /** The walk goes on from the state after this look. */
  lemma SweepNext(c: Config, s: Sched, pre: seq<Word>, tid: Word, rest: seq<Word>) returns (s1: Sched, pre1: seq<Word>)
    requires AllHoused(s) && s.exec == pre + [tid] + rest
    ensures Sweep(c, s, |pre|) == Sweep(c, s1, |pre1|)
    ensures AllHoused(s1) && s1.exec == pre1 + rest && s1.sabotage == s.sabotage
    ensures pre1 + Stayers(c, s1, rest) == pre + Stayers(c, s, [tid] + rest)
    ensures !s.sabotage ==> s1.blocked + Blockers(s1, rest) == s.blocked + Blockers(s, [tid] + rest)
  {
    s1 := Tick(c, s, |pre|);
    pre1 := if Leaves(c, s, tid) then pre else pre + [tid];
    assert s.exec[|pre|] == tid;
    TickHoused(c, s, |pre|);
    TickOrder(c, s, pre, tid, rest);
    SameLeavers(c, s, s1, rest);
    StayersCons(c, s, s1, pre, tid, rest);
  }

  lemma StayersCons(c: Config, s: Sched, s1: Sched, pre: seq<Word>, tid: Word, rest: seq<Word>)
    requires Stayers(c, s1, rest) == Stayers(c, s, rest) && Blockers(s1, rest) == Blockers(s, rest)
    ensures (if Leaves(c, s, tid) then pre else pre + [tid]) + Stayers(c, s1, rest) == pre + Stayers(c, s, [tid] + rest)
    ensures (if Get(s, tid).block then s.blocked + [tid] else s.blocked) + Blockers(s1, rest)
         == s.blocked + Blockers(s, [tid] + rest)
  {
    assert ([tid] + rest)[0] == tid && ([tid] + rest)[1..] == rest;
    assert Stayers(c, s, [tid] + rest) == (if Leaves(c, s, tid) then [] else [tid]) + Stayers(c, s, rest);
    assert Blockers(s, [tid] + rest) == (if Get(s, tid).block then [tid] else []) + Blockers(s, rest);
    hide Leaves, Get, Stayers, Blockers;
    PushedBetween(pre, tid, Stayers(c, s, rest), Leaves(c, s, tid));
    PushedBetween(s.blocked, tid, Blockers(s, rest), !Get(s, tid).block);
  }

  lemma PushedBetween(pre: seq<Word>, tid: Word, rest: seq<Word>, skip: bool)
    ensures (if skip then pre else pre + [tid]) + rest == pre + ((if skip then [] else [tid]) + rest)
  {
    if skip {
      assert [] + rest == rest;
    } else {
      assert pre + [tid] + rest == pre + ([tid] + rest);
    }
  }

  /** Removing while walking is filtering: whoever stays in EXEC stays in order, and those who block join BLOCK in the
      order in which they stood in EXEC. */
  lemma {:induction false} SweepFilters(c: Config, s: Sched, pre: seq<Word>, rest: seq<Word>)
    requires AllHoused(s) && s.exec == pre + rest
    ensures Sweep(c, s, |pre|).exec == pre + Stayers(c, s, rest)
    ensures !s.sabotage ==> Sweep(c, s, |pre|).blocked == s.blocked + Blockers(s, rest)
    decreases |rest|
  {
    if rest == [] {
      assert pre + [] == pre && s.blocked + [] == s.blocked;
    } else {
      var tid, rest' := rest[0], rest[1..];
      assert rest == [tid] + rest';
      assert s.exec == pre + [tid] + rest';
      var s1, pre1 := SweepNext(c, s, pre, tid, rest');
      SweepFilters(c, s1, pre1, rest');
    }
  }
}
