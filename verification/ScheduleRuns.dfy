/** Whole histories of the planner: everybody stays in one place whatever happens, and a sabotage ends in time. */
module ScheduleRuns {
  import opened Memory
  import opened CrewTable
  import opened Schedule
  import opened ScheduleLaws
  import opened ScheduleMoves
  import CycleProtocol

  // ----- Any history --------------------------------------------------------------------------------------

  datatype Event =
    | Arrive(tid: Word, trip: Trip)                // a member is started
    | Announce(target: Pos)                        // a sabotage is notified
    | Ask(tid: Word)                               // an expulsion is requested while the planner runs
    | Drop(tid: Word)                              // an expulsion while it is paused
    | Turn(runs: seq<Word>, after: seq<Word>)      // a cycle

  ghost predicate Possible(c: Config, s: Sched, e: Event) {
    match e
    case Arrive(tid, t) => tid !in s.crew && t.state == New && !t.block && t.task.None?
    case Announce(_) => InPhase(s, Calm)
    case Ask(_) => true
    case Drop(_) => true
    case Turn(runs, after) =>
      && Prepare(c, s).Some? && Fair(c, Prepare(c, s).value.exec, runs, after) && Cycle(c, s, runs, after).Some?
  }

  function Follow(c: Config, s: Sched, e: Event): Sched {
    match e
    case Arrive(tid, t) => Set(s, tid, t).(news := s.news + [tid])
    case Announce(target) => Notify(s, target)
    case Ask(tid) => s.(requests := s.requests + [tid])
    case Drop(tid) => Terminate(s, tid)
    case Turn(runs, after) => if Cycle(c, s, runs, after).Some? then Cycle(c, s, runs, after).value else s
  }

  const EMPTY := Sched([], [], [], [], [], None, map[], [], false, false, Pos(0, 0), false, 0)

  ghost predicate IsHistory(c: Config, ss: seq<Sched>, es: seq<Event>) {
    && |ss| == |es| + 1 && ss[0] == EMPTY && c.cpus > 0
    && forall i {:trigger es[i]} :: 0 <= i < |es| ==> Possible(c, ss[i], es[i]) && ss[i + 1] == Follow(c, ss[i], es[i])
  }

  lemma HistoryStep(c: Config, ss: seq<Sched>, es: seq<Event>, k: nat)
    requires IsHistory(c, ss, es) && 0 < k < |ss|
    ensures Possible(c, ss[k - 1], es[k - 1]) && ss[k] == Follow(c, ss[k - 1], es[k - 1])
  {
    assert es[k - 1] in es;
  }

  lemma ArriveGood(c: Config, s: Sched, tid: Word, t: Trip)
    requires Good(c, s) && Possible(c, s, Arrive(tid, t))
    ensures Good(c, Follow(c, s, Arrive(tid, t)))
  {
    var s' := Follow(c, s, Arrive(tid, t));
    assert Housed(s, tid);
    forall x ensures Housed(s', x) {
      assert Housed(s, x);
      CountPush(s.news, tid, x);
    }
    SettledOthers(s, s', tid);
  }

  lemma AnnounceGood(c: Config, s: Sched, target: Pos)
    requires Good(c, s) && InPhase(s, Calm)
    ensures Good(c, Notify(s, target)) && InPhase(Notify(s, target), Notified)
  {
    var s' := Notify(s, target);
    forall x ensures Housed(s', x) && TripMid(s', x) && TripGood(s', x) {
      assert Housed(s, x) && TripMid(s, x) && TripGood(s, x);
    }
  }

  lemma AskGood(c: Config, s: Sched, tid: Word)
    requires Good(c, s)
    ensures Good(c, s.(requests := s.requests + [tid]))
  {
    var s' := s.(requests := s.requests + [tid]);
    forall x ensures Housed(s', x) && TripMid(s', x) && TripGood(s', x) {
      assert Housed(s, x) && TripMid(s, x) && TripGood(s, x);
    }
  }

  lemma DropGood(c: Config, s: Sched, tid: Word)
    requires Good(c, s)
    ensures Good(c, Terminate(s, tid))
  {
    var s' := Terminate(s, tid);
    TerminateHoused(s, tid);
    TerminateShrinks(s, tid);
    forall x ensures TripMid(s', x) && TripGood(s', x) {
      assert TripMid(s, x) && TripGood(s, x);
    }
  }

  lemma {:induction false} HistoryGood(c: Config, ss: seq<Sched>, es: seq<Event>, i: nat)
    requires IsHistory(c, ss, es) && i < |ss|
    ensures Good(c, ss[i])
  {
    if i == 0 {
      forall x ensures Housed(EMPTY, x) && TripMid(EMPTY, x) && TripGood(EMPTY, x) {
      }
      assert InPhase(EMPTY, Calm);
    } else {
      HistoryGood(c, ss, es, i - 1);
      HistoryStep(c, ss, es, i);
      match es[i - 1]
      case Arrive(tid, t) => ArriveGood(c, ss[i - 1], tid, t);
      case Announce(target) => AnnounceGood(c, ss[i - 1], target);
      case Ask(tid) => AskGood(c, ss[i - 1], tid);
      case Drop(tid) => DropGood(c, ss[i - 1], tid);
      case Turn(runs, after) => CycleKeeps(c, ss[i - 1], runs, after);
    }
  }

  /** After any history, every crew member is in exactly one queue or in the I/O device, the one its state names, and
      EXEC never holds more members than there are CPUs. */
  lemma OnePlaceEach(c: Config, ss: seq<Sched>, es: seq<Event>, i: nat, tid: Word)
    requires IsHistory(c, ss, es) && i < |ss|
    ensures Places(ss[i], tid) == if tid in ss[i].crew then 1 else 0
    ensures tid in ss[i].crew ==> InPlace(ss[i], tid, ss[i].crew[tid].state)
    ensures |ss[i].exec| <= c.cpus
  {
    HistoryGood(c, ss, es, i);
    assert Housed(ss[i], tid);
  }

  // ----- The way to the sabotage ---------------------------------------------------------------------------

  /** One of several steps: nothing but the chosen one's trip differs, and it has not moved away. */
  ghost predicate Closer(s: Sched, s': Sched, chosen: Word) {
    && chosen in s.crew && chosen in s'.crew
    && s' == s.(crew := s.crew[chosen := s'.crew[chosen]])
    && Distance(s'.crew[chosen].pos, s.target) <= Distance(s.crew[chosen].pos, s.target)
    && (s.crew[chosen].block ==> s'.crew[chosen].block)
  }

  /** It waits to block at the place of the sabotage, or has come closer to it. */
  ghost predicate Nearer(s: Sched, s': Sched, chosen: Word) {
    && chosen in s.crew && chosen in s'.crew
    && (s'.crew[chosen].block || Distance(s'.crew[chosen].pos, s.target) < Distance(s.crew[chosen].pos, s.target))
  }

  lemma RunOneCloser(s: Sched, chosen: Word)
    requires s.sabotage && chosen in s.crew
    ensures RunOne(s, chosen).Some? && Closer(s, RunOne(s, chosen).value, chosen) && Nearer(s, RunOne(s, chosen).value, chosen)
  {
    TowardCloser(s.crew[chosen].pos, s.target);
  }

  lemma CloserTrans(a: Sched, b: Sched, c: Sched, chosen: Word)
    requires Closer(a, b, chosen) && Closer(b, c, chosen)
    ensures Closer(a, c, chosen)
    ensures Nearer(a, b, chosen) ==> Nearer(a, c, chosen)
  {
    assert a.crew[chosen := b.crew[chosen]][chosen := c.crew[chosen]] == a.crew[chosen := c.crew[chosen]];
  }

  lemma {:induction false} RunsCloser(s: Sched, chosen: Word, runs: seq<Word>)
    requires s.sabotage && chosen in s.crew && forall tid :: tid in runs ==> tid == chosen
    ensures RunAll(s, runs).Some? && Closer(s, RunAll(s, runs).value, chosen)
    ensures runs != [] ==> Nearer(s, RunAll(s, runs).value, chosen)
    decreases |runs|
  {
    if runs == [] {
      assert s.crew[chosen := s.crew[chosen]] == s.crew;
    } else {
      assert runs[0] in runs && forall tid :: tid in runs[1..] ==> tid in runs;
      RunOneCloser(s, chosen);
      var s1 := RunOne(s, chosen).value;
      RunsCloser(s1, chosen, runs[1..]);
      CloserTrans(s, s1, RunAll(s1, runs[1..]).value, chosen);
    }
  }

  /** A bound on the cycles left until the sabotage is over. */
  function Left(c: Config, s: Sched, chosen: Word): nat {
    if s.handling then s.remaining + 1 else Distance(Get(s, chosen).pos, s.target) + c.duration + 2
  }

  /** The chosen one gets into EXEC, alone. */
  lemma HuntPrepared(c: Config, s: Sched, chosen: Word)
    requires Hunts(c, s, chosen)
    ensures Prepare(c, s).Some?
    ensures var s1 := Prepare(c, s).value;
      && Hunts(c, s1, chosen) && s1.exec == [chosen] && s1.ready == []
      && Left(c, s1, chosen) == Left(c, s, chosen)
      && s1 == s.(crew := s1.crew, exec := [chosen], ready := [])
      && s1.crew.Keys == s.crew.Keys && forall x :: x in s.crew && x != chosen ==> s1.crew[x] == s.crew[x]
  {
    assert Housed(s, chosen);
    StateOf(s, chosen);
    FillExecGood(c, s, Hunting);
    if s.ready != [] {
      assert s.ready == [chosen] && s.exec == [];
      assert Dispatch(s).ready == [] && Dispatch(s).exec == [chosen];
      assert FillExec(c, s) == Dispatch(s);
    }
  }

  /** One cycle of the chosen one, up to the service of the expulsions: it is still on its way, or has blocked at the
      place of the sabotage. */
  lemma HuntDevices(c: Config, s: Sched, chosen: Word, runs: seq<Word>, after: seq<Word>)
    requires Hunts(c, s, chosen) && s.exec == [chosen] && s.ready == [] && Fair(c, s.exec, runs, after)
    ensures Devices(s, runs, after).Some?
    ensures var s' := CheckExec(c, Devices(s, runs, after).value);
      && chosen in s'.crew && s'.requests == s.requests && s'.news == s.news
      && (if s'.handling then InPhase(s', Waiting) else InPhase(s', Hunting) && s'.ready + s'.exec == [chosen])
      && Left(c, s', chosen) < Left(c, s, chosen)
      && (forall tid :: tid in s.frozen ==> tid in s'.frozen)
  {
    assert Housed(s, chosen);
    StateOf(s, chosen);
    assert runs != [] by {
      assert chosen in runs;
    }
    RunsCloser(s, chosen, runs);
    var s1 := RunAll(s, runs).value;
    SingleMultiset(after, chosen);
    assert s1.(exec := after) == s1;
    var s2 := Tick(c, s1, 0);
    assert Devices(s, runs, after).value == s1;
    assert Sweep(c, s1, 0) == if Leaves(c, s1, chosen) then Sweep(c, s2, 0) else Sweep(c, s2, 1);
    assert RemoveAt([chosen], 0) == [];
  }

  lemma SingleMultiset(q: seq<Word>, x: Word)
    requires multiset(q) == multiset([x])
    ensures q == [x]
  {
    assert |multiset(q)| == |q| && |multiset([x])| == 1;
    assert q[0] in multiset(q);
  }

  /** Expulsions of others do not concern the chosen one. */
  lemma {:induction false} ServeOthers(c: Config, s: Sched, chosen: Word)
    requires AllHoused(s) && chosen in s.crew && chosen !in s.requests
    ensures var s' := ServeRequests(s);
      && chosen in s'.crew && s'.crew[chosen] == s.crew[chosen]
      && s'.sabotage == s.sabotage && s'.handling == s.handling && s'.remaining == s.remaining && s'.target == s.target
      && (s.ready + s.exec == [chosen] ==> s'.ready + s'.exec == [chosen])
    decreases |s.requests|
  {
    if s.requests != [] {
      var tid := s.requests[0];
      var s1 := Terminate(s, tid);
      TerminateHoused(s, tid);
      TerminateShrinks(s, tid);
      if s.ready + s.exec == [chosen] {
        assert Housed(s, tid);
        assert forall x :: x in s.ready || x in s.exec <==> x in s.ready + s.exec;
      }
      forall x ensures Housed(s1.(requests := s.requests[1..]), x) {
        assert Housed(s1, x);
      }
      ServeOthers(c, s1.(requests := s.requests[1..]), chosen);
    }
  }

  lemma {:induction false} ServeKeeps(s: Sched)
    ensures forall x :: x in ServeRequests(s).crew ==> x in s.crew && ServeRequests(s).crew[x] == s.crew[x]
    ensures ServeRequests(s).requests == []
    decreases |s.requests|
  {
    if s.requests != [] {
      TerminateCrew(s, s.requests[0]);
      ServeKeeps(Terminate(s, s.requests[0]).(requests := s.requests[1..]));
    }
  }

  lemma TerminateCrew(s: Sched, tid: Word)
    ensures forall x :: x in Terminate(s, tid).crew ==> x in s.crew && Terminate(s, tid).crew[x] == s.crew[x]
  {
  }

  /** Those in `fs` who are still in the crew are frozen, but for the chosen one. */
  ghost predicate Kept(s: Sched, fs: seq<Word>, chosen: Word) {
    forall tid :: tid in fs && tid in s.crew && tid != chosen ==> s.crew[tid].state == BlockSabotage
  }

  /** The sabotage is under way: the chosen one is going there, or everybody is frozen until the time is over. */
  ghost predicate Engaged(c: Config, s: Sched, chosen: Word, fs: seq<Word>) {
    && Good(c, s) && Kept(s, fs, chosen)
    && (if s.handling then InPhase(s, Waiting) && (chosen in s.crew ==> s.crew[chosen].state == BlockSabotage)
        else Hunts(c, s, chosen))
  }

  /** A sabotage that nobody is on the way to. */
  ghost predicate Abandoned(s: Sched) {
    s.sabotage && !s.starting && !s.handling && s.ready == [] && s.exec == []
  }

  /** A cycle with the chosen one on its way: a requested expulsion catches it unless it blocks at the place in this very
      cycle. */
  lemma HuntTurn(c: Config, s: Sched, chosen: Word, fs: seq<Word>, runs: seq<Word>, after: seq<Word>)
    requires Engaged(c, s, chosen, fs) && !s.handling
    requires Fair(c, FillExec(c, s).exec, runs, after)
    ensures Cycle(c, s, runs, after).Some?
    ensures var s' := Cycle(c, s, runs, after).value;
      if chosen in s.requests && !s'.handling then Abandoned(s')
      else Engaged(c, s', chosen, fs) && s'.sabotage && Left(c, s', chosen) < Left(c, s, chosen)
  {
    HuntPrepared(c, s, chosen);
    var s1 := Prepare(c, s).value;
    var s2 := HuntChecked(c, s, s1, chosen, fs, runs, after);
    CycleIs(c, s, s1, runs, after);
    CycleKeeps(c, s, runs, after);
    HuntClosed(c, s2, chosen, fs);
  }

  /** The end of such a cycle, when the expulsions are served. */
  lemma HuntClosed(c: Config, s: Sched, chosen: Word, fs: seq<Word>)
    requires AllHoused(s) && chosen in s.crew && Kept(s, fs, chosen) && s.sabotage
    requires if s.handling then InPhase(s, Waiting) && s.crew[chosen].state == BlockSabotage
             else s.ready + s.exec == [chosen]
    requires Good(c, ServeRequests(s)) && Working(ServeRequests(s))
    ensures var s' := ServeRequests(s);
      if chosen in s.requests && !s'.handling then Abandoned(s')
      else Engaged(c, s', chosen, fs) && s'.sabotage && Left(c, s', chosen) == Left(c, s, chosen)
  {
    ServeFlags(s);
    hide Kept, AllHoused, Good, Engaged, Left, Abandoned;
    if s.handling {
      WaitServed(c, s, chosen, fs);
    } else if chosen in s.requests {
      HuntLost(s, chosen);
    } else {
      HuntServed(c, s, chosen, fs);
    }
  }

  lemma CycleIs(c: Config, s: Sched, s1: Sched, runs: seq<Word>, after: seq<Word>)
    requires Prepare(c, s) == Some(s1) && Devices(s1, runs, after).Some?
    ensures Cycle(c, s, runs, after) == Some(ServeRequests(CheckExec(c, Devices(s1, runs, after).value)))
  {
  }

  /** The cycle up to the service of the expulsions. */
  lemma HuntChecked(c: Config, s: Sched, s1: Sched, chosen: Word, fs: seq<Word>, runs: seq<Word>, after: seq<Word>) returns (s2: Sched)
    requires Engaged(c, s, chosen, fs) && !s.handling
    requires Hunts(c, s1, chosen) && s1.exec == [chosen] && s1.ready == [] && Left(c, s1, chosen) == Left(c, s, chosen)
    requires s1 == s.(crew := s1.crew, exec := [chosen], ready := []) && s1.crew.Keys == s.crew.Keys
    requires forall x :: x in s.crew && x != chosen ==> s1.crew[x] == s.crew[x]
    requires Fair(c, s1.exec, runs, after)
    ensures Devices(s1, runs, after).Some? && s2 == CheckExec(c, Devices(s1, runs, after).value)
    ensures AllHoused(s2) && chosen in s2.crew && s2.requests == s.requests && Kept(s2, fs, chosen) && s2.sabotage
    ensures if s2.handling then InPhase(s2, Waiting) && s2.crew[chosen].state == BlockSabotage
            else s2.ready + s2.exec == [chosen]
    ensures Left(c, s2, chosen) < Left(c, s, chosen)
  {
    HuntDevices(c, s1, chosen, runs, after);
    HuntDevicesKeep(c, s1, chosen, runs, after);
    CheckedHoused(c, s1, runs, after);
    s2 := CheckExec(c, Devices(s1, runs, after).value);
  }

  /** The service of the expulsions of others leaves the hunt as it is. */
  lemma HuntServed(c: Config, s: Sched, chosen: Word, fs: seq<Word>)
    requires AllHoused(s) && chosen in s.crew && chosen !in s.requests && Kept(s, fs, chosen) && s.sabotage
    requires !s.handling && s.ready + s.exec == [chosen]
    requires Good(c, ServeRequests(s)) && Working(ServeRequests(s))
    ensures Engaged(c, ServeRequests(s), chosen, fs) && ServeRequests(s).sabotage
    ensures Left(c, ServeRequests(s), chosen) == Left(c, s, chosen)
  {
    ServeOthers(c, s, chosen);
    ServeKeeps(s);
  }

  /** Once the time is running, any expulsions leave the waiting as it is. */
  lemma WaitServed(c: Config, s: Sched, chosen: Word, fs: seq<Word>)
    requires Kept(s, fs, chosen) && s.sabotage && s.handling && (chosen in s.crew ==> s.crew[chosen].state == BlockSabotage)
    requires Good(c, ServeRequests(s)) && Working(ServeRequests(s))
    ensures Engaged(c, ServeRequests(s), chosen, fs) && ServeRequests(s).sabotage
    ensures Left(c, ServeRequests(s), chosen) == Left(c, s, chosen)
  {
    ServeFlags(s);
    ServeKeeps(s);
  }

  /** The expulsion of the chosen one leaves nobody on the way. */
  lemma HuntLost(s: Sched, chosen: Word)
    requires AllHoused(s) && s.ready + s.exec == [chosen] && chosen in s.requests
    requires s.sabotage && !s.handling && Working(ServeRequests(s))
    ensures Abandoned(ServeRequests(s))
  {
    RequestsServed(s);
    ServeFlags(s);
    var gone := Members(s.requests);
    if s.ready != [] {
      assert s.ready == [chosen] && s.exec == [];
    } else {
      assert s.exec == [chosen];
    }
    assert Excluding([chosen], gone) == [] && Excluding([], gone) == [];
  }

  lemma CheckedHoused(c: Config, s: Sched, runs: seq<Word>, after: seq<Word>)
    requires Good(c, s) && Working(s) && Fair(c, s.exec, runs, after) && Devices(s, runs, after).Some?
    ensures AllHoused(CheckExec(c, Devices(s, runs, after).value))
  {
    DevicesMid(c, s, runs, after);
    CheckExecMid(c, Devices(s, runs, after).value);
  }

  /** Only the chosen one's state changes. */
  lemma HuntDevicesKeep(c: Config, s: Sched, chosen: Word, runs: seq<Word>, after: seq<Word>)
    requires Hunts(c, s, chosen) && s.exec == [chosen] && s.ready == [] && Fair(c, s.exec, runs, after)
    ensures Devices(s, runs, after).Some?
    ensures var s' := CheckExec(c, Devices(s, runs, after).value);
      && (forall x :: x in s'.crew ==> x in s.crew && (x != chosen ==> s'.crew[x] == s.crew[x]))
      && (s'.handling ==> chosen in s'.crew && s'.crew[chosen].state == BlockSabotage)
      && s'.target == s.target && s'.sabotage
  {
    assert Housed(s, chosen);
    StateOf(s, chosen);
    RunsCloser(s, chosen, runs);
    var s1 := RunAll(s, runs).value;
    SingleMultiset(after, chosen);
    assert s1.(exec := after) == s1;
    var s2 := Tick(c, s1, 0);
    assert Sweep(c, s1, 0) == if Leaves(c, s1, chosen) then Sweep(c, s2, 0) else Sweep(c, s2, 1);
    assert RemoveAt([chosen], 0) == [];
  }

  lemma {:induction false} UnfreezeStates(s: Sched)
    ensures forall tid :: tid in s.frozen ==> tid in Unfreeze(s).crew && Unfreeze(s).crew[tid].state == Ready
    ensures forall tid :: tid in s.crew && tid !in s.frozen ==> tid in Unfreeze(s).crew && Unfreeze(s).crew[tid] == s.crew[tid]
    ensures forall tid :: tid in s.crew && s.crew[tid].state == Ready ==> Unfreeze(s).crew[tid].state == Ready
    decreases |s.frozen|
  {
    if s.frozen != [] {
      UnfreezeStates(UnfreezeOne(s));
      assert s.frozen == [s.frozen[0]] + s.frozen[1..];
    }
  }

  /** A cycle while everybody is frozen: the time runs down, and at its end everybody is READY again. */
  lemma WaitTurn(c: Config, s: Sched, chosen: Word, fs: seq<Word>, runs: seq<Word>, after: seq<Word>)
    requires Engaged(c, s, chosen, fs) && s.handling && chosen in fs
    requires Fair(c, FillExec(c, s).exec, runs, after)
    ensures Cycle(c, s, runs, after).Some?
    ensures var s' := Cycle(c, s, runs, after).value;
      if s.remaining == 0 then
        Good(c, s') && InPhase(s', Calm) && forall tid :: tid in fs && tid in s'.crew ==> s'.crew[tid].state == Ready
      else Engaged(c, s', chosen, fs) && s'.sabotage && s'.handling && Left(c, s', chosen) < Left(c, s, chosen)
  {
    assert FillExec(c, s) == s;
    assert |multiset(after)| == |after| && |multiset(runs)| == |runs|;
    forall x ensures multiset(runs)[x] == 0 {
      assert x in runs ==> x in s.exec;
    }
    assert multiset(runs) == multiset{};
    assert s.(exec := after) == s;
    var s2 := CheckExec(c, s);
    assert Devices(s, runs, after) == Some(s);
    CycleKeeps(c, s, runs, after);
    ServeKeeps(s2);
    ServeFlags(s2);
    if s.remaining == 0 {
      UnfreezeStates(s);
      UnfreezeMid(s);
      forall tid | tid in fs && tid in s2.crew ensures s2.crew[tid].state == Ready {
        assert Housed(s, tid);
      }
    }
  }

  lemma {:induction false} ServeFlags(s: Sched)
    ensures var s' := ServeRequests(s);
      && s'.sabotage == s.sabotage && s'.starting == s.starting && s'.handling == s.handling
      && s'.remaining == s.remaining && s'.target == s.target
    decreases |s.requests|
  {
    if s.requests != [] {
      TerminateShrinks(s, s.requests[0]);
      ServeFlags(Terminate(s, s.requests[0]).(requests := s.requests[1..]));
    }
  }

  // ----- A sabotage ends in time ----------------------------------------------------------------------------

  /** A tid of `fs` is given out again. */
  predicate Arrives(e: Event, fs: seq<Word>) {
    e.Arrive? && e.tid in fs
  }

  /** The event is an expulsion of the chosen one, or a cycle at whose end one that has been requested is served. */
  predicate Expels(s: Sched, e: Event, chosen: Word) {
    e == Drop(chosen) || (e.Turn? && chosen in s.requests)
  }

  /** The event expels the chosen one before it has blocked at the place of the sabotage. */
  predicate Strikes(s: Sched, e: Event, s': Sched, chosen: Word) {
    !s.handling && !s'.handling && Expels(s, e, chosen)
  }

  /** Which events are cycles, and how many. */
  function Flags(es: seq<Event>): (r: seq<bool>)
    ensures |r| == |es| && forall k :: 0 <= k < |es| ==> r[k] == es[k].Turn?
  {
    seq(|es|, k requires 0 <= k < |es| => es[k].Turn?)
  }

  function Cycles(turns: seq<bool>): nat {
    if turns == [] then 0 else One(turns[|turns| - 1]) + Cycles(turns[..|turns| - 1])
  }

  /** Between cycles nothing else gets in the way. */
  lemma EngagedBetween(c: Config, s: Sched, e: Event, chosen: Word, fs: seq<Word>)
    requires Engaged(c, s, chosen, fs) && chosen in fs && Possible(c, s, e) && !e.Turn? && !Arrives(e, fs)
    requires !Strikes(s, e, Follow(c, s, e), chosen)
    ensures Engaged(c, Follow(c, s, e), chosen, fs)
    ensures Left(c, Follow(c, s, e), chosen) == Left(c, s, chosen) && Follow(c, s, e).sabotage
    ensures Follow(c, s, e).handling == s.handling
  {
    match e
    case Arrive(tid, t) => ArriveGood(c, s, tid, t);
    case Announce(_) => assert false;
    case Ask(tid) => AskGood(c, s, tid);
    case Drop(tid) =>
      DropGood(c, s, tid);
      TerminateHoused(s, tid);
      TerminateShrinks(s, tid);
      if !s.handling {
        DropOther(s, tid, chosen);
      }
  }

  lemma DropOther(s: Sched, tid: Word, chosen: Word)
    requires s.ready + s.exec == [chosen] && tid != chosen
    ensures Terminate(s, tid).ready == s.ready && Terminate(s, tid).exec == s.exec
  {
    assert forall x :: x in s.ready || x in s.exec <==> x in s.ready + s.exec;
  }

  lemma EngagedTurn(c: Config, s: Sched, e: Event, chosen: Word, fs: seq<Word>)
    requires Engaged(c, s, chosen, fs) && chosen in fs && Possible(c, s, e) && e.Turn?
    requires !Strikes(s, e, Follow(c, s, e), chosen)
    ensures StepsDown(c, s, true, Follow(c, s, e), chosen, fs)
  {
    if s.handling {
      WaitTurn(c, s, chosen, fs, e.runs, e.after);
    } else {
      HuntTurn(c, s, chosen, fs, e.runs, e.after);
    }
  }

  /** What an event does to a sabotage under way: a cycle uses up some of the time left, nothing else does, and only a
      cycle of the waiting ends it, with everybody READY. */
  ghost predicate StepsDown(c: Config, s: Sched, turn: bool, s': Sched, chosen: Word, fs: seq<Word>) {
    if s'.sabotage then
      && Engaged(c, s', chosen, fs) && Left(c, s', chosen) + One(turn) <= Left(c, s, chosen)
      && (s.handling ==> s'.handling)
    else
      && turn && s.handling && 1 <= Left(c, s, chosen)
      && forall tid :: tid in fs && tid in s'.crew ==> s'.crew[tid].state == Ready
  }

  lemma EngagedStep(c: Config, ss: seq<Sched>, es: seq<Event>, k: nat, chosen: Word, fs: seq<Word>)
    requires IsHistory(c, ss, es) && k < |es| && Engaged(c, ss[k], chosen, fs) && chosen in fs && !Arrives(es[k], fs)
    requires !Strikes(ss[k], es[k], ss[k + 1], chosen)
    ensures StepsDown(c, ss[k], es[k].Turn?, ss[k + 1], chosen, fs)
  {
    HistoryStep(c, ss, es, k + 1);
    if es[k].Turn? {
      EngagedTurn(c, ss[k], es[k], chosen, fs);
    } else {
      EngagedBetween(c, ss[k], es[k], chosen, fs);
    }
  }

  /** The time is running, or has not been so far. */
  ghost predicate Onset(ss: seq<Sched>, k: nat)
    requires k < |ss|
  {
    ss[k].handling || forall m :: 0 <= m <= k ==> !ss[m].handling
  }

  /** A stretch of states in which every event does what it may do to a sabotage under way. */
  ghost predicate Descent(c: Config, ss: seq<Sched>, turns: seq<bool>, chosen: Word, fs: seq<Word>) {
    && |ss| == |turns| + 1 && Engaged(c, ss[0], chosen, fs) && ss[0].sabotage
    && forall k {:trigger turns[k]} :: 0 <= k < |turns| && Engaged(c, ss[k], chosen, fs) && Onset(ss, k) ==>
         StepsDown(c, ss[k], turns[k], ss[k + 1], chosen, fs)
  }

  /** As long as the sabotage lasts, every cycle uses up some of the time left. */
  lemma {:induction false} EngagedUntil(c: Config, ss: seq<Sched>, turns: seq<bool>, j: nat, chosen: Word, fs: seq<Word>)
    requires Descent(c, ss, turns, chosen, fs) && j < |ss| && forall k :: 0 <= k <= j ==> ss[k].sabotage
    ensures Engaged(c, ss[j], chosen, fs) && Left(c, ss[j], chosen) + Cycles(turns[..j]) <= Left(c, ss[0], chosen)
    ensures Onset(ss, j)
    decreases j
  {
    hide Engaged, Left;
    if j > 0 {
      EngagedUntil(c, ss, turns, j - 1, chosen, fs);
      assert StepsDown(c, ss[j - 1], turns[j - 1], ss[j], chosen, fs);
      assert turns[..j][..j - 1] == turns[..j - 1];
    }
  }

  /** READY and EXEC together hold one member at most. */
  lemma OneAtMost(c: Config, s: Sched, chosen: Word, fs: seq<Word>)
    requires Engaged(c, s, chosen, fs)
    ensures |s.ready| + |s.exec| <= 1
  {
  }

  /** With cycles enough, the sabotage ends, and everybody is READY. */
  lemma DescentEnds(c: Config, ss: seq<Sched>, turns: seq<bool>, chosen: Word, fs: seq<Word>) returns (k: nat)
    requires Descent(c, ss, turns, chosen, fs) && Cycles(turns) >= Left(c, ss[0], chosen)
    ensures 0 < k < |ss| && !ss[k].sabotage
    ensures forall m :: 0 <= m < k ==> ss[m].sabotage && |ss[m].ready| + |ss[m].exec| <= 1
    ensures Cycles(turns[..k]) <= Left(c, ss[0], chosen)
    ensures forall tid :: tid in fs && tid in ss[k].crew ==> ss[k].crew[tid].state == Ready
  {
    k := 0;
    while k < |turns| && ss[k].sabotage
      invariant k <= |turns| && forall m :: 0 <= m < k ==> ss[m].sabotage
    {
      k := k + 1;
    }
    assert turns[..|turns|] == turns;
    if ss[k].sabotage {
      EngagedUntil(c, ss, turns, k, chosen, fs);
    }
    forall m | 0 <= m < k ensures |ss[m].ready| + |ss[m].exec| <= 1 {
      EngagedUntil(c, ss, turns, m, chosen, fs);
      OneAtMost(c, ss[m], chosen, fs);
    }
    EngagedUntil(c, ss, turns, k - 1, chosen, fs);
    assert StepsDown(c, ss[k - 1], turns[k - 1], ss[k], chosen, fs);
    assert turns[..k][..k - 1] == turns[..k - 1];
  }

  /** The first cycle after the announcement starts the routine and sends the chosen one off. */
  lemma FirstTurn(c: Config, s: Sched, runs: seq<Word>, after: seq<Word>)
    requires Good(c, s) && InPhase(s, Notified) && Possible(c, s, Turn(runs, after))
    ensures Chosen(s) in Frozen(s)
    ensures var s' := Follow(c, s, Turn(runs, after));
      if Strikes(s, Turn(runs, after), s', Chosen(s)) then Abandoned(s')
      else
        && Engaged(c, s', Chosen(s), Frozen(s)) && s'.sabotage
        && Left(c, s', Chosen(s)) < Distance(Get(s, Chosen(s)).pos, s.target) + c.duration + 2
  {
    InitSabotageEffect(c, s);
    var s0, chosen, fs := InitSabotage(s).value, Chosen(s), Frozen(s);
    assert Cycle(c, s, runs, after) == Cycle(c, s0, runs, after);
    assert Housed(s, chosen);
    StateOf(s, chosen);
    forall tid | tid in fs && tid in s0.crew && tid != chosen ensures s0.crew[tid].state == BlockSabotage {
      RemovedFrom(fs, chosen, tid);
      assert Housed(s0, tid);
      StateOf(s0, tid);
    }
    HuntTurn(c, s0, chosen, fs, runs, after);
  }

  /** The `m`-th event expels the chosen one of the sabotage that begins at `i`, while it has not blocked at the place of
      the sabotage yet. */
  ghost predicate Struck(ss: seq<Sched>, es: seq<Event>, i: nat, m: nat, chosen: Word) {
    && i <= m < |es| && |ss| == |es| + 1
    && Expels(ss[m], es[m], chosen)
    && forall n :: i < n <= m + 1 ==> !ss[n].handling
  }

  /** A sabotage begins with the cycle at `i`, and no tid of those frozen then is given out again before `j`. */
  ghost predicate Begins(c: Config, ss: seq<Sched>, es: seq<Event>, i: nat, j: nat) {
    && IsHistory(c, ss, es) && i < j < |ss| && es[i].Turn? && InPhase(ss[i], Notified)
    && forall m :: i <= m < j ==> !Arrives(es[m], Frozen(ss[i]))
  }

  /** The cycles that a sabotage takes at most: d + D + 2, where d is the chosen one's distance when the routine begins and
      D the configured duration. */
  function Due(c: Config, s: Sched): nat {
    Distance(Get(s, Chosen(s)).pos, s.target) + c.duration + 2
  }

  /** A sabotage whose chosen one is not expelled on its way is over after at most so many cycles; until then READY and
      EXEC together hold one member at most, and at the end everybody who was frozen and is still there is READY. */
  lemma SabotageEnds(c: Config, ss: seq<Sched>, es: seq<Event>, i: nat, j: nat) returns (k: nat)
    requires Begins(c, ss, es, i, j) && Cycles(Flags(es[i..j])) >= Due(c, ss[i])
    requires forall m :: i <= m < j ==> !Struck(ss, es, i, m, Chosen(ss[i]))
    ensures i < k <= j && !ss[k].sabotage
    ensures forall m :: i < m < k ==> ss[m].sabotage && |ss[m].ready| + |ss[m].exec| <= 1
    ensures Cycles(Flags(es[i..k])) <= Due(c, ss[i])
    ensures forall tid :: tid in Frozen(ss[i]) && tid in ss[k].crew ==> ss[k].crew[tid].state == Ready
  {
    var chosen, fs := Chosen(ss[i]), Frozen(ss[i]);
    assert !Struck(ss, es, i, i, chosen);
    HuntsFirst(c, ss, es, i, j, Chosen(ss[i]), Frozen(ss[i]));
    hide Engaged, Left, Chosen, Frozen, Struck, Distance;
    DescentFrom(c, ss, es, i, j, chosen, fs);
    FirstCycle(es, i, j);
    k := DescentOf(c, ss, es, i + 1, j, chosen, fs);
    FirstCycle(es, i, k);
  }

  /** The same as the end of a descent, in terms of the history it is a stretch of. */
  lemma DescentOf(c: Config, ss: seq<Sched>, es: seq<Event>, i: nat, j: nat, chosen: Word, fs: seq<Word>) returns (k: nat)
    requires i <= j < |ss| == |es| + 1 && Descent(c, ss[i..j + 1], Flags(es[i..j]), chosen, fs)
    requires Cycles(Flags(es[i..j])) >= Left(c, ss[i], chosen)
    ensures i < k <= j && !ss[k].sabotage
    ensures forall m :: i <= m < k ==> ss[m].sabotage && |ss[m].ready| + |ss[m].exec| <= 1
    ensures Cycles(Flags(es[i..k])) <= Left(c, ss[i], chosen)
    ensures forall tid :: tid in fs && tid in ss[k].crew ==> ss[k].crew[tid].state == Ready
  {
    var rest, turns := ss[i..j + 1], Flags(es[i..j]);
    hide Left, Descent, Cycles, Flags;
    assert rest[0] == ss[i];
    var n := DescentEnds(c, rest, turns, chosen, fs);
    k := i + n;
    assert rest[n] == ss[k];
    StretchNarrow(ss, rest, i, j, n);
    FlagsPrefix(es, i, j, k);
  }

  /** What holds along the beginning of a stretch holds along that part of the whole. */
  lemma StretchNarrow(ss: seq<Sched>, rest: seq<Sched>, i: nat, j: nat, n: nat)
    requires i <= j < |ss| && rest == ss[i..j + 1] && n <= |rest|
    requires forall m :: 0 <= m < n ==> rest[m].sabotage && |rest[m].ready| + |rest[m].exec| <= 1
    ensures forall m :: i <= m < i + n ==> ss[m].sabotage && |ss[m].ready| + |ss[m].exec| <= 1
  {
    forall m | i <= m < i + n ensures ss[m].sabotage && |ss[m].ready| + |ss[m].exec| <= 1 {
      assert ss[m] == rest[m - i];
    }
  }

  lemma FlagsPrefix(es: seq<Event>, i: nat, j: nat, k: nat)
    requires i <= k <= j <= |es|
    ensures Flags(es[i..j])[..k - i] == Flags(es[i..k])
  {
    assert es[i..j][..k - i] == es[i..k];
  }

  lemma DescentFrom(c: Config, ss: seq<Sched>, es: seq<Event>, i: nat, j: nat, chosen: Word, fs: seq<Word>)
    requires IsHistory(c, ss, es) && i < j < |ss| == |es| + 1 && chosen in fs
    requires Engaged(c, ss[i + 1], chosen, fs) && ss[i + 1].sabotage
    requires forall m :: i <= m < j ==> !Arrives(es[m], fs)
    requires forall m :: i <= m < j ==> !Struck(ss, es, i, m, chosen)
    ensures Descent(c, ss[i + 1..j + 1], Flags(es[i + 1..j]), chosen, fs)
  {
    hide Engaged, StepsDown, IsHistory, Expels, Struck, Strikes, Onset, Arrives;
    var rest, turns := ss[i + 1..j + 1], Flags(es[i + 1..j]);
    forall n | 0 <= n < |turns| && Engaged(c, rest[n], chosen, fs) && Onset(rest, n)
      ensures StepsDown(c, rest[n], turns[n], rest[n + 1], chosen, fs)
    {
      NotStruck(ss, es, i, j, n, chosen);
      EngagedStep(c, ss, es, i + 1 + n, chosen, fs);
    }
  }

  lemma NotStruck(ss: seq<Sched>, es: seq<Event>, i: nat, j: nat, n: nat, chosen: Word)
    requires |ss| == |es| + 1 && i + 1 + n < j < |ss| && Onset(ss[i + 1..j + 1], n)
    requires !Struck(ss, es, i, i + 1 + n, chosen)
    ensures !Strikes(ss[i + 1 + n], es[i + 1 + n], ss[i + 2 + n], chosen)
  {
    var rest, m := ss[i + 1..j + 1], i + 1 + n;
    if Strikes(ss[m], es[m], ss[m + 1], chosen) {
      forall x | i < x <= m + 1 ensures !ss[x].handling {
        assert x <= m ==> ss[x] == rest[x - i - 1];
        assert ss[m] == rest[n];
      }
    }
  }

  /** The first event of the stretch is a cycle. */
  lemma {:induction false} FirstCycle(es: seq<Event>, i: nat, j: nat)
    requires i < j <= |es|
    ensures Cycles(Flags(es[i..j])) == One(es[i].Turn?) + Cycles(Flags(es[i + 1..j]))
    decreases j
  {
    var f, g := Flags(es[i..j]), Flags(es[i + 1..j]);
    if i + 1 < j {
      FirstCycle(es, i, j - 1);
      assert f[..|f| - 1] == Flags(es[i..j - 1]) && g[..|g| - 1] == Flags(es[i + 1..j - 1]);
    } else {
      assert es[i..j] == [es[i]] && es[i + 1..j] == [];
      assert f == [es[i].Turn?] && f[..0] == [] && g == [];
    }
  }

  // ----- Without the chosen one ---------------------------------------------------------------------------------

  lemma ExpelledChosen(c: Config, s: Sched, chosen: Word)
    requires Hunts(c, s, chosen)
    ensures Abandoned(Terminate(s, chosen))
  {
    assert Housed(s, chosen);
    StateOf(s, chosen);
    assert forall x :: x in s.ready || x in s.exec <==> x in s.ready + s.exec;
    assert |s.ready + s.exec| == 1;
    TerminateShrinks(s, chosen);
  }

  /** Whatever happens, nobody gets into READY or EXEC any more. */
  lemma AbandonedStays(c: Config, s: Sched, e: Event)
    requires Good(c, s) && Abandoned(s) && Possible(c, s, e)
    ensures Abandoned(Follow(c, s, e))
  {
    match e
    case Arrive(_, _) =>
    case Announce(_) =>
    case Ask(_) =>
    case Drop(tid) => TerminateShrinks(s, tid);
    case Turn(runs, after) =>
      assert FillExec(c, s) == s;
      assert |multiset(after)| == |after| && |multiset(runs)| == |runs|;
      forall x ensures multiset(runs)[x] == 0 {
        assert x in runs ==> x in s.exec;
      }
      assert multiset(runs) == multiset{};
      assert s.(exec := after) == s;
      assert CheckExec(c, s) == s;
      ServeFlags(s);
      ServeSizes(s);
  }

  /** So an abandoned sabotage is never over, however the history goes on. */
  lemma {:induction false} NeverOver(c: Config, ss: seq<Sched>, es: seq<Event>, i: nat, j: nat)
    requires IsHistory(c, ss, es) && i <= j < |ss| && Abandoned(ss[i])
    ensures Abandoned(ss[j])
    decreases j
  {
    hide IsHistory, Abandoned;
    if i < j {
      NeverOver(c, ss, es, i, j - 1);
      AbandonedNext(c, ss, es, j);
    }
  }

  lemma AbandonedNext(c: Config, ss: seq<Sched>, es: seq<Event>, k: nat)
    requires IsHistory(c, ss, es) && 0 < k < |ss| && Abandoned(ss[k - 1])
    ensures Abandoned(ss[k])
  {
    HistoryGood(c, ss, es, k - 1);
    HistoryStep(c, ss, es, k);
    hide IsHistory, Good, Possible, Follow, Abandoned;
    AbandonedStays(c, ss[k - 1], es[k - 1]);
  }

  // ----- Exactly when a sabotage ends --------------------------------------------------------------------------

  /** An expulsion of the chosen one on its way leaves nobody on the way. */
  lemma StruckStep(c: Config, ss: seq<Sched>, es: seq<Event>, k: nat, chosen: Word, fs: seq<Word>)
    requires IsHistory(c, ss, es) && k < |es| && Engaged(c, ss[k], chosen, fs) && Strikes(ss[k], es[k], ss[k + 1], chosen)
    ensures Abandoned(ss[k + 1])
  {
    HistoryStep(c, ss, es, k + 1);
    if es[k].Turn? {
      HuntTurn(c, ss[k], chosen, fs, es[k].runs, es[k].after);
    } else {
      ExpelledChosen(c, ss[k], chosen);
    }
  }

  /** From after `i` up to `n` the time is not running. */
  ghost predicate Unhandled(ss: seq<Sched>, i: nat, n: nat) {
    n < |ss| && forall x :: i < x <= n ==> !ss[x].handling
  }

  ghost predicate NoneStruck(ss: seq<Sched>, es: seq<Event>, i: nat, n: nat, chosen: Word) {
    forall m :: i <= m < n ==> !Struck(ss, es, i, m, chosen)
  }

  /** Until the time is running, or the chosen one is expelled, it is on its way. */
  lemma {:induction false} HuntsUntil(c: Config, ss: seq<Sched>, es: seq<Event>, i: nat, j: nat, n: nat, chosen: Word, fs: seq<Word>)
    requires i < n <= j < |ss| == |es| + 1 && Begins(c, ss, es, i, j) && chosen == Chosen(ss[i]) && fs == Frozen(ss[i])
    requires Unhandled(ss, i, n) && NoneStruck(ss, es, i, n, chosen)
    ensures Engaged(c, ss[n], chosen, fs) && ss[n].sabotage && chosen in fs
    decreases n
  {
    hide *;
    NotStruckBefore(ss, es, i, n, chosen);
    if n == i + 1 {
      HuntsFirst(c, ss, es, i, j, chosen, fs);
    } else {
      HuntsUntil(c, ss, es, i, j, n - 1, chosen, fs);
      HuntsNext(c, ss, es, i, j, n - 1, chosen, fs);
    }
  }

  lemma NotStruckBefore(ss: seq<Sched>, es: seq<Event>, i: nat, n: nat, chosen: Word)
    requires |ss| == |es| + 1 && i < n && Unhandled(ss, i, n) && NoneStruck(ss, es, i, n, chosen)
    ensures !Struck(ss, es, i, n - 1, chosen) && !Strikes(ss[n - 1], es[n - 1], ss[n], chosen) && !ss[n].handling
    ensures Unhandled(ss, i, n - 1) && NoneStruck(ss, es, i, n - 1, chosen)
    ensures i + 1 < n ==> !ss[n - 1].handling
  {
    assert !Struck(ss, es, i, n - 1, chosen);
  }

  lemma HuntsNext(c: Config, ss: seq<Sched>, es: seq<Event>, i: nat, j: nat, n: nat, chosen: Word, fs: seq<Word>)
    requires Begins(c, ss, es, i, j) && i < n < j && |ss| == |es| + 1 && chosen in fs && fs == Frozen(ss[i])
    requires Engaged(c, ss[n], chosen, fs) && !ss[n].handling && !Strikes(ss[n], es[n], ss[n + 1], chosen)
    ensures Engaged(c, ss[n + 1], chosen, fs) && ss[n + 1].sabotage
  {
    assert !Arrives(es[n], fs);
    hide Engaged, IsHistory, Begins, Strikes, Expels, Frozen, Arrives;
    EngagedStep(c, ss, es, n, chosen, fs);
  }

  lemma HuntsFirst(c: Config, ss: seq<Sched>, es: seq<Event>, i: nat, j: nat, chosen: Word, fs: seq<Word>)
    requires Begins(c, ss, es, i, j) && chosen == Chosen(ss[i]) && fs == Frozen(ss[i])
    ensures chosen in fs
    ensures if !ss[i + 1].handling && Struck(ss, es, i, i, chosen) then Abandoned(ss[i + 1])
            else Engaged(c, ss[i + 1], chosen, fs) && ss[i + 1].sabotage && Left(c, ss[i + 1], chosen) < Due(c, ss[i])
  {
    HistoryGood(c, ss, es, i);
    HistoryStep(c, ss, es, i + 1);
    FirstTurn(c, ss[i], es[i].runs, es[i].after);
    hide Engaged, Left, Chosen, Frozen, Good;
  }

  /** A sabotage whose chosen one is expelled on its way is never over. */
  lemma {:induction false} StruckStays(c: Config, ss: seq<Sched>, es: seq<Event>, i: nat, j: nat, m: nat) returns (n: nat)
    requires i < j < |ss| && Begins(c, ss, es, i, j) && m < j && Struck(ss, es, i, m, Chosen(ss[i]))
    ensures i <= n <= m && forall k :: n < k < |ss| ==> Abandoned(ss[k])
    ensures forall k :: i < k < |ss| ==> ss[k].sabotage
    decreases m
  {
    hide *;
    StruckIn(c, ss, es, i, j, m);
    if x: nat :| x < m && Struck(ss, es, i, x, Chosen(ss[i])) {
      n := StruckStays(c, ss, es, i, j, x);
    } else {
      n := m;
      FirstStruck(c, ss, es, i, j, m);
      forall k | m < k < |ss| ensures Abandoned(ss[k]) && ss[k].sabotage {
        NeverOver(c, ss, es, m + 1, k);
        AbandonedIs(ss[k]);
      }
      forall k | i < k <= m ensures ss[k].sabotage {
        BeforeStruck(c, ss, es, i, j, m, k);
      }
    }
  }

  lemma StruckIn(c: Config, ss: seq<Sched>, es: seq<Event>, i: nat, j: nat, m: nat)
    requires i < j < |ss| && Begins(c, ss, es, i, j) && m < j && Struck(ss, es, i, m, Chosen(ss[i]))
    ensures IsHistory(c, ss, es) && i <= m < |es| && |ss| == |es| + 1
  {
    hide Chosen;
  }

  lemma BeforeStruck(c: Config, ss: seq<Sched>, es: seq<Event>, i: nat, j: nat, m: nat, k: nat)
    requires Begins(c, ss, es, i, j) && i < k <= m < j && Struck(ss, es, i, m, Chosen(ss[i]))
    requires forall x :: i <= x < m ==> !Struck(ss, es, i, x, Chosen(ss[i]))
    ensures ss[k].sabotage
  {
    assert Unhandled(ss, i, k) && NoneStruck(ss, es, i, k, Chosen(ss[i]));
    hide IsHistory, Engaged, Expels, Chosen, Frozen, Unhandled, NoneStruck, Struck;
    HuntsUntil(c, ss, es, i, j, k, Chosen(ss[i]), Frozen(ss[i]));
  }

  lemma AbandonedIs(s: Sched)
    requires Abandoned(s)
    ensures s.sabotage
  {
  }

  lemma FirstStruck(c: Config, ss: seq<Sched>, es: seq<Event>, i: nat, j: nat, m: nat)
    requires Begins(c, ss, es, i, j) && m < j && Struck(ss, es, i, m, Chosen(ss[i]))
    requires forall x :: i <= x < m ==> !Struck(ss, es, i, x, Chosen(ss[i]))
    ensures Abandoned(ss[m + 1])
  {
    assert m > i ==> Unhandled(ss, i, m) && NoneStruck(ss, es, i, m, Chosen(ss[i]));
    assert Strikes(ss[m], es[m], ss[m + 1], Chosen(ss[i])) || m == i;
    hide Engaged, IsHistory, Expels, Chosen, Frozen, Abandoned, Unhandled, NoneStruck;
    if m == i {
      HuntsFirst(c, ss, es, i, j, Chosen(ss[i]), Frozen(ss[i]));
    } else {
      HuntsUntil(c, ss, es, i, j, m, Chosen(ss[i]), Frozen(ss[i]));
      StruckStep(c, ss, es, m, Chosen(ss[i]), Frozen(ss[i]));
    }
  }

  /** Given the cycles that it is due, a sabotage ends exactly when its chosen one is not expelled, directly or by a request
      that is served, before it has blocked at the place of the sabotage. */
  lemma SabotageEndsIff(c: Config, ss: seq<Sched>, es: seq<Event>, i: nat, j: nat)
    requires Begins(c, ss, es, i, j) && Cycles(Flags(es[i..j])) >= Due(c, ss[i])
    ensures (exists k :: i < k <= j && !ss[k].sabotage) <==> !exists m: nat :: m < j && Struck(ss, es, i, m, Chosen(ss[i]))
  {
    hide IsHistory, Struck;
    if m: nat :| m < j && Struck(ss, es, i, m, Chosen(ss[i])) {
      var n := StruckStays(c, ss, es, i, j, m);
    } else {
      var k := SabotageEnds(c, ss, es, i, j);
    }
  }

  lemma {:induction false} ServeSizes(s: Sched)
    ensures |ServeRequests(s).ready| <= |s.ready| && |ServeRequests(s).exec| <= |s.exec|
    decreases |s.requests|
  {
    if s.requests != [] {
      TerminateShrinks(s, s.requests[0]);
      ServeSizes(Terminate(s, s.requests[0]).(requests := s.requests[1..]));
    }
  }

  // ----- The schedule of a cycle --------------------------------------------------------------------------------

  /** What the planner assumes about a cycle is what the protocol of CPUs and barrier provides, under every
      interleaving. */
  lemma ProtocolIsFair(c: Config, p: CycleProtocol.Config, ws: seq<CycleProtocol.World>, steps: seq<CycleProtocol.Step>, i: nat)
    requires p.cpus == c.cpus && CycleProtocol.IsRun(p, ws, steps) && i < |steps| && steps[i].Open?
    ensures Fair(c, ws[i + 1].start, ws[i + 1].ran, ws[i + 1].exec)
  {
    CycleProtocol.BarrierOpens(p, ws, steps, i);
    var w := ws[i + 1];
    forall tid | tid in w.start ensures tid in w.ran {
      assert CycleProtocol.Times(w, tid) >= 1;
    }
  }
}
