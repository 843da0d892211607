/** What the walk over EXEC at the end of a cycle does to whole queues and to every member, and how long a member can stay
    in EXEC under round robin. */
module SweepLaws {
  import opened Memory
  import opened CrewTable
  import opened Schedule
  import opened ScheduleLaws
  import opened ScheduleMoves
  import opened ScheduleRuns

  // ----- The walk, member by member ---------------------------------------------------------------------------

  /** Under round robin, somebody who does not wait to block and has one cycle of the quantum left. */
  predicate UsedUp(c: Config, t: Trip) {
    c.algorithm == RoundRobin && !t.block && t.quantum == 1
  }

  /** The walk's effect on a member of EXEC: whoever waits to block does, whoever has used up the quantum gets a new one and
      is READY, and under round robin everybody else has one cycle less; a quantum of 0 wraps around. */
  function Swept(c: Config, sabotage: bool, t: Trip): Trip {
    if t.block then
      t.(block := false, state := if sabotage then BlockSabotage else BlockIo,
         quantum := if c.algorithm == RoundRobin then c.quantum else t.quantum)
    else if c.algorithm == Fifo then t
    else if t.quantum == 1 then t.(quantum := c.quantum, state := Ready)
    else t.(quantum := if t.quantum == 0 then 0xFFFF_FFFF else t.quantum - 1)
  }

  /** Those of the queue who wait to block, those who have used up their quantum, and the rest, each in queue order. */
  function Blocking(s: Sched, q: seq<Word>): seq<Word> {
    if q == [] then [] else (if Get(s, q[0]).block then [q[0]] else []) + Blocking(s, q[1..])
  }

  function Preempted(c: Config, s: Sched, q: seq<Word>): seq<Word> {
    if q == [] then [] else (if UsedUp(c, Get(s, q[0])) then [q[0]] else []) + Preempted(c, s, q[1..])
  }

  function Remaining(c: Config, s: Sched, q: seq<Word>): seq<Word> {
    if q == [] then []
    else (if Get(s, q[0]).block || UsedUp(c, Get(s, q[0])) then [] else [q[0]]) + Remaining(c, s, q[1..])
  }

  /** The state that a walk over `rest`, with `pre` left behind it in EXEC, ends in. */
  ghost predicate Walked(c: Config, s: Sched, pre: seq<Word>, rest: seq<Word>, s': Sched) {
    && s'.exec == pre + Remaining(c, s, rest)
    && s'.ready == s.ready + Preempted(c, s, rest)
    && s'.blocked == (if s.sabotage then s.blocked else s.blocked + Blocking(s, rest))
    && s'.frozen == (if s.sabotage then s.frozen + Blocking(s, rest) else s.frozen)
    && s'.handling == (s.handling || (s.sabotage && Blocking(s, rest) != []))
    && s'.remaining == (if s.sabotage && Blocking(s, rest) != [] then c.duration else s.remaining)
    && s'.crew.Keys == s.crew.Keys
    && (forall x :: x in s.crew ==> s'.crew[x] == if x in rest then Swept(c, s.sabotage, s.crew[x]) else s.crew[x])
    && s' == s.(exec := s'.exec, ready := s'.ready, blocked := s'.blocked, frozen := s'.frozen, crew := s'.crew,
                handling := s'.handling, remaining := s'.remaining)
  }

  /** One look of the walk. */
  ghost predicate Looked(c: Config, s: Sched, pre: seq<Word>, tid: Word, rest: seq<Word>, s1: Sched) {
    var t := Get(s, tid);
    && s1.exec == (if t.block || UsedUp(c, t) then pre + rest else pre + [tid] + rest)
    && s1.ready == (if UsedUp(c, t) then s.ready + [tid] else s.ready)
    && s1.blocked == (if t.block && !s.sabotage then s.blocked + [tid] else s.blocked)
    && s1.frozen == (if t.block && s.sabotage then s.frozen + [tid] else s.frozen)
    && s1.handling == (s.handling || (t.block && s.sabotage))
    && s1.remaining == (if t.block && s.sabotage then c.duration else s.remaining)
    && s1 == s.(exec := s1.exec, ready := s1.ready, blocked := s1.blocked, frozen := s1.frozen, crew := s1.crew,
                handling := s1.handling, remaining := s1.remaining)
    && s1.crew == s.crew[tid := Swept(c, s.sabotage, t)]
  }

  lemma LookedAt(c: Config, s: Sched, pre: seq<Word>, tid: Word, rest: seq<Word>)
    requires AllHoused(s) && s.exec == pre + [tid] + rest
    ensures |pre| < |s.exec| && tid in s.crew && tid !in rest
    ensures Looked(c, s, pre, tid, rest, Tick(c, s, |pre|))
    ensures Sweep(c, s, |pre|) == Sweep(c, Tick(c, s, |pre|), if Get(s, tid).block || UsedUp(c, Get(s, tid)) then |pre| else |pre| + 1)
  {
    assert s.exec[|pre|] == tid && RemoveAt(s.exec, |pre|) == pre + rest;
    InExec(s, |pre|);
    OncePerQueue(s, |pre|);
    hide AllHoused, RemoveAt;
    forall j | 0 <= j < |rest| ensures rest[j] != tid {
      assert s.exec[|pre| + 1 + j] == rest[j];
    }
    assert s.crew[tid := s.crew[tid]] == s.crew;
  }

  lemma {:induction false} SameSplit(c: Config, s: Sched, s1: Sched, q: seq<Word>)
    requires forall x :: x in q ==> Get(s1, x) == Get(s, x)
    ensures Blocking(s1, q) == Blocking(s, q) && Preempted(c, s1, q) == Preempted(c, s, q)
    ensures Remaining(c, s1, q) == Remaining(c, s, q)
  {
    if q != [] {
      assert forall x :: x in q[1..] ==> x in q;
      assert q[0] in q;
      SameSplit(c, s, s1, q[1..]);
    }
  }

  /** A look and the walk over the others are the whole walk. */
  lemma WalkedOn(c: Config, s: Sched, pre: seq<Word>, tid: Word, rest: seq<Word>, s1: Sched, pre1: seq<Word>, s': Sched)
    requires tid in s.crew && tid !in rest && Looked(c, s, pre, tid, rest, s1)
    requires pre1 == if Get(s, tid).block || UsedUp(c, Get(s, tid)) then pre else pre + [tid]
    requires Walked(c, s1, pre1, rest, s')
    ensures Walked(c, s, pre, [tid] + rest, s')
  {
    SameSplit(c, s, s1, rest);
    var q := [tid] + rest;
    assert q[0] == tid && q[1..] == rest;
    var b, p, r := Blocking(s, rest), Preempted(c, s, rest), Remaining(c, s, rest);
    assert Blocking(s, q) == (if Get(s, tid).block then [tid] else []) + b;
    assert Preempted(c, s, q) == (if UsedUp(c, Get(s, tid)) then [tid] else []) + p;
    assert Remaining(c, s, q) == (if Get(s, tid).block || UsedUp(c, Get(s, tid)) then [] else [tid]) + r;
    hide Blocking, Preempted, Remaining, Swept;
    PushedBetween(pre, tid, r, Get(s, tid).block || UsedUp(c, Get(s, tid)));
    PushedBetween(s.ready, tid, p, !UsedUp(c, Get(s, tid)));
    PushedBetween(s.blocked, tid, b, !Get(s, tid).block);
    PushedBetween(s.frozen, tid, b, !Get(s, tid).block);
  }

  lemma {:induction false} SweepWalks(c: Config, s: Sched, pre: seq<Word>, rest: seq<Word>)
    requires AllHoused(s) && s.exec == pre + rest
    ensures Walked(c, s, pre, rest, Sweep(c, s, |pre|))
    decreases |rest|
  {
    if rest == [] {
      assert pre + [] == pre && s.ready + [] == s.ready && s.blocked + [] == s.blocked && s.frozen + [] == s.frozen;
    } else {
      var tid, rest' := rest[0], rest[1..];
      assert rest == [tid] + rest' && s.exec == pre + [tid] + rest';
      LookedAt(c, s, pre, tid, rest');
      var s1 := Tick(c, s, |pre|);
      var pre1 := if Get(s, tid).block || UsedUp(c, Get(s, tid)) then pre else pre + [tid];
      TickHoused(c, s, |pre|);
      SweepWalks(c, s1, pre1, rest');
      WalkedOn(c, s, pre, tid, rest', s1, pre1, Sweep(c, s, |pre|));
    }
  }

  /** What the walk over EXEC does. Nobody is lost: those who wait to block go to the end of BLOCK, or during a sabotage to
      the end of the frozen, and the time begins to run; those who have used up their quantum go to the end of READY; the
      others stay; all of them in the order in which they stood in EXEC. Nobody else changes. */
  lemma SweepLaw(c: Config, s: Sched)
    requires AllHoused(s)
    ensures Walked(c, s, [], s.exec, Sweep(c, s, 0))
  {
    assert [] + s.exec == s.exec;
    SweepWalks(c, s, [], s.exec);
  }

  // ----- A whole cycle ------------------------------------------------------------------------------------------

  /** Running members changes their positions, tasks and wishes to block, and may add to the requests. */
  ghost predicate RanFrom(s: Sched, runs: seq<Word>, s': Sched) {
    && s' == s.(crew := s'.crew, requests := s'.requests) && s'.crew.Keys == s.crew.Keys
    && (forall x :: x in s.crew && x !in runs ==> s'.crew[x] == s.crew[x])
    && (forall x :: x in s.crew ==> s'.crew[x].quantum == s.crew[x].quantum && s'.crew[x].state == s.crew[x].state)
    && (forall x :: x in s.requests ==> x in s'.requests)
    && (forall x :: x in s'.requests ==> x in s.requests || x in runs)
  }

  lemma RunOneFrom(s: Sched, x: Word)
    requires x in s.crew && RunOne(s, x).Some?
    ensures RanFrom(s, [x], RunOne(s, x).value)
  {
  }

  lemma {:induction false} RunAllFrom(s: Sched, runs: seq<Word>)
    requires RunAll(s, runs).Some? && forall x :: x in runs ==> x in s.crew
    ensures RanFrom(s, runs, RunAll(s, runs).value)
    decreases |runs|
  {
    if runs != [] {
      RunOneFrom(s, runs[0]);
      assert runs == [runs[0]] + runs[1..];
      hide RunOne;
      RunAllFrom(RunOne(s, runs[0]).value, runs[1..]);
    }
  }

  /** The parts of a cycle outside a sabotage: after admission and dispatch, after the runs, after the I/O device, and after
      the walk over EXEC. */
  ghost predicate CalmParts(c: Config, s: Sched, runs: seq<Word>, after: seq<Word>, s1: Sched, s2: Sched, s3: Sched, s4: Sched) {
    && Prepare(c, s) == Some(s1) && Good(c, s1) && Working(s1) && !s1.sabotage && !s1.handling
    && RanFrom(s1, runs, s2.(exec := s1.exec)) && s2.exec == after && AllHoused(s2) && TripsMid(s2)
    && IoStep(s2) == Some(s3) && AllHoused(s3) && !s3.sabotage && !s3.handling
    && Sweep(c, s3, 0) == s4 && AllHoused(s4)
    && Cycle(c, s, runs, after) == Some(ServeRequests(s4))
  }

  lemma CalmCycle(c: Config, s: Sched, runs: seq<Word>, after: seq<Word>) returns (s1: Sched, s2: Sched, s3: Sched, s4: Sched)
    requires Good(c, s) && Possible(c, s, Turn(runs, after)) && !s.sabotage
    ensures CalmParts(c, s, runs, after, s1, s2, s3, s4)
  {
    PrepareGood(c, s);
    s1 := Prepare(c, s).value;
    s2, s3, s4 := CalmRest(c, s1, runs, after);
  }

  lemma CalmRest(c: Config, s1: Sched, runs: seq<Word>, after: seq<Word>) returns (s2: Sched, s3: Sched, s4: Sched)
    requires Good(c, s1) && Working(s1) && !s1.sabotage && Fair(c, s1.exec, runs, after) && Devices(s1, runs, after).Some?
    ensures RanFrom(s1, runs, s2.(exec := s1.exec)) && s2.exec == after && AllHoused(s2) && TripsMid(s2)
    ensures IoStep(s2) == Some(s3) && Devices(s1, runs, after) == Some(s3) && AllHoused(s3) && !s3.sabotage && !s3.handling
    ensures CheckExec(c, s3) == Sweep(c, s3, 0) == s4 && AllHoused(s4)
  {
    forall x | x in runs ensures x in s1.crew {
      assert Housed(s1, x);
      StateOf(s1, x);
    }
    RunAllFrom(s1, runs);
    RunAllMid(c, s1, runs, Calm);
    var ran := RunAll(s1, runs).value;
    ReorderMid(c, ran, after, Calm);
    s2 := ran.(exec := after);
    IoStepMid(c, s2, Calm);
    s3 := IoStep(s2).value;
    CheckExecMid(c, s3);
    s4 := CheckExec(c, s3);
  }

  /** Members in EXEC, in BLOCK or in the device are left alone by admission and dispatch. */
  lemma PreparedKeeps(c: Config, s: Sched, s1: Sched, tid: Word)
    requires AllHoused(s) && !s.sabotage && Prepare(c, s) == Some(s1) && tid in s.crew
    requires s.crew[tid].state == Exec || s.crew[tid].state == BlockIo
    ensures tid in s1.crew && s1.crew[tid] == s.crew[tid]
    ensures s1.blocked == s.blocked && s1.device == s.device && s1.requests == s.requests
    ensures tid in s.exec ==> tid in s1.exec
  {
    var admitted := AdmitNews(s);
    NewsAdmitted(s);
    assert Housed(s, tid);
    StateOf(s, tid);
    AdmittedHoused(s);
    ExecFilled(c, admitted);
    assert Housed(admitted, tid);
    StateOf(admitted, tid);
    assert forall x :: x in admitted.ready[..Room(c, admitted)] ==> x in admitted.ready;
  }

  // ----- Quanta over cycles and histories ---------------------------------------------------------------------------

  /** How many cycles a quantum lasts; one of 0 wraps around. */
  function Lasts(quantum: Word): nat {
    if quantum == 0 then 0x1_0000_0000 else quantum
  }

  lemma IoKeeps(s: Sched, s': Sched, tid: Word)
    requires AllHoused(s) && IoStep(s) == Some(s') && tid in s.crew && tid in s.exec
    ensures tid in s'.crew && s'.crew[tid] == s.crew[tid] && s'.exec == s.exec && s'.requests == s.requests
  {
    assert Housed(s, tid);
    StateOf(s, tid);
    TakeInHoused(s);
    assert Housed(TakeIn(s), tid);
    StateOf(TakeIn(s), tid);
  }

  /** What a cycle outside a sabotage does to a member that is in EXEC when it begins and is still there to be found when it
      ends: it ran in EXEC with the quantum it had, and then the walk did to it what it does. */
  lemma ExecTurn(c: Config, s: Sched, runs: seq<Word>, after: seq<Word>, tid: Word) returns (t: Trip)
    requires Good(c, s) && Possible(c, s, Turn(runs, after)) && !s.sabotage && tid in s.exec
    ensures tid in s.crew && t.quantum == s.crew[tid].quantum && t.state == Exec
    ensures var s' := Follow(c, s, Turn(runs, after));
      && (tid in s'.crew ==> s'.crew[tid] == Swept(c, false, t)) && (tid in s.requests ==> tid !in s'.crew)
  {
    var s1, s2, s3, s4 := CalmCycle(c, s, runs, after);
    assert Housed(s, tid);
    StateOf(s, tid);
    PreparedKeeps(c, s, s1, tid);
    RanIn(s1, runs, s2, after, tid, c);
    IoKeeps(s2, s3, tid);
    t := s3.crew[tid];
    SweepLaw(c, s3);
    RequestsServed(s4);
  }

  lemma RanIn(s1: Sched, runs: seq<Word>, s2: Sched, after: seq<Word>, tid: Word, c: Config)
    requires RanFrom(s1, runs, s2.(exec := s1.exec)) && s2.exec == after && Fair(c, s1.exec, runs, after)
    requires tid in s1.crew && tid in s1.exec && s1.crew[tid].state == Exec
    ensures tid in s2.crew && tid in s2.exec && s2.crew[tid].quantum == s1.crew[tid].quantum && s2.crew[tid].state == Exec
    ensures tid in s1.requests ==> tid in s2.requests
  {
    CountIn(s1.exec, tid);
    CountIn(after, tid);
  }

  /** Under round robin, outside a sabotage: somebody who stays in EXEC over a cycle had more than one cycle left, and has
      one less. Somebody who had just one is in READY or in BLOCK, with a full quantum, or expelled. */
  lemma QuantumTurn(c: Config, s: Sched, runs: seq<Word>, after: seq<Word>, tid: Word)
    requires Good(c, s) && Possible(c, s, Turn(runs, after)) && !s.sabotage && tid in s.exec && c.algorithm == RoundRobin
    ensures tid in s.crew
    ensures var s', q := Follow(c, s, Turn(runs, after)), s.crew[tid].quantum;
      && (tid in s'.exec ==> tid in s'.crew && q != 1 && Lasts(s'.crew[tid].quantum) == Lasts(q) - 1)
      && (q == 1 && tid in s'.crew ==> s'.crew[tid].quantum == c.quantum && (tid in s'.ready || tid in s'.blocked))
  {
    var t := ExecTurn(c, s, runs, after, tid);
    var s' := Follow(c, s, Turn(runs, after));
    CycleKeeps(c, s, runs, after);
    assert Housed(s', tid);
    StateOf(s', tid);
    if tid in s'.crew && t.quantum == 1 && t.block {
      JustBlocked(c, s, runs, after, tid);
    }
  }

  /** Somebody who was in EXEC does not get into the device in the same cycle. */
  lemma JustBlocked(c: Config, s: Sched, runs: seq<Word>, after: seq<Word>, tid: Word)
    requires Good(c, s) && Possible(c, s, Turn(runs, after)) && !s.sabotage && tid in s.exec
    ensures Follow(c, s, Turn(runs, after)).device != Some(tid)
  {
    var s1, s2, s3, s4 := CalmCycle(c, s, runs, after);
    assert Housed(s, tid);
    StateOf(s, tid);
    PreparedKeeps(c, s, s1, tid);
    RanIn(s1, runs, s2, after, tid, c);
    IoKeeps(s2, s3, tid);
    assert Housed(s3, tid);
    StateOf(s3, tid);
    SweepLaw(c, s3);
    RequestsServed(s4);
  }

  /** In EXEC in all these states, and no sabotage in all but the last. */
  ghost predicate StaysIn(ss: seq<Sched>, i: nat, j: nat, tid: Word) {
    && i <= j < |ss|
    && (forall m :: i <= m <= j ==> tid in ss[m].exec)
    && (forall m :: i <= m < j ==> !ss[m].sabotage)
  }

  /** While a member stays in EXEC under round robin, every cycle takes one off its quantum and nothing else does, so that
      there are fewer cycles than the quantum had when it was first seen there. */
  lemma {:induction false} QuantumRuns(c: Config, ss: seq<Sched>, es: seq<Event>, i: nat, j: nat, tid: Word)
    requires IsHistory(c, ss, es) && i <= j < |ss| && StaysIn(ss, i, j, tid) && c.algorithm == RoundRobin
    ensures |ss| == |es| + 1 && tid in ss[i].crew && tid in ss[j].crew
    ensures Lasts(ss[j].crew[tid].quantum) + Cycles(Flags(es[i..j])) == Lasts(ss[i].crew[tid].quantum)
    decreases j
  {
    hide *;
    StaysBefore(ss, i, j, tid);
    ExecMember(c, ss, es, i, tid);
    ExecMember(c, ss, es, j, tid);
    if i == j {
      NoCycles(es, i);
    } else {
      QuantumRuns(c, ss, es, i, j - 1, tid);
      CyclesSnoc(es, i, j);
      QuantumStep(c, ss, es, j - 1, tid);
    }
  }

  lemma NoCycles(es: seq<Event>, i: nat)
    requires i <= |es|
    ensures Cycles(Flags(es[i..i])) == 0
  {
    assert Flags(es[i..i]) == [];
  }

  lemma StaysBefore(ss: seq<Sched>, i: nat, j: nat, tid: Word)
    requires i <= j < |ss| && StaysIn(ss, i, j, tid)
    ensures tid in ss[i].exec && tid in ss[j].exec
    ensures i < j ==> StaysIn(ss, i, j - 1, tid) && !ss[j - 1].sabotage && tid in ss[j - 1].exec
  {
  }

  lemma ExecMember(c: Config, ss: seq<Sched>, es: seq<Event>, j: nat, tid: Word)
    requires IsHistory(c, ss, es) && j < |ss| && tid in ss[j].exec
    ensures j <= |es| && |ss| == |es| + 1 && tid in ss[j].crew
  {
    HistoryGood(c, ss, es, j);
    assert Housed(ss[j], tid);
    StateOf(ss[j], tid);
  }

  lemma QuantumStep(c: Config, ss: seq<Sched>, es: seq<Event>, k: nat, tid: Word)
    requires IsHistory(c, ss, es) && k < |es| && |ss| == |es| + 1 && c.algorithm == RoundRobin && !ss[k].sabotage
    requires tid in ss[k].exec && tid in ss[k].crew && tid in ss[k + 1].exec && tid in ss[k + 1].crew
    ensures Lasts(ss[k + 1].crew[tid].quantum) + One(es[k].Turn?) == Lasts(ss[k].crew[tid].quantum)
  {
    HistoryGood(c, ss, es, k);
    HistoryStep(c, ss, es, k + 1);
    hide IsHistory, Good, Possible, Follow;
    QuantumEvent(c, ss[k], es[k], tid);
  }

  lemma CyclesSnoc(es: seq<Event>, i: nat, j: nat)
    requires i < j <= |es|
    ensures Cycles(Flags(es[i..j])) == Cycles(Flags(es[i..j - 1])) + One(es[j - 1].Turn?)
  {
    var f := Flags(es[i..j]);
    assert f[..|f| - 1] == Flags(es[i..j - 1]);
  }

  lemma QuantumEvent(c: Config, s: Sched, e: Event, tid: Word)
    requires Good(c, s) && Possible(c, s, e) && !s.sabotage && c.algorithm == RoundRobin
    requires tid in s.exec && tid in s.crew && tid in Follow(c, s, e).exec && tid in Follow(c, s, e).crew
    ensures Lasts(Follow(c, s, e).crew[tid].quantum) + One(e.Turn?) == Lasts(s.crew[tid].quantum)
  {
    match e
    case Arrive(_, _) =>
    case Announce(_) =>
    case Ask(_) =>
    case Drop(x) => TerminateCrew(s, x);
    case Turn(runs, after) => QuantumTurn(c, s, runs, after, tid);
  }

  // ----- The configured quantum -----------------------------------------------------------------------------------------

  /** The quantum is what it was, or a new one, or one cycle less. */
  predicate QuantumNext(c: Config, q: Word, q': Word) {
    q' == q || q' == c.quantum || Lasts(q') == Lasts(q) - 1
  }

  lemma PreparedQuantum(c: Config, s: Sched, s1: Sched)
    requires Good(c, s) && Prepare(c, s) == Some(s1)
    ensures s1.crew.Keys == s.crew.Keys && forall x :: x in s.crew ==> s1.crew[x].quantum == s.crew[x].quantum
  {
    if !s.sabotage {
      NewsAdmitted(s);
      AdmittedHoused(s);
      ExecFilled(c, AdmitNews(s));
    } else if s.starting {
      InitSabotageEffect(c, s);
      ExecFilled(c, InitSabotage(s).value);
    } else {
      ExecFilled(c, s);
    }
  }

  lemma {:induction false} UnfrozenQuantum(s: Sched)
    requires AllHoused(s)
    ensures Unfreeze(s).crew.Keys == s.crew.Keys && forall x :: x in s.crew ==> Unfreeze(s).crew[x].quantum == s.crew[x].quantum
    decreases |s.frozen|
  {
    if s.frozen != [] {
      assert Housed(s, s.frozen[0]);
      StateOf(s, s.frozen[0]);
      UnfreezeOneHoused(s);
      UnfrozenQuantum(UnfreezeOne(s));
    }
  }

  lemma CheckedQuantum(c: Config, s: Sched, x: Word)
    requires AllHoused(s) && x in s.crew
    ensures x in CheckExec(c, s).crew && QuantumNext(c, s.crew[x].quantum, CheckExec(c, s).crew[x].quantum)
  {
    if s.handling {
      UnfrozenQuantum(s);
    } else {
      SweepLaw(c, s);
    }
  }

  lemma DevicesQuantum(c: Config, s: Sched, runs: seq<Word>, after: seq<Word>, x: Word)
    requires Good(c, s) && Working(s) && Fair(c, s.exec, runs, after) && Devices(s, runs, after).Some?
    ensures var s' := Devices(s, runs, after).value;
      AllHoused(s') && (x in s'.crew ==> x in s.crew && s'.crew[x].quantum == s.crew[x].quantum)
  {
    forall y | y in runs ensures y in s.crew {
      assert Housed(s, y);
      StateOf(s, y);
    }
    RunAllFrom(s, runs);
    var phase := if InPhase(s, Calm) then Calm else if InPhase(s, Hunting) then Hunting else Waiting;
    RunAllMid(c, s, runs, phase);
    ReorderMid(c, RunAll(s, runs).value, after, phase);
    DevicesMid(c, s, runs, after);
    IoQuantum(RunAll(s, runs).value.(exec := after), x);
  }

  lemma IoQuantum(s: Sched, x: Word)
    requires AllHoused(s) && IoStep(s).Some?
    ensures x in IoStep(s).value.crew ==> x in s.crew && IoStep(s).value.crew[x].quantum == s.crew[x].quantum
  {
    if !s.sabotage && TakeIn(s).device.Some? {
      TakeInHoused(s);
      assert Housed(TakeIn(s), TakeIn(s).device.value);
      StateOf(TakeIn(s), TakeIn(s).device.value);
    }
  }

  lemma TurnQuantum(c: Config, s: Sched, runs: seq<Word>, after: seq<Word>, x: Word)
    requires Good(c, s) && Possible(c, s, Turn(runs, after)) && x in Follow(c, s, Turn(runs, after)).crew
    ensures x in s.crew && QuantumNext(c, s.crew[x].quantum, Follow(c, s, Turn(runs, after)).crew[x].quantum)
  {
    var s1 := Prepare(c, s).value;
    PreparedQuantum(c, s, s1);
    PrepareGood(c, s);
    DevicesQuantum(c, s1, runs, after, x);
    var s2 := Devices(s1, runs, after).value;
    ServeKeeps(CheckExec(c, s2));
    CheckedKeys(c, s2);
    if x in s2.crew {
      CheckedQuantum(c, s2, x);
    }
  }

  lemma CheckedKeys(c: Config, s: Sched)
    requires AllHoused(s)
    ensures CheckExec(c, s).crew.Keys == s.crew.Keys
  {
    if s.handling {
      UnfrozenQuantum(s);
    } else {
      SweepLaw(c, s);
    }
  }

  /** Members arrive with the configured quantum. */
  predicate ComeFull(c: Config, es: seq<Event>) {
    forall m :: 0 <= m < |es| && es[m].Arrive? ==> es[m].trip.quantum == c.quantum
  }

  /** Then nobody ever has more than that. */
  lemma {:induction false} QuantumBounded(c: Config, ss: seq<Sched>, es: seq<Event>, i: nat, tid: Word)
    requires IsHistory(c, ss, es) && i < |ss| && ComeFull(c, es)
    ensures tid in ss[i].crew ==> Lasts(ss[i].crew[tid].quantum) <= Lasts(c.quantum)
  {
    if i > 0 {
      QuantumBounded(c, ss, es, i - 1, tid);
      HistoryGood(c, ss, es, i - 1);
      HistoryStep(c, ss, es, i);
      var e := es[i - 1];
      match e
      case Arrive(x, _) => assert x == tid ==> e.trip.quantum == c.quantum;
      case Announce(_) =>
      case Ask(_) =>
      case Drop(x) => TerminateCrew(ss[i - 1], x);
      case Turn(runs, after) =>
        if tid in ss[i].crew {
          TurnQuantum(c, ss[i - 1], runs, after, tid);
        }
    }
  }

  /** So under round robin nobody stays in EXEC, outside a sabotage, for as many cycles as the configured quantum after
      having been seen there at the end of a cycle. */
  lemma NobodyOverstays(c: Config, ss: seq<Sched>, es: seq<Event>, i: nat, j: nat, tid: Word)
    requires IsHistory(c, ss, es) && i <= j < |ss| && StaysIn(ss, i, j, tid) && c.algorithm == RoundRobin && ComeFull(c, es)
    ensures j <= |es| && Cycles(Flags(es[i..j])) < Lasts(c.quantum)
  {
    QuantumRuns(c, ss, es, i, j, tid);
    QuantumBounded(c, ss, es, i, tid);
  }
}
