/** What the I/O device does to the members that wait for it: one at a time, in the order of BLOCK, each for exactly as many
    cycles as its task takes. */
module DeviceLaws {
  import opened Memory
  import opened CrewTable
  import opened Schedule
  import opened ScheduleLaws
  import opened ScheduleMoves
  import opened ScheduleRuns
  import opened SweepLaws

  /** The cycles that a task keeps the device; a time of 0 wraps around. */
  function Takes(k: Task): nat {
    if k.time == 0 then 0x1_0000_0000 else k.time
  }

  // ----- The device by itself ---------------------------------------------------------------------------------

  /** `k` cycles of the device, with nothing else going on. */
  function IoSteps(s: Sched, k: nat): Option<Sched> {
    if k == 0 then Some(s)
    else
      var before := IoSteps(s, k - 1);
      if before.None? then None else IoStep(before.value)
  }

  /** The member with this time left for its task. */
  function WithTime(s: Sched, tid: Word, left: Word): Sched
    requires tid in s.crew && s.crew[tid].task.Some?
  {
    s.(crew := s.crew[tid := s.crew[tid].(task := Some(s.crew[tid].task.value.(time := left)))])
  }

  /** One cycle of a member whose task is not over yet. */
  lemma OneLess(s: Sched, tid: Word)
    requires !s.sabotage && s.device == Some(tid) && tid in s.crew && s.crew[tid].task.Some? && Takes(s.crew[tid].task.value) > 1
    ensures IoStep(s) == Some(WithTime(s, tid, Takes(s.crew[tid].task.value) - 1))
  {
  }

  /** Until its task is over a member keeps the device, and the task's time goes down by one in every cycle. */
  lemma {:induction false} DeviceCounts(s: Sched, tid: Word, k: nat)
    requires !s.sabotage && s.device == Some(tid) && tid in s.crew && s.crew[tid].task.Some?
    requires 0 < k < Takes(s.crew[tid].task.value)
    ensures IoSteps(s, k) == Some(WithTime(s, tid, Takes(s.crew[tid].task.value) - k))
  {
    var n := Takes(s.crew[tid].task.value);
    if k == 1 {
      assert IoSteps(s, 0) == Some(s);
      OneLess(s, tid);
    } else {
      DeviceCounts(s, tid, k - 1);
      var s1 := WithTime(s, tid, n - (k - 1));
      OneLess(s1, tid);
      assert s1.crew[tid := WithTime(s, tid, n - k).crew[tid]] == WithTime(s, tid, n - k).crew;
    }
  }

  /** A member that is through with its task: READY with the next one, or out of the crew if there is none. */
  function Released(s: Sched, tid: Word): Sched
    requires tid in s.crew
  {
    var t := s.crew[tid];
    if t.todo == [] then s.(crew := s.crew - {tid}, device := None)
    else
      s.(crew := s.crew[tid := t.(state := Ready, task := Some(t.todo[0]), todo := t.todo[1..])],
         ready := s.ready + [tid], device := None)
  }

  lemma LastOne(s: Sched, tid: Word)
    requires !s.sabotage && s.device == Some(tid) && tid in s.crew && s.crew[tid].task.Some? && s.crew[tid].task.value.time == 1
    ensures IoStep(s) == Some(Released(s, tid))
  {
  }

  lemma ReleasedAnyway(s: Sched, tid: Word, left: Word)
    requires tid in s.crew && s.crew[tid].task.Some?
    ensures Released(WithTime(s, tid, left), tid) == Released(s, tid)
  {
    hide IoStep, Housed, TripMid;
    var s1 := WithTime(s, tid, left);
    var t := s.crew[tid];
    if t.todo == [] {
      assert s1.crew - {tid} == s.crew - {tid};
    } else {
      var u := t.(state := Ready, task := Some(t.todo[0]), todo := t.todo[1..]);
      assert s1.crew[tid := u] == s.crew[tid := u];
    }
  }

  /** In the cycle in which its time is up, the member leaves the device: to the end of READY with the first of its other
      tasks, or out of the crew if there is none. */
  lemma DeviceReleases(s: Sched, tid: Word)
    requires !s.sabotage && s.device == Some(tid) && tid in s.crew && s.crew[tid].task.Some?
    ensures IoSteps(s, Takes(s.crew[tid].task.value)) == Some(Released(s, tid))
  {
    var n := Takes(s.crew[tid].task.value);
    hide IoStep, Released;
    if n == 1 {
      assert IoSteps(s, 0) == Some(s);
      LastOne(s, tid);
    } else {
      DeviceCounts(s, tid, n - 1);
      LastOne(WithTime(s, tid, 1), tid);
      ReleasedAnyway(s, tid, 1);
    }
  }

  /** An idle device takes the head of BLOCK, and works for it in the same cycle; the others keep their order. */
  lemma TakesHead(s: Sched)
    requires !s.sabotage && s.device.None? && s.blocked != []
    ensures IoStep(s) == IoStep(s.(device := Some(s.blocked[0]), blocked := s.blocked[1..]))
  {
  }

  /** With nobody to work for, and during a sabotage, it does nothing. */
  lemma DeviceRests(s: Sched)
    requires s.sabotage || (s.device.None? && s.blocked == [])
    ensures IoStep(s) == Some(s)
  {
  }

  // ----- Within a cycle of the planner -----------------------------------------------------------------------------

  /** The member's task, as long as it waits for the device or is in it. */
  lemma WaitsWithTask(c: Config, s: Sched, tid: Word)
    requires Mid(c, s) && (tid in s.blocked || s.device == Some(tid))
    ensures tid in s.crew && s.crew[tid].state == BlockIo && s.crew[tid].task.Some? && tid !in s.exec
  {
    assert Housed(s, tid) && TripMid(s, tid);
    StateOf(s, tid);
  }

  /** The state of the cycle in which the device does its work, for those who wait for it. */
  lemma BeforeDevice(c: Config, s: Sched, runs: seq<Word>, after: seq<Word>, s1: Sched, s2: Sched, s3: Sched, s4: Sched, tid: Word)
    requires Good(c, s) && Possible(c, s, Turn(runs, after)) && !s.sabotage && CalmParts(c, s, runs, after, s1, s2, s3, s4)
    requires tid in s.blocked || s.device == Some(tid)
    ensures tid in s.crew && tid in s2.crew && s2.crew[tid] == s.crew[tid]
    ensures s2.blocked == s.blocked && s2.device == s.device
    ensures tid in s2.requests <==> tid in s.requests
  {
    WaitsWithTask(c, s, tid);
    PreparedKeeps(c, s, s1, tid);
    WaitsWithTask(c, s1, tid);
  }

  /** A cycle outside a sabotage, for the member in the device: it works on with one cycle less to go, or is through in this
      one; unless its expulsion has been requested. */
  lemma DeviceTurn(c: Config, s: Sched, runs: seq<Word>, after: seq<Word>, tid: Word)
    requires Good(c, s) && Possible(c, s, Turn(runs, after)) && !s.sabotage && s.device == Some(tid)
    ensures tid in s.crew && s.crew[tid].task.Some?
    ensures var s', n := Follow(c, s, Turn(runs, after)), Takes(s.crew[tid].task.value);
      && (tid in s.requests ==> tid !in s'.crew && s'.device != Some(tid))
      && (n > 1 && tid !in s.requests ==>
            s'.device == Some(tid) && tid in s'.crew
            && s'.crew[tid] == s.crew[tid].(task := Some(s.crew[tid].task.value.(time := n - 1))))
      && (n == 1 ==> s'.device != Some(tid))
      && (n == 1 && tid !in s.requests ==>
            (tid in s'.crew <==> s.crew[tid].todo != [])
            && (tid in s'.crew ==> tid in s'.ready && s'.crew[tid].task == Some(s.crew[tid].todo[0])
                                   && s'.crew[tid].todo == s.crew[tid].todo[1..]))
  {
    WaitsWithTask(c, s, tid);
    var s1, s2, s3, s4 := CalmCycle(c, s, runs, after);
    BeforeDevice(c, s, runs, after, s1, s2, s3, s4, tid);
    DeviceThrough(c, s2, s3, tid);
    DeviceServed(c, s2, s3, s4, tid);
  }

  lemma DeviceThrough(c: Config, s: Sched, s': Sched, tid: Word)
    requires AllHoused(s) && IoStep(s) == Some(s') && !s.sabotage && s.device == Some(tid) && tid in s.crew && s.crew[tid].task.Some?
    ensures s' == if Takes(s.crew[tid].task.value) > 1 then WithTime(s, tid, Takes(s.crew[tid].task.value) - 1) else Released(s, tid)
    ensures tid !in s.exec && tid !in s.blocked
  {
    assert Housed(s, tid);
    OneQueue(s, tid);
    if Takes(s.crew[tid].task.value) > 1 {
      OneLess(s, tid);
    } else {
      LastOne(s, tid);
    }
  }

  lemma DeviceServed(c: Config, s2: Sched, s3: Sched, s4: Sched, tid: Word)
    requires AllHoused(s2) && AllHoused(s3) && AllHoused(s4) && Sweep(c, s3, 0) == s4 && !s3.sabotage
    requires s2.device == Some(tid) && tid in s2.crew && s2.crew[tid].task.Some? && tid !in s2.exec
    requires s3 == if Takes(s2.crew[tid].task.value) > 1 then WithTime(s2, tid, Takes(s2.crew[tid].task.value) - 1) else Released(s2, tid)
    ensures var s' := ServeRequests(s4);
      && (tid in s2.requests ==> tid !in s'.crew && s'.device != Some(tid))
      && (tid !in s2.requests ==>
            s'.device == s3.device && (tid in s'.crew <==> tid in s3.crew)
            && (tid in s'.crew ==> s'.crew[tid] == s3.crew[tid])
            && (tid in s3.ready ==> tid in s'.ready))
      && (s3.device.None? ==> s'.device.None?)
  {
    SweepLaw(c, s3);
    RequestsServed(s4);
    if tid in s3.ready && tid !in s2.requests {
      StaysListed(s4.ready, Members(s4.requests), tid);
    }
  }

  lemma {:induction false} StaysListed(q: seq<Word>, gone: set<Word>, x: Word)
    requires x in q && x !in gone
    ensures x in Excluding(q, gone)
  {
    if q[0] != x {
      StaysListed(q[1..], gone, x);
    }
  }

  // ----- Over histories ----------------------------------------------------------------------------------------------

  /** In the device in all these states, and no sabotage in all but the last. */
  ghost predicate Holds(ss: seq<Sched>, i: nat, j: nat, tid: Word) {
    && i <= j < |ss|
    && (forall m :: i <= m <= j ==> ss[m].device == Some(tid))
    && (forall m :: i <= m < j ==> !ss[m].sabotage)
  }

  lemma HoldsBefore(ss: seq<Sched>, i: nat, j: nat, tid: Word)
    requires i <= j < |ss| && Holds(ss, i, j, tid)
    ensures ss[i].device == Some(tid) && ss[j].device == Some(tid)
    ensures i < j ==> Holds(ss, i, j - 1, tid) && !ss[j - 1].sabotage && ss[j - 1].device == Some(tid)
  {
  }

  lemma DeviceMember(c: Config, ss: seq<Sched>, es: seq<Event>, k: nat, tid: Word)
    requires IsHistory(c, ss, es) && k < |ss| && ss[k].device == Some(tid)
    ensures |ss| == |es| + 1 && tid in ss[k].crew && ss[k].crew[tid].task.Some?
  {
    HistoryGood(c, ss, es, k);
    WaitsWithTask(c, ss[k], tid);
  }

  /** While a member is in the device, outside a sabotage, every cycle takes one off its task's time and nothing else does;
      so it is out after exactly as many cycles as the task takes. */
  lemma {:induction false} DeviceRuns(c: Config, ss: seq<Sched>, es: seq<Event>, i: nat, j: nat, tid: Word)
    requires IsHistory(c, ss, es) && i <= j < |ss| && Holds(ss, i, j, tid)
    ensures |ss| == |es| + 1 && tid in ss[i].crew && tid in ss[j].crew && ss[i].crew[tid].task.Some? && ss[j].crew[tid].task.Some?
    ensures Takes(ss[j].crew[tid].task.value) + Cycles(Flags(es[i..j])) == Takes(ss[i].crew[tid].task.value)
    decreases j
  {
    hide *;
    HoldsBefore(ss, i, j, tid);
    DeviceMember(c, ss, es, i, tid);
    DeviceMember(c, ss, es, j, tid);
    if i == j {
      NoCycles(es, i);
    } else {
      DeviceRuns(c, ss, es, i, j - 1, tid);
      CyclesSnoc(es, i, j);
      DeviceEvent(c, ss, es, j - 1, tid);
    }
  }

  lemma DeviceEvent(c: Config, ss: seq<Sched>, es: seq<Event>, k: nat, tid: Word)
    requires IsHistory(c, ss, es) && k < |es| && |ss| == |es| + 1 && !ss[k].sabotage
    requires ss[k].device == Some(tid) && ss[k + 1].device == Some(tid)
    requires tid in ss[k].crew && tid in ss[k + 1].crew && ss[k].crew[tid].task.Some? && ss[k + 1].crew[tid].task.Some?
    ensures Takes(ss[k + 1].crew[tid].task.value) + One(es[k].Turn?) == Takes(ss[k].crew[tid].task.value)
  {
    HistoryGood(c, ss, es, k);
    HistoryStep(c, ss, es, k + 1);
    var e := es[k];
    match e
    case Arrive(x, _) =>
    case Announce(_) =>
    case Ask(_) =>
    case Drop(x) => TerminateCrew(ss[k], x);
    case Turn(runs, after) => DeviceTurn(c, ss[k], runs, after, tid);
  }
}
