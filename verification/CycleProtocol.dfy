/** One scheduling cycle as interleaved atomic steps: the planner posts a semaphore per device and waits at the
    barrier; each CPU takes a member from the EXEC queue, lets it run and puts it back; the I/O device minds its
    own queue; everyone notifies the end of the cycle. */
module CycleProtocol {

  import opened Memory

  type Id = Word

  /** `cpus` CPUs and one I/O device, whose device number is `io`. The EXEC queue holds `cpus` members at most. */
  datatype Config = Config(cpus: nat, io: nat)

  function Devices(c: Config): nat {
    c.cpus + 1
  }

  datatype Phase = Waiting | Started | Running(who: Id) | Ran(who: Id) | Ending

  datatype Planner = Posting(next: nat) | AtBarrier | Blocked | Woken | Between

  /** The last five fields are history: EXEC at the start of the cycle, who was taken from it, who ran, which CPUs
      have looked into it, which devices have notified. */
  datatype World = World(
    sems: seq<nat>, notifier: nat, planner: Planner, phases: seq<Phase>, exec: seq<Id>,
    start: seq<Id>, taken: seq<Id>, ran: seq<Id>, looked: seq<nat>, notified: seq<nat>)

  datatype Step =
    | Post                     // the planner posts the next device's semaphore
    | Arrive                   // all posted: the planner goes to the barrier
    | Check                    // not everybody has notified: the planner blocks
    | Open                     // everybody has: the barrier opens
    | Wake(d: nat)             // a device gets past its semaphore
    | Take(d: nat)             // a CPU takes the member at the head of EXEC, if there is one
    | Run(d: nat)              // the member runs
    | Return(d: nat)           // the CPU puts the member back, if the queue has room
    | Mind(d: nat)             // the I/O device does its work
    | Notify(d: nat)           // a device notifies the end of its cycle, the last one wakes the planner
    | NextCycle(exec: seq<Id>) // between cycles the planner rearranges EXEC

  ghost predicate Distinct<T>(s: seq<T>) {
    forall i, j :: 0 <= i < j < |s| ==> s[i] != s[j]
  }

  ghost predicate Enabled(c: Config, w: World, step: Step)
    requires |w.sems| == |w.phases| == Devices(c)
  {
    match step
    case Post => w.planner.Posting? && w.planner.next < Devices(c)
    case Arrive => w.planner == Posting(Devices(c))
    case Check => w.planner.AtBarrier? && w.notifier != Devices(c)
    case Open => w.planner.Woken? || (w.planner.AtBarrier? && w.notifier == Devices(c))
    case Wake(d) => d < Devices(c) && w.phases[d].Waiting? && w.sems[d] > 0
    case Take(d) => d < Devices(c) && w.phases[d].Started? && d != c.io
    case Run(d) => d < Devices(c) && w.phases[d].Running?
    case Return(d) => d < Devices(c) && w.phases[d].Ran?
    case Mind(d) => d < Devices(c) && w.phases[d].Started? && d == c.io
    case Notify(d) => d < Devices(c) && w.phases[d].Ending?
    case NextCycle(exec) => w.planner.Between? && |exec| <= c.cpus && Distinct(exec)
  }

  ghost function Apply(c: Config, w: World, step: Step): World
    requires |w.sems| == |w.phases| == Devices(c) && Enabled(c, w, step)
  {
    match step
    case Post => w.(sems := w.sems[w.planner.next := w.sems[w.planner.next] + 1], planner := Posting(w.planner.next + 1))
    case Arrive => w.(planner := AtBarrier)
    case Check => w.(planner := Blocked)
    case Open => w.(planner := Between, notifier := 0)
    case Wake(d) => w.(sems := w.sems[d := w.sems[d] - 1], phases := w.phases[d := Started])
    case Take(d) =>
      if w.exec == [] then w.(phases := w.phases[d := Ending], looked := w.looked + [d])
      else w.(phases := w.phases[d := Running(w.exec[0])], exec := w.exec[1..],
              taken := w.taken + [w.exec[0]], looked := w.looked + [d])
    case Run(d) => w.(phases := w.phases[d := Ran(w.phases[d].who)], ran := w.ran + [w.phases[d].who])
    case Return(d) =>
      w.(phases := w.phases[d := Ending],
         exec := if c.cpus == 0 || |w.exec| < c.cpus then w.exec + [w.phases[d].who] else w.exec)
    case Mind(d) => w.(phases := w.phases[d := Ending])
    case Notify(d) =>
      w.(phases := w.phases[d := Waiting], notifier := w.notifier + 1, notified := w.notified + [d],
         planner := if w.notifier + 1 == Devices(c) && w.planner.Blocked? then Woken else w.planner)
    case NextCycle(exec) =>
      w.(planner := Posting(0), exec := exec, start := exec, taken := [], ran := [], looked := [], notified := [])
  }

  ghost predicate Initial(c: Config, w: World) {
    && c.io <= c.cpus
    && w == World(seq(Devices(c), _ => 0), 0, Posting(0), seq(Devices(c), _ => Waiting), [], [], [], [], [], [])
  }

  // ----- The invariant --------------------------------------------------------------------------------------

  predicate Posted(w: World, d: nat) {
    w.planner.Posting? ==> d < w.planner.next
  }

  function One(b: bool): nat {
    if b then 1 else 0
  }

  /** A device's semaphore has been posted once per cycle; since then it waits there, or the device is at work, or
      it has notified. */
  ghost predicate DeviceOk(c: Config, w: World, d: nat)
    requires |w.sems| == |w.phases| == Devices(c) && d < Devices(c)
  {
    && w.sems[d] + One(!w.phases[d].Waiting?) + One(d in w.notified) == One(Posted(w, d))
    && (d in w.looked <==> d != c.io && (w.phases[d].Running? || w.phases[d].Ran? || w.phases[d].Ending? || d in w.notified))
    && (d == c.io ==> !w.phases[d].Running? && !w.phases[d].Ran?)
  }

  predicate InHand(p: Phase) {
    p.Running? || p.Ran?
  }

  /** How many CPUs hold the member, how many of those have not let it run yet, and how many CPUs hold anyone. */
  function Held(phases: seq<Phase>, who: Id): nat {
    if phases == [] then 0
    else One(InHand(phases[0]) && phases[0].who == who) + Held(phases[1..], who)
  }

  function ToRun(phases: seq<Phase>, who: Id): nat {
    if phases == [] then 0 else One(phases[0] == Running(who)) + ToRun(phases[1..], who)
  }

  function Busy(phases: seq<Phase>): nat {
    if phases == [] then 0 else One(InHand(phases[0])) + Busy(phases[1..])
  }

  lemma {:induction false} PhaseChange(phases: seq<Phase>, d: nat, p: Phase, who: Id)
    requires d < |phases|
    ensures Held(phases[d := p], who) + One(InHand(phases[d]) && phases[d].who == who)
         == Held(phases, who) + One(InHand(p) && p.who == who)
    ensures ToRun(phases[d := p], who) + One(phases[d] == Running(who)) == ToRun(phases, who) + One(p == Running(who))
    ensures Busy(phases[d := p]) + One(InHand(phases[d])) == Busy(phases) + One(InHand(p))
  {
    if d == 0 {
      assert phases[d := p][1..] == phases[1..];
    } else {
      assert phases[d := p][1..] == phases[1..][d - 1 := p];
      PhaseChange(phases[1..], d - 1, p, who);
    }
  }

  lemma {:induction false} NobodyHeld(phases: seq<Phase>, who: Id)
    requires forall d :: 0 <= d < |phases| ==> phases[d].Waiting?
    ensures Held(phases, who) == 0 && ToRun(phases, who) == 0 && Busy(phases) == 0
  {
    if phases != [] {
      NobodyHeld(phases[1..], who);
    }
  }

  /** Members are taken in queue order: the first `k` that are taken are those that were there at the start. */
  ghost predicate InOrder(w: World) {
    var k := |w.start|;
    && (forall j :: 0 <= j < |w.taken| && j < k ==> w.taken[j] == w.start[j])
    && (|w.taken| < k ==> k - |w.taken| <= |w.exec|
                          && forall j :: 0 <= j < k - |w.taken| ==> w.exec[j] == w.start[|w.taken| + j])
    && (forall j :: 0 <= j < |w.taken| ==> w.taken[j] in w.start)
    && |w.taken| <= |w.looked|
    && (|w.taken| < |w.looked| ==> k <= |w.taken|)
  }

  ghost predicate Sized(c: Config, w: World) {
    |w.sems| == |w.phases| == Devices(c) && c.io <= c.cpus
  }

  /** What the devices, their semaphores and the barrier are up to. */
  ghost predicate DevicesInv(c: Config, w: World)
    requires Sized(c, w)
  {
    && (forall d: nat {:trigger DeviceOk(c, w, d)} :: d < Devices(c) ==> DeviceOk(c, w, d))
    && Distinct(w.notified) && (forall d :: d in w.notified ==> d < Devices(c))
    && Distinct(w.looked) && (forall d :: d in w.looked ==> d < Devices(c))
    && (w.planner.Posting? ==> w.planner.next <= Devices(c))
    && (if w.planner.Between? then w.notifier == 0 && |w.notified| == Devices(c) else w.notifier == |w.notified|)
    && (w.planner.Blocked? ==> w.notifier < Devices(c))
    && (w.planner.Woken? ==> w.notifier == Devices(c))
  }

  ghost predicate Counted(w: World, who: Id) {
    && multiset(w.exec)[who] + Held(w.phases, who) == multiset(w.start)[who]
    && multiset(w.ran)[who] + ToRun(w.phases, who) == multiset(w.taken)[who]
  }

  /** No member is lost or doubled. */
  ghost predicate MembersInv(w: World) {
    && (forall who {:trigger Counted(w, who)} :: Counted(w, who))
    && |w.exec| + Busy(w.phases) == |w.start|
  }

  ghost predicate Inv(c: Config, w: World) {
    && Sized(c, w)
    && DevicesInv(c, w)
    && MembersInv(w)
    && InOrder(w)
    && Distinct(w.start) && |w.start| <= c.cpus
  }

  // ----- Counting devices -------------------------------------------------------------------------------------

  function Elements(s: seq<nat>): set<nat> {
    set x | x in s
  }

  lemma {:induction false} ElementsCount(s: seq<nat>)
    requires Distinct(s)
    ensures |Elements(s)| == |s|
  {
    if s == [] {
      assert Elements(s) == {};
    } else {
      ElementsCount(s[1..]);
      assert Elements(s) == {s[0]} + Elements(s[1..]);
    }
  }

  function Range(m: nat): (r: set<nat>)
    ensures |r| == m && forall x: nat :: x in r <==> x < m
  {
    if m == 0 then {} else Range(m - 1) + {m - 1}
  }

  lemma SubsetCount(a: set<nat>, b: set<nat>)
    requires a <= b
    ensures |a| <= |b| && (|a| == |b| ==> a == b)
  {
    assert b == a + (b - a);
  }

  /** As many distinct devices as there are: all of them. */
  lemma AllDevices(c: Config, s: seq<nat>)
    requires Distinct(s) && forall d :: d in s ==> d < Devices(c)
    ensures |s| <= Devices(c)
    ensures |s| == Devices(c) ==> forall d: nat :: d < Devices(c) ==> d in s
    ensures |s| < Devices(c) ==> exists d: nat :: d < Devices(c) && d !in s
  {
    ElementsCount(s);
    SubsetCount(Elements(s), Range(Devices(c)));
    if |s| == Devices(c) {
      forall d: nat | d < Devices(c) ensures d in s {
        assert d in Elements(s);
      }
    } else {
      assert Range(Devices(c)) - Elements(s) != {};
      var d :| d in Range(Devices(c)) - Elements(s);
      assert d < Devices(c) && d !in s;
    }
  }

  lemma AllCpus(c: Config, s: seq<nat>)
    requires Distinct(s) && c.io <= c.cpus
    requires forall d: nat :: d in s <==> d < Devices(c) && d != c.io
    ensures |s| == c.cpus
  {
    ElementsCount(s);
    assert Elements(s) == Range(Devices(c)) - {c.io};
  }

  // ----- Every step keeps the invariant ----------------------------------------------------------------------------

  lemma InitialInv(c: Config, w: World)
    requires Initial(c, w)
    ensures Inv(c, w)
  {
    forall who ensures Counted(w, who) {
      NobodyHeld(w.phases, who);
    }
    NobodyHeld(w.phases, 0);
  }

  /** A member that is put back is never dropped. */
  lemma NoPushDropped(c: Config, w: World, d: nat)
    requires Inv(c, w) && Enabled(c, w, Return(d))
    ensures Apply(c, w, Return(d)).exec == w.exec + [w.phases[d].who]
  {
    PhaseChange(w.phases, d, Waiting, 0);
  }

  lemma StepInv(c: Config, w: World, step: Step)
    requires Inv(c, w) && Enabled(c, w, step)
    ensures Inv(c, Apply(c, w, step))
  {
    StepDevices(c, w, step);
    StepMembers(c, w, step);
    StepOrder(c, w, step);
  }

  lemma StepDevices(c: Config, w: World, step: Step)
    requires Sized(c, w) && DevicesInv(c, w) && Enabled(c, w, step)
    ensures Sized(c, Apply(c, w, step)) && DevicesInv(c, Apply(c, w, step))
  {
    var w' := Apply(c, w, step);
    AllDevices(c, w.notified);
    if step.Take? || step.Notify? {
      assert DeviceOk(c, w, step.d);
    }
    if step.Notify? {
      AllDevices(c, w'.notified);
    }
    forall d: nat | d < Devices(c) ensures DeviceOk(c, w', d) {
      StepDevice(c, w, step, d);
    }
  }

  lemma StepDevice(c: Config, w: World, step: Step, d: nat)
    requires Sized(c, w) && DevicesInv(c, w) && Enabled(c, w, step) && d < Devices(c)
    ensures DeviceOk(c, Apply(c, w, step), d)
  {
    assert DeviceOk(c, w, d);
    if step.NextCycle? {
      AllDevices(c, w.notified);
    }
  }

  lemma StepMembers(c: Config, w: World, step: Step)
    requires Inv(c, w) && Enabled(c, w, step)
    ensures MembersInv(Apply(c, w, step))
  {
    var w' := Apply(c, w, step);
    forall who ensures Counted(w', who) {
      CountedStep(c, w, step, who);
    }
    CountedStep(c, w, step, 0);
  }

  lemma CountedStep(c: Config, w: World, step: Step, who: Id)
    requires Inv(c, w) && Enabled(c, w, step)
    ensures Counted(Apply(c, w, step), who)
    ensures |Apply(c, w, step).exec| + Busy(Apply(c, w, step).phases) == |Apply(c, w, step).start|
  {
    assert Counted(w, who);
    match step
    case Post =>
    case Arrive =>
    case Check =>
    case Open =>
    case NextCycle(exec) => NobodyAtTheBarrier(c, w, who);
    case Take(d) => TakeCounted(c, w, d, who);
    case Return(d) => ReturnCounted(c, w, d, who);
    case Run(d) => RunCounted(c, w, d, who);
    case Wake(d) => PhaseChange(w.phases, d, Started, who);
    case Mind(d) => PhaseChange(w.phases, d, Ending, who);
    case Notify(d) => PhaseChange(w.phases, d, Waiting, who);
  }

  lemma NobodyAtTheBarrier(c: Config, w: World, who: Id)
    requires Inv(c, w) && w.planner.Between?
    ensures Held(w.phases, who) == 0 && ToRun(w.phases, who) == 0 && Busy(w.phases) == 0
  {
    AllDevices(c, w.notified);
    forall d: nat | d < Devices(c) ensures w.phases[d].Waiting? {
      assert DeviceOk(c, w, d);
    }
    NobodyHeld(w.phases, who);
  }

  lemma TakeCounted(c: Config, w: World, d: nat, who: Id)
    requires Inv(c, w) && Enabled(c, w, Take(d))
    ensures Counted(Apply(c, w, Take(d)), who)
    ensures |Apply(c, w, Take(d)).exec| + Busy(Apply(c, w, Take(d)).phases) == |w.start|
  {
    assert Counted(w, who);
    PhaseChange(w.phases, d, Apply(c, w, Take(d)).phases[d], who);
    if w.exec != [] {
      assert w.exec == [w.exec[0]] + w.exec[1..];
    }
  }

  lemma ReturnCounted(c: Config, w: World, d: nat, who: Id)
    requires Inv(c, w) && Enabled(c, w, Return(d))
    ensures Counted(Apply(c, w, Return(d)), who)
    ensures |Apply(c, w, Return(d)).exec| + Busy(Apply(c, w, Return(d)).phases) == |w.start|
  {
    assert Counted(w, who);
    NoPushDropped(c, w, d);
    PhaseChange(w.phases, d, Ending, who);
  }

  lemma RunCounted(c: Config, w: World, d: nat, who: Id)
    requires Inv(c, w) && Enabled(c, w, Run(d))
    ensures Counted(Apply(c, w, Run(d)), who)
    ensures Busy(Apply(c, w, Run(d)).phases) == Busy(w.phases)
  {
    assert Counted(w, who);
    PhaseChange(w.phases, d, Ran(w.phases[d].who), who);
  }

  lemma StepOrder(c: Config, w: World, step: Step)
    requires Inv(c, w) && Enabled(c, w, step)
    ensures InOrder(Apply(c, w, step))
    ensures Distinct(Apply(c, w, step).start) && |Apply(c, w, step).start| <= c.cpus
  {
    if step.Return? {
      NoPushDropped(c, w, step.d);
    } else if step.Take? {
      TakeOrder(c, w, step.d);
    }
  }

  lemma TakeOrder(c: Config, w: World, d: nat)
    requires Inv(c, w) && Enabled(c, w, Take(d))
    ensures InOrder(Apply(c, w, Take(d)))
  {
    var w' := Apply(c, w, Take(d));
    if w.exec != [] {
      assert Counted(w, w.exec[0]);
      assert w.exec[0] in multiset(w.exec);
      if |w.taken| < |w.start| {
        assert w.exec[0] == w.start[|w.taken| + 0];
      }
    }
  }

  // ----- All runs -----------------------------------------------------------------------------------------------

  /** A run: every world follows from the one before it by some step. */
  ghost predicate IsRun(c: Config, ws: seq<World>, steps: seq<Step>) {
    && |ws| == |steps| + 1
    && Initial(c, ws[0])
    && forall i {:trigger steps[i]} :: 0 <= i < |steps| ==>
         && |ws[i].sems| == |ws[i].phases| == Devices(c)
         && Enabled(c, ws[i], steps[i])
         && ws[i + 1] == Apply(c, ws[i], steps[i])
  }

  lemma {:induction false} RunInvariant(c: Config, ws: seq<World>, steps: seq<Step>, i: nat)
    requires IsRun(c, ws, steps) && i < |ws|
    ensures Inv(c, ws[i])
  {
    if i == 0 {
      InitialInv(c, ws[0]);
    } else {
      RunInvariant(c, ws, steps, i - 1);
      StepInv(c, ws[i - 1], steps[i - 1]);
    }
  }

  /** How often a member ran in this cycle. */
  function Times(w: World, who: Id): nat {
    multiset(w.ran)[who]
  }

  /** Whenever the barrier opens, under whatever interleaving: every device has notified, exactly once; EXEC holds
      the members it held at the start of the cycle; each of them has run, and if there were as many of them as CPUs,
      exactly once. */
  lemma BarrierOpens(c: Config, ws: seq<World>, steps: seq<Step>, i: nat)
    requires IsRun(c, ws, steps) && i < |steps| && steps[i].Open?
    ensures var w := ws[i + 1];
      && |w.phases| == |w.sems| == Devices(c)
      && (forall d :: 0 <= d < Devices(c) ==> multiset(w.notified)[d] == 1 && w.phases[d].Waiting? && w.sems[d] == 0)
      && multiset(w.exec) == multiset(w.start)
      && (forall who :: who in w.start ==> Times(w, who) >= 1)
      && (|w.start| == c.cpus ==> forall who :: who in w.start ==> Times(w, who) == 1)
      && (forall who :: who in w.ran ==> who in w.start)
      && |w.ran| <= c.cpus
  {
    RunInvariant(c, ws, steps, i + 1);
    assert ws[i + 1] == Apply(c, ws[i], steps[i]);
    AtTheBarrier(c, ws[i + 1]);
  }

  lemma AtTheBarrier(c: Config, w: World)
    requires Inv(c, w) && w.planner.Between?
    ensures forall d :: 0 <= d < Devices(c) ==> multiset(w.notified)[d] == 1 && w.phases[d].Waiting? && w.sems[d] == 0
    ensures multiset(w.exec) == multiset(w.start)
    ensures forall who :: who in w.start ==> Times(w, who) >= 1
    ensures |w.start| == c.cpus ==> forall who :: who in w.start ==> Times(w, who) == 1
    ensures forall who :: who in w.ran ==> who in w.start
    ensures |w.ran| <= c.cpus
  {
    AllDevices(c, w.notified);
    forall d | 0 <= d < Devices(c) ensures multiset(w.notified)[d] == 1 && w.phases[d].Waiting? && w.sems[d] == 0
    {
      assert DeviceOk(c, w, d);
      DistinctOnce(w.notified, d);
    }
    forall d: nat ensures d in w.looked <==> d < Devices(c) && d != c.io {
      if d < Devices(c) {
        assert DeviceOk(c, w, d);
      }
    }
    AllCpus(c, w.looked);
    forall who ensures multiset(w.exec)[who] == multiset(w.start)[who] && multiset(w.ran)[who] == multiset(w.taken)[who] {
      assert Counted(w, who);
      NobodyHeld(w.phases, who);
    }
    assert multiset(w.ran) == multiset(w.taken);
    assert |multiset(w.ran)| == |w.ran| && |multiset(w.taken)| == |w.taken|;
    forall who | who in w.start ensures Times(w, who) >= 1 {
      var j :| 0 <= j < |w.start| && w.start[j] == who;
      assert w.taken[j] == who;
    }
    if |w.start| == c.cpus {
      assert w.taken == w.start;
      forall who | who in w.start ensures Times(w, who) == 1 {
        DistinctOnce(w.start, who);
      }
    }
    forall who | who in w.ran ensures who in w.start {
      assert who in w.taken by {
        assert multiset(w.ran)[who] > 0;
      }
    }
  }

  lemma {:induction false} DistinctOnce<T>(s: seq<T>, x: T)
    requires Distinct(s) && x in s
    ensures multiset(s)[x] == 1
  {
    assert s == [s[0]] + s[1..];
    if s[0] == x {
      assert x !in s[1..];
    } else {
      DistinctOnce(s[1..], x);
    }
  }

  // ----- No deadlock, no endless cycle ---------------------------------------------------------------------------

  /** How many steps a device may still take in this cycle. */
  function StepsOf(p: Phase, sem: nat): nat {
    match p
    case Waiting => if sem > 0 then 5 else 0
    case Started => 4
    case Running(_) => 3
    case Ran(_) => 2
    case Ending => 1
  }

  function StepsLeft(phases: seq<Phase>, sems: seq<nat>): nat
    requires |phases| == |sems|
  {
    if phases == [] then 0 else StepsOf(phases[0], sems[0]) + StepsLeft(phases[1..], sems[1..])
  }

  function PlannerSteps(c: Config, p: Planner): nat {
    match p
    case Posting(next) => if next <= Devices(c) then 6 * (Devices(c) - next) + 4 else 4
    case AtBarrier => 3
    case Blocked => 2
    case Woken => 1
    case Between => 0
  }

  /** A bound on the steps left until the barrier opens. */
  ghost function Left(c: Config, w: World): nat
    requires |w.sems| == |w.phases|
  {
    PlannerSteps(c, w.planner) + StepsLeft(w.phases, w.sems)
  }

  lemma {:induction false} StepsUpdate(phases: seq<Phase>, sems: seq<nat>, d: nat, p: Phase, sem: nat)
    requires |phases| == |sems| && d < |phases|
    ensures StepsLeft(phases[d := p], sems[d := sem]) == StepsLeft(phases, sems) - StepsOf(phases[d], sems[d]) + StepsOf(p, sem)
  {
    if d == 0 {
      assert phases[d := p][1..] == phases[1..] && sems[d := sem][1..] == sems[1..];
    } else {
      assert phases[d := p][1..] == phases[1..][d - 1 := p] && sems[d := sem][1..] == sems[1..][d - 1 := sem];
      StepsUpdate(phases[1..], sems[1..], d - 1, p, sem);
    }
  }

  /** Every step of a cycle uses up some of what is left of it, whoever takes it. */
  lemma StepDecreases(c: Config, w: World, step: Step)
    requires Inv(c, w) && Enabled(c, w, step) && !step.NextCycle?
    ensures Left(c, Apply(c, w, step)) < Left(c, w)
  {
    var w' := Apply(c, w, step);
    if step.Post? {
      var d := w.planner.next;
      assert w.phases[d := w.phases[d]] == w.phases;
      StepsUpdate(w.phases, w.sems, d, w.phases[d], w.sems[d] + 1);
    } else if !step.Arrive? && !step.Check? && !step.Open? {
      var d := step.d;
      assert DeviceOk(c, w, d);
      assert w'.sems == w.sems[d := w'.sems[d]];
      StepsUpdate(w.phases, w.sems, d, w'.phases[d], w'.sems[d]);
    }
  }

  /** And until the barrier opens there is always a step to take: no wakeup is lost. */
  lemma NeverStuck(c: Config, w: World)
    requires Inv(c, w) && !w.planner.Between?
    ensures exists step: Step :: !step.NextCycle? && Enabled(c, w, step)
  {
    match w.planner
    case Posting(next) => assert Enabled(c, w, if next < Devices(c) then Post else Arrive);
    case AtBarrier => assert Enabled(c, w, if w.notifier == Devices(c) then Open else Check);
    case Woken => assert Enabled(c, w, Open);
    case Blocked =>
      AllDevices(c, w.notified);
      var d: nat :| d < Devices(c) && d !in w.notified;
      assert DeviceOk(c, w, d);
      var step := match w.phases[d]
        case Waiting => Wake(d)
        case Started => if d == c.io then Mind(d) else Take(d)
        case Running(_) => Run(d)
        case Ran(_) => Return(d)
        case Ending => Notify(d);
      assert Enabled(c, w, step);
  }

  /** From the start of a cycle at most `6 * devices + 4` steps lead to the barrier opening. */
  lemma {:induction false} CycleLength(c: Config, ws: seq<World>, steps: seq<Step>, i: nat, j: nat)
    requires IsRun(c, ws, steps) && i <= j < |ws| && ws[i].planner == Posting(0)
    requires forall k :: i <= k < j ==> !steps[k].NextCycle?
    ensures |ws[i].sems| == |ws[i].phases| && |ws[j].sems| == |ws[j].phases|
    ensures Left(c, ws[j]) + (j - i) <= 6 * Devices(c) + 4
    decreases j
  {
    RunInvariant(c, ws, steps, j);
    if i == j {
      forall d: nat | d < Devices(c) ensures ws[i].phases[d].Waiting? && ws[i].sems[d] == 0 {
        assert DeviceOk(c, ws[i], d);
      }
      Idle(ws[i].phases, ws[i].sems);
    } else {
      CycleLength(c, ws, steps, i, j - 1);
      RunInvariant(c, ws, steps, j - 1);
      assert ws[j] == Apply(c, ws[j - 1], steps[j - 1]);
      StepDecreases(c, ws[j - 1], steps[j - 1]);
    }
  }

  lemma {:induction false} Idle(phases: seq<Phase>, sems: seq<nat>)
    requires |phases| == |sems| && forall d :: 0 <= d < |phases| ==> phases[d].Waiting? && sems[d] == 0
    ensures StepsLeft(phases, sems) == 0
  {
    if phases != [] {
      Idle(phases[1..], sems[1..]);
    }
  }
}
