/** Orders that the protocol of a cycle really produces: after everybody in EXEC has run once, one member of one's choice
    is run again by all the CPUs that have nobody of their own, while the others are held back. */
module ProtocolOrders {
  import opened Memory
  import opened CycleProtocol

  // ----- Stretches of runs ------------------------------------------------------------------------------------

  /** A stretch of a run, from any world. */
  ghost predicate IsPath(c: Config, ws: seq<World>, steps: seq<Step>) {
    && |ws| == |steps| + 1
    && forall i {:trigger steps[i]} :: 0 <= i < |steps| ==>
         && |ws[i].sems| == |ws[i].phases| == Devices(c)
         && Enabled(c, ws[i], steps[i])
         && ws[i + 1] == Apply(c, ws[i], steps[i])
  }

  ghost predicate Reaches(c: Config, a: World, b: World) {
    exists ws, steps :: IsPath(c, ws, steps) && ws[0] == a && ws[|steps|] == b
  }

  lemma Stay(c: Config, a: World)
    ensures Reaches(c, a, a)
  {
    assert IsPath(c, [a], []);
  }

  lemma {:induction false} Then(c: Config, a: World, b: World, step: Step)
    requires Reaches(c, a, b) && |b.sems| == |b.phases| == Devices(c) && Enabled(c, b, step)
    ensures Reaches(c, a, Apply(c, b, step))
  {
    var ws, steps :| IsPath(c, ws, steps) && ws[0] == a && ws[|steps|] == b;
    var ws', steps' := ws + [Apply(c, b, step)], steps + [step];
    forall i | 0 <= i < |steps'|
      ensures |ws'[i].sems| == |ws'[i].phases| == Devices(c) && Enabled(c, ws'[i], steps'[i])
      ensures ws'[i + 1] == Apply(c, ws'[i], steps'[i])
    {
      if i < |steps| {
        assert steps'[i] == steps[i];
      }
    }
    assert IsPath(c, ws', steps');
  }

  // ----- A cycle in which one member runs again and again -------------------------------------------------------------

  /** What all worlds of the cycle share after the planner has posted all semaphores. */
  ghost predicate Within(c: Config, a: World, w: World, exec: seq<Id>) {
    && Reaches(c, a, w) && |w.sems| == |w.phases| == Devices(c) && w.start == exec && c.io == c.cpus && |exec| <= c.cpus
    && w.planner == Posting(Devices(c))
  }

  /** All semaphores are posted one after the other, before any device gets past its own. */
  lemma {:induction false} PostAll(c: Config, a: World, w: World, n: nat) returns (w': World)
    requires Reaches(c, a, w) && |w.sems| == |w.phases| == Devices(c) && n <= Devices(c) && w.planner == Posting(n)
    requires forall d :: 0 <= d < Devices(c) ==> w.phases[d] == Waiting && w.sems[d] == if d < n then 1 else 0
    ensures Reaches(c, a, w') && w' == w.(sems := w'.sems, planner := Posting(Devices(c))) && |w'.sems| == Devices(c)
    ensures forall d :: 0 <= d < Devices(c) ==> w'.phases[d] == Waiting && w'.sems[d] == 1
    decreases Devices(c) - n
  {
    w' := w;
    if n < Devices(c) {
      Then(c, a, w, Post);
      w' := PostAll(c, a, Apply(c, w, Post), n + 1);
    }
  }

  /** The first `n` CPUs hold the first `n` members, who have run. */
  ghost predicate FirstRan(c: Config, w: World, exec: seq<Id>, n: nat) {
    && n <= |exec| <= c.cpus && |w.sems| == |w.phases| == Devices(c) && w.notifier == 0
    && w.exec == exec[n..] && w.ran == exec[..n]
    && (forall d :: 0 <= d < n ==> w.phases[d] == Ran(exec[d]) && w.sems[d] == 0)
    && (forall d :: n <= d < Devices(c) ==> w.phases[d] == Waiting && w.sems[d] == 1)
  }

  lemma {:induction false} RunEach(c: Config, a: World, w: World, exec: seq<Id>, n: nat) returns (w': World)
    requires Within(c, a, w, exec) && FirstRan(c, w, exec, n)
    ensures Within(c, a, w', exec) && FirstRan(c, w', exec, |exec|)
    decreases |exec| - n
  {
    w' := w;
    if n < |exec| {
      var w3 := TakeAndRun(c, a, w, exec, n);
      assert exec[..n + 1] == exec[..n] + [exec[n]];
      w' := RunEach(c, a, w3, exec, n + 1);
    }
  }

  /** CPU `d` takes the member at the head of EXEC and lets it run. */
  lemma TakeAndRun(c: Config, a: World, w: World, exec: seq<Id>, d: nat) returns (w': World)
    requires Within(c, a, w, exec) && d < c.cpus && w.phases[d] == Waiting && w.sems[d] == 1 && w.exec != []
    ensures Within(c, a, w', exec) && w'.notifier == w.notifier
    ensures w'.exec == w.exec[1..] && w'.ran == w.ran + [w.exec[0]]
    ensures w'.phases == w.phases[d := Ran(w.exec[0])] && w'.sems == w.sems[d := 0]
  {
    var w1 := Apply(c, w, Wake(d));
    Then(c, a, w, Wake(d));
    var w2 := Apply(c, w1, Take(d));
    Then(c, a, w1, Take(d));
    w' := Apply(c, w2, Run(d));
    Then(c, a, w2, Run(d));
  }

  function Again(who: Id, n: nat): (r: seq<Id>)
    ensures |r| == n && forall x :: multiset(r)[x] == if x == who then n else 0
  {
    if n == 0 then [] else Again(who, n - 1) + [who]
  }

  /** CPU `p` has put its member back, and the CPUs up to `n` that had nobody have run it again. */
  ghost predicate RanAgain(c: Config, w: World, exec: seq<Id>, p: nat, n: nat) {
    && p < |exec| <= n <= c.cpus && |w.sems| == |w.phases| == Devices(c) && w.notifier == 0
    && w.exec == [exec[p]] && w.ran == exec + Again(exec[p], n - |exec|)
    && (forall d :: 0 <= d < |exec| && d != p ==> w.phases[d] == Ran(exec[d]) && w.sems[d] == 0)
    && w.phases[p] == Ending && w.sems[p] == 0
    && (forall d :: |exec| <= d < n ==> w.phases[d] == Ending && w.sems[d] == 0)
    && (forall d :: n <= d < Devices(c) ==> w.phases[d] == Waiting && w.sems[d] == 1)
  }

  lemma {:induction false} RunAgain(c: Config, a: World, w: World, exec: seq<Id>, p: nat, n: nat) returns (w': World)
    requires Within(c, a, w, exec) && RanAgain(c, w, exec, p, n)
    ensures Within(c, a, w', exec) && RanAgain(c, w', exec, p, c.cpus)
    decreases c.cpus - n
  {
    w' := w;
    if n < c.cpus {
      var w3 := TakeAndRun(c, a, w, exec, n);
      var w4 := Apply(c, w3, Return(n));
      Then(c, a, w3, Return(n));
      assert w4.ran == exec + (Again(exec[p], n - |exec|) + [exec[p]]);
      w' := RunAgain(c, a, w4, exec, p, n + 1);
    }
  }

  // ----- The end of the cycle -------------------------------------------------------------------------------------------

  /** All members have run as they will; the CPUs up to `n` have put theirs back. */
  ghost predicate PutBack(c: Config, w: World, ran: seq<Id>, n: nat) {
    && n <= c.cpus && |w.sems| == |w.phases| == Devices(c) && w.notifier == 0 && w.ran == ran
    && (forall d :: 0 <= d < n ==> w.phases[d] == Ending && w.sems[d] == 0)
    && (forall d :: n <= d < c.cpus ==> w.sems[d] == 0 && (w.phases[d] == Ending || w.phases[d].Ran?))
    && w.phases[c.cpus] == Waiting && w.sems[c.cpus] == 1
  }

  lemma {:induction false} ReturnAll(c: Config, a: World, w: World, exec: seq<Id>, n: nat) returns (w': World)
    requires Within(c, a, w, exec) && PutBack(c, w, w.ran, n)
    ensures Within(c, a, w', exec) && PutBack(c, w', w.ran, c.cpus)
    decreases c.cpus - n
  {
    w' := w;
    if n < c.cpus {
      if w.phases[n].Ran? {
        Then(c, a, w, Return(n));
        w' := ReturnAll(c, a, Apply(c, w, Return(n)), exec, n + 1);
      } else {
        w' := ReturnAll(c, a, w, exec, n + 1);
      }
    }
  }

  /** The first `n` devices have notified. */
  ghost predicate Notified(c: Config, w: World, n: nat) {
    && n <= Devices(c) && |w.sems| == |w.phases| == Devices(c) && w.notifier == n
    && (forall d :: 0 <= d < n ==> w.phases[d] == Waiting && w.sems[d] == 0)
    && (forall d :: n <= d < Devices(c) ==> w.phases[d] == Ending && w.sems[d] == 0)
  }

  lemma {:induction false} NotifyAll(c: Config, a: World, w: World, exec: seq<Id>, n: nat) returns (w': World)
    requires Within(c, a, w, exec) && Notified(c, w, n)
    ensures Within(c, a, w', exec) && Notified(c, w', Devices(c)) && w'.ran == w.ran
    decreases Devices(c) - n
  {
    w' := w;
    if n < Devices(c) {
      Then(c, a, w, Notify(n));
      w' := NotifyAll(c, a, Apply(c, w, Notify(n)), exec, n + 1);
    }
  }

  /** From there the cycle comes to the barrier, and the barrier can open. */
  lemma Finish(c: Config, a: World, w: World, exec: seq<Id>) returns (w': World)
    requires Within(c, a, w, exec) && PutBack(c, w, w.ran, 0)
    ensures Reaches(c, a, w') && |w'.sems| == |w'.phases| == Devices(c) && w'.planner == AtBarrier && w'.notifier == Devices(c)
    ensures w'.start == exec && w'.ran == w.ran
    ensures forall d :: 0 <= d < Devices(c) ==> w'.phases[d] == Waiting && w'.sems[d] == 0
  {
    var w1 := ReturnAll(c, a, w, exec, 0);
    Then(c, a, w1, Wake(c.io));
    var w2 := Apply(c, w1, Wake(c.io));
    Then(c, a, w2, Mind(c.io));
    var w3 := NotifyAll(c, a, Apply(c, w2, Mind(c.io)), exec, 0);
    Then(c, a, w3, Arrive);
    w' := Apply(c, w3, Arrive);
  }

  /** A cycle on an empty queue. */
  lemma {:induction false} LookAll(c: Config, a: World, w: World, n: nat) returns (w': World)
    requires Within(c, a, w, []) && n <= c.cpus && w.exec == w.ran == [] && w.notifier == 0
    requires forall d :: 0 <= d < n ==> w.phases[d] == Ending && w.sems[d] == 0
    requires forall d :: n <= d < Devices(c) ==> w.phases[d] == Waiting && w.sems[d] == 1
    ensures Within(c, a, w', []) && PutBack(c, w', [], 0)
    decreases c.cpus - n
  {
    w' := w;
    if n < c.cpus {
      Then(c, a, w, Wake(n));
      var w1 := Apply(c, w, Wake(n));
      Then(c, a, w1, Take(n));
      w' := LookAll(c, a, Apply(c, w1, Take(n)), n + 1);
    }
  }

  // ----- The order -----------------------------------------------------------------------------------------------------

  /** Some run has a cycle that begins with these members in EXEC, lets them run in this order and leaves EXEC so. */
  ghost predicate Produces(c: Config, exec: seq<Id>, ran: seq<Id>, after: seq<Id>) {
    exists ws: seq<World>, steps: seq<Step>, i: nat :: Cycled(c, ws, steps, i)
      && ws[i + 1].start == exec && ws[i + 1].ran == ran && ws[i + 1].exec == after
  }

  ghost predicate Cycled(c: Config, ws: seq<World>, steps: seq<Step>, i: nat) {
    IsRun(c, ws, steps) && i < |steps| && steps[i].Open?
  }

  /** An empty cycle, and everything is ready for a cycle with these members. */
  lemma Prepared(c: Config, a: World, exec: seq<Id>) returns (w: World)
    requires Initial(c, a) && c.io == c.cpus && |exec| <= c.cpus && Distinct(exec)
    ensures Within(c, a, w, exec) && FirstRan(c, w, exec, 0)
  {
    Stay(c, a);
    var w1 := PostAll(c, a, a, 0);
    var w2 := LookAll(c, a, w1, 0);
    var w3 := Finish(c, a, w2, []);
    Then(c, a, w3, Open);
    var w4 := Apply(c, w3, Open);
    Then(c, a, w4, NextCycle(exec));
    w := PostAll(c, a, Apply(c, w4, NextCycle(exec)), 0);
  }

  lemma OpensAt(c: Config, a: World, w: World)
    requires Initial(c, a) && Reaches(c, a, w) && |w.sems| == |w.phases| == Devices(c)
    requires w.planner == AtBarrier && w.notifier == Devices(c)
    ensures Produces(c, w.start, w.ran, w.exec)
  {
    var ws, steps :| IsPath(c, ws, steps) && ws[0] == a && ws[|steps|] == w;
    var ws', steps' := ws + [Apply(c, w, Open)], steps + [Open];
    forall i | 0 <= i < |steps'|
      ensures |ws'[i].sems| == |ws'[i].phases| == Devices(c) && Enabled(c, ws'[i], steps'[i])
      ensures ws'[i + 1] == Apply(c, ws'[i], steps'[i])
    {
      if i < |steps| {
        assert steps'[i] == steps[i];
      }
    }
    assert Cycled(c, ws', steps', |steps|);
  }

  /** With CPUs to spare, or without, the protocol can run everybody once and then one member as often as there are CPUs
      left. */
  lemma AgainProduced(c: Config, exec: seq<Id>, p: nat) returns (after: seq<Id>)
    requires c.io == c.cpus && p < |exec| <= c.cpus && Distinct(exec)
    ensures Produces(c, exec, exec + Again(exec[p], c.cpus - |exec|), after)
  {
    var a := World(seq(Devices(c), _ => 0), 0, Posting(0), seq(Devices(c), _ => Waiting), [], [], [], [], [], []);
    var w1 := Prepared(c, a, exec);
    var w2 := RunEach(c, a, w1, exec, 0);
    Then(c, a, w2, Return(p));
    var w3 := Apply(c, w2, Return(p));
    var w4 := RunAgain(c, a, w3, exec, p, |exec|);
    var w5 := Finish(c, a, w4, exec);
    OpensAt(c, a, w5);
    after := w5.exec;
  }
}
