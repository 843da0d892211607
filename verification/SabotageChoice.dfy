/** Whether the member sent to a sabotage is the nearest one. The routine compares differences of coordinate sums in 32
    bits; here they are set against the moves that it really takes. */
module SabotageChoice {
  import opened Memory
  import opened CrewTable
  import opened Schedule
  import opened ScheduleLaws

  const HALF := 0x8000_0000

  function Excess(a: Word, b: Word): nat {
    if a > b then a - b else 0
  }

  /** How far a position lies beyond the target, in both coordinates together. */
  function Overshoot(p: Pos, target: Pos): nat {
    Excess(p.x, target.x) + Excess(p.y, target.y)
  }

  /** What the routine compares is the distance exactly when that fits in a word and the position is not beyond the
      target in either coordinate, or beyond it by exactly half the range. */
  lemma GapIsDistanceIff(p: Pos, target: Pos)
    ensures GapTo(target, p) == Distance(p, target)
       <==> Distance(p, target) <= 0xFFFF_FFFF && (Overshoot(p, target) == 0 || Overshoot(p, target) == HALF)
  {
    var total := target.x + target.y - p.x - p.y;
    assert total == Distance(p, target) - 2 * Overshoot(p, target);
  }

  /** Somebody in EXEC or READY. */
  predicate Running(s: Sched, tid: Word) {
    tid in s.exec || tid in s.ready
  }

  /** Nobody in EXEC or READY is nearer to the sabotage. */
  ghost predicate Nearest(s: Sched, tid: Word) {
    && Running(s, tid)
    && forall x :: Running(s, x) ==> Distance(Get(s, tid).pos, s.target) <= Distance(Get(s, x).pos, s.target)
  }

  /** If nobody is beyond the target in either coordinate, the nearest member is sent. */
  lemma NearestSent(c: Config, s: Sched)
    requires Good(c, s) && InPhase(s, Notified) && Candidate(s)
    requires forall x :: Running(s, x) ==> Overshoot(Get(s, x).pos, s.target) == 0 && Distance(Get(s, x).pos, s.target) <= 0xFFFF_FFFF
    ensures Nearest(s, Chosen(s))
  {
    ChosenIsClosest(c, s);
    InitSabotageEffect(c, s);
    assert Running(s, Chosen(s));
    GapIsDistanceIff(Get(s, Chosen(s)).pos, s.target);
    forall x | Running(s, x) ensures Distance(Get(s, Chosen(s)).pos, s.target) <= Distance(Get(s, x).pos, s.target) {
      GapIsDistanceIff(Get(s, x).pos, s.target);
    }
  }

  // ----- On a map -------------------------------------------------------------------------------------------

  predicate OnMap(p: Pos, corner: Pos) {
    p.x <= corner.x && p.y <= corner.y
  }

  /** A sabotage at `target` that finds somebody, with everybody in EXEC or READY on the map. */
  ghost predicate Alarm(c: Config, s: Sched, target: Pos, corner: Pos) {
    && Good(c, s) && InPhase(s, Notified) && Candidate(s) && s.target == target
    && forall x :: Running(s, x) ==> OnMap(Get(s, x).pos, corner)
  }

  /** Wherever the members are, the nearest is sent. */
  ghost predicate AlwaysNearest(target: Pos, corner: Pos) {
    forall c, s :: Alarm(c, s, target, corner) ==> Nearest(s, Chosen(s))
  }

  ghost predicate WithinOne(target: Pos, corner: Pos) {
    forall p :: OnMap(p, corner) ==> Distance(p, target) <= 1
  }

  /** Two members in READY when the sabotage is announced. */
  function Two(target: Pos, p: Pos, q: Pos): Sched {
    Sched([], [1, 2], [], [], [], None, map[1 := Idle(p), 2 := Idle(q)], [], true, true, target, false, 0)
  }

  function Idle(p: Pos): Trip {
    Trip(p, 1, Ready, false, Some(Task(p, false, 1)), [])
  }

  const ONE_CPU := Config(1, 1, 0, Fifo)

  lemma TwoGood(target: Pos, p: Pos, q: Pos)
    ensures Good(ONE_CPU, Two(target, p, q)) && InPhase(Two(target, p, q), Notified)
    ensures forall x :: Running(Two(target, p, q), x) <==> x == 1 || x == 2
  {
    var s := Two(target, p, q);
    forall x ensures Housed(s, x) && TripMid(s, x) && TripGood(s, x) {
      CountPush([], 1, x);
      CountPush([1], 2, x);
      assert [1 as Word] + [2] == [1, 2];
    }
  }

  /** The gap of the first is the largest word, so the second is sent, be it nearer or not. */
  lemma SecondSent(target: Pos, p: Pos, q: Pos)
    requires GapTo(target, p) == 0xFFFF_FFFF && GapTo(target, q) < 0xFFFF_FFFF
    ensures Candidate(Two(target, p, q)) && Chosen(Two(target, p, q)) == 2
    ensures Distance(p, target) < Distance(q, target) ==> !Nearest(Two(target, p, q), 2)
  {
    var s := Two(target, p, q);
    TwoGood(target, p, q);
    assert Get(s, 1).pos == p && Get(s, 2).pos == q;
    assert Gap(s, 2) < 0xFFFF_FFFF && 2 in s.ready;
    ChosenIsClosest(ONE_CPU, s);
    InitSabotageEffect(ONE_CPU, s);
    assert Running(s, Chosen(s));
    assert Running(s, 1) && Running(s, 2);
  }

  /** A member one step beyond the target is passed over for one that is ten steps away. */
  lemma PassedOver()
    ensures var s := Two(Pos(5, 5), Pos(6, 5), Pos(0, 0));
      && Good(ONE_CPU, s) && InPhase(s, Notified) && Candidate(s) && Chosen(s) == 2
      && Distance(Get(s, 1).pos, s.target) == 1 && Distance(Get(s, 2).pos, s.target) == 10
  {
    TwoGood(Pos(5, 5), Pos(6, 5), Pos(0, 0));
    SecondSent(Pos(5, 5), Pos(6, 5), Pos(0, 0));
  }

  /** On the way to the target there is a position two steps from it. */
  lemma {:induction false} TwoStepsOff(p: Pos, target: Pos, corner: Pos) returns (q: Pos)
    requires OnMap(p, corner) && OnMap(target, corner) && Distance(p, target) >= 2
    ensures OnMap(q, corner) && Distance(q, target) == 2
    decreases Distance(p, target)
  {
    q := p;
    if Distance(p, target) > 2 {
      TowardCloser(p, target);
      q := TwoStepsOff(Toward(p, target), target, corner);
    }
  }

  /** On a map whose coordinate sums fit in a word, the nearest member is sent from everywhere exactly when the target is
      the corner with the largest coordinates, or no place is more than one step from it. */
  lemma AlwaysNearestIff(target: Pos, corner: Pos)
    requires OnMap(target, corner) && corner.x + corner.y <= 0xFFFF_FFFF
    ensures AlwaysNearest(target, corner) <==> target == corner || WithinOne(target, corner)
  {
    if target == corner {
      forall c, s | Alarm(c, s, target, corner) ensures Nearest(s, Chosen(s)) {
        NearestSent(c, s);
      }
    } else if WithinOne(target, corner) {
      forall c, s | Alarm(c, s, target, corner) ensures Nearest(s, Chosen(s)) {
        OneStepNearest(c, s, target, corner);
      }
    } else {
      var far :| OnMap(far, corner) && Distance(far, target) > 1;
      var q := TwoStepsOff(far, target, corner);
      var p := if target.x < corner.x then Pos(target.x + 1, target.y) else Pos(target.x, target.y + 1);
      TwoGood(target, p, q);
      SecondSent(target, p, q);
      var s := Two(target, p, q);
      assert Get(s, 1).pos == p && Get(s, 2).pos == q;
      assert Alarm(ONE_CPU, s, target, corner);
    }
  }

  lemma OneStepNearest(c: Config, s: Sched, target: Pos, corner: Pos)
    requires OnMap(target, corner) && corner.x + corner.y <= 0xFFFF_FFFF && WithinOne(target, corner)
    requires Alarm(c, s, target, corner)
    ensures Nearest(s, Chosen(s))
  {
    ChosenIsClosest(c, s);
    InitSabotageEffect(c, s);
    var chosen := Chosen(s);
    assert Running(s, chosen);
    forall x | Running(s, x) ensures Distance(Get(s, chosen).pos, s.target) <= Distance(Get(s, x).pos, s.target) {
      assert OnMap(Get(s, chosen).pos, corner) && OnMap(Get(s, x).pos, corner);
    }
  }
}
