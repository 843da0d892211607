/** The two replacement policies against their textbook forms: with RAM full, CLOCK is a queue of frames with a second
    chance, and LRU is a list of pages in the order of their last use. */
module Replacement {
  import opened Memory
  import opened CrewTable
  import opened PageTables
  import opened PagedMemory

  /** Every RAM frame is taken. */
  ghost predicate Full(c: Control) {
    && FramesOk(c) && |c.ramUsed| > 0 && c.hand <= |c.ramUsed|
    && forall f :: 0 <= f < |c.ramUsed| ==> c.ramUsed[f]
  }

  lemma FullIs(c: Control)
    requires Full(c)
    ensures FirstFree(c.ramUsed) == |c.ramUsed| == |c.ramOwner| && AllOwned(c)
    ensures forall f :: 0 <= f < |c.ramOwner| ==>
              Resident(c.patotas, c.ramOwner[f].page) && RowAt(c.patotas, c.ramOwner[f].page).ramFrame == f
    ensures forall f, g :: 0 <= f < g < |c.ramOwner| ==> c.ramOwner[f] != c.ramOwner[g]
  {
    FullMeansOwned(c);
    forall f | 0 <= f < |c.ramOwner|
      ensures Resident(c.patotas, c.ramOwner[f].page) && RowAt(c.patotas, c.ramOwner[f].page).ramFrame == f
    {
      assert OwnedRam(c, f);
    }
  }

  lemma OwnerOf(c: Control, pg: Page) returns (f: nat)
    requires Full(c) && Resident(c.patotas, pg)
    ensures f < |c.ramOwner| && c.ramOwner[f] == Of(pg) && RowAt(c.patotas, pg).ramFrame == f
  {
    assert Placed(c, pg);
    f := RowAt(c.patotas, pg).ramFrame;
  }

  // ----- While RAM has room ----------------------------------------------------------------------------------------

  /** A page that comes into RAM while there is room takes the first free frame, and its bit is set; nothing leaves RAM, and
      the hand stays. */
  lemma FreeFrameUsed(policy: Policy, c: Control, pg: Page, extra: int, c': Control)
    requires FramesOk(c) && !Resident(c.patotas, pg) && Entered(policy, c, pg, extra, c')
    requires exists f :: 0 <= f < |c.ramUsed| && !c.ramUsed[f]
    ensures IsPage(c.patotas, pg) && IsPage(c'.patotas, pg) && c'.hand == c.hand
    ensures var r, r' := RowAt(c.patotas, pg), RowAt(c'.patotas, pg);
      && 0 <= r'.ramFrame < |c.ramUsed| && !c.ramUsed[r'.ramFrame] && (forall g :: 0 <= g < r'.ramFrame ==> c.ramUsed[g])
      && r' == r.(ramFrame := r'.ramFrame, used := 1, stamp := c'.counter - 1, occupants := r.occupants + extra)
      && c'.ramUsed == c.ramUsed[r'.ramFrame := true]
      && 0 <= r.swapFrame < |c.swapUsed| && c'.swapUsed == c.swapUsed[r.swapFrame := false]
    ensures forall q :: IsPage(c.patotas, q) && q != pg ==> IsPage(c'.patotas, q) && RowAt(c'.patotas, q) == RowAt(c.patotas, q)
  {
    var c1 :| FaultStep(policy, c, pg, c1) && IsPage(c1.patotas, pg) && c' == TouchPage(c1, pg, extra);
    assert Placed(c, pg) && c1 == PageIn(c, pg, FirstFree(c.ramUsed));
  }

  // ----- The state after a fault with RAM full -------------------------------------------------------------------

  /** What the replacement of `v` by `pg` leaves of `c`, whatever else happens to swap. */
  ghost predicate Swapped(c: Control, pg: Page, v: Page, c': Control) {
    && IsPage(c.patotas, v) && 0 <= RowAt(c.patotas, v).ramFrame < |c.ramOwner|
    && c'.ramOwner == c.ramOwner[RowAt(c.patotas, v).ramFrame := Of(pg)]
    && c'.ramUsed == c.ramUsed && c'.hand == c.hand && c'.counter == c.counter + 1
    && IsPage(c'.patotas, pg) && IsPage(c'.patotas, v) && !Resident(c'.patotas, v)
    && RowAt(c'.patotas, pg).ramFrame == RowAt(c.patotas, v).ramFrame
    && RowAt(c'.patotas, pg).used == 1 && RowAt(c'.patotas, pg).stamp == c.counter
    && (forall q :: IsPage(c'.patotas, q) <==> IsPage(c.patotas, q))
    && (forall q :: IsPage(c.patotas, q) && q != v && q != pg ==> RowAt(c'.patotas, q) == RowAt(c.patotas, q))
  }

  lemma EvictedSwaps(c: Control, pg: Page, v: Page, c': Control)
    requires Full(c) && Faultable(c, pg) && Resident(c.patotas, v) && Evicted(c, pg, v, c')
    ensures Full(c') && Swapped(c, pg, v, c')
  {
    FullIs(c);
    var f := OwnerOf(c, v);
    var s := FirstFree(c.swapUsed);
    if s < |c.swapUsed| {
      PageOutFrames(c, v, s);
      PageInFrames(PageOut(c, v, s), pg, f);
      assert c.ramUsed[f := false][f := true] == c.ramUsed;
      assert c.ramOwner[f := Free][f := Of(pg)] == c.ramOwner[f := Of(pg)];
    } else {
      ExchangeFrames(c, pg, v);
    }
  }

  // ----- CLOCK -------------------------------------------------------------------------------------------------------

  /** A frame on the clock: whose it is, and whether that page has been used lately. */
  datatype Slot = Slot(owner: Owner, bit: bool)

  function Cleared(q: seq<Slot>): (r: seq<Slot>)
    ensures |r| == |q| && forall k :: 0 <= k < |q| ==> r[k] == Slot(q[k].owner, false)
  {
    seq(|q|, k requires 0 <= k < |q| => Slot(q[k].owner, false))
  }

  /** How many at the front of the queue have been used. */
  function UsedInFront(q: seq<Slot>): (n: nat)
    ensures n <= |q| && (forall k :: 0 <= k < n ==> q[k].bit) && (n < |q| ==> !q[n].bit)
  {
    if q == [] || !q[0].bit then 0 else 1 + UsedInFront(q[1..])
  }

  /** Those in front that have been used get a second chance: they go to the back of the queue and no longer count as used. */
  function Spared(q: seq<Slot>): (r: seq<Slot>)
    ensures |r| == |q|
  {
    q[UsedInFront(q)..] + Cleared(q[..UsedInFront(q)])
  }

  /** The page is used: if it is in the queue it is marked, otherwise it comes in at the back in the place of the first one
      without a second chance. */
  function SecondChance(q: seq<Slot>, pg: Page): (r: seq<Slot>)
    requires q != []
    ensures |r| == |q|
  {
    if exists k :: 0 <= k < |q| && q[k].owner == Of(pg) then Marked(q, pg)
    else Spared(q)[1..] + [Slot(Of(pg), true)]
  }

  function Marked(q: seq<Slot>, pg: Page): (r: seq<Slot>)
    ensures |r| == |q|
    ensures forall k :: 0 <= k < |q| ==> r[k] == if q[k].owner == Of(pg) then Slot(Of(pg), true) else q[k]
  {
    seq(|q|, k requires 0 <= k < |q| => if q[k].owner == Of(pg) then Slot(Of(pg), true) else q[k])
  }

  function SecondChances(q: seq<Slot>, pages: seq<Page>): (r: seq<Slot>)
    requires q != []
    ensures |r| == |q|
  {
    if pages == [] then q else SecondChance(SecondChances(q, pages[..|pages| - 1]), pages[|pages| - 1])
  }

  ghost function SlotIn(c: Control, f: nat): Slot
    requires f < |c.ramOwner|
  {
    var o := c.ramOwner[f];
    Slot(o, o.Of? && IsPage(c.patotas, o.page) && RowAt(c.patotas, o.page).used == 1)
  }

  function Around(hand: nat, k: nat, size: nat): (f: nat)
    requires hand <= size && k < size
    ensures f < size
  {
    if hand + k < size then hand + k else hand + k - size
  }

  /** The frames of RAM from the hand on, once around. */
  ghost function Ring(c: Control): (q: seq<Slot>)
    requires c.hand <= |c.ramOwner|
    ensures |q| == |c.ramOwner| && forall k :: 0 <= k < |q| ==> q[k] == SlotIn(c, Around(c.hand, k, |q|))
  {
    seq(|c.ramOwner|, k requires 0 <= k < |c.ramOwner| => SlotIn(c, Around(c.hand, k, |c.ramOwner|)))
  }

  lemma RingLists(c: Control, pg: Page)
    requires Full(c)
    ensures Resident(c.patotas, pg) <==> exists k :: 0 <= k < |Ring(c)| && Ring(c)[k].owner == Of(pg)
  {
    FullIs(c);
    var n := |c.ramOwner|;
    if Resident(c.patotas, pg) {
      var f := OwnerOf(c, pg);
      var k := if f >= c.hand then f - c.hand else f + n - c.hand;
      assert Around(c.hand, k, n) == f && Ring(c)[k].owner == Of(pg);
    }
    if k :| 0 <= k < |Ring(c)| && Ring(c)[k].owner == Of(pg) {
      var f := Around(c.hand, k, n);
      assert c.ramOwner[f] == Of(pg);
    }
  }

  lemma TouchMarks(c: Control, pg: Page, extra: int)
    requires Full(c) && Resident(c.patotas, pg)
    ensures Full(TouchPage(c, pg, extra)) && Ring(TouchPage(c, pg, extra)) == Marked(Ring(c), pg)
  {
    FullIs(c);
    TouchFrames(c, pg, extra);
    var c', n := TouchPage(c, pg, extra), |c.ramOwner|;
    forall k | 0 <= k < n ensures Ring(c')[k] == Marked(Ring(c), pg)[k] {
      var f := Around(c.hand, k, n);
      assert Ring(c)[k] == SlotIn(c, f) && Ring(c')[k] == SlotIn(c', f);
    }
  }

  /** The sweep passes exactly those that the queue spares. */
  lemma SweepSpares(c: Control, v: Page, n: nat, c1: Control)
    requires Full(c) && ClockVictim(c, v, n, c1)
    ensures n == UsedInFront(Ring(c)) && c1 == c.(patotas := c1.patotas, hand := c1.hand) && c1.hand <= |c.ramOwner| == |Ring(c)|
    ensures var f := Around(c.hand, if n < |Ring(c)| then n else 0, |Ring(c)|);
      c1.hand == f + 1 && c.ramOwner[f] == Of(v)
    ensures forall k :: 0 <= k < |Ring(c)| ==>
              SlotIn(c1, Around(c.hand, k, |c.ramOwner|)) == if k < n then Slot(Ring(c)[k].owner, false) else Ring(c)[k]
  {
    FullIs(c);
    var size, start := |c.ramOwner|, ClockStart(c);
    forall k | 0 <= k < size ensures ClockFrame(start, k, size) == Around(c.hand, k, size) {
    }
    forall f | 0 <= f < size ensures (UseBit(c, f) == 0 || UseBit(c, f) == 1) && SlotIn(c, f) == Slot(c.ramOwner[f], UseBit(c, f) == 1) {
      assert HasPage(c, f) && Placed(c, c.ramOwner[f].page);
    }
    forall k | 0 <= k < n ensures Ring(c)[k].bit {
      assert UseBit(c, ClockFrame(start, k, size)) != 0;
    }
    assert n < size ==> !Ring(c)[n].bit;
    assert HasPage(c, ClockFrame(start, n, size));
    ClearBitsOnlyBits(c, start, n);
    forall k | 0 <= k < size
      ensures SlotIn(c1, Around(c.hand, k, size)) == if k < n then Slot(Ring(c)[k].owner, false) else Ring(c)[k]
    {
      SlotPassed(c, n, k);
    }
  }

  lemma SlotPassed(c: Control, n: nat, k: nat)
    requires Full(c) && |c.ramUsed| == |c.ramOwner| && n <= |c.ramOwner| && k < |c.ramOwner|
    ensures ClockStart(c) < |c.ramOwner|
    ensures var f := Around(c.hand, k, |c.ramOwner|);
      SlotIn(ClearBits(c, ClockStart(c), n), f) == if k < n then Slot(c.ramOwner[f], false) else SlotIn(c, f)
  {
    FullIs(c);
    var size, start := |c.ramOwner|, ClockStart(c);
    var f := Around(c.hand, k, size);
    ClearBitsEffect(c, start, n, f);
    assert ClockFrame(start, k, size) == f;
    if d :| 0 <= d < n && ClockFrame(start, d, size) == f {
      assert d == k;
    }
  }

  lemma FaultTurns(c: Control, pg: Page, c': Control)
    requires Full(c) && FaultStep(Clock, c, pg, c')
    ensures Full(c') && Resident(c'.patotas, pg) && !Resident(c.patotas, pg)
    ensures Ring(c') == Spared(Ring(c))[1..] + [Slot(Of(pg), true)]
  {
    hide Evicted, Spared, Ring, ClockVictim, Placed;
    FullIs(c);
    var v, c1 :| Victim(Clock, c, v, c1) && Evicted(c1, pg, v, c');
    var n :| ClockVictim(c, v, n, c1);
    SweepSpares(c, v, n, c1);
    SweptFull(c, v, n, c1);
    EvictedSwaps(c1, pg, v, c');
    RingTurned(c, c1, c', pg, v, n);
  }

  lemma SweptFull(c: Control, v: Page, n: nat, c1: Control)
    requires Full(c) && ClockVictim(c, v, n, c1) && c1.hand <= |c.ramUsed|
    ensures Full(c1) && Resident(c1.patotas, v)
    ensures forall q :: Faultable(c, q) ==> Faultable(c1, q)
  {
    FullIs(c);
    assert HasPage(c, ClockFrame(ClockStart(c), n, |c.ramOwner|));
    ClearBitsOnlyBits(c, ClockStart(c), n);
    OnlyBitsFrames(c, c1);
    FullIs(c1);
  }

  /** The queue after the turn, place by place. */
  lemma SparedAt(q: seq<Slot>, k: nat)
    requires k + 1 < |q|
    ensures var n, m := UsedInFront(q), PlaceBefore(q, k);
      m < |q| && Spared(q)[1..][k] == if m < n then Slot(q[m].owner, false) else q[m]
  {
  }

  function PlaceBefore(q: seq<Slot>, k: nat): nat {
    if UsedInFront(q) + 1 + k < |q| then UsedInFront(q) + 1 + k else UsedInFront(q) + 1 + k - |q|
  }

  lemma RingTurned(c: Control, c1: Control, c': Control, pg: Page, v: Page, n: nat)
    requires Full(c) && Full(c1) && Full(c') && Swapped(c1, pg, v, c') && !Resident(c1.patotas, pg)
    requires c.hand <= |c.ramOwner|
    requires |c1.ramOwner| == |c.ramOwner| == |Ring(c)| && n == UsedInFront(Ring(c)) && c1.ramOwner == c.ramOwner
    requires var f := Around(c.hand, if n < |Ring(c)| then n else 0, |Ring(c)|);
      c1.hand == f + 1 && c.ramOwner[f] == Of(v)
    requires forall k :: 0 <= k < |Ring(c)| ==>
               SlotIn(c1, Around(c.hand, k, |c.ramOwner|)) == if k < n then Slot(Ring(c)[k].owner, false) else Ring(c)[k]
    ensures Ring(c') == Spared(Ring(c))[1..] + [Slot(Of(pg), true)]
  {
    hide Full, Spared, SlotIn, Swapped, UsedInFront;
    var q, size := Ring(c), |c.ramOwner|;
    var f := Around(c.hand, if n < size then n else 0, size);
    NewSlot(c1, c', pg, v, f);
    assert |Ring(c')| == size;
    forall k | 0 <= k < size - 1 ensures Ring(c')[k] == Spared(q)[1..][k] {
      var m := PlaceBefore(q, k);
      SparedAt(q, k);
      assert Around(c'.hand, k, size) == Around(c.hand, m, size) != f;
      SlotKept(c1, c', pg, v, f, Around(c'.hand, k, size));
    }
    assert Around(c'.hand, size - 1, size) == f;
  }

  lemma NewSlot(c1: Control, c': Control, pg: Page, v: Page, f: nat)
    requires Full(c1) && Swapped(c1, pg, v, c') && f < |c1.ramOwner| && c1.ramOwner[f] == Of(v)
    ensures |c'.ramOwner| == |c1.ramOwner| > 0 && c'.hand == c1.hand <= |c1.ramOwner|
    ensures SlotIn(c', f) == Slot(Of(pg), true)
  {
    assert OwnedRam(c1, f);
  }

  lemma SlotKept(c1: Control, c': Control, pg: Page, v: Page, f: nat, g: nat)
    requires Full(c1) && Swapped(c1, pg, v, c') && !Resident(c1.patotas, pg)
    requires f < |c1.ramOwner| == |c'.ramOwner| && c1.ramOwner[f] == Of(v) && g < |c1.ramOwner| && g != f
    ensures SlotIn(c', g) == SlotIn(c1, g)
  {
    assert OwnedRam(c1, f) && OwnedRam(c1, g);
  }

  /** Using a page is what the queue with a second chance does, whether the page is in RAM or not. */
  lemma ClockEnters(c: Control, pg: Page, extra: int, c': Control)
    requires Full(c) && Entered(Clock, c, pg, extra, c')
    ensures Full(c') && c.hand <= |c.ramOwner| && Ring(c) != [] && Ring(c') == SecondChance(Ring(c), pg)
  {
    hide Full, Ring, FaultStep, Spared, Marked, TouchPage;
    RingThere(c);
    RingLists(c, pg);
    if Resident(c.patotas, pg) {
      TouchMarks(c, pg, extra);
    } else {
      var c1 :| FaultStep(Clock, c, pg, c1) && IsPage(c1.patotas, pg) && c' == TouchPage(c1, pg, extra);
      FaultTurns(c, pg, c1);
      TouchMarks(c1, pg, extra);
      LastMarked(Spared(Ring(c))[1..], pg, Ring(c));
    }
  }

  lemma LastMarked(rest: seq<Slot>, pg: Page, q: seq<Slot>)
    requires q != [] && rest == Spared(q)[1..] && !exists k :: 0 <= k < |q| && q[k].owner == Of(pg)
    ensures Marked(rest + [Slot(Of(pg), true)], pg) == rest + [Slot(Of(pg), true)]
  {
    forall k | 0 <= k < |rest| ensures rest[k].owner != Of(pg) {
      SparedAt(q, k);
    }
  }

  /** CLOCK, with RAM full, is the queue with a second chance, over any pages used one after the other. */
  lemma {:induction false} ClockIsSecondChance(c: Control, pages: seq<Page>, c': Control)
    requires Full(c) && Route(Clock, c, pages, c')
    ensures Full(c') && Ring(c') == SecondChances(Ring(c), pages)
    decreases |pages|
  {
    hide Full, Ring, Entered, SecondChance;
    RingThere(c);
    if pages != [] {
      var init, last := pages[..|pages| - 1], pages[|pages| - 1];
      assert RouteBy(Clock, c, init, last, c');
      var m :| Route(Clock, c, init, m) && Entered(Clock, m, last, 0, c');
      ClockIsSecondChance(c, init, m);
      RingThere(m);
      ClockEnters(m, last, 0, c');
    }
    RingThere(c');
  }

  lemma RingThere(c: Control)
    requires Full(c)
    ensures c.hand <= |c.ramOwner| && Ring(c) != []
  {
  }

  // ----- LRU ---------------------------------------------------------------------------------------------------------

  /** Last used after the other one; pages with the same stamp have not been used since their admission, and count in the
      order of the page tables. */
  ghost predicate Fresher(ps: seq<Patota>, a: Page, b: Page) {
    && IsPage(ps, a) && IsPage(ps, b)
    && var s, t := RowAt(ps, a).stamp, RowAt(ps, b).stamp;
       s > t || (s == t && (a.pat < b.pat || (a.pat == b.pat && a.num < b.num)))
  }

  /** The pages in RAM, the freshest first. */
  ghost predicate Recency(c: Control, q: seq<Page>) {
    && (forall pg :: pg in q <==> Resident(c.patotas, pg))
    && forall a, b :: 0 <= a < b < |q| ==> Fresher(c.patotas, q[a], q[b])
  }

  /** All stamps lie in the past. */
  ghost predicate Timed(c: Control) {
    forall pg :: Resident(c.patotas, pg) ==> RowAt(c.patotas, pg).stamp < c.counter
  }

  /** They do as soon as any page has been used since the last admission. */
  lemma TimedOnceUsed(c: Control)
    requires StampsOk(c) && c.admitted < c.counter
    ensures Timed(c)
  {
    forall pg | Resident(c.patotas, pg) ensures RowAt(c.patotas, pg).stamp < c.counter {
      assert Stamped(c, pg);
    }
  }

  /** The page moves to the front; if it was not in the list, the last one drops out. */
  function MostRecent(q: seq<Page>, pg: Page): (r: seq<Page>)
    requires q != []
  {
    [pg] + if pg in q then Others(q, pg) else q[..|q| - 1]
  }

  function Others(q: seq<Page>, pg: Page): (r: seq<Page>)
    ensures forall x :: x in r <==> x in q && x != pg
  {
    if q == [] then [] else if q[0] == pg then Others(q[1..], pg) else [q[0]] + Others(q[1..], pg)
  }

  function MostRecents(q: seq<Page>, pages: seq<Page>): (r: seq<Page>)
    requires q != []
    ensures r != []
  {
    if pages == [] then q else MostRecent(MostRecents(q, pages[..|pages| - 1]), pages[|pages| - 1])
  }

  ghost predicate Ranked(ps: seq<Patota>, q: seq<Page>) {
    forall a, b :: 0 <= a < b < |q| ==> Fresher(ps, q[a], q[b])
  }

  lemma {:induction false} OthersRanked(ps: seq<Patota>, q: seq<Page>, pg: Page)
    requires Ranked(ps, q)
    ensures Ranked(ps, Others(q, pg))
  {
    if q != [] {
      OthersRanked(ps, q[1..], pg);
      assert forall x :: x in q[1..] ==> Fresher(ps, q[0], x);
    }
  }

  lemma {:induction false} OthersNone(q: seq<Page>, pg: Page)
    requires pg !in q
    ensures Others(q, pg) == q
  {
    if q != [] {
      OthersNone(q[1..], pg);
      assert q == [q[0]] + q[1..];
    }
  }

  lemma TouchMoves(c: Control, pg: Page, extra: int, q: seq<Page>)
    requires Full(c) && Timed(c) && Recency(c, q) && pg in q
    ensures var c' := TouchPage(c, pg, extra); Full(c') && Timed(c') && Recency(c', [pg] + Others(q, pg))
  {
    var c', r := TouchPage(c, pg, extra), Others(q, pg);
    TouchFrames(c, pg, extra);
    assert Ranked(c.patotas, q);
    OthersRanked(c.patotas, q, pg);
    forall x ensures Resident(c'.patotas, x) <==> x in [pg] + r {
    }
    forall a, b | 0 <= a < b < |[pg] + r| ensures Fresher(c'.patotas, ([pg] + r)[a], ([pg] + r)[b]) {
      assert r[b - 1] in r && (a > 0 ==> r[a - 1] in r && Fresher(c.patotas, r[a - 1], r[b - 1]));
    }
  }

  lemma LastIsStalest(c: Control, q: seq<Page>, k: nat)
    requires Recency(c, q) && k < |q|
    ensures Resident(c.patotas, q[|q| - 1])
    ensures k < |q| - 1 ==> Fresher(c.patotas, q[k], q[|q| - 1])
  {
    assert q[|q| - 1] in q;
  }

  /** The victim of LRU is the last of the list. */
  lemma VictimIsLast(c: Control, v: Page, q: seq<Page>)
    requires Recency(c, q) && LruVictim(c, v)
    ensures q != [] && q[|q| - 1] == v && v !in q[..|q| - 1]
  {
    var k :| 0 <= k < |q| && q[k] == v;
    LastIsStalest(c, q, k);
    forall a | 0 <= a < |q| - 1 ensures q[a] != v {
      LastIsStalest(c, q, a);
    }
  }

  lemma FaultDropsLast(c: Control, pg: Page, c': Control, q: seq<Page>)
    requires Full(c) && Timed(c) && Recency(c, q) && FaultStep(Lru, c, pg, c')
    ensures q != [] && pg !in q
    ensures Full(c') && Timed(c') && Recency(c', [pg] + q[..|q| - 1])
  {
    FullIs(c);
    var v, c1 :| Victim(Lru, c, v, c1) && Evicted(c1, pg, v, c');
    VictimIsLast(c, v, q);
    EvictedSwaps(c, pg, v, c');
    Dropped(c, pg, v, c', q);
  }

  lemma Dropped(c: Control, pg: Page, v: Page, c': Control, q: seq<Page>)
    requires Timed(c) && Recency(c, q) && q != [] && q[|q| - 1] == v && v !in q[..|q| - 1] && pg !in q && Swapped(c, pg, v, c')
    ensures Timed(c') && Recency(c', [pg] + q[..|q| - 1])
  {
    var r := q[..|q| - 1];
    forall x ensures x in q <==> x == v || x in r {
    }
    forall x ensures Resident(c'.patotas, x) <==> x in [pg] + r {
    }
    forall a, b | 0 <= a < b < |[pg] + r| ensures Fresher(c'.patotas, ([pg] + r)[a], ([pg] + r)[b]) {
      assert r[b - 1] in q && (a > 0 ==> r[a - 1] in q && Fresher(c.patotas, q[a - 1], q[b - 1]));
    }
  }

  lemma FaultThenTouch(c: Control, pg: Page, extra: int, c1: Control, q: seq<Page>)
    requires Full(c) && Timed(c) && Recency(c, q) && FaultStep(Lru, c, pg, c1) && IsPage(c1.patotas, pg)
    ensures q != [] && pg !in q
    ensures var c' := TouchPage(c1, pg, extra); Full(c') && Timed(c') && Recency(c', [pg] + q[..|q| - 1])
  {
    hide FaultStep, Full, Timed, TouchPage, Recency;
    FaultDropsLast(c, pg, c1, q);
    var r := q[..|q| - 1];
    TouchMoves(c1, pg, extra, [pg] + r);
    OthersNone(r, pg);
    assert ([pg] + r)[1..] == r;
  }

  lemma LruEnters(c: Control, pg: Page, extra: int, c': Control, q: seq<Page>)
    requires Full(c) && Timed(c) && Recency(c, q) && Entered(Lru, c, pg, extra, c')
    ensures q != [] && Full(c') && Timed(c') && Recency(c', MostRecent(q, pg))
  {
    hide FaultStep, Full, Timed, TouchPage;
    if Resident(c.patotas, pg) {
      TouchMoves(c, pg, extra, q);
    } else {
      var c1 :| FaultStep(Lru, c, pg, c1) && IsPage(c1.patotas, pg) && c' == TouchPage(c1, pg, extra);
      FaultThenTouch(c, pg, extra, c1, q);
    }
  }

  /** LRU, with RAM full, is the list of pages in the order of their last use, over any pages used one after the other. */
  lemma {:induction false} LruIsRecency(c: Control, pages: seq<Page>, c': Control, q: seq<Page>)
    requires Full(c) && Timed(c) && Recency(c, q) && q != [] && Route(Lru, c, pages, c')
    ensures Full(c') && Timed(c') && Recency(c', MostRecents(q, pages))
    decreases |pages|
  {
    hide Full, Timed, Recency, Entered, MostRecent;
    if pages != [] {
      var init, last := pages[..|pages| - 1], pages[|pages| - 1];
      assert RouteBy(Lru, c, init, last, c');
      var m :| Route(Lru, c, init, m) && Entered(Lru, m, last, 0, c');
      LruIsRecency(c, init, m, q);
      LruEnters(m, last, 0, c', MostRecents(q, init));
    }
  }

  /** Such a list there always is. */
  lemma RecencyExists(c: Control) returns (q: seq<Page>)
    requires Full(c)
    ensures q != [] && Recency(c, q)
  {
    FullIs(c);
    q := RankedOwners(c, |c.ramOwner|);
    assert c.ramOwner[0].page in q;
    forall pg ensures pg in q <==> Resident(c.patotas, pg) {
      if Resident(c.patotas, pg) {
        var f := OwnerOf(c, pg);
      }
    }
  }

  lemma {:induction false} RankedOwners(c: Control, n: nat) returns (q: seq<Page>)
    requires Full(c) && n <= |c.ramOwner|
    ensures Ranked(c.patotas, q) && forall pg :: pg in q <==> exists f :: 0 <= f < n && c.ramOwner[f] == Of(pg)
  {
    if n == 0 {
      q := [];
    } else {
      FullIs(c);
      var r := RankedOwners(c, n - 1);
      var pg := c.ramOwner[n - 1].page;
      assert c.ramOwner[n - 1] == Of(pg) && pg !in r;
      q := InsertRanked(c.patotas, r, pg);
      forall x ensures x in q <==> exists f :: 0 <= f < n && c.ramOwner[f] == Of(x) {
      }
    }
  }

  lemma {:induction false} InsertRanked(ps: seq<Patota>, r: seq<Page>, pg: Page) returns (q: seq<Page>)
    requires Ranked(ps, r) && IsPage(ps, pg) && pg !in r && forall x :: x in r ==> IsPage(ps, x)
    ensures Ranked(ps, q) && forall x :: x in q <==> x in r || x == pg
  {
    if r == [] {
      q := [pg];
    } else if Fresher(ps, pg, r[0]) {
      q := [pg] + r;
      forall b | 0 <= b < |r| ensures Fresher(ps, pg, r[b]) {
        assert b > 0 ==> Fresher(ps, r[0], r[b]);
      }
    } else {
      var t := InsertRanked(ps, r[1..], pg);
      q := [r[0]] + t;
      forall b | 0 <= b < |t| ensures Fresher(ps, r[0], t[b]) {
        assert t[b] in t;
      }
    }
  }
}
