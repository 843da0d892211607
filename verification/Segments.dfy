/** The segment list of the segmentation scheme as a value: placing a request, giving a segment up,
    and the single compaction step, with what each does to the tiling of memory. */
module Segments {
  import opened Memory
  import opened CrewTable

  /** The 32-bit -1 that marks an empty owner, tid or start. */
  const NONE: Word := 0xFFFF_FFFF

  datatype Kind = Hole | PcbKind | TasksKind | TcbKind

  datatype Segment = Segment(start: nat, size: nat, kind: Kind, owner: Word)

  function End(s: Segment): nat {
    s.start + s.size
  }

  predicate Covers(s: Segment, a: int) {
    s.start <= a < End(s)
  }

  predicate Apart(s: Segment, t: Segment) {
    End(s) <= t.start || End(t) <= s.start
  }

  ghost predicate Covered(segs: seq<Segment>, a: int) {
    exists i :: 0 <= i < |segs| && Covers(segs[i], a)
  }

  /** The segments cut the memory up: none is empty, none overlaps another, no byte is left over. */
  ghost predicate Tiling(segs: seq<Segment>, size: nat) {
    && (forall i :: 0 <= i < |segs| ==> segs[i].size > 0 && End(segs[i]) <= size)
    && (forall i, j :: 0 <= i < j < |segs| ==> Apart(segs[i], segs[j]))
    && (forall a {:trigger Covered(segs, a)} :: 0 <= a < size ==> Covered(segs, a))
  }

  ghost predicate HolesUnowned(segs: seq<Segment>) {
    forall i :: 0 <= i < |segs| && segs[i].kind.Hole? ==> segs[i].owner == NONE
  }

  // ----- Free space ----------------------------------------------------------------------------------

  function FreeIn(s: Segment): nat {
    if s.kind.Hole? then s.size else 0
  }

  function FreeSum(segs: seq<Segment>): nat {
    if segs == [] then 0 else FreeIn(segs[0]) + FreeSum(segs[1..])
  }

  lemma {:induction false} FreeSumConcat(a: seq<Segment>, b: seq<Segment>)
    ensures FreeSum(a + b) == FreeSum(a) + FreeSum(b)
  {
    if a == [] {
      assert a + b == b;
    } else {
      assert (a + b)[1..] == a[1..] + b;
      FreeSumConcat(a[1..], b);
    }
  }

  lemma FreeSumSplit(segs: seq<Segment>, i: nat)
    requires i < |segs|
    ensures FreeSum(segs) == FreeSum(segs[..i]) + FreeIn(segs[i]) + FreeSum(segs[i + 1..])
  {
    assert segs == segs[..i] + segs[i..];
    FreeSumConcat(segs[..i], segs[i..]);
  }

  lemma FreeSumUpdate(segs: seq<Segment>, i: nat, s: Segment)
    requires i < |segs|
    ensures FreeSum(segs[i := s]) == FreeSum(segs) - FreeIn(segs[i]) + FreeIn(s)
  {
    FreeSumSplit(segs, i);
    FreeSumSplit(segs[i := s], i);
    assert segs[i := s][..i] == segs[..i] && segs[i := s][i + 1..] == segs[i + 1..];
  }

  // ----- Choosing a hole -----------------------------------------------------------------------------------

  datatype Fit = FirstFit | BestFit

  predicate Fits(s: Segment, n: nat) {
    s.kind.Hole? && s.size >= n
  }

  predicate HasFit(segs: seq<Segment>, n: nat) {
    exists i :: 0 <= i < |segs| && Fits(segs[i], n)
  }

  /** `s` is preferred to the candidate `t` that comes before it in the list. */
  predicate Better(fit: Fit, s: Segment, t: Segment) {
    match fit
    case FirstFit => s.start < t.start
    case BestFit => s.size < t.size
  }

  /** The candidate among the first `k` segments, or the length of the list. */
  function ChooseAmong(fit: Fit, segs: seq<Segment>, n: nat, k: nat): (i: nat)
    requires k <= |segs|
    ensures i < k || i == |segs|
    ensures i < |segs| ==> Fits(segs[i], n)
    ensures forall j :: 0 <= j < k && Fits(segs[j], n) ==>
              i < |segs| && !Better(fit, segs[j], segs[i]) && (j < i ==> Better(fit, segs[i], segs[j]))
  {
    if k == 0 then |segs|
    else
      var i := ChooseAmong(fit, segs, n, k - 1);
      if Fits(segs[k - 1], n) && (i == |segs| || Better(fit, segs[k - 1], segs[i])) then k - 1 else i
  }

  /** First fit takes the hole at the lowest address, best fit the smallest, the first in the list if there are
      several; the length of the list means that nothing fits. */
  function Choose(fit: Fit, segs: seq<Segment>, n: nat): (i: nat)
    ensures i <= |segs|
    ensures i < |segs| <==> HasFit(segs, n)
    ensures i < |segs| ==> Fits(segs[i], n)
    ensures i < |segs| && fit.FirstFit? ==>
              forall j :: 0 <= j < |segs| && Fits(segs[j], n) ==> segs[i].start <= segs[j].start
    ensures i < |segs| && fit.BestFit? ==>
              forall j :: 0 <= j < |segs| && Fits(segs[j], n) ==>
                segs[i].size <= segs[j].size && (j < i ==> segs[i].size < segs[j].size)
  {
    ChooseAmong(fit, segs, n, |segs|)
  }

  // ----- Placing a request -----------------------------------------------------------------------------------

  /** The hole at `i` becomes a segment of `n` bytes; what is left of it goes to the end of the list. */
  function Place(segs: seq<Segment>, i: nat, n: nat, kind: Kind, owner: Word): seq<Segment>
    requires i < |segs| && Fits(segs[i], n)
  {
    var h := segs[i];
    segs[i := Segment(h.start, n, kind, owner)]
      + if h.size == n then [] else [Segment(h.start + n, h.size - n, Hole, NONE)]
  }

  lemma PlaceTiles(segs: seq<Segment>, size: nat, i: nat, n: nat, kind: Kind, owner: Word)
    requires Tiling(segs, size) && i < |segs| && 0 < n && Fits(segs[i], n)
    ensures Tiling(Place(segs, i, n, kind, owner), size)
  {
    var segs' := Place(segs, i, n, kind, owner);
    forall a | 0 <= a < size ensures Covered(segs', a) {
      assert Covered(segs, a);
      var j :| 0 <= j < |segs| && Covers(segs[j], a);
      var m := if j == i && a >= segs[i].start + n then |segs| else j;
      assert Covers(segs'[m], a);
    }
  }

  lemma FreeSumPlaced(segs: seq<Segment>, i: nat, s: Segment, rest: seq<Segment>)
    requires i < |segs| && |rest| <= 1
    ensures FreeSum(segs[i := s] + rest) ==
            FreeSum(segs) - FreeIn(segs[i]) + FreeIn(s) + if rest == [] then 0 else FreeIn(rest[0])
  {
    FreeSumUpdate(segs, i, s);
    FreeSumConcat(segs[i := s], rest);
    if rest != [] {
      assert rest[1..] == [];
    }
  }

  lemma PlaceFree(segs: seq<Segment>, i: nat, n: nat, kind: Kind, owner: Word)
    requires i < |segs| && Fits(segs[i], n) && kind != Hole
    ensures FreeSum(Place(segs, i, n, kind, owner)) == FreeSum(segs) - n
  {
    var h := segs[i];
    FreeSumPlaced(segs, i, Segment(h.start, n, kind, owner),
                  if h.size == n then [] else [Segment(h.start + n, h.size - n, Hole, NONE)]);
  }

  /** The segments in use stay, and the new one joins them. */
  lemma PlaceKeeps(segs: seq<Segment>, i: nat, n: nat, kind: Kind, owner: Word, s: Segment)
    requires i < |segs| && Fits(segs[i], n) && kind != Hole && s.kind != Hole
    ensures s in Place(segs, i, n, kind, owner) <==> s in segs || s == Segment(segs[i].start, n, kind, owner)
  {
    var segs' := Place(segs, i, n, kind, owner);
    if s in segs {
      var j :| 0 <= j < |segs| && segs[j] == s;
      assert segs'[j] == s;
    }
    assert segs'[i] == Segment(segs[i].start, n, kind, owner);
  }

  /** The segment a byte belongs to is unique, and so is the one at a given start. */
  lemma SameStart(segs: seq<Segment>, size: nat, s: Segment, t: Segment)
    requires Tiling(segs, size) && s in segs && t in segs
    ensures s == t || (Apart(s, t) && s.start != t.start)
  {
    var i :| 0 <= i < |segs| && segs[i] == s;
    var j :| 0 <= j < |segs| && segs[j] == t;
    if i < j {
      assert Apart(segs[i], segs[j]);
    } else if j < i {
      assert Apart(segs[j], segs[i]);
    }
  }

  // ----- Giving a segment up ---------------------------------------------------------------------------------

  /** The segment that starts at `start`, the last one in the list if there were several. */
  function FindStart(segs: seq<Segment>, start: nat): (i: int)
    ensures -1 <= i < |segs|
    ensures i == -1 ==> forall j :: 0 <= j < |segs| ==> segs[j].start != start
    ensures i >= 0 ==> segs[i].start == start && forall j :: i < j < |segs| ==> segs[j].start != start
  {
    if segs == [] then -1
    else if segs[|segs| - 1].start == start then |segs| - 1
    else FindStart(segs[..|segs| - 1], start)
  }

  function GiveUp(segs: seq<Segment>, i: nat): seq<Segment>
    requires i < |segs|
  {
    segs[i := segs[i].(kind := Hole, owner := NONE)]
  }

  lemma GiveUpTiles(segs: seq<Segment>, size: nat, i: nat)
    requires Tiling(segs, size) && i < |segs| && segs[i].kind != Hole
    ensures Tiling(GiveUp(segs, i), size)
    ensures FreeSum(GiveUp(segs, i)) == FreeSum(segs) + segs[i].size
    ensures forall s: Segment :: s.kind != Hole ==> (s in GiveUp(segs, i) <==> s in segs && s != segs[i])
  {
    var segs' := GiveUp(segs, i);
    forall a | 0 <= a < size ensures Covered(segs', a) {
      assert Covered(segs, a);
      var j :| 0 <= j < |segs| && Covers(segs[j], a);
      assert Covers(segs'[j], a);
    }
    FreeSumUpdate(segs, i, segs[i].(kind := Hole, owner := NONE));
    forall s: Segment | s.kind != Hole ensures s in segs' <==> s in segs && s != segs[i] {
      GiveUpMember(segs, size, i, s);
    }
  }

  lemma GiveUpUnowned(segs: seq<Segment>, i: nat)
    requires HolesUnowned(segs) && i < |segs|
    ensures HolesUnowned(GiveUp(segs, i))
  {
  }

  lemma GiveUpMember(segs: seq<Segment>, size: nat, i: nat, s: Segment)
    requires Tiling(segs, size) && i < |segs| && s.kind != Hole
    ensures s in GiveUp(segs, i) <==> s in segs && s != segs[i]
  {
    var segs' := GiveUp(segs, i);
    if s in segs && s != segs[i] {
      var j :| 0 <= j < |segs| && segs[j] == s;
      assert segs'[j] == s;
    }
    if s in segs' {
      var j :| 0 <= j < |segs'| && segs'[j] == s;
      SameIndex(segs, size, i, j);
    }
  }

  lemma SameIndex(segs: seq<Segment>, size: nat, i: nat, j: nat)
    requires Tiling(segs, size) && i < |segs| && j < |segs| && i != j
    ensures segs[i] != segs[j] && segs[i].start != segs[j].start
  {
    assert Apart(segs[if i < j then i else j], segs[if i < j then j else i]);
  }

  lemma FindStartFinds(segs: seq<Segment>, size: nat, s: Segment)
    requires Tiling(segs, size) && s in segs
    ensures FindStart(segs, s.start) >= 0 && segs[FindStart(segs, s.start)] == s
  {
    var j :| 0 <= j < |segs| && segs[j] == s;
    var i := FindStart(segs, s.start);
    if i != j {
      SameIndex(segs, size, i, j);
    }
  }

  /** Giving up one segment does not change where another one is found. */
  lemma SameFind(segs: seq<Segment>, size: nat, a: nat, b: nat, start: nat)
    requires Tiling(segs, size) && a < |segs| && b < |segs| && FindStart(segs, start) == b
    ensures FindStart(GiveUp(segs, a), start) == b
  {
    var j := FindStart(GiveUp(segs, a), start);
    if j != b {
      assert segs[b].start == start;
      assert GiveUp(segs, a)[b].start == start;
      SameIndex(segs, size, if j >= 0 then j else a, b);
    }
  }

  lemma OwnerTiles(segs: seq<Segment>, size: nat, j: nat, owner: Word)
    requires Tiling(segs, size) && j < |segs|
    ensures Tiling(segs[j := segs[j].(owner := owner)], size)
  {
    var segs' := segs[j := segs[j].(owner := owner)];
    forall a | 0 <= a < size ensures Covered(segs', a) {
      assert Covered(segs, a);
      var n :| 0 <= n < |segs| && Covers(segs[n], a);
      assert Covers(segs'[n], a);
    }
  }

  // ----- Lists in address order --------------------------------------------------------------------------------

  ghost predicate Sorted(segs: seq<Segment>) {
    forall i, j :: 0 <= i < j < |segs| ==> segs[i].start < segs[j].start
  }

  /** Each segment begins where the one before it in the list ends. */
  predicate Chain(segs: seq<Segment>, size: nat) {
    && |segs| > 0
    && segs[0].start == 0
    && End(segs[|segs| - 1]) == size
    && (forall i :: 0 <= i < |segs| ==> segs[i].size > 0)
    && (forall i :: 0 <= i < |segs| - 1 ==> End(segs[i]) == segs[i + 1].start)
  }

  lemma {:induction false} ChainOrder(segs: seq<Segment>, size: nat, i: nat, j: nat)
    requires Chain(segs, size) && i < j < |segs|
    ensures End(segs[i]) <= segs[j].start
  {
    if i + 1 < j {
      ChainOrder(segs, size, i, j - 1);
    }
  }

  lemma {:induction false} ChainCovers(segs: seq<Segment>, size: nat, a: nat, k: nat)
    requires Chain(segs, size) && k < |segs| && segs[k].start <= a < size
    ensures Covered(segs, a)
    decreases |segs| - k
  {
    if a < End(segs[k]) {
      assert Covers(segs[k], a);
    } else {
      ChainCovers(segs, size, a, k + 1);
    }
  }

  /** Being such a chain is exactly being a tiling listed in address order. */
  lemma ChainIff(segs: seq<Segment>, size: nat)
    requires size > 0
    ensures Chain(segs, size) <==> Tiling(segs, size) && Sorted(segs)
  {
    if Chain(segs, size) {
      forall i, j | 0 <= i < j < |segs| ensures Apart(segs[i], segs[j]) && segs[i].start < segs[j].start {
        ChainOrder(segs, size, i, j);
      }
      forall i | 0 <= i < |segs| ensures End(segs[i]) <= size {
        if i < |segs| - 1 {
          ChainOrder(segs, size, i, |segs| - 1);
        }
      }
      forall a | 0 <= a < size ensures Covered(segs, a) {
        ChainCovers(segs, size, a, 0);
      }
    }
    if Tiling(segs, size) && Sorted(segs) {
      SortedChains(segs, size);
    }
  }

  lemma SortedApart(segs: seq<Segment>, size: nat)
    requires Tiling(segs, size) && Sorted(segs)
    ensures forall i, j :: 0 <= i < j < |segs| ==> End(segs[i]) <= segs[j].start
  {
    forall i, j | 0 <= i < j < |segs| ensures End(segs[i]) <= segs[j].start {
      assert Apart(segs[i], segs[j]);
    }
  }

  lemma SortedChains(segs: seq<Segment>, size: nat)
    requires size > 0 && Tiling(segs, size) && Sorted(segs)
    ensures Chain(segs, size)
  {
    SortedApart(segs, size);
    assert Covered(segs, 0);
    var z :| 0 <= z < |segs| && Covers(segs[z], 0);
    assert Covered(segs, size - 1);
    var m :| 0 <= m < |segs| && Covers(segs[m], size - 1);
    assert segs[|segs| - 1].size > 0;
    assert m == |segs| - 1;
    forall i | 0 <= i < |segs| - 1 ensures End(segs[i]) == segs[i + 1].start {
      AfterSegment(segs, size, i, End(segs[i]));
    }
  }

  /** No byte lies between two segments that follow each other in a sorted tiling. */
  lemma AfterSegment(segs: seq<Segment>, size: nat, i: nat, a: nat)
    requires Tiling(segs, size) && Sorted(segs) && i + 1 < |segs| && End(segs[i]) <= a < size
    ensures segs[i + 1].start <= a
  {
    SortedApart(segs, size);
    assert Covered(segs, a);
    var k :| 0 <= k < |segs| && Covers(segs[k], a);
    assert k > i;
  }

  /** A list in address order stays so under a placement exactly when the fit is exact or the hole was the last
      segment of the list: other splits put their remainder out of order. */
  lemma PlaceKeepsOrderIff(segs: seq<Segment>, size: nat, i: nat, n: nat, kind: Kind, owner: Word)
    requires Chain(segs, size) && i < |segs| && 0 < n && Fits(segs[i], n)
    ensures Chain(Place(segs, i, n, kind, owner), size) <==> segs[i].size == n || i == |segs| - 1
  {
    var segs' := Place(segs, i, n, kind, owner);
    assert forall j :: 0 <= j < |segs| && j != i ==> segs'[j] == segs[j];
    if segs[i].size == n {
      forall j | 0 <= j < |segs'| - 1 ensures End(segs'[j]) == segs'[j + 1].start {
        assert End(segs[j]) == segs[j + 1].start;
      }
    } else if i < |segs| - 1 {
      assert End(segs'[i]) != segs'[i + 1].start;
    } else {
      forall j | 0 <= j < |segs'| - 1 ensures End(segs'[j]) == segs'[j + 1].start {
        assert j < i ==> End(segs[j]) == segs[j + 1].start;
      }
    }
  }

  // ----- One step of compaction --------------------------------------------------------------------------------

  /** The hole at `i` and the next segment of the list: two holes become one, a segment in use changes places
      with the hole. */
  function Step(segs: seq<Segment>, i: nat): seq<Segment>
    requires i + 1 < |segs|
  {
    var h, s := segs[i], segs[i + 1];
    if s.kind.Hole? then
      segs[..i] + [h.(size := h.size + s.size)] + segs[i + 2..]
    else
      segs[i := s.(start := h.start)][i + 1 := Segment(h.start + s.size, h.size, Hole, NONE)]
  }

  /** The step keeps the tiling exactly when the next segment of the list is also the next in memory. */
  lemma StepTilesIff(segs: seq<Segment>, size: nat, i: nat)
    requires Tiling(segs, size) && i + 1 < |segs| && segs[i].kind.Hole?
    ensures Tiling(Step(segs, i), size) <==> segs[i + 1].start == End(segs[i])
  {
    if segs[i + 1].start == End(segs[i]) {
      StepTiles(segs, size, i);
    } else if Tiling(Step(segs, i), size) {
      StepOverlaps(segs, size, i);
    }
  }

  lemma StepTiles(segs: seq<Segment>, size: nat, i: nat)
    requires Tiling(segs, size) && i + 1 < |segs| && segs[i + 1].start == End(segs[i])
    ensures Tiling(Step(segs, i), size)
  {
    var segs' := Step(segs, i);
    var merged := segs[i + 1].kind.Hole?;
    forall a, b | 0 <= a < b < |segs'| ensures Apart(segs'[a], segs'[b]) {
      var a0 := if merged && a > i then a + 1 else a;
      var b0 := if merged && b > i then b + 1 else b;
      assert Apart(segs[a0], segs[b0]);
      if a0 == i || a0 == i + 1 {
        assert a0 == i + 1 || b0 == i + 1 || (Apart(segs[i], segs[b0]) && Apart(segs[i + 1], segs[b0]));
        if a0 == i + 1 {
          assert Apart(segs[i], segs[b0]);
        }
      } else if b0 == i || b0 == i + 1 {
        assert a0 < i;
        assert Apart(segs[a0], segs[i]) && Apart(segs[a0], segs[i + 1]);
      }
    }
    forall a | 0 <= a < size ensures Covered(segs', a) {
      assert Covered(segs, a);
      var j :| 0 <= j < |segs| && Covers(segs[j], a);
      StepCover(segs, i, a, j);
    }
  }

  lemma StepCover(segs: seq<Segment>, i: nat, a: int, j: nat)
    requires i + 1 < |segs| && segs[i + 1].start == End(segs[i])
    requires j < |segs| && Covers(segs[j], a)
    ensures Covered(Step(segs, i), a)
  {
    var segs' := Step(segs, i);
    if segs[i + 1].kind.Hole? {
      assert Covers(segs'[if j <= i then j else j - 1], a);
    } else if j != i && j != i + 1 {
      assert Covers(segs'[j], a);
    } else {
      assert Covers(segs'[i], a) || Covers(segs'[i + 1], a);
    }
  }

  /** Otherwise the byte after the hole ends up in two segments, or outside the memory. */
  lemma StepOverlaps(segs: seq<Segment>, size: nat, i: nat)
    requires Tiling(segs, size) && i + 1 < |segs| && segs[i + 1].start != End(segs[i])
    ensures !Tiling(Step(segs, i), size)
  {
    var segs' := Step(segs, i);
    var a := End(segs[i]);
    if a < size {
      assert Covered(segs, a);
      var j :| 0 <= j < |segs| && Covers(segs[j], a);
      assert Apart(segs[i], segs[i + 1]);
      assert j != i && j != i + 1;
      var k := StepCoversEnd(segs, i);
      var j' := if segs[i + 1].kind.Hole? && j > i then j - 1 else j;
      assert segs'[j'] == segs[j];
      CoveredTwice(segs', size, j', k, a);
    } else {
      assert End(segs'[if segs[i + 1].kind.Hole? then i else i + 1]) > size;
    }
  }

  /** After the step one of the two segments covers the byte where the hole used to end. */
  lemma StepCoversEnd(segs: seq<Segment>, i: nat) returns (k: nat)
    requires i + 1 < |segs| && segs[i].size > 0 && segs[i + 1].size > 0
    ensures k < |Step(segs, i)| && Covers(Step(segs, i)[k], End(segs[i]))
    ensures k == i || (k == i + 1 && !segs[i + 1].kind.Hole?)
  {
    k := if segs[i + 1].kind.Hole? || segs[i + 1].size > segs[i].size then i else i + 1;
  }

  lemma CoveredTwice(segs: seq<Segment>, size: nat, j: nat, k: nat, a: nat)
    requires j < |segs| && k < |segs| && j != k && Covers(segs[j], a) && Covers(segs[k], a)
    ensures !Tiling(segs, size)
  {
    assert !Apart(segs[if j < k then j else k], segs[if j < k then k else j]);
  }

  lemma StepChains(segs: seq<Segment>, size: nat, i: nat)
    requires Chain(segs, size) && i + 1 < |segs|
    ensures Chain(Step(segs, i), size)
  {
    var segs' := Step(segs, i);
    assert End(segs[i]) == segs[i + 1].start;
    if segs[i + 1].kind.Hole? {
      forall j | 0 <= j < |segs'| - 1 ensures End(segs'[j]) == segs'[j + 1].start {
        var j0 := if j <= i then j else j + 1;
        assert End(segs[j0]) == segs[j0 + 1].start;
        if j == i {
          assert End(segs[i + 1]) == segs[i + 2].start;
        }
      }
    } else {
      forall j | 0 <= j < |segs'| - 1 ensures End(segs'[j]) == segs'[j + 1].start {
        assert End(segs[j]) == segs[j + 1].start;
      }
    }
  }

  lemma StepFree(segs: seq<Segment>, i: nat)
    requires i + 1 < |segs| && segs[i].kind.Hole?
    ensures FreeSum(Step(segs, i)) == FreeSum(segs)
  {
    var h, s, segs' := segs[i], segs[i + 1], Step(segs, i);
    FreeSumSplit(segs, i);
    FreeSumSplit(segs[i + 1..], 0);
    FreeSumSplit(segs', i);
    assert segs'[..i] == segs[..i];
    if s.kind.Hole? {
      assert segs'[i + 1..] == segs[i + 1..][1..];
    } else {
      FreeSumSplit(segs'[i + 1..], 0);
      assert segs'[i + 1..][1..] == segs[i + 1..][1..];
    }
  }

  lemma StepUnowned(segs: seq<Segment>, i: nat)
    requires HolesUnowned(segs) && i + 1 < |segs| && segs[i].kind.Hole?
    ensures HolesUnowned(Step(segs, i))
  {
  }

  /** What is in use, in list order. */
  function Occupied(segs: seq<Segment>): seq<(Kind, Word, nat)> {
    if segs == [] then []
    else (if segs[0].kind.Hole? then [] else [(segs[0].kind, segs[0].owner, segs[0].size)]) + Occupied(segs[1..])
  }

  lemma {:induction false} OccupiedConcat(a: seq<Segment>, b: seq<Segment>)
    ensures Occupied(a + b) == Occupied(a) + Occupied(b)
  {
    if a == [] {
      assert a + b == b;
    } else {
      assert (a + b)[1..] == a[1..] + b;
      OccupiedConcat(a[1..], b);
    }
  }

  lemma OccupiedBetween(a: seq<Segment>, pair: seq<Segment>, c: seq<Segment>)
    ensures Occupied(a + pair + c) == Occupied(a) + Occupied(pair) + Occupied(c)
  {
    OccupiedConcat(a + pair, c);
    OccupiedConcat(a, pair);
  }

  lemma OccupiedOne(s: Segment)
    ensures Occupied([s]) == if s.kind.Hole? then [] else [(s.kind, s.owner, s.size)]
  {
    assert [s][1..] == [];
  }

  lemma OccupiedTwo(s: Segment, t: Segment)
    ensures Occupied([s, t]) == Occupied([s]) + Occupied([t])
  {
    assert [s, t] == [s] + [t];
    OccupiedConcat([s], [t]);
  }

  /** What the step makes of the two segments it looks at. */
  function Pair(h: Segment, s: Segment): seq<Segment> {
    if s.kind.Hole? then [h.(size := h.size + s.size)]
    else [s.(start := h.start), Segment(h.start + s.size, h.size, Hole, NONE)]
  }

  lemma PairOccupied(h: Segment, s: Segment)
    requires h.kind.Hole?
    ensures Occupied(Pair(h, s)) == Occupied([h, s])
  {
    OccupiedTwo(h, s);
    OccupiedOne(h);
    OccupiedOne(s);
    if s.kind.Hole? {
      OccupiedOne(Pair(h, s)[0]);
    } else {
      OccupiedTwo(Pair(h, s)[0], Pair(h, s)[1]);
      OccupiedOne(Pair(h, s)[0]);
      OccupiedOne(Pair(h, s)[1]);
    }
  }

  lemma StepIsPair(segs: seq<Segment>, i: nat)
    requires i + 1 < |segs|
    ensures segs == segs[..i] + [segs[i], segs[i + 1]] + segs[i + 2..]
    ensures Step(segs, i) == segs[..i] + Pair(segs[i], segs[i + 1]) + segs[i + 2..]
  {
  }

  /** What is in use keeps its order. */
  lemma StepOccupied(segs: seq<Segment>, i: nat)
    requires i + 1 < |segs| && segs[i].kind.Hole?
    ensures Occupied(Step(segs, i)) == Occupied(segs)
  {
    StepIsPair(segs, i);
    PairOccupied(segs[i], segs[i + 1]);
    OccupiedBetween(segs[..i], [segs[i], segs[i + 1]], segs[i + 2..]);
    OccupiedBetween(segs[..i], Pair(segs[i], segs[i + 1]), segs[i + 2..]);
  }

  // ----- When compaction is done -------------------------------------------------------------------------------

  function HoleCount(segs: seq<Segment>): nat {
    if segs == [] then 0 else (if segs[|segs| - 1].kind.Hole? then 1 else 0) + HoleCount(segs[..|segs| - 1])
  }

  lemma {:induction false} HoleCounts(segs: seq<Segment>, i: nat)
    requires i < |segs| && segs[i].kind.Hole?
    ensures HoleCount(segs) >= 1
    ensures HoleCount(segs) == 1 <==> forall j :: 0 <= j < |segs| && j != i ==> !segs[j].kind.Hole?
  {
    var init := segs[..|segs| - 1];
    if i < |segs| - 1 {
      HoleCounts(init, i);
      assert forall j :: 0 <= j < |init| ==> segs[j] == init[j];
    } else if HoleCount(init) == 0 {
      NoHoles(init);
    } else {
      SomeHole(init);
    }
  }

  lemma {:induction false} NoHoles(segs: seq<Segment>)
    requires HoleCount(segs) == 0
    ensures forall j :: 0 <= j < |segs| ==> !segs[j].kind.Hole?
  {
    if segs != [] {
      NoHoles(segs[..|segs| - 1]);
    }
  }

  lemma {:induction false} SomeHole(segs: seq<Segment>)
    requires HoleCount(segs) > 0
    ensures exists j :: 0 <= j < |segs| && segs[j].kind.Hole?
  {
    if !segs[|segs| - 1].kind.Hole? {
      SomeHole(segs[..|segs| - 1]);
      var j :| 0 <= j < |segs| - 1 && segs[..|segs| - 1][j].kind.Hole?;
      assert segs[j].kind.Hole?;
    }
  }

  /** There is a single hole, and it ends at the end of memory. */
  ghost predicate Compacted(segs: seq<Segment>, size: nat) {
    && HoleCount(segs) == 1
    && exists i :: 0 <= i < |segs| && segs[i].kind.Hole? && End(segs[i]) == size
  }

  /** The hole at the lowest address. */
  predicate FirstHole(segs: seq<Segment>, i: nat) {
    && i < |segs|
    && segs[i].kind.Hole?
    && forall j :: 0 <= j < |segs| && segs[j].kind.Hole? ==> segs[i].start <= segs[j].start
  }

  /** In address order, the first hole comes first in the list, and it has a successor until the list is compacted. */
  lemma FirstHoleInChain(segs: seq<Segment>, size: nat, i: nat)
    requires Chain(segs, size) && FirstHole(segs, i)
    ensures forall j :: 0 <= j < i ==> !segs[j].kind.Hole?
    ensures Compacted(segs, size) <==> i == |segs| - 1
  {
    forall j | 0 <= j < i ensures !segs[j].kind.Hole? {
      ChainOrder(segs, size, j, i);
    }
    HoleCounts(segs, i);
    if Compacted(segs, size) {
      var k :| 0 <= k < |segs| && segs[k].kind.Hole? && End(segs[k]) == size;
      assert k == i;
      if i < |segs| - 1 {
        ChainOrder(segs, size, i, |segs| - 1);
      }
    }
  }

  /** After the step the first hole is the same one, grown, or the one that has moved up by a place. */
  lemma StepProgress(segs: seq<Segment>, size: nat, i: nat)
    requires Chain(segs, size) && FirstHole(segs, i) && i + 1 < |segs|
    ensures FirstHole(Step(segs, i), if segs[i + 1].kind.Hole? then i else i + 1)
    ensures |Step(segs, i)| == if segs[i + 1].kind.Hole? then |segs| - 1 else |segs|
  {
    var segs' := Step(segs, i);
    var first := if segs[i + 1].kind.Hole? then i else i + 1;
    StepChains(segs, size, i);
    FirstHoleInChain(segs, size, i);
    forall j | 0 <= j < first ensures !segs'[j].kind.Hole? {
      if j < i {
        assert segs'[j] == segs[j];
      }
    }
    forall j | first < j < |segs'| ensures segs'[first].start <= segs'[j].start {
      ChainOrder(segs', size, first, j);
    }
  }

  /** Compacted in address order means: everything in use lies packed from address 0, and the one hole behind it
      has all the free space. */
  lemma CompactedShape(segs: seq<Segment>, size: nat)
    requires Chain(segs, size) && Compacted(segs, size)
    ensures segs[|segs| - 1].kind.Hole? && segs[|segs| - 1].size == FreeSum(segs)
    ensures forall j :: 0 <= j < |segs| - 1 ==> !segs[j].kind.Hole?
  {
    var k :| 0 <= k < |segs| && segs[k].kind.Hole? && End(segs[k]) == size;
    var last := |segs| - 1;
    if k < last {
      ChainOrder(segs, size, k, last);
    }
    HoleCounts(segs, last);
    FreeSumSplit(segs, last);
    NoFree(segs[..last]);
  }

  lemma {:induction false} NoFree(segs: seq<Segment>)
    requires forall j :: 0 <= j < |segs| ==> !segs[j].kind.Hole?
    ensures FreeSum(segs) == 0
  {
    if segs != [] {
      NoFree(segs[1..]);
    }
  }

  // ----- Several requests in a row ------------------------------------------------------------------------------

  datatype Request = Request(size: nat, kind: Kind, owner: Word)

  /** All requests can be placed one after the other. */
  predicate AllFit(fit: Fit, segs: seq<Segment>, rs: seq<Request>)
    decreases |rs|
  {
    rs == [] ||
    var i := Choose(fit, segs, rs[0].size);
    i < |segs| && AllFit(fit, Place(segs, i, rs[0].size, rs[0].kind, rs[0].owner), rs[1..])
  }

  function Total(rs: seq<Request>): nat {
    if rs == [] then 0 else rs[0].size + Total(rs[1..])
  }

  /** With all free space in one hole, whatever does not exceed it in total can be placed. */
  lemma {:induction false} OneHoleFits(fit: Fit, segs: seq<Segment>, rs: seq<Request>)
    requires HoleCount(segs) <= 1 && Total(rs) <= FreeSum(segs)
    requires forall k :: 0 <= k < |rs| ==> rs[k].size > 0 && rs[k].kind != Hole
    ensures AllFit(fit, segs, rs)
    decreases |rs|
  {
    if rs != [] {
      if HoleCount(segs) == 0 {
        NoHoles(segs);
        NoFree(segs);
      }
      SomeHole(segs);
      var h :| 0 <= h < |segs| && segs[h].kind.Hole?;
      HoleCounts(segs, h);
      OnlyHole(segs, h);
      assert Fits(segs[h], rs[0].size);
      var i := Choose(fit, segs, rs[0].size);
      assert i == h;
      PlaceFree(segs, h, rs[0].size, rs[0].kind, rs[0].owner);
      PlaceOneHole(segs, h, rs[0]);
      OneHoleFits(fit, Place(segs, h, rs[0].size, rs[0].kind, rs[0].owner), rs[1..]);
    }
  }

  lemma OnlyHole(segs: seq<Segment>, h: nat)
    requires h < |segs| && segs[h].kind.Hole? && forall j :: 0 <= j < |segs| && j != h ==> !segs[j].kind.Hole?
    ensures FreeSum(segs) == segs[h].size
  {
    FreeSumSplit(segs, h);
    NoFree(segs[..h]);
    NoFree(segs[h + 1..]);
  }

  lemma PlaceOneHole(segs: seq<Segment>, h: nat, r: Request)
    requires h < |segs| && Fits(segs[h], r.size) && r.kind != Hole
    requires forall j :: 0 <= j < |segs| && j != h ==> !segs[j].kind.Hole?
    ensures HoleCount(Place(segs, h, r.size, r.kind, r.owner)) <= 1
  {
    var segs' := Place(segs, h, r.size, r.kind, r.owner);
    if HoleCount(segs') > 0 {
      SomeHole(segs');
      var j :| 0 <= j < |segs'| && segs'[j].kind.Hole?;
      assert j == |segs|;
      HoleCounts(segs', j);
    }
  }
}
