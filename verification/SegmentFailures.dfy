/** Segment lists, reached by admissions and expulsions alone, at which a compaction goes wrong: one whose splits have
    put it out of address order, and one in which two seats without a tid share an owner. */
module SegmentFailures {
  import opened Memory
  import opened CrewTable
  import opened Segments
  import opened SegmentTables
  import opened Segmentation

  const TOTAL := 100

  function Free(start: nat, size: nat): Segment {
    Segment(start, size, Hole, NONE)
  }

  function SeatAt(start: nat): Segment {
    Segment(start, TCB_SIZE, TcbKind, NONE)
  }

  function TextAt(start: nat, size: nat, pid: Word): Segment {
    Segment(start, size, TasksKind, pid)
  }

  function PcbAt(start: nat, pid: Word): Segment {
    Segment(start, PCB_SIZE, PcbKind, pid)
  }

  /** All requests placed one after the other, as an admission does without compaction. */
  function PlaceAll(fit: Fit, segs: seq<Segment>, rs: seq<Request>): seq<Segment>
    requires AllFit(fit, segs, rs)
    decreases |rs|
  {
    if rs == [] then segs
    else
      PlaceAll(fit, Place(segs, Choose(fit, segs, rs[0].size), rs[0].size, rs[0].kind, rs[0].owner), rs[1..])
  }

  /** An admission ends with this list. */
  predicate Admits(fit: Fit, segs: seq<Segment>, rs: seq<Request>, segs': seq<Segment>) {
    AllFit(fit, segs, rs) && PlaceAll(fit, segs, rs) == segs'
  }

  lemma PlacedNext(fit: Fit, segs: seq<Segment>, rs: seq<Request>, i: nat, segs1: seq<Segment>, segs': seq<Segment>)
    requires rs != [] && i < |segs| && Fits(segs[i], rs[0].size) && Choose(fit, segs, rs[0].size) == i
    requires segs1 == Place(segs, i, rs[0].size, rs[0].kind, rs[0].owner) && Admits(fit, segs1, rs[1..], segs')
    ensures Admits(fit, segs, rs, segs')
  {
  }

  lemma NothingLeft(fit: Fit, segs: seq<Segment>)
    ensures Admits(fit, segs, [], segs)
  {
  }

  lemma {:induction false} AdmittedTiles(fit: Fit, segs: seq<Segment>, rs: seq<Request>, segs': seq<Segment>, size: nat)
    requires Admits(fit, segs, rs, segs') && Tiling(segs, size) && forall k :: 0 <= k < |rs| ==> rs[k].size > 0
    ensures Tiling(segs', size)
    decreases |rs|
  {
    if rs != [] {
      var i, r := Choose(fit, segs, rs[0].size), rs[0];
      PlaceTiles(segs, size, i, r.size, r.kind, r.owner);
      AdmittedTiles(fit, Place(segs, i, r.size, r.kind, r.owner), rs[1..], segs', size);
    }
  }

  // ----- With a single hole --------------------------------------------------------------------------------

  /** The requests one after the other from `start` on. */
  function Laid(start: nat, rs: seq<Request>): seq<Segment>
    decreases |rs|
  {
    if rs == [] then []
    else [Segment(start, rs[0].size, rs[0].kind, rs[0].owner)] + Laid(start + rs[0].size, rs[1..])
  }

  /** While all free space is one hole at the end of the list, admissions fill it from its beginning. */
  lemma {:induction false} LaidOut(fit: Fit, used: seq<Segment>, start: nat, size: nat, rs: seq<Request>)
    requires forall k :: 0 <= k < |used| ==> used[k].kind != Hole
    requires Total(rs) < size && forall k :: 0 <= k < |rs| ==> rs[k].size > 0 && rs[k].kind != Hole
    ensures Admits(fit, used + [Free(start, size)], rs,
                   used + Laid(start, rs) + [Free(start + Total(rs), size - Total(rs))])
    decreases |rs|
  {
    var segs := used + [Free(start, size)];
    if rs == [] {
      assert used + [] == used;
      NothingLeft(fit, segs);
    } else {
      var r := rs[0];
      var s, rest := Segment(start, r.size, r.kind, r.owner), Free(start + r.size, size - r.size);
      var laid, last := Laid(start + r.size, rs[1..]), Free(start + Total(rs), size - Total(rs));
      LaidOut(fit, used + [s], start + r.size, size - r.size, rs[1..]);
      assert Laid(start, rs) == [s] + laid;
      OnlyFit(fit, used, Free(start, size), r.size);
      hide Admits, Choose, Laid;
      LaidNext(used, s, laid, [last]);
      assert Place(segs, |used|, r.size, r.kind, r.owner) == used + [s] + [rest];
      PlacedNext(fit, segs, rs, |used|, used + [s] + [rest], used + ([s] + laid) + [last]);
    }
  }

  lemma PlacedBehind(fit: Fit, used: seq<Segment>, start: nat, size: nat, rs: seq<Request>, more: seq<Segment>,
                     segs: seq<Segment>, segs': seq<Segment>)
    requires forall k :: 0 <= k < |used| ==> used[k].kind != Hole
    requires Total(rs) < size && forall k :: 0 <= k < |rs| ==> rs[k].size > 0 && rs[k].kind != Hole
    requires segs == used + [Free(start, size)] && more == Laid(start, rs)
    requires segs' == used + more + [Free(start + Total(rs), size - Total(rs))]
    ensures Admits(fit, segs, rs, segs')
  {
    LaidOut(fit, used, start, size, rs);
  }

  lemma LaidNext(used: seq<Segment>, s: Segment, laid: seq<Segment>, last: seq<Segment>)
    ensures used + [s] + laid + last == used + ([s] + laid) + last
  {
    assert used + [s] + laid == used + ([s] + laid);
  }

  lemma OnlyFit(fit: Fit, used: seq<Segment>, h: Segment, n: nat)
    requires (forall k :: 0 <= k < |used| ==> used[k].kind != Hole) && Fits(h, n)
    ensures Choose(fit, used + [h], n) == |used|
  {
    var segs := used + [h];
    assert segs[|used|] == h;
    forall k | 0 <= k < |used| ensures !Fits(segs[k], n) {
      assert segs[k] == used[k];
    }
    assert HasFit(segs, n);
  }

  // ----- A list out of order -----------------------------------------------------------------------------------

  lemma OneSeatRequests(pid: Word, n: nat)
    ensures Requests(pid, 1, n) == [Request(TCB_SIZE, TcbKind, NONE), Request(n, TasksKind, pid), Request(PCB_SIZE, PcbKind, pid)]
  {
  }

  lemma RequestsSound(pid: Word, seats: nat, n: nat)
    requires n > 0
    ensures forall k :: 0 <= k < |Requests(pid, seats, n)| ==> Requests(pid, seats, n)[k].size > 0 && Requests(pid, seats, n)[k].kind != Hole
    ensures Total(Requests(pid, seats, n)) == TCB_SIZE * seats + n + PCB_SIZE
  {
    var rs := Requests(pid, seats, n);
    forall k | 0 <= k < |rs| ensures rs[k].size > 0 && rs[k].kind != Hole {
      assert k < seats || k == seats || k == seats + 1;
    }
  }

  /** A patota with one seat and a text of 10 bytes, in an empty memory. */
  function FirstIn(): (segs: seq<Segment>)
    ensures |segs| == 4
  {
    [SeatAt(0), TextAt(21, 10, 1), PcbAt(31, 1), Free(39, 61)]
  }

  lemma FirstLaid()
    ensures Laid(0, Requests(1, 1, 10)) == FirstIn()[..3]
  {
    OneSeatRequests(1, 10);
    var rs := Requests(1, 1, 10);
    assert Laid(31, rs[1..][1..]) == [PcbAt(31, 1)] + Laid(39, []);
    assert Laid(21, rs[1..]) == [TextAt(21, 10, 1), PcbAt(31, 1)];
  }

  lemma FirstAdmitted(fit: Fit)
    ensures Admits(fit, [Free(0, TOTAL)], Requests(1, 1, 10), FirstIn()) && Tiling(FirstIn(), TOTAL)
  {
    FirstLaid();
    RequestsSound(1, 1, 10);
    var rs, more := Requests(1, 1, 10), FirstIn()[..3];
    assert [] + [Free(0, TOTAL)] == [Free(0, TOTAL)] && [] + more + [Free(39, 61)] == FirstIn();
    hide Admits, Laid, FirstIn, Requests, Total, Tiling;
    PlacedBehind(fit, [], 0, TOTAL, rs, more, [Free(0, TOTAL)], FirstIn());
    EmptyTiles();
    AdmittedTiles(fit, [Free(0, TOTAL)], rs, FirstIn(), TOTAL);
  }

  lemma EmptyTiles()
    ensures Tiling([Free(0, TOTAL)], TOTAL)
  {
    forall a | 0 <= a < TOTAL ensures Covered([Free(0, TOTAL)], a) {
      assert Covers([Free(0, TOTAL)][0], a);
    }
  }

  /** The expulsion of a patota that holds the first three segments of the list gives them up one by one. */
  function GoneThree(segs: seq<Segment>): seq<Segment>
    requires |segs| >= 3
  {
    GiveUp(GiveUp(GiveUp(segs, 0), 1), 2)
  }

  lemma GoneTiles(segs: seq<Segment>, size: nat)
    requires |segs| >= 3 && Tiling(segs, size) && forall k :: 0 <= k < 3 ==> segs[k].kind != Hole
    ensures Tiling(GoneThree(segs), size)
    ensures GoneThree(segs)
         == [Free(segs[0].start, segs[0].size), Free(segs[1].start, segs[1].size), Free(segs[2].start, segs[2].size)] + segs[3..]
  {
    hide Tiling;
    GiveUpTiles(segs, size, 0);
    GiveUpTiles(GiveUp(segs, 0), size, 1);
    GiveUpTiles(GiveUp(GiveUp(segs, 0), 1), size, 2);
  }

  /** A patota whose text is one byte shorter takes over the three holes; the byte left over goes to the end of the list. */
  function SecondIn(): (segs: seq<Segment>)
    ensures |segs| == 5
  {
    [SeatAt(0), TextAt(21, 9, 2), PcbAt(31, 2), Free(39, 61), Free(30, 1)]
  }

  /** The three holes, and the one behind them. */
  function Holes(): seq<Segment> {
    [Free(0, 21), Free(21, 10), Free(31, 8), Free(39, 61)]
  }

  lemma FirstGone(fit: Fit)
    ensures GoneThree(FirstIn()) == Holes() && Tiling(Holes(), TOTAL)
  {
    FirstAdmitted(fit);
    GoneTiles(FirstIn(), TOTAL);
    hide Tiling;
    assert FirstIn()[3..] == [Free(39, 61)];
  }

  lemma SecondAdmitted(fit: Fit)
    ensures Admits(fit, GoneThree(FirstIn()), Requests(2, 1, 9), SecondIn()) && Tiling(SecondIn(), TOTAL)
  {
    hide Admits, Tiling, GoneThree, SecondIn, Requests;
    FirstGone(fit);
    ShorterPlaced(fit);
    RequestsSound(2, 1, 9);
    AdmittedTiles(fit, Holes(), Requests(2, 1, 9), SecondIn(), TOTAL);
  }

  lemma ShorterPlaced(fit: Fit)
    ensures Admits(fit, Holes(), Requests(2, 1, 9), SecondIn())
  {
    OneSeatRequests(2, 9);
    var rs, s0, s1 := Requests(2, 1, 9), Holes(), [SeatAt(0), Free(21, 10), Free(31, 8), Free(39, 61)];
    var s2 := [SeatAt(0), TextAt(21, 9, 2), Free(31, 8), Free(39, 61), Free(30, 1)];
    hide AllFit, PlaceAll, Requests;
    assert Fits(s0[0], 21) && Fits(s1[1], 9) && Fits(s2[2], 8);
    NothingLeft(fit, SecondIn());
    PlacedNext(fit, s2, rs[1..][1..], 2, SecondIn(), SecondIn());
    PlacedNext(fit, s1, rs[1..], 1, s2, SecondIn());
    PlacedNext(fit, s0, rs, 0, s1, SecondIn());
  }

  /** Under either fit, an admission, its expulsion and an admission that is a byte shorter leave the list out of address
      order. Then a compaction finds nothing after the first hole; and once the second patota has been expelled too, its
      second step joins two holes that have another one between them. */
  lemma OutOfOrder(fit: Fit)
    ensures Admits(fit, [Free(0, TOTAL)], Requests(1, 1, 10), FirstIn())
    ensures Admits(fit, GoneThree(FirstIn()), Requests(2, 1, 9), SecondIn())
    ensures Tiling(SecondIn(), TOTAL) && !Chain(SecondIn(), TOTAL) && FirstHole(SecondIn(), |SecondIn()| - 1)
    ensures var gone := GoneThree(SecondIn());
      && Tiling(gone, TOTAL) && FirstHole(gone, 0)
      && Tiling(Step(gone, 0), TOTAL) && FirstHole(Step(gone, 0), 0)
      && Step(Step(gone, 0), 0)[0] == Free(0, 38) && !Tiling(Step(Step(gone, 0), 0), TOTAL)
  {
    hide Admits, Tiling;
    FirstAdmitted(fit);
    SecondAdmitted(fit);
    SecondMixed();
    GoneTiles(SecondIn(), TOTAL);
    TwoSteps(GoneThree(SecondIn()));
  }

  lemma SecondMixed()
    ensures !Chain(SecondIn(), TOTAL) && FirstHole(SecondIn(), |SecondIn()| - 1)
    ensures SecondIn()[3..] == [Free(39, 61), Free(30, 1)] && forall k :: 0 <= k < 3 ==> SecondIn()[k].kind != Hole
  {
    assert End(SecondIn()[1]) != SecondIn()[2].start;
  }

  lemma TwoSteps(gone: seq<Segment>)
    requires gone == [Free(0, 21), Free(21, 9), Free(31, 8)] + [Free(39, 61), Free(30, 1)] && Tiling(gone, TOTAL)
    ensures FirstHole(gone, 0) && Tiling(Step(gone, 0), TOTAL) && FirstHole(Step(gone, 0), 0)
    ensures Step(Step(gone, 0), 0)[0] == Free(0, 38) && !Tiling(Step(Step(gone, 0), 0), TOTAL)
  {
    StepTilesIff(gone, TOTAL, 0);
    var next := Step(gone, 0);
    hide Tiling;
    assert next == [Free(0, 30), Free(31, 8), Free(39, 61), Free(30, 1)];
    StepTilesIff(next, TOTAL, 0);
  }

  // ----- Seats without a tid ------------------------------------------------------------------------------------

  /** Behind the first patota a second with two seats, both still free. */
  function BothIn(): seq<Segment> {
    [SeatAt(0), TextAt(21, 10, 1), PcbAt(31, 1), SeatAt(39), SeatAt(60), TextAt(81, 10, 2), PcbAt(91, 2), Free(99, 1)]
  }

  lemma TwoSeatsLaid()
    ensures Laid(39, Requests(2, 2, 10)) == [SeatAt(39), SeatAt(60), TextAt(81, 10, 2), PcbAt(91, 2)]
  {
    OneSeatRequests(2, 10);
    var rs, later := Requests(2, 2, 10), Requests(2, 1, 10);
    assert rs == [Request(TCB_SIZE, TcbKind, NONE)] + later && rs[1..] == later;
    assert Laid(91, later[1..][1..]) == [PcbAt(91, 2)] + Laid(99, []);
    assert Laid(81, later[1..]) == [TextAt(81, 10, 2), PcbAt(91, 2)];
    assert Laid(60, later) == [SeatAt(60), TextAt(81, 10, 2), PcbAt(91, 2)];
  }

  lemma BothInIs(used: seq<Segment>, more: seq<Segment>)
    requires |FirstIn()| >= 3 && used == FirstIn()[..3]
    requires more == [SeatAt(39), SeatAt(60), TextAt(81, 10, 2), PcbAt(91, 2)]
    ensures used + [Free(39, 61)] == FirstIn() && used + more + [Free(99, 1)] == BothIn()
    ensures forall k :: 0 <= k < |used| ==> used[k].kind != Hole
  {
  }

  lemma BothAdmitted(fit: Fit)
    ensures Admits(fit, FirstIn(), Requests(2, 2, 10), BothIn()) && Tiling(BothIn(), TOTAL)
  {
    hide Tiling, Admits, FirstIn, BothIn, Requests;
    FirstAdmitted(fit);
    BothPlaced(fit);
    RequestsSound(2, 2, 10);
    AdmittedTiles(fit, FirstIn(), Requests(2, 2, 10), BothIn(), TOTAL);
  }

  lemma BothPlaced(fit: Fit)
    ensures Admits(fit, FirstIn(), Requests(2, 2, 10), BothIn())
  {
    var used, more := FirstIn()[..3], [SeatAt(39), SeatAt(60), TextAt(81, 10, 2), PcbAt(91, 2)];
    hide Admits, Laid, FirstIn, BothIn, Requests, Total, SeatAt, TextAt, PcbAt;
    BothInIs(used, more);
    TwoSeatsLaid();
    RequestsSound(2, 2, 10);
    PlacedBehind(fit, used, 39, 61, Requests(2, 2, 10), more, FirstIn(), BothIn());
  }

  /** The first patota has been expelled, and two steps of a compaction have joined its segments to one hole. */
  function HolesJoined(): seq<Segment> {
    Step(Step(GoneThree(BothIn()), 0), 0)
  }

  /** The second patota, as the tables have it. */
  function TwoFreeSeats(): seq<Process> {
    [Process(2, 91, 81, 10, [Seat(NONE, 39), Seat(NONE, 60)])]
  }

  lemma JoinedIs()
    ensures Tiling(HolesJoined(), TOTAL)
    ensures HolesJoined() == [Free(0, 39)] + BothIn()[3..]
  {
    BothAdmitted(FirstFit);
    GoneTiles(BothIn(), TOTAL);
    JoinedSteps(GoneThree(BothIn()), BothIn()[3..]);
  }

  lemma JoinedSteps(gone: seq<Segment>, rest: seq<Segment>)
    requires gone == [Free(0, 21), Free(21, 10), Free(31, 8)] + rest && Tiling(gone, TOTAL)
    ensures Step(Step(gone, 0), 0) == [Free(0, 39)] + rest && Tiling(Step(Step(gone, 0), 0), TOTAL)
  {
    hide Tiling;
    StepTilesIff(gone, TOTAL, 0);
    assert Step(gone, 0) == [Free(0, 31), Free(31, 8)] + rest;
    StepTilesIff(Step(gone, 0), TOTAL, 0);
    assert Step(Step(gone, 0), 0) == [Free(0, 39)] + rest;
  }

  lemma TwoFreeSeatsPlaced(segs: seq<Segment>)
    requires SeatAt(39) in segs && SeatAt(60) in segs && TextAt(81, 10, 2) in segs && PcbAt(91, 2) in segs
    ensures PlacedOk(TwoFreeSeats(), segs)
  {
    var ps := TwoFreeSeats();
    forall part | IsPart(ps, part) ensures PartPlaced(ps, segs, part) {
    }
    forall p, q | IsPart(ps, p) && IsPart(ps, q) && p != q ensures PartsApart(ps, p, q) {
    }
  }

  /** The next step of the compaction moves the first of the two free seats, and both seats are redirected to it. */
  lemma BothRedirected()
    ensures var ps, segs := TwoFreeSeats(), HolesJoined();
      && Tiling(segs, TOTAL) && PlacedOk(ps, segs) && FirstHole(segs, 0) && segs[1] == SeatAt(39)
      && RedirectAll(ps, segs[1].owner, segs[0].start)[0].seats == [Seat(NONE, 0), Seat(NONE, 0)]
      && !PlacedOk(RedirectAll(ps, segs[1].owner, segs[0].start), Step(segs, 0))
  {
    JoinedIs();
    var segs := HolesJoined();
    assert segs[0] == Free(0, 39) && segs[1] == SeatAt(39) && segs[1..] == BothIn()[3..];
    hide Tiling, PlacedOk, HolesJoined;
    JoinedParts(segs);
    TwoFreeSeatsPlaced(segs);
    hide PartPlaced, PartsApart;
    SeatsShareTid();
    RedirectKeepsIff(TwoFreeSeats(), segs, TOTAL, 0);
  }

  lemma JoinedParts(segs: seq<Segment>)
    requires segs == [Free(0, 39)] + BothIn()[3..]
    ensures FirstHole(segs, 0)
    ensures SeatAt(39) in segs && SeatAt(60) in segs && TextAt(81, 10, 2) in segs && PcbAt(91, 2) in segs
  {
    assert segs[1] == SeatAt(39) && segs[2] == SeatAt(60) && segs[3] == TextAt(81, 10, 2) && segs[4] == PcbAt(91, 2);
  }

  lemma SeatsShareTid()
    ensures !AtMostOneSeat(TwoFreeSeats(), NONE)
    ensures RedirectAll(TwoFreeSeats(), NONE, 0)[0].seats == [Seat(NONE, 0), Seat(NONE, 0)]
  {
    assert SeatWith(TwoFreeSeats(), 0, 0, NONE) && SeatWith(TwoFreeSeats(), 0, 1, NONE);
  }
}
