/** What the segmentation scheme records about its patotas, as values: the parts of each patota with their
    segments, the bytes they must hold, and the crew table that all of it stands for. */
module SegmentTables {
  import opened Memory
  import opened CrewTable
  import opened Segments

  /** An expelled member's seat has neither tid nor start; a seat nobody has taken yet has no tid. */
  datatype Seat = Seat(tid: Word, start: nat)

  datatype Process = Process(pid: Word, pcb: nat, tasks: nat, tasksSize: nat, seats: seq<Seat>)

  datatype Part = PcbOf(i: nat) | TasksOf(i: nat) | SeatOf(i: nat, k: nat)

  predicate IsPart(ps: seq<Process>, part: Part) {
    && part.i < |ps|
    && (part.SeatOf? ==> part.k < |ps[part.i].seats| && ps[part.i].seats[part.k].start != NONE)
  }

  function PartSegment(ps: seq<Process>, part: Part): Segment
    requires IsPart(ps, part)
  {
    var p := ps[part.i];
    match part
    case PcbOf(_) => Segment(p.pcb, PCB_SIZE, PcbKind, p.pid)
    case TasksOf(_) => Segment(p.tasks, p.tasksSize, TasksKind, p.pid)
    case SeatOf(_, k) => Segment(p.seats[k].start, TCB_SIZE, TcbKind, p.seats[k].tid)
  }

  // ----- Every part has its own segment --------------------------------------------------------------------

  ghost predicate PartPlaced(ps: seq<Process>, segs: seq<Segment>, part: Part)
    requires IsPart(ps, part)
  {
    PartSegment(ps, part) in segs
  }

  ghost predicate PartsApart(ps: seq<Process>, p: Part, q: Part)
    requires IsPart(ps, p) && IsPart(ps, q)
  {
    PartSegment(ps, p).start != PartSegment(ps, q).start
  }

  ghost predicate PlacedOk(ps: seq<Process>, segs: seq<Segment>) {
    && (forall part {:trigger PartPlaced(ps, segs, part)} :: IsPart(ps, part) ==> PartPlaced(ps, segs, part))
    && (forall p, q {:trigger PartsApart(ps, p, q)} :: IsPart(ps, p) && IsPart(ps, q) && p != q ==> PartsApart(ps, p, q))
  }

  lemma PartsDisjoint(ps: seq<Process>, segs: seq<Segment>, size: nat, p: Part, q: Part)
    requires Tiling(segs, size) && PlacedOk(ps, segs) && IsPart(ps, p) && IsPart(ps, q) && p != q
    ensures Apart(PartSegment(ps, p), PartSegment(ps, q))
  {
    assert PartPlaced(ps, segs, p) && PartPlaced(ps, segs, q) && PartsApart(ps, p, q);
    SameStart(segs, size, PartSegment(ps, p), PartSegment(ps, q));
  }

  lemma PartInside(ps: seq<Process>, segs: seq<Segment>, size: nat, part: Part)
    requires Tiling(segs, size) && PlacedOk(ps, segs) && IsPart(ps, part)
    ensures End(PartSegment(ps, part)) <= size
  {
    assert PartPlaced(ps, segs, part);
  }

  // ----- The crew that the seats stand for ----------------------------------------------------------------

  /** What a patota really is: `members` has the member in each seat, with the task counter as stored. */
  datatype Roll = Roll(pid: Word, tasks: seq<Byte>, started: nat, members: seq<Option<Member>>)

  /** The stored counter goes on counting after the last task; the crew table stops there. */
  function Capped(m: Member, count: nat): Member {
    if m.next <= count then m else m.(next := count)
  }

  function Shown(m: Option<Member>, count: nat): seq<Member> {
    if m.Some? then [Capped(m.value, count)] else []
  }

  function Present(ms: seq<Option<Member>>, count: nat): (crew: seq<Member>)
    ensures |crew| <= |ms|
  {
    if ms == [] then [] else Shown(ms[0], count) + Present(ms[1..], count)
  }

  function GroupOf(r: Roll): Group {
    Group(r.pid, |r.members|, r.tasks, r.started, Present(r.members, |Lines(r.tasks)|))
  }

  function Groups(rs: seq<Roll>): (t: Table)
    ensures |t| == |rs| && forall i :: 0 <= i < |rs| ==> t[i] == GroupOf(rs[i])
  {
    seq(|rs|, i requires 0 <= i < |rs| => GroupOf(rs[i]))
  }

  lemma {:induction false} PresentConcat(a: seq<Option<Member>>, b: seq<Option<Member>>, count: nat)
    ensures Present(a + b, count) == Present(a, count) + Present(b, count)
  {
    if a == [] {
      assert a + b == b;
    } else {
      assert (a + b)[1..] == a[1..] + b;
      PresentConcat(a[1..], b, count);
    }
  }

  /** Position in the crew of the member in seat `k`. */
  function Rank(ms: seq<Option<Member>>, k: nat): nat
    requires k <= |ms|
  {
    |Present(ms[..k], 0)|
  }

  lemma {:induction false} PresentCount(ms: seq<Option<Member>>, count: nat)
    ensures |Present(ms, count)| == |Present(ms, 0)|
  {
    if ms != [] {
      PresentCount(ms[1..], count);
    }
  }

  lemma PresentCons(m: Option<Member>, ms: seq<Option<Member>>, count: nat)
    ensures Present([m] + ms, count) == Shown(m, count) + Present(ms, count)
  {
    assert ([m] + ms)[1..] == ms;
  }

  lemma PresentSplit(ms: seq<Option<Member>>, k: nat, count: nat)
    requires k < |ms|
    ensures Present(ms, count) == Present(ms[..k], count) + Shown(ms[k], count) + Present(ms[k + 1..], count)
    ensures |Present(ms[..k], count)| == Rank(ms, k)
  {
    assert ms == ms[..k] + ([ms[k]] + ms[k + 1..]);
    PresentConcat(ms[..k], [ms[k]] + ms[k + 1..], count);
    PresentCons(ms[k], ms[k + 1..], count);
    PresentCount(ms[..k], count);
  }

  /** Changing what is in seat `k`. */
  lemma PresentUpdate(ms: seq<Option<Member>>, k: nat, m: Option<Member>, count: nat)
    requires k < |ms|
    ensures Present(ms[k := m], count) == Present(ms[..k], count) + Shown(m, count) + Present(ms[k + 1..], count)
  {
    PresentSplit(ms[k := m], k, count);
    assert ms[k := m][..k] == ms[..k] && ms[k := m][k + 1..] == ms[k + 1..];
  }

  ghost predicate DistinctMembers(ms: seq<Option<Member>>) {
    forall a, b :: 0 <= a < b < |ms| && ms[a].Some? && ms[b].Some? ==> ms[a].value.tid != ms[b].value.tid
  }

  lemma {:induction false} PresentFrom(ms: seq<Option<Member>>, count: nat, j: nat) returns (k: nat)
    requires j < |Present(ms, count)|
    ensures k < |ms| && ms[k].Some? && Capped(ms[k].value, count) == Present(ms, count)[j]
  {
    if ms[0].Some? && j == 0 {
      k := 0;
    } else {
      k := PresentFrom(ms[1..], count, if ms[0].Some? then j - 1 else j);
      k := k + 1;
    }
  }

  /** With distinct tids in the seats, the crew has distinct tids. */
  lemma {:induction false} PresentDistinct(ms: seq<Option<Member>>, count: nat)
    requires DistinctMembers(ms)
    ensures forall a, b :: 0 <= a < b < |Present(ms, count)| ==> Present(ms, count)[a].tid != Present(ms, count)[b].tid
  {
    if ms != [] {
      PresentDistinct(ms[1..], count);
      var rest := Present(ms[1..], count);
      forall b | 0 <= b < |rest| && ms[0].Some? ensures rest[b].tid != ms[0].value.tid {
        var k := PresentFrom(ms[1..], count, b);
        assert ms[1 + k] == ms[1..][k];
      }
    }
  }

  /** The member in seat `k` is found in the crew at its rank. */
  lemma RankFinds(ms: seq<Option<Member>>, k: nat, count: nat)
    requires k < |ms| && ms[k].Some? && DistinctMembers(ms)
    ensures var crew := Present(ms, count);
      && Rank(ms, k) < |crew|
      && crew[Rank(ms, k)] == Capped(ms[k].value, count)
      && FindTid(crew, ms[k].value.tid) == Rank(ms, k)
  {
    PresentSplit(ms, k, count);
    var crew := Present(ms, count);
    assert crew[Rank(ms, k)] == Capped(ms[k].value, count);
    forall j | 0 <= j < Rank(ms, k) ensures crew[j].tid != ms[k].value.tid {
      var n := PresentFrom(ms[..k], count, j);
      assert crew[j] == Present(ms[..k], count)[j];
    }
  }

  /** A tid is found in the crew exactly when somebody with it has a seat. */
  lemma SeatFinds(ms: seq<Option<Member>>, tid: Word, count: nat)
    ensures FindTid(Present(ms, count), tid) < |Present(ms, count)| <==>
            exists k :: 0 <= k < |ms| && ms[k].Some? && ms[k].value.tid == tid
  {
    var crew := Present(ms, count);
    var j := FindTid(crew, tid);
    if j < |crew| {
      var k := PresentFrom(ms, count, j);
      assert ms[k].value.tid == tid;
    }
    if k :| 0 <= k < |ms| && ms[k].Some? && ms[k].value.tid == tid {
      PresentSplit(ms, k, count);
      assert crew[Rank(ms, k)] == Capped(ms[k].value, count);
    }
  }

  // ----- One patota -------------------------------------------------------------------------------------------

  predicate SeatOk(seat: Seat, m: Option<Member>, taken: bool) {
    if !taken then m.None? && seat.tid == NONE && seat.start != NONE
    else if m.None? then seat.tid == NONE && seat.start == NONE
    else seat.tid == m.value.tid && seat.tid != NONE && seat.start != NONE
  }

  ghost predicate RollOk(p: Process, r: Roll) {
    && p.pid == r.pid
    && p.tasksSize == |r.tasks| + 1 < 0x8000_0000
    && 0 !in r.tasks
    && r.started <= |r.members| == |p.seats|
    && (forall k {:trigger p.seats[k]} :: 0 <= k < |p.seats| ==> SeatOk(p.seats[k], r.members[k], k < r.started))
    && DistinctMembers(r.members)
  }

  ghost predicate RollsOk(ps: seq<Process>, rs: seq<Roll>) {
    && |ps| == |rs|
    && (forall i :: 0 <= i < |ps| ==> RollOk(ps[i], rs[i]))
    && (forall i, j :: 0 <= i < j < |ps| ==> ps[i].pid != ps[j].pid)
  }

  /** The bytes a part must hold; a seat nobody sits in may hold anything. */
  ghost predicate PartHolds(ps: seq<Process>, rs: seq<Roll>, mem: seq<Byte>, part: Part)
    requires IsPart(ps, part) && RollsOk(ps, rs)
  {
    var s := PartSegment(ps, part);
    && End(s) <= |mem|
    && match part
       case PcbOf(i) => mem[s.start..End(s)] == WordBytes(rs[i].pid) + WordBytes(0)
       case TasksOf(i) => mem[s.start..End(s)] == rs[i].tasks + [0]
       case SeatOf(i, k) => rs[i].members[k].Some? ==> mem[s.start..End(s)] == TcbBytes(rs[i].members[k].value)
  }

  /** The invariant of the tables: every part has its own segment, which holds what it should. */
  ghost predicate StoreOk(ps: seq<Process>, rs: seq<Roll>, segs: seq<Segment>, mem: seq<Byte>) {
    && RollsOk(ps, rs)
    && PlacedOk(ps, segs)
    && forall part {:trigger PartHolds(ps, rs, mem, part)} :: IsPart(ps, part) ==> PartHolds(ps, rs, mem, part)
  }

  /** Writing inside one part leaves what the others hold. */
  lemma OthersHold(ps: seq<Process>, rs: seq<Roll>, segs: seq<Segment>, size: nat, mem: seq<Byte>, at: nat, data: seq<Byte>, part: Part, q: Part)
    requires Tiling(segs, size) && StoreOk(ps, rs, segs, mem) && |mem| == size
    requires IsPart(ps, part) && IsPart(ps, q) && q != part
    requires PartSegment(ps, part).start <= at && at + |data| <= End(PartSegment(ps, part)) <= size
    ensures PartHolds(ps, rs, Splice(mem, at, data), q)
  {
    PartsDisjoint(ps, segs, size, part, q);
    assert PartHolds(ps, rs, mem, q);
    var s := PartSegment(ps, q);
    SpliceApart(mem, at, data, s.start, End(s));
  }

  /** The member in seat `k` of patota `i` becomes `m`. */
  function SetRoll(rs: seq<Roll>, i: nat, k: nat, m: Option<Member>): seq<Roll>
    requires i < |rs| && k < |rs[i].members|
  {
    rs[i := rs[i].(members := rs[i].members[k := m])]
  }

  lemma SetRollTwice(rs: seq<Roll>, i: nat, k: nat, m: Option<Member>, m': Option<Member>)
    requires i < |rs| && k < |rs[i].members|
    ensures SetRoll(SetRoll(rs, i, k, m), i, k, m') == SetRoll(rs, i, k, m')
  {
    assert rs[i].members[k := m][k := m'] == rs[i].members[k := m'];
  }

  /** Rewriting part of a member's TCB. */
  lemma SeatRewritten(ps: seq<Process>, rs: seq<Roll>, segs: seq<Segment>, size: nat, mem: seq<Byte>,
                      i: nat, k: nat, off: nat, data: seq<Byte>, m: Member)
    requires Tiling(segs, size) && StoreOk(ps, rs, segs, mem) && |mem| == size
    requires i < |ps| && k < |ps[i].seats| && rs[i].members[k].Some? && m.tid == rs[i].members[k].value.tid
    requires off + |data| <= TCB_SIZE && Splice(TcbBytes(rs[i].members[k].value), off, data) == TcbBytes(m)
    ensures ps[i].seats[k].start + off + |data| <= size
    ensures StoreOk(ps, SetRoll(rs, i, k, Some(m)), segs, Splice(mem, ps[i].seats[k].start + off, data))
  {
    var part := SeatOf(i, k);
    var at := ps[i].seats[k].start;
    assert SeatOk(ps[i].seats[k], rs[i].members[k], k < rs[i].started);
    assert PartHolds(ps, rs, mem, part);
    var rs', mem' := SetRoll(rs, i, k, Some(m)), Splice(mem, at + off, data);
    forall q | IsPart(ps, q) ensures PartHolds(ps, rs', mem', q) {
      if q == part {
        SpliceInside(mem, at + off, data, at, at + TCB_SIZE);
      } else {
        OthersHold(ps, rs, segs, size, mem, at + off, data, part, q);
      }
    }
  }

  /** In terms of the crew table: a member of the crew is replaced. */
  lemma MemberReplaced(ps: seq<Process>, rs: seq<Roll>, i: nat, k: nat, m: Member)
    requires RollsOk(ps, rs) && i < |ps| && k < |ps[i].seats| && rs[i].members[k].Some? && m.tid == rs[i].members[k].value.tid
    ensures var t := Groups(rs);
      && FindTid(t[i].crew, m.tid) < |t[i].crew|
      && t[i].crew[FindTid(t[i].crew, m.tid)] == Capped(rs[i].members[k].value, |Lines(rs[i].tasks)|)
      && Groups(SetRoll(rs, i, k, Some(m)))
         == SetMember(t, i, FindTid(t[i].crew, m.tid), Capped(m, |Lines(rs[i].tasks)|))
  {
    var count, ms := |Lines(rs[i].tasks)|, rs[i].members;
    RankFinds(ms, k, count);
    PresentReplaced(ms, k, m, count);
    GroupsSet(rs, i, rs[i].(members := ms[k := Some(m)]));
  }

  // ----- Starting and expelling ---------------------------------------------------------------------------------

  /** If nobody has been expelled, the first seat without a tid is the next one to start. */
  lemma {:induction false} AllPresent(ms: seq<Option<Member>>, count: nat, n: nat)
    requires n <= |ms| && (forall k :: n <= k < |ms| ==> ms[k].None?)
    ensures |Present(ms, count)| <= n
    ensures |Present(ms, count)| == n <==> forall k :: 0 <= k < n ==> ms[k].Some?
  {
    if ms != [] {
      if n == 0 {
        AllPresent(ms[1..], count, 0);
      } else {
        AllPresent(ms[1..], count, n - 1);
        assert forall k :: 1 <= k < |ms| ==> ms[k] == ms[1..][k - 1];
      }
    }
  }

  /** The first seat without a tid, or the number of seats. */
  function FirstSeat(seats: seq<Seat>): (k: nat)
    ensures k <= |seats| && (k < |seats| ==> seats[k].tid == NONE)
    ensures forall j :: 0 <= j < k ==> seats[j].tid != NONE
  {
    if seats == [] || seats[0].tid == NONE then 0 else 1 + FirstSeat(seats[1..])
  }

  /** While seats are left, the first one without a tid has a segment exactly when nobody of the patota has been expelled;
      otherwise it is an expelled member's, whose segment is gone. */
  lemma FreeSeatIff(p: Process, r: Roll)
    requires RollOk(p, r) && r.started < |r.members|
    ensures FirstSeat(p.seats) <= r.started
    ensures p.seats[FirstSeat(p.seats)].start != NONE <==> |GroupOf(r).crew| == r.started
    ensures |GroupOf(r).crew| == r.started ==> FirstSeat(p.seats) == r.started
  {
    var k := FirstSeat(p.seats);
    assert SeatOk(p.seats[r.started], r.members[r.started], false);
    assert k < |p.seats| ==> SeatOk(p.seats[k], r.members[k], k < r.started);
    forall n | r.started <= n < |r.members| ensures r.members[n].None? {
      assert SeatOk(p.seats[n], r.members[n], n < r.started);
    }
    forall n | 0 <= n < r.started ensures r.members[n].Some? <==> p.seats[n].tid != NONE {
      assert SeatOk(p.seats[n], r.members[n], n < r.started);
    }
    AllPresent(r.members, |Lines(r.tasks)|, r.started);
  }

  lemma {:induction false} NonePresent(ms: seq<Option<Member>>, count: nat)
    requires forall k :: 0 <= k < |ms| ==> ms[k].None?
    ensures Present(ms, count) == []
  {
    if ms != [] {
      NonePresent(ms[1..], count);
    }
  }

  /** Seat `k`, the next one, is taken by `m`: its segment gets an owner and its bytes are written. */
  function TakeSeat(ps: seq<Process>, i: nat, k: nat, tid: Word): seq<Process>
    requires i < |ps| && k < |ps[i].seats|
  {
    ps[i := ps[i].(seats := ps[i].seats[k := ps[i].seats[k].(tid := tid)])]
  }

  function StartRoll(rs: seq<Roll>, i: nat, m: Member): seq<Roll>
    requires i < |rs| && rs[i].started < |rs[i].members|
  {
    rs[i := rs[i].(started := rs[i].started + 1, members := rs[i].members[rs[i].started := Some(m)])]
  }

  lemma SeatTaken(ps: seq<Process>, rs: seq<Roll>, segs: seq<Segment>, size: nat, mem: seq<Byte>, i: nat, m: Member, j: nat)
    requires Tiling(segs, size) && StoreOk(ps, rs, segs, mem) && |mem| == size
    requires i < |ps| && rs[i].started < |ps[i].seats| && m.tid != NONE
    requires forall k :: 0 <= k < |rs[i].members| && rs[i].members[k].Some? ==> rs[i].members[k].value.tid != m.tid
    requires j < |segs| && segs[j].start == ps[i].seats[rs[i].started].start
    ensures segs[j] == Segment(segs[j].start, TCB_SIZE, TcbKind, NONE) && segs[j].start + TCB_SIZE <= size
    ensures StoreOk(TakeSeat(ps, i, rs[i].started, m.tid), StartRoll(rs, i, m),
                    segs[j := segs[j].(owner := m.tid)], Splice(mem, segs[j].start, TcbBytes(m)))
  {
    var k := rs[i].started;
    var part := SeatOf(i, k);
    assert SeatOk(ps[i].seats[k], rs[i].members[k], false);
    assert PartPlaced(ps, segs, part);
    SameStart(segs, size, segs[j], PartSegment(ps, part));
    var ps', rs', segs', mem' := TakeSeat(ps, i, k, m.tid), StartRoll(rs, i, m),
                                 segs[j := segs[j].(owner := m.tid)], Splice(mem, segs[j].start, TcbBytes(m));
    SameParts(ps, ps', i, k);
    forall n | 0 <= n < |ps'[i].seats| ensures SeatOk(ps'[i].seats[n], rs'[i].members[n], n < rs'[i].started) {
      assert SeatOk(ps[i].seats[n], rs[i].members[n], n < rs[i].started);
    }
    forall n | 0 <= n < |ps'| ensures RollOk(ps'[n], rs'[n]) {
      assert RollOk(ps[n], rs[n]);
    }
    forall q | IsPart(ps', q) ensures PartPlaced(ps', segs', q) && PartHolds(ps', rs', mem', q) {
      assert PartPlaced(ps, segs, q);
      if q == part {
        assert segs'[j] == PartSegment(ps', q);
        SpliceInside(mem, segs[j].start, TcbBytes(m), segs[j].start, segs[j].start + TCB_SIZE);
        assert Splice(mem[segs[j].start..segs[j].start + TCB_SIZE], 0, TcbBytes(m)) == TcbBytes(m);
      } else {
        PartsDisjoint(ps, segs, size, part, q);
        var n :| 0 <= n < |segs| && segs[n] == PartSegment(ps, q);
        assert segs'[n] == PartSegment(ps', q);
        OthersHold(ps, rs, segs, size, mem, segs[j].start, TcbBytes(m), part, q);
      }
    }
    forall p, q | IsPart(ps', p) && IsPart(ps', q) && p != q ensures PartsApart(ps', p, q) {
      assert PartsApart(ps, p, q);
    }
  }

  /** The same, finding the seat's segment and keeping count of the free bytes. */
  lemma SeatStarted(ps: seq<Process>, rs: seq<Roll>, segs: seq<Segment>, size: nat, mem: seq<Byte>, i: nat, m: Member) returns (j: nat)
    requires Tiling(segs, size) && HolesUnowned(segs) && StoreOk(ps, rs, segs, mem) && |mem| == size
    requires i < |ps| && rs[i].started < |ps[i].seats| && m.tid != NONE
    requires forall k :: 0 <= k < |rs[i].members| && rs[i].members[k].Some? ==> rs[i].members[k].value.tid != m.tid
    ensures j < |segs| && segs[j].start == ps[i].seats[rs[i].started].start && segs[j].start + TCB_SIZE <= size
    ensures var segs' := segs[j := segs[j].(owner := m.tid)];
      && Tiling(segs', size) && HolesUnowned(segs') && FreeSum(segs') == FreeSum(segs)
      && StoreOk(TakeSeat(ps, i, rs[i].started, m.tid), StartRoll(rs, i, m), segs', Splice(mem, segs[j].start, TcbBytes(m)))
  {
    var part := SeatOf(i, rs[i].started);
    assert SeatOk(ps[i].seats[rs[i].started], rs[i].members[rs[i].started], false);
    assert PartPlaced(ps, segs, part);
    var s := PartSegment(ps, part);
    FindStartFinds(segs, size, s);
    j := FindStart(segs, s.start);
    SeatTaken(ps, rs, segs, size, mem, i, m, j);
    FreeSumUpdate(segs, j, segs[j].(owner := m.tid));
    OwnerTiles(segs, size, j, m.tid);
  }

  /** Taking a seat moves nothing. */
  lemma SameParts(ps: seq<Process>, ps': seq<Process>, i: nat, k: nat)
    requires i < |ps| && k < |ps[i].seats| && exists tid :: ps' == TakeSeat(ps, i, k, tid)
    ensures forall q :: IsPart(ps', q) <==> IsPart(ps, q)
    ensures forall q :: IsPart(ps, q) ==> PartSegment(ps', q).start == PartSegment(ps, q).start
    ensures forall q :: IsPart(ps, q) && q != SeatOf(i, k) ==> PartSegment(ps', q) == PartSegment(ps, q)
  {
  }

  lemma PresentEntered(ms: seq<Option<Member>>, k: nat, m: Member, count: nat)
    requires k < |ms| && forall n :: k <= n < |ms| ==> ms[n].None?
    ensures Present(ms[k := Some(m)], count) == Present(ms, count) + [Capped(m, count)]
  {
    PresentSplit(ms, k, count);
    PresentUpdate(ms, k, Some(m), count);
    NonePresent(ms[k + 1..], count);
    var a := Present(ms[..k], count);
    assert a + [] + [] == a;
    assert a + [Capped(m, count)] + [] == a + [Capped(m, count)];
  }

  lemma StartedTable(ps: seq<Process>, rs: seq<Roll>, i: nat, m: Member)
    requires RollsOk(ps, rs) && i < |ps| && rs[i].started < |rs[i].members| && m.next == 0
    ensures Groups(StartRoll(rs, i, m)) ==
            Groups(rs)[i := Groups(rs)[i].(started := rs[i].started + 1, crew := Groups(rs)[i].crew + [m])]
  {
    var count, ms, k := |Lines(rs[i].tasks)|, rs[i].members, rs[i].started;
    forall n | k <= n < |ms| ensures ms[n].None? {
      assert SeatOk(ps[i].seats[n], ms[n], n < k);
    }
    PresentEntered(ms, k, m, count);
    GroupsSet(rs, i, rs[i].(started := k + 1, members := ms[k := Some(m)]));
  }

  function ClearSeat(ps: seq<Process>, i: nat, k: nat): seq<Process>
    requires i < |ps| && k < |ps[i].seats|
  {
    ps[i := ps[i].(seats := ps[i].seats[k := Seat(NONE, NONE)])]
  }

  /** A member's seat is cleared and its segment given up. */
  lemma SeatCleared(ps: seq<Process>, rs: seq<Roll>, segs: seq<Segment>, size: nat, mem: seq<Byte>, i: nat, k: nat, j: nat)
    requires Tiling(segs, size) && StoreOk(ps, rs, segs, mem)
    requires i < |ps| && k < |ps[i].seats| && rs[i].members[k].Some?
    requires j < |segs| && segs[j] == PartSegmentOfSeat(ps[i].seats[k])
    ensures StoreOk(ClearSeat(ps, i, k), SetRoll(rs, i, k, None), GiveUp(segs, j), mem)
  {
    var ps', rs', segs' := ClearSeat(ps, i, k), SetRoll(rs, i, k, None), GiveUp(segs, j);
    var part := SeatOf(i, k);
    GiveUpTiles(segs, size, j);
    assert SeatOk(ps[i].seats[k], rs[i].members[k], k < rs[i].started);
    forall n | 0 <= n < |ps'[i].seats| ensures SeatOk(ps'[i].seats[n], rs'[i].members[n], n < rs'[i].started) {
      assert SeatOk(ps[i].seats[n], rs[i].members[n], n < rs[i].started);
    }
    forall n | 0 <= n < |ps'| ensures RollOk(ps'[n], rs'[n]) {
      assert RollOk(ps[n], rs[n]);
    }
    ClearedParts(ps, i, k);
    ClearedPlaced(ps, segs, segs', i, k, j);
    assert RollsOk(ps', rs');
    forall q | IsPart(ps', q) ensures PartHolds(ps', rs', mem, q) {
      assert PartHolds(ps, rs, mem, q);
    }
  }

  lemma ClearedParts(ps: seq<Process>, i: nat, k: nat)
    requires i < |ps| && k < |ps[i].seats| && ps[i].seats[k].start != NONE
    ensures forall q {:trigger IsPart(ClearSeat(ps, i, k), q)} {:trigger IsPart(ps, q)} ::
              IsPart(ClearSeat(ps, i, k), q) <==> IsPart(ps, q) && q != SeatOf(i, k)
    ensures forall q {:trigger PartSegment(ClearSeat(ps, i, k), q)} ::
              IsPart(ClearSeat(ps, i, k), q) ==> PartSegment(ClearSeat(ps, i, k), q) == PartSegment(ps, q)
  {
  }

  lemma ClearedPlaced(ps: seq<Process>, segs: seq<Segment>, segs': seq<Segment>, i: nat, k: nat, j: nat)
    requires PlacedOk(ps, segs) && i < |ps| && k < |ps[i].seats| && ps[i].seats[k].start != NONE
    requires j < |segs| && segs[j] == PartSegment(ps, SeatOf(i, k))
    requires forall s: Segment :: s.kind != Hole ==> (s in segs' <==> s in segs && s != segs[j])
    ensures PlacedOk(ClearSeat(ps, i, k), segs')
  {
    var ps' := ClearSeat(ps, i, k);
    ClearedParts(ps, i, k);
    forall q | IsPart(ps', q) ensures PartPlaced(ps', segs', q) {
      assert PartPlaced(ps, segs, q) && PartsApart(ps, SeatOf(i, k), q);
    }
    forall p, q | IsPart(ps', p) && IsPart(ps', q) && p != q ensures PartsApart(ps', p, q) {
      assert PartsApart(ps, p, q);
    }
  }

  function PartSegmentOfSeat(seat: Seat): Segment {
    Segment(seat.start, TCB_SIZE, TcbKind, seat.tid)
  }

  lemma ExpelledTable(ps: seq<Process>, rs: seq<Roll>, i: nat, k: nat)
    requires RollsOk(ps, rs) && i < |ps| && k < |ps[i].seats| && rs[i].members[k].Some?
    ensures var t := Groups(rs);
      var n := FindTid(t[i].crew, rs[i].members[k].value.tid);
      && n < |t[i].crew|
      && Groups(SetRoll(rs, i, k, None)) == t[i := t[i].(crew := t[i].crew[..n] + t[i].crew[n + 1..])]
  {
    var count, ms := |Lines(rs[i].tasks)|, rs[i].members;
    RankFinds(ms, k, count);
    PresentRemoved(ms, k, count);
    GroupsSet(rs, i, rs[i].(members := ms[k := None]));
  }

  lemma AroundMiddle<T>(a: seq<T>, x: T, b: seq<T>, y: T)
    ensures (a + [x] + b)[|a| := y] == a + [y] + b
    ensures (a + [x] + b)[..|a|] + (a + [x] + b)[|a| + 1..] == a + b
  {
  }

  lemma PresentRemoved(ms: seq<Option<Member>>, k: nat, count: nat)
    requires k < |ms| && ms[k].Some?
    ensures Rank(ms, k) < |Present(ms, count)|
    ensures Present(ms[k := None], count) == Present(ms, count)[..Rank(ms, k)] + Present(ms, count)[Rank(ms, k) + 1..]
  {
    PresentSplit(ms, k, count);
    PresentUpdate(ms, k, None, count);
    var a, b, x := Present(ms[..k], count), Present(ms[k + 1..], count), Capped(ms[k].value, count);
    AroundMiddle(a, x, b, x);
    assert a + [] == a;
  }

  lemma PresentReplaced(ms: seq<Option<Member>>, k: nat, m: Member, count: nat)
    requires k < |ms| && ms[k].Some?
    ensures Rank(ms, k) < |Present(ms, count)|
    ensures Present(ms[k := Some(m)], count) == Present(ms, count)[Rank(ms, k) := Capped(m, count)]
  {
    PresentSplit(ms, k, count);
    PresentUpdate(ms, k, Some(m), count);
    AroundMiddle(Present(ms[..k], count), Capped(ms[k].value, count), Present(ms[k + 1..], count), Capped(m, count));
  }

  lemma GroupsRemove(rs: seq<Roll>, i: nat)
    requires i < |rs|
    ensures Groups(rs[..i] + rs[i + 1..]) == Groups(rs)[..i] + Groups(rs)[i + 1..]
  {
  }

  lemma GroupsSet(rs: seq<Roll>, i: nat, r: Roll)
    requires i < |rs|
    ensures Groups(rs[i := r]) == Groups(rs)[i := GroupOf(r)]
  {
  }

  /** All seats being without a tid is exactly nobody being left in the crew. */
  lemma EmptyCrewIff(p: Process, r: Roll)
    requires RollOk(p, r)
    ensures (forall k :: 0 <= k < |p.seats| ==> p.seats[k].tid == NONE) <==> GroupOf(r).crew == []
  {
    var count := |Lines(r.tasks)|;
    forall k | 0 <= k < |p.seats| ensures p.seats[k].tid == NONE <==> r.members[k].None? {
      assert SeatOk(p.seats[k], r.members[k], k < r.started);
    }
    if GroupOf(r).crew == [] {
      forall k | 0 <= k < |p.seats| ensures r.members[k].None? {
        PresentSplit(r.members, k, count);
      }
    } else {
      var k := PresentFrom(r.members, count, 0);
      assert p.seats[k].tid != NONE;
    }
  }

  /** A patota without crew leaves: its PCB and task segments are given up. Seats that were never taken keep
      their segments, which nobody can reach any more. */
  lemma ProcessGone(ps: seq<Process>, rs: seq<Roll>, segs: seq<Segment>, size: nat, mem: seq<Byte>, i: nat, a: nat, b: nat)
    requires Tiling(segs, size) && StoreOk(ps, rs, segs, mem) && i < |ps|
    requires a < |segs| && segs[a] == PartSegment(ps, PcbOf(i))
    requires b < |segs| && segs[b] == PartSegment(ps, TasksOf(i))
    ensures StoreOk(ps[..i] + ps[i + 1..], rs[..i] + rs[i + 1..], GiveUp(GiveUp(segs, a), b), mem)
    ensures a != b
  {
    var ps', rs', segs' := ps[..i] + ps[i + 1..], rs[..i] + rs[i + 1..], GiveUp(GiveUp(segs, a), b);
    GiveUpTiles(segs, size, a);
    GiveUpTiles(GiveUp(segs, a), size, b);
    GoneRolls(ps, rs, i);
    GonePlaced(ps, segs, segs', i, segs[a], segs[b]);
    forall q | IsPart(ps', q) ensures PartHolds(ps', rs', mem, q) {
      GonePart(ps, i, q);
      assert PartHolds(ps, rs, mem, Unshifted(q, i));
    }
  }

  /** The same, finding the two segments one after the other. */
  lemma ProcessDropped(ps: seq<Process>, rs: seq<Roll>, segs: seq<Segment>, size: nat, mem: seq<Byte>, i: nat)
    requires Tiling(segs, size) && HolesUnowned(segs) && StoreOk(ps, rs, segs, mem) && i < |ps|
    ensures FindStart(segs, ps[i].pcb) >= 0
    ensures var segs1 := GiveUp(segs, FindStart(segs, ps[i].pcb));
      && FindStart(segs1, ps[i].tasks) >= 0
      && var segs2 := GiveUp(segs1, FindStart(segs1, ps[i].tasks));
         && Tiling(segs2, size) && HolesUnowned(segs2)
         && StoreOk(ps[..i] + ps[i + 1..], rs[..i] + rs[i + 1..], segs2, mem)
         && FreeSum(segs2) == FreeSum(segs) + PCB_SIZE + |rs[i].tasks| + 1
    ensures ps[i].tasksSize == |rs[i].tasks| + 1
  {
    var s, t := PartSegment(ps, PcbOf(i)), PartSegment(ps, TasksOf(i));
    assert RollOk(ps[i], rs[i]);
    assert PartPlaced(ps, segs, PcbOf(i)) && PartPlaced(ps, segs, TasksOf(i));
    FindStartFinds(segs, size, s);
    FindStartFinds(segs, size, t);
    var a, b := FindStart(segs, s.start), FindStart(segs, t.start);
    GiveUpTiles(segs, size, a);
    SameFind(segs, size, a, b, t.start);
    GiveUpTiles(GiveUp(segs, a), size, b);
    GiveUpUnowned(segs, a);
    GiveUpUnowned(GiveUp(segs, a), b);
    ProcessGone(ps, rs, segs, size, mem, i, a, b);
  }

  lemma GonePart(ps: seq<Process>, i: nat, q: Part)
    requires i < |ps| && IsPart(ps[..i] + ps[i + 1..], q)
    ensures IsPart(ps, Unshifted(q, i)) && Unshifted(q, i).i != i
    ensures PartSegment(ps[..i] + ps[i + 1..], q) == PartSegment(ps, Unshifted(q, i))
  {
  }

  lemma GoneRolls(ps: seq<Process>, rs: seq<Roll>, i: nat)
    requires RollsOk(ps, rs) && i < |ps|
    ensures RollsOk(ps[..i] + ps[i + 1..], rs[..i] + rs[i + 1..])
  {
    var ps', rs' := ps[..i] + ps[i + 1..], rs[..i] + rs[i + 1..];
    forall n | 0 <= n < |ps'| ensures RollOk(ps'[n], rs'[n]) {
      assert RollOk(ps[if n < i then n else n + 1], rs[if n < i then n else n + 1]);
    }
  }

  lemma GonePlaced(ps: seq<Process>, segs: seq<Segment>, segs': seq<Segment>, i: nat, s: Segment, t: Segment)
    requires PlacedOk(ps, segs) && i < |ps| && s == PartSegment(ps, PcbOf(i)) && t == PartSegment(ps, TasksOf(i))
    requires forall u: Segment :: u.kind != Hole ==> (u in segs' <==> u in segs && u != s && u != t)
    ensures PlacedOk(ps[..i] + ps[i + 1..], segs')
  {
    var ps' := ps[..i] + ps[i + 1..];
    forall q | IsPart(ps', q) ensures PartPlaced(ps', segs', q) {
      GonePart(ps, i, q);
      assert PartPlaced(ps, segs, Unshifted(q, i));
      assert PartsApart(ps, PcbOf(i), Unshifted(q, i)) && PartsApart(ps, TasksOf(i), Unshifted(q, i));
    }
    forall p, q | IsPart(ps', p) && IsPart(ps', q) && p != q ensures PartsApart(ps', p, q) {
      GonePart(ps, i, p);
      GonePart(ps, i, q);
      assert PartsApart(ps, Unshifted(p, i), Unshifted(q, i));
    }
  }

  /** Which part this was before patota `i` left the list. */
  function Unshifted(q: Part, i: nat): Part {
    if q.i < i then q
    else
      match q
      case PcbOf(n) => PcbOf(n + 1)
      case TasksOf(n) => TasksOf(n + 1)
      case SeatOf(n, k) => SeatOf(n + 1, k)
  }

  // ----- Admission -----------------------------------------------------------------------------------------------

  /** The segments in use may be joined by others. */
  lemma PlacedStill(ps: seq<Process>, rs: seq<Roll>, segs: seq<Segment>, segs': seq<Segment>, mem: seq<Byte>)
    requires StoreOk(ps, rs, segs, mem)
    requires forall s: Segment {:trigger s in segs} :: s.kind != Hole && s in segs ==> s in segs'
    ensures StoreOk(ps, rs, segs', mem)
  {
    forall part | IsPart(ps, part) ensures PartPlaced(ps, segs', part) {
      assert PartPlaced(ps, segs, part);
    }
    forall p, q | IsPart(ps, p) && IsPart(ps, q) && p != q ensures PartsApart(ps, p, q) {
      assert PartsApart(ps, p, q);
    }
  }

  /** Placing a request keeps everything that was in place, and the new segment begins where none in use did. */
  lemma Taken(ps: seq<Process>, rs: seq<Roll>, segs: seq<Segment>, size: nat, mem: seq<Byte>, i: nat, r: Request)
    requires Tiling(segs, size) && HolesUnowned(segs) && StoreOk(ps, rs, segs, mem)
    requires i < |segs| && Fits(segs[i], r.size) && r.size > 0 && r.kind != Hole
    ensures var segs' := Place(segs, i, r.size, r.kind, r.owner);
      && Tiling(segs', size) && HolesUnowned(segs') && StoreOk(ps, rs, segs', mem)
      && FreeSum(segs') == FreeSum(segs) - r.size
      && forall s: Segment :: s.kind != Hole ==>
           (s in segs' <==> s in segs || s == Segment(segs[i].start, r.size, r.kind, r.owner))
    ensures forall s :: s in segs && s.kind != Hole ==> s.start != segs[i].start
  {
    var segs' := Place(segs, i, r.size, r.kind, r.owner);
    PlaceTiles(segs, size, i, r.size, r.kind, r.owner);
    PlaceFree(segs, i, r.size, r.kind, r.owner);
    forall s: Segment | s.kind != Hole
      ensures s in segs' <==> s in segs || s == Segment(segs[i].start, r.size, r.kind, r.owner)
    {
      PlaceKeeps(segs, i, r.size, r.kind, r.owner, s);
    }
    PlacedStill(ps, rs, segs, segs', mem);
    forall s | s in segs && s.kind != Hole ensures s.start != segs[i].start {
      SameStart(segs, size, s, segs[i]);
    }
  }

  /** The roll of a patota just admitted. */
  function NewRoll(pid: Word, tasks: seq<Byte>, capacity: nat): Roll {
    Roll(pid, tasks, 0, seq(capacity, _ => None))
  }

  /** No known seat begins at `start`. */
  ghost predicate NewStart(ps: seq<Process>, start: nat) {
    forall q {:trigger PartSegment(ps, q)} :: IsPart(ps, q) && q.SeatOf? ==> PartSegment(ps, q).start != start
  }

  lemma NewStartOf(ps: seq<Process>, segs: seq<Segment>, start: nat)
    requires PlacedOk(ps, segs) && forall s :: s in segs && s.kind != Hole ==> s.start != start
    ensures NewStart(ps, start)
  {
    forall q | IsPart(ps, q) && q.SeatOf? ensures PartSegment(ps, q).start != start {
      assert PartPlaced(ps, segs, q);
    }
  }

  /** The seats of a patota on its way in all have a segment, none of which begins where a known seat or another
      new one does. */
  ghost predicate SeatsNew(ps: seq<Process>, seats: seq<Seat>, segs: seq<Segment>) {
    && (forall k {:trigger seats[k]} :: 0 <= k < |seats| ==>
          seats[k].tid == NONE && seats[k].start != NONE && PartSegmentOfSeat(seats[k]) in segs
          && NewStart(ps, seats[k].start))
    && (forall k, l :: 0 <= k < l < |seats| ==> seats[k].start != seats[l].start)
  }

  lemma SeatAdded(ps: seq<Process>, segs: seq<Segment>, segs': seq<Segment>, seats: seq<Seat>, start: nat)
    requires start != NONE && NewStart(ps, start) && Segment(start, TCB_SIZE, TcbKind, NONE) in segs'
    requires seats == []
             || (SeatsNew(ps, seats, segs) && forall s :: s in segs && s.kind != Hole ==> s in segs' && s.start != start)
    ensures SeatsNew(ps, seats + [Seat(NONE, start)], segs')
  {
    var seats' := seats + [Seat(NONE, start)];
    forall k | 0 <= k < |seats'| ensures PartSegmentOfSeat(seats'[k]) in segs' && (k < |seats| ==> seats'[k].start != start) {
      if k < |seats| {
        assert PartSegmentOfSeat(seats[k]) in segs;
      }
    }
  }

  lemma SeatsStill(ps: seq<Process>, segs: seq<Segment>, segs': seq<Segment>, seats: seq<Seat>)
    requires seats == [] || (SeatsNew(ps, seats, segs) && forall s :: s in segs && s.kind != Hole ==> s in segs')
    ensures SeatsNew(ps, seats, segs')
  {
  }

  /** All parts of a new patota are in place. */
  ghost predicate NewParts(ps: seq<Process>, p: Process, segs: seq<Segment>) {
    && SeatsNew(ps, p.seats, segs)
    && Segment(p.pcb, PCB_SIZE, PcbKind, p.pid) in segs
    && Segment(p.tasks, p.tasksSize, TasksKind, p.pid) in segs
  }

  lemma ProcessAdded(ps: seq<Process>, rs: seq<Roll>, segs: seq<Segment>, size: nat, mem: seq<Byte>, p: Process, tasks: seq<Byte>)
    requires Tiling(segs, size) && StoreOk(ps, rs, segs, mem) && |mem| == size && NewParts(ps, p, segs)
    requires p.tasksSize == |tasks| + 1 < 0x8000_0000 && 0 !in tasks
    requires forall i :: 0 <= i < |ps| ==> ps[i].pid != p.pid
    ensures p.pcb + PCB_SIZE <= size && p.tasks + |tasks| + 1 <= size
    ensures StoreOk(ps + [p], rs + [NewRoll(p.pid, tasks, |p.seats|)], segs,
                    Splice(Splice(mem, p.pcb, WordBytes(p.pid) + WordBytes(0)), p.tasks, tasks + [0]))
  {
    var ps', rs' := ps + [p], rs + [NewRoll(p.pid, tasks, |p.seats|)];
    NewPlaced(ps, segs, size, p);
    forall i | 0 <= i < |ps'| ensures RollOk(ps'[i], rs'[i]) {
      assert i < |ps| ==> RollOk(ps[i], rs[i]);
    }
    assert RollsOk(ps', rs');
    PartInside(ps', segs, size, PcbOf(|ps|));
    PartInside(ps', segs, size, TasksOf(|ps|));
    var header := WordBytes(p.pid) + WordBytes(0);
    var mem1 := Splice(mem, p.pcb, header);
    var mem' := Splice(mem1, p.tasks, tasks + [0]);
    forall q | IsPart(ps', q) ensures PartHolds(ps', rs', mem', q) {
      NewHolds(ps, rs, segs, size, mem, p, tasks, q);
    }
  }

  lemma NewPlaced(ps: seq<Process>, segs: seq<Segment>, size: nat, p: Process)
    requires Tiling(segs, size) && PlacedOk(ps, segs) && NewParts(ps, p, segs)
    requires forall i :: 0 <= i < |ps| ==> ps[i].pid != p.pid
    ensures PlacedOk(ps + [p], segs)
  {
    var ps' := ps + [p];
    forall q | IsPart(ps', q) ensures PartPlaced(ps', segs, q) {
      if q.i < |ps| {
        assert PartPlaced(ps, segs, q);
      }
    }
    forall q, r | IsPart(ps', q) && IsPart(ps', r) && q != r ensures PartsApart(ps', q, r) {
      if q.i < |ps| && r.i < |ps| {
        assert PartsApart(ps, q, r);
        assert PartSegment(ps', q) == PartSegment(ps, q) && PartSegment(ps', r) == PartSegment(ps, r);
      } else {
        assert PartPlaced(ps', segs, q) && PartPlaced(ps', segs, r);
        SameStart(segs, size, PartSegment(ps', q), PartSegment(ps', r));
        if q.SeatOf? && r.SeatOf? {
          if q.i < |ps| {
            assert PartSegment(ps', q) == PartSegment(ps, q);
          } else if r.i < |ps| {
            assert PartSegment(ps', r) == PartSegment(ps, r);
          }
        }
      }
    }
  }

  lemma NewHolds(ps: seq<Process>, rs: seq<Roll>, segs: seq<Segment>, size: nat, mem: seq<Byte>, p: Process, tasks: seq<Byte>, q: Part)
    requires Tiling(segs, size) && StoreOk(ps, rs, segs, mem) && |mem| == size
    requires PlacedOk(ps + [p], segs) && RollsOk(ps + [p], rs + [NewRoll(p.pid, tasks, |p.seats|)]) && IsPart(ps + [p], q)
    requires p.pcb + PCB_SIZE <= size && p.tasks + |tasks| + 1 <= size
    ensures PartHolds(ps + [p], rs + [NewRoll(p.pid, tasks, |p.seats|)],
                      Splice(Splice(mem, p.pcb, WordBytes(p.pid) + WordBytes(0)), p.tasks, tasks + [0]), q)
  {
    var ps', n := ps + [p], |ps|;
    var header := WordBytes(p.pid) + WordBytes(0);
    var mem1 := Splice(mem, p.pcb, header);
    var s := PartSegment(ps', q);
    PartInside(ps', segs, size, q);
    if q != TasksOf(n) {
      PartsDisjoint(ps', segs, size, q, TasksOf(n));
      SpliceApart(mem1, p.tasks, tasks + [0], s.start, End(s));
    }
    if q != PcbOf(n) {
      PartsDisjoint(ps', segs, size, q, PcbOf(n));
      SpliceApart(mem, p.pcb, header, s.start, End(s));
    }
    if q.i < n {
      assert PartHolds(ps, rs, mem, q);
    } else if q == PcbOf(n) {
      SpliceInside(mem, p.pcb, header, s.start, End(s));
      assert Splice(mem[s.start..End(s)], 0, header) == header;
    } else if q == TasksOf(n) {
      SpliceInside(mem1, p.tasks, tasks + [0], s.start, End(s));
      assert Splice(mem1[s.start..End(s)], 0, tasks + [0]) == tasks + [0];
    }
  }

  lemma AdmittedRolls(rs: seq<Roll>, pid: Word, tasks: seq<Byte>, capacity: nat)
    ensures Groups(rs + [NewRoll(pid, tasks, capacity)]) == Admit(Groups(rs), pid, capacity, tasks)
  {
    NonePresent(NewRoll(pid, tasks, capacity).members, |Lines(tasks)|);
    assert Groups(rs + [NewRoll(pid, tasks, capacity)]) == Groups(rs) + [GroupOf(NewRoll(pid, tasks, capacity))];
  }

  // ----- Compaction -----------------------------------------------------------------------------------------------

  /** The part's start changes; nothing else about it does. */
  function Relocate(ps: seq<Process>, part: Part, start: nat): seq<Process>
    requires IsPart(ps, part)
  {
    var p := ps[part.i];
    match part
    case PcbOf(i) => ps[i := p.(pcb := start)]
    case TasksOf(i) => ps[i := p.(tasks := start)]
    case SeatOf(i, k) => ps[i := p.(seats := p.seats[k := p.seats[k].(start := start)])]
  }

  predicate SeatWith(ps: seq<Process>, i: nat, k: nat, tid: Word) {
    i < |ps| && k < |ps[i].seats| && ps[i].seats[k].tid == tid
  }

  /** No two seats, of whatever patotas, have this tid. */
  ghost predicate AtMostOneSeat(ps: seq<Process>, tid: Word) {
    forall i, k, j, l {:trigger SeatWith(ps, i, k, tid), SeatWith(ps, j, l, tid)} ::
      SeatWith(ps, i, k, tid) && SeatWith(ps, j, l, tid) ==> i == j && k == l
  }

  ghost predicate NoSeatWith(ps: seq<Process>, tid: Word) {
    forall i, k {:trigger SeatWith(ps, i, k, tid)} :: !SeatWith(ps, i, k, tid)
  }

  predicate IsPartAt(ps: seq<Process>, q: Part, s: Segment) {
    IsPart(ps, q) && PartSegment(ps, q) == s
  }

  /** The compactor can move the segment: it finds its owner among the patotas, and for a TCB no other seat with the
      same tid. A seat's segment that no seat knows any more may be moved too. */
  ghost predicate Movable(ps: seq<Process>, s: Segment) {
    if s.kind.TcbKind? then
      && AtMostOneSeat(ps, s.owner)
      && forall i, k {:trigger SeatWith(ps, i, k, s.owner)} :: SeatWith(ps, i, k, s.owner) ==> IsPartAt(ps, SeatOf(i, k), s)
    else
      exists q :: IsPartAt(ps, q, s)
  }

  /** The seat is the only one with this tid, and its segment is `s`. */
  predicate SoleSeat(ps: seq<Process>, i: nat, k: nat, s: Segment) {
    && IsPartAt(ps, SeatOf(i, k), s)
    && forall j | 0 <= j < |ps| :: forall l | 0 <= l < |ps[j].seats| :: ps[j].seats[l].tid == s.owner ==> j == i && l == k
  }

  /** The same as a check that goes over all patotas and seats. */
  predicate CanMove(ps: seq<Process>, s: Segment) {
    if s.kind.TcbKind? then
      forall i | 0 <= i < |ps| :: forall k | 0 <= k < |ps[i].seats| :: ps[i].seats[k].tid == s.owner ==> SoleSeat(ps, i, k, s)
    else
      exists i | 0 <= i < |ps| :: IsPartAt(ps, PcbOf(i), s) || IsPartAt(ps, TasksOf(i), s)
  }

  lemma CanMoveIs(ps: seq<Process>, s: Segment)
    ensures CanMove(ps, s) <==> Movable(ps, s)
  {
    if s.kind.TcbKind? {
      CanMoveSeat(ps, s);
    } else {
      if q :| IsPartAt(ps, q, s) {
        assert !q.SeatOf?;
      }
      if i :| 0 <= i < |ps| && (IsPartAt(ps, PcbOf(i), s) || IsPartAt(ps, TasksOf(i), s)) {
        assert IsPartAt(ps, PcbOf(i), s) || IsPartAt(ps, TasksOf(i), s);
      }
    }
  }

  lemma CanMoveSeat(ps: seq<Process>, s: Segment)
    requires s.kind.TcbKind?
    ensures CanMove(ps, s) <==> Movable(ps, s)
  {
    if CanMove(ps, s) {
      forall i: nat, k: nat | SeatWith(ps, i, k, s.owner) ensures SoleSeat(ps, i, k, s) {
      }
    }
    if Movable(ps, s) {
      forall i, k | 0 <= i < |ps| && 0 <= k < |ps[i].seats| && ps[i].seats[k].tid == s.owner ensures SoleSeat(ps, i, k, s) {
        assert SeatWith(ps, i, k, s.owner);
        forall j, l | 0 <= j < |ps| && 0 <= l < |ps[j].seats| && ps[j].seats[l].tid == s.owner ensures j == i && l == k {
          assert SeatWith(ps, j, l, s.owner);
        }
      }
    }
  }

  ghost predicate MovableFrom(ps: seq<Process>, segs: seq<Segment>, from: int) {
    forall j :: 0 <= j < |segs| && j >= from && !segs[j].kind.Hole? ==> Movable(ps, segs[j])
  }

  lemma Relocated(ps: seq<Process>, part: Part, start: nat)
    requires IsPart(ps, part) && start != NONE
    ensures forall q {:trigger IsPart(Relocate(ps, part, start), q)} {:trigger IsPart(ps, q)} ::
              IsPart(Relocate(ps, part, start), q) <==> IsPart(ps, q)
    ensures forall q {:trigger PartSegment(Relocate(ps, part, start), q)} {:trigger PartSegment(ps, q)} :: IsPart(ps, q) ==>
              PartSegment(Relocate(ps, part, start), q)
              == if q == part then PartSegment(ps, q).(start := start) else PartSegment(ps, q)
  {
  }

  /** The part in segment `i + 1` moves down to where the hole at `i` begins. */
  lemma PartMoved(ps: seq<Process>, rs: seq<Roll>, segs: seq<Segment>, size: nat, mem: seq<Byte>, i: nat, part: Part)
    requires Chain(segs, size) && 0 < size < 0x8000_0000 && StoreOk(ps, rs, segs, mem) && |mem| == size
    requires i + 1 < |segs| && segs[i].kind.Hole? && IsPart(ps, part) && PartSegment(ps, part) == segs[i + 1]
    ensures End(segs[i + 1]) <= size && segs[i].start + segs[i + 1].size <= size
    ensures StoreOk(Relocate(ps, part, segs[i].start), rs, Step(segs, i),
                    Splice(mem, segs[i].start, mem[segs[i + 1].start..End(segs[i + 1])]))
  {
    ChainIff(segs, size);
    var ps' := Relocate(ps, part, segs[i].start);
    Relocated(ps, part, segs[i].start);
    MovedPlaced(ps, segs, size, i, part);
    forall n | 0 <= n < |ps'| ensures RollOk(ps'[n], rs[n]) {
      MovedRoll(ps, rs, part, segs[i].start, n);
    }
    assert RollsOk(ps', rs);
    forall q | IsPart(ps', q) ensures PartHolds(ps', rs, MovedBytes(mem, segs[i], segs[i + 1]), q) {
      MovedHolds(ps, rs, segs, size, mem, i, part, q);
    }
  }

  /** The bytes of segment `s` moved down to where the hole `h` before it begins. */
  function MovedBytes(mem: seq<Byte>, h: Segment, s: Segment): seq<Byte>
    requires h.start <= s.start && End(s) <= |mem|
  {
    Splice(mem, h.start, mem[s.start..End(s)])
  }

  lemma MovedHolds(ps: seq<Process>, rs: seq<Roll>, segs: seq<Segment>, size: nat, mem: seq<Byte>, i: nat, part: Part, q: Part)
    requires Tiling(segs, size) && size < NONE && StoreOk(ps, rs, segs, mem) && |mem| == size
    requires i + 1 < |segs| && segs[i].kind.Hole? && End(segs[i]) == segs[i + 1].start
    requires IsPart(ps, part) && PartSegment(ps, part) == segs[i + 1]
    requires RollsOk(Relocate(ps, part, segs[i].start), rs) && IsPart(Relocate(ps, part, segs[i].start), q)
    ensures PartHolds(Relocate(ps, part, segs[i].start), rs, MovedBytes(mem, segs[i], segs[i + 1]), q)
  {
    var h, s := segs[i], segs[i + 1];
    var mem' := MovedBytes(mem, h, s);
    Relocated(ps, part, h.start);
    assert PartHolds(ps, rs, mem, q);
    hide RollsOk, PlacedOk;
    if q == part {
      SpliceInside(mem, h.start, mem[s.start..End(s)], h.start, h.start + s.size);
      assert mem'[h.start..h.start + s.size] == mem[s.start..End(s)];
    } else {
      var n := OtherIndex(ps, segs, size, i, part, q);
      var t := PartSegment(ps, q);
      SpliceApart(mem, h.start, mem[s.start..End(s)], t.start, End(t));
    }
  }

  lemma MovedRoll(ps: seq<Process>, rs: seq<Roll>, part: Part, start: nat, n: nat)
    requires RollsOk(ps, rs) && IsPart(ps, part) && start != NONE && n < |ps|
    ensures RollOk(Relocate(ps, part, start)[n], rs[n])
  {
    var p, p' := ps[n], Relocate(ps, part, start)[n];
    forall k | 0 <= k < |p'.seats| ensures SeatOk(p'.seats[k], rs[n].members[k], k < rs[n].started) {
      assert SeatOk(p.seats[k], rs[n].members[k], k < rs[n].started);
    }
  }

  /** Another part lies in another segment, apart from both the hole and the segment that moves. */
  lemma OtherIndex(ps: seq<Process>, segs: seq<Segment>, size: nat, i: nat, part: Part, q: Part) returns (n: nat)
    requires Tiling(segs, size) && PlacedOk(ps, segs) && i + 1 < |segs| && segs[i].kind.Hole?
    requires IsPart(ps, part) && PartSegment(ps, part) == segs[i + 1] && IsPart(ps, q) && q != part
    ensures n < |segs| && segs[n] == PartSegment(ps, q) && n != i && n != i + 1
    ensures segs[n].start != segs[i].start && Apart(segs[n], segs[i]) && Apart(segs[n], segs[i + 1])
  {
    assert PartPlaced(ps, segs, q) && PartsApart(ps, part, q);
    n :| 0 <= n < |segs| && segs[n] == PartSegment(ps, q);
    SameIndex(segs, size, n, i);
    SameStart(segs, size, segs[n], segs[i]);
    SameStart(segs, size, segs[n], segs[i + 1]);
  }

  lemma MovedPlaced(ps: seq<Process>, segs: seq<Segment>, size: nat, i: nat, part: Part)
    requires Tiling(segs, size) && size < NONE && PlacedOk(ps, segs) && i + 1 < |segs| && segs[i].kind.Hole?
    requires IsPart(ps, part) && PartSegment(ps, part) == segs[i + 1]
    ensures PlacedOk(Relocate(ps, part, segs[i].start), Step(segs, i))
  {
    var ps', segs' := Relocate(ps, part, segs[i].start), Step(segs, i);
    Relocated(ps, part, segs[i].start);
    forall q | IsPart(ps', q) ensures PartPlaced(ps', segs', q) {
      if q == part {
        assert segs'[i] == PartSegment(ps', q);
      } else {
        var n := OtherIndex(ps, segs, size, i, part, q);
        assert segs'[n] == segs[n];
      }
    }
    forall p, q | IsPart(ps', p) && IsPart(ps', q) && p != q ensures PartsApart(ps', p, q) {
      assert PartsApart(ps, p, q);
      if p == part {
        var n := OtherIndex(ps, segs, size, i, part, q);
      } else if q == part {
        var n := OtherIndex(ps, segs, size, i, part, p);
      }
    }
  }

  /** What lies beyond stays movable. */
  lemma StillMovable(ps: seq<Process>, segs: seq<Segment>, size: nat, i: nat, part: Part)
    requires Tiling(segs, size) && size < NONE && PlacedOk(ps, segs) && i + 1 < |segs| && segs[i].kind.Hole?
    requires IsPart(ps, part) && PartSegment(ps, part) == segs[i + 1] && MovableFrom(ps, segs, i + 1)
    ensures MovableFrom(Relocate(ps, part, segs[i].start), Step(segs, i), i + 2)
  {
    var ps', segs' := Relocate(ps, part, segs[i].start), Step(segs, i);
    Relocated(ps, part, segs[i].start);
    forall j | i + 2 <= j < |segs'| && !segs'[j].kind.Hole? ensures Movable(ps', segs'[j]) {
      assert segs'[j] == segs[j] && Movable(ps, segs[j]);
      SameIndex(segs, size, j, i + 1);
      if segs[j].kind.TcbKind? {
        MovableSeat(ps, ps', part, segs[j]);
      } else {
        var q :| IsPartAt(ps, q, segs[j]);
        assert IsPartAt(ps', q, segs[j]);
      }
    }
  }

  lemma MovableSeat(ps: seq<Process>, ps': seq<Process>, part: Part, s: Segment)
    requires Movable(ps, s) && s.kind.TcbKind? && IsPart(ps, part) && PartSegment(ps, part) != s
    requires exists start: nat :: start != NONE && ps' == Relocate(ps, part, start)
    ensures Movable(ps', s)
  {
    var start: nat :| start != NONE && ps' == Relocate(ps, part, start);
    Relocated(ps, part, start);
    assert forall i, k, tid :: SeatWith(ps', i, k, tid) <==> SeatWith(ps, i, k, tid);
  }

  /** Merging two holes concerns no part. */
  lemma HolesMerged(ps: seq<Process>, rs: seq<Roll>, segs: seq<Segment>, mem: seq<Byte>, i: nat)
    requires StoreOk(ps, rs, segs, mem) && i + 1 < |segs| && segs[i].kind.Hole? && segs[i + 1].kind.Hole?
    requires MovableFrom(ps, segs, i + 1)
    ensures StoreOk(ps, rs, Step(segs, i), mem) && MovableFrom(ps, Step(segs, i), i + 1)
  {
    var segs' := Step(segs, i);
    forall s: Segment | s.kind != Hole && s in segs ensures s in segs' {
      var n :| 0 <= n < |segs| && segs[n] == s;
      assert segs'[if n < i then n else n - 1] == s;
    }
    PlacedStill(ps, rs, segs, segs', mem);
    forall j | i + 1 <= j < |segs'| && !segs'[j].kind.Hole? ensures Movable(ps, segs'[j]) {
      assert segs'[j] == segs[j + 1];
    }
  }

  /** Neither does moving a segment that no seat knows. */
  lemma LostMoved(ps: seq<Process>, rs: seq<Roll>, segs: seq<Segment>, mem: seq<Byte>, i: nat)
    requires StoreOk(ps, rs, segs, mem) && i + 1 < |segs| && segs[i].kind.Hole? && segs[i + 1].kind.TcbKind?
    requires NoSeatWith(ps, segs[i + 1].owner)
    requires MovableFrom(ps, segs, i + 1)
    ensures StoreOk(ps, rs, Step(segs, i), mem) && MovableFrom(ps, Step(segs, i), i + 2)
  {
    var segs' := Step(segs, i);
    forall part | IsPart(ps, part) ensures PartPlaced(ps, segs', part) {
      assert PartPlaced(ps, segs, part);
      var n :| 0 <= n < |segs| && segs[n] == PartSegment(ps, part);
      assert part.SeatOf? ==> SeatWith(ps, part.i, part.k, PartSegment(ps, part).owner);
      assert segs'[n] == segs[n];
    }
    forall p, q | IsPart(ps, p) && IsPart(ps, q) && p != q ensures PartsApart(ps, p, q) {
      assert PartsApart(ps, p, q);
    }
    forall j | i + 2 <= j < |segs'| && !segs'[j].kind.Hole? ensures Movable(ps, segs'[j]) {
      assert segs'[j] == segs[j];
    }
  }

  // ----- What the compactor does when a tid is not unique --------------------------------------------------------

  /** Every seat with this tid is redirected. */
  function RedirectAll(ps: seq<Process>, tid: Word, start: nat): (r: seq<Process>)
    ensures |r| == |ps|
  {
    seq(|ps|, i requires 0 <= i < |ps| => ps[i].(seats := RedirectSeats(ps[i].seats, tid, start)))
  }

  function RedirectSeats(seats: seq<Seat>, tid: Word, start: nat): seq<Seat> {
    seq(|seats|, k requires 0 <= k < |seats| => if seats[k].tid == tid then seats[k].(start := start) else seats[k])
  }

  lemma Redirected(ps: seq<Process>, tid: Word, start: nat, q: Part)
    requires start != NONE
    ensures var hit := q.SeatOf? && SeatWith(ps, q.i, q.k, tid);
      && (IsPart(RedirectAll(ps, tid, start), q) <==> IsPart(ps, q) || hit)
      && (hit ==> PartSegment(RedirectAll(ps, tid, start), q) == Segment(start, TCB_SIZE, TcbKind, tid))
      && (IsPart(ps, q) && !hit ==> PartSegment(RedirectAll(ps, tid, start), q) == PartSegment(ps, q))
  {
  }

  /** Moving a member's segment keeps every part in its own segment exactly when no two seats have the tid that
      the segment names: all seats not taken yet, and all seats of expelled members, share one. */
  lemma RedirectKeepsIff(ps: seq<Process>, segs: seq<Segment>, size: nat, i: nat)
    requires Tiling(segs, size) && size < NONE && PlacedOk(ps, segs)
    requires i + 1 < |segs| && segs[i].kind.Hole? && segs[i + 1].kind.TcbKind? && segs[i + 1].size == TCB_SIZE
    ensures PlacedOk(RedirectAll(ps, segs[i + 1].owner, segs[i].start), Step(segs, i)) <==> AtMostOneSeat(ps, segs[i + 1].owner)
  {
    var tid, start, segs' := segs[i + 1].owner, segs[i].start, Step(segs, i);
    var ps' := RedirectAll(ps, tid, start);
    if AtMostOneSeat(ps, tid) {
      forall q | IsPart(ps', q) ensures PartPlaced(ps', segs', q) {
        RedirectedInPlace(ps, segs, i, q);
      }
      forall p, q | IsPart(ps', p) && IsPart(ps', q) && p != q ensures PartsApart(ps', p, q) {
        RedirectedApart(ps, segs, size, i, p, q);
      }
    } else {
      var n, k, j, l :| SeatWith(ps, n, k, tid) && SeatWith(ps, j, l, tid) && !(n == j && k == l);
      Redirected(ps, tid, start, SeatOf(n, k));
      Redirected(ps, tid, start, SeatOf(j, l));
      assert !PartsApart(ps', SeatOf(n, k), SeatOf(j, l));
    }
  }

  lemma RedirectedInPlace(ps: seq<Process>, segs: seq<Segment>, i: nat, q: Part)
    requires PlacedOk(ps, segs) && i + 1 < |segs| && segs[i].start != NONE
    requires segs[i].kind.Hole? && segs[i + 1].kind.TcbKind? && segs[i + 1].size == TCB_SIZE
    requires IsPart(RedirectAll(ps, segs[i + 1].owner, segs[i].start), q)
    ensures PartPlaced(RedirectAll(ps, segs[i + 1].owner, segs[i].start), Step(segs, i), q)
  {
    var tid, start, segs' := segs[i + 1].owner, segs[i].start, Step(segs, i);
    Redirected(ps, tid, start, q);
    if q.SeatOf? && SeatWith(ps, q.i, q.k, tid) {
      assert segs'[i] == Segment(start, TCB_SIZE, TcbKind, tid);
    } else {
      assert PartPlaced(ps, segs, q);
      var n :| 0 <= n < |segs| && segs[n] == PartSegment(ps, q);
      assert segs'[n] == segs[n];
    }
  }

  lemma RedirectedApart(ps: seq<Process>, segs: seq<Segment>, size: nat, i: nat, p: Part, q: Part)
    requires Tiling(segs, size) && PlacedOk(ps, segs) && i + 1 < |segs| && segs[i].start != NONE
    requires segs[i].kind.Hole? && AtMostOneSeat(ps, segs[i + 1].owner) && p != q
    requires IsPart(RedirectAll(ps, segs[i + 1].owner, segs[i].start), p) && IsPart(RedirectAll(ps, segs[i + 1].owner, segs[i].start), q)
    ensures PartsApart(RedirectAll(ps, segs[i + 1].owner, segs[i].start), p, q)
  {
    var tid, start := segs[i + 1].owner, segs[i].start;
    Redirected(ps, tid, start, p);
    Redirected(ps, tid, start, q);
    var hitP, hitQ := p.SeatOf? && SeatWith(ps, p.i, p.k, tid), q.SeatOf? && SeatWith(ps, q.i, q.k, tid);
    if !hitP && !hitQ {
      assert PartsApart(ps, p, q);
    } else {
      assert !(hitP && hitQ);
      var r := if hitP then q else p;
      assert PartPlaced(ps, segs, r);
      SameStart(segs, size, PartSegment(ps, r), segs[i]);
    }
  }
}
