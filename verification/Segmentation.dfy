/** The segmentation scheme as its clients use it. Its segment list tiles the memory at every moment, and it
    stands for the same kind of crew table as the paging scheme. */
module Segmentation {
  import opened Memory
  import opened CrewTable
  import CrewLaws
  import opened Segments
  import opened SegmentTables
  import Text

  /** What an admission asks for, in this order: the seats, the task text, the PCB. */
  function Requests(pid: Word, seats: nat, tasksSize: nat): (rs: seq<Request>)
    ensures |rs| == seats + 2
    ensures forall k :: 0 <= k < seats ==> rs[k] == Request(TCB_SIZE, TcbKind, NONE)
    ensures rs[seats] == Request(tasksSize, TasksKind, pid) && rs[seats + 1] == Request(PCB_SIZE, PcbKind, pid)
    ensures Total(rs) == TCB_SIZE * seats + tasksSize + PCB_SIZE
  {
    if seats == 0 then
      assert Total([Request(PCB_SIZE, PcbKind, pid)]) == PCB_SIZE;
      [Request(tasksSize, TasksKind, pid)] + [Request(PCB_SIZE, PcbKind, pid)]
    else [Request(TCB_SIZE, TcbKind, NONE)] + Requests(pid, seats - 1, tasksSize)
  }

  class Segmentation {
    const size: nat
    const fit: Fit
    const mem: array<Byte>

    var segs: seq<Segment>
    var procs: seq<Process>
    var free: nat

    ghost var rolls: seq<Roll>

    /** The crew table that the memory stands for. */
    ghost function Table(): Table
      reads this
    {
      Groups(rolls)
    }

    /** Everything but the count of free bytes, which an admission only updates at its end. */
    ghost predicate Sound()
      reads this, mem
    {
      && 0 < size == mem.Length < 0x8000_0000
      && Tiling(segs, size)
      && HolesUnowned(segs)
      && StoreOk(procs, rolls, segs, mem[..])
    }

    ghost predicate Valid()
      reads this, mem
    {
      Sound() && free == FreeSum(segs)
    }

    constructor (size: nat, fit: Fit)
      requires 0 < size < 0x8000_0000
      ensures Valid() && fresh(mem) && this.size == size && this.fit == fit
      ensures Table() == [] && free == size && segs == [Segment(0, size, Hole, NONE)]
    {
      this.size := size;
      this.fit := fit;
      mem := new Byte[size];
      segs := [Segment(0, size, Hole, NONE)];
      procs, rolls := [], [];
      free := size;
      new;
      assert segs[1..] == [];
      ChainIff(segs, size);
    }

    // ----- Finding patotas and members ---------------------------------------------------------------

    /** No pid, and no tid of a patota, is there twice. */
    lemma TableDistinct()
      requires Sound()
      ensures CrewLaws.Distinct(Table())
    {
      forall i | 0 <= i < |rolls| ensures DistinctTids(Table()[i]) {
        assert RollOk(procs[i], rolls[i]);
        PresentDistinct(rolls[i].members, |Lines(rolls[i].tasks)|);
      }
    }

    /** The last patota in the list with this pid. */
    method FindProcess(pid: Word) returns (i: nat)
      requires Sound() && HasPid(Table(), pid)
      ensures i < |procs| && i < |rolls| && procs[i].pid == pid && i == FindPid(Pids(Table()), pid)
    {
      var found := -1;
      ghost var at := FindPid(Pids(Table()), pid);
      assert RollOk(procs[at], rolls[at]);
      for j := 0 to |procs|
        invariant -1 <= found < j
        invariant found >= 0 ==> procs[found].pid == pid
        invariant found == -1 ==> forall k :: 0 <= k < j ==> procs[k].pid != pid
      {
        if procs[j].pid == pid {
          found := j;
        }
      }
      i := found;
    }

    /** The last seat of the patota with this tid. */
    method FindSeat(i: nat, tid: Word) returns (k: nat)
      requires Sound() && i < |procs| && FindTid(Table()[i].crew, tid) < |Table()[i].crew|
      ensures k < |procs[i].seats| && SeatedAt(i, k, tid)
    {
      var found := -1;
      ghost var r := rolls[i];
      SeatFinds(r.members, tid, |Lines(r.tasks)|);
      ghost var at :| 0 <= at < |r.members| && r.members[at].Some? && r.members[at].value.tid == tid;
      assert RollOk(procs[i], r);
      assert SeatOk(procs[i].seats[at], r.members[at], at < r.started);
      for j := 0 to |procs[i].seats|
        invariant -1 <= found < j
        invariant found >= 0 ==> procs[i].seats[found].tid == tid
        invariant found == -1 ==> at >= j
      {
        if procs[i].seats[j].tid == tid {
          found := j;
        }
      }
      k := found;
      assert SeatOk(procs[i].seats[k], r.members[k], k < r.started);
      PartInside(procs, segs, size, SeatOf(i, k));
    }

    /** Seat `k` of patota `i` is where the member with this tid sits. */
    ghost predicate SeatedAt(i: nat, k: nat, tid: Word)
      reads this
    {
      && i < |procs| == |rolls| && k < |procs[i].seats| == |rolls[i].members|
      && rolls[i].members[k].Some? && rolls[i].members[k].value.tid == tid
      && SeatOk(procs[i].seats[k], rolls[i].members[k], true)
      && procs[i].seats[k].start + TCB_SIZE <= size
    }

    /** What a member's segment holds. */
    lemma SeatHolds(i: nat, k: nat, tid: Word)
      requires Sound() && SeatedAt(i, k, tid)
      ensures mem[procs[i].seats[k].start..procs[i].seats[k].start + TCB_SIZE] == TcbBytes(rolls[i].members[k].value)
    {
      assert PartHolds(procs, rolls, mem[..], SeatOf(i, k));
    }

    /** Copies `data` over part of a member's TCB, which makes the member `m`. */
    method Rewrite(i: nat, k: nat, off: nat, data: seq<Byte>, ghost tid: Word, ghost m: Member)
      requires Sound() && SeatedAt(i, k, tid) && m.tid == tid && off + |data| <= TCB_SIZE
      requires Splice(TcbBytes(rolls[i].members[k].value), off, data) == TcbBytes(m)
      modifies this`rolls, mem
      ensures Sound() && rolls == SetRoll(old(rolls), i, k, Some(m)) && SeatedAt(i, k, tid)
    {
      SeatRewritten(procs, rolls, segs, size, mem[..], i, k, off, data, m);
      Copy(mem, procs[i].seats[k].start + off, data);
      rolls := SetRoll(rolls, i, k, Some(m));
    }

    // ----- Position, state, information -----------------------------------------------------------------

    method UpdatePosition(pid: Word, tid: Word, x: Word, y: Word)
      requires Valid() && HasMember(Table(), pid, tid)
      modifies this`rolls, mem
      ensures Valid() && Table() == Move(old(Table()), pid, tid, x, y)
    {
      var i := FindProcess(pid);
      var k := FindSeat(i, tid);
      ghost var m := rolls[i].members[k].value;
      MemberReplaced(procs, rolls, i, k, m.(x := x, y := y));
      PositionInTwo(m, x, y);
      Rewrite(i, k, 5, WordBytes(x), tid, m.(x := x));
      Rewrite(i, k, 9, WordBytes(y), tid, m.(x := x, y := y));
      SetRollTwice(old(rolls), i, k, Some(m.(x := x)), Some(m.(x := x, y := y)));
    }

    method UpdateState(pid: Word, tid: Word, state: Byte)
      requires Valid() && HasMember(Table(), pid, tid)
      modifies this`rolls, mem
      ensures Valid() && Table() == SetState(old(Table()), pid, tid, state)
    {
      var i := FindProcess(pid);
      var k := FindSeat(i, tid);
      ghost var m := rolls[i].members[k].value;
      MemberReplaced(procs, rolls, i, k, m.(state := state));
      TcbSetState(m, state);
      Rewrite(i, k, 4, [state], tid, m.(state := state));
    }

    /** Reads a member's TCB field by field. */
    method GetMember(pid: Word, tid: Word) returns (m: Member)
      requires Valid() && HasMember(Table(), pid, tid)
      ensures Capped(m, |Lines(Table()[FindPid(Pids(Table()), pid)].tasks)|) == Lookup(Table(), pid, tid)
      ensures m.next == NONE <==> CounterWraps(pid, tid)
    {
      var i := FindProcess(pid);
      var k := FindSeat(i, tid);
      m := ReadMember(i, k, tid);
      OneSeat(i, k, pid, tid);
      MemberReplaced(procs, rolls, i, k, m);
    }

    method ReadMember(i: nat, k: nat, tid: Word) returns (m: Member)
      requires Sound() && SeatedAt(i, k, tid)
      ensures m == rolls[i].members[k].value
    {
      var at := procs[i].seats[k].start;
      SeatHolds(i, k, tid);
      SeatDecodes(mem[..], at, rolls[i].members[k].value);
      m := Member(tid, mem[at + 4], BytesWord(mem[at + 5..at + 9]), BytesWord(mem[at + 9..at + 13]), BytesWord(mem[at + 13..at + 17]));
    }

    /** The listing of all members, patota by patota, seat by seat. */
    method ListAll() returns (entries: seq<Entry>)
      requires Valid()
      ensures entries == Listing(Table())
    {
      entries := [];
      ghost var t := Table();
      for i := 0 to |procs|
        invariant entries == Listing(t[..i])
      {
        var part := ListProcess(i);
        entries := entries + part;
        assert t[..i + 1] == t[..i] + [t[i]];
        ListingSnoc(t[..i], t[i]);
      }
      assert t[..|procs|] == t;
    }

    method ListProcess(i: nat) returns (entries: seq<Entry>)
      requires Sound() && i < |procs|
      ensures entries == CrewEntries(Table()[i].pid, Table()[i].crew)
    {
      entries := [];
      ghost var r, count := rolls[i], |Lines(rolls[i].tasks)|;
      assert RollOk(procs[i], r);
      for k := 0 to |procs[i].seats|
        invariant entries == CrewEntries(r.pid, Present(r.members[..k], count))
      {
        assert SeatOk(procs[i].seats[k], r.members[k], k < r.started);
        assert r.members[..k + 1] == r.members[..k] + [r.members[k]];
        PresentConcat(r.members[..k], [r.members[k]], count);
        PresentCons(r.members[k], [], count);
        assert [r.members[k]] + [] == [r.members[k]];
        if procs[i].seats[k].tid != NONE {
          PartInside(procs, segs, size, SeatOf(i, k));
          var m := ReadMember(i, k, procs[i].seats[k].tid);
          entries := entries + [Entry(procs[i].pid, m.tid, m.state, m.x, m.y)];
        }
      }
      assert r.members[..|procs[i].seats|] == r.members;
    }

    // ----- Starting a member ------------------------------------------------------------------------------

    method InitMember(pid: Word, tid: Word, x: Word, y: Word)
      requires Valid() && CanStart(Table(), pid, tid) && AllStay(Table(), pid) && tid != NONE
      modifies this`procs, this`segs, this`rolls, mem
      ensures Valid() && Table() == Start(old(Table()), pid, tid, x, y)
    {
      var i := FindProcess(pid);
      ghost var m := Member(tid, STATE_NEW, x, y, 0);
      SeatFinds(rolls[i].members, tid, |Lines(rolls[i].tasks)|);
      assert RollOk(procs[i], rolls[i]);
      var k := FirstFreeSeat(i);
      FreeSeatIff(procs[i], rolls[i]);
      var at := procs[i].seats[k].start;
      ghost var j := SeatStarted(procs, rolls, segs, size, mem[..], i, m);
      StartedTable(procs, rolls, i, m);
      procs := TakeSeat(procs, i, k, tid);
      SetOwner(at, tid, j);
      WriteTcb(at, tid, x, y);
      rolls := StartRoll(rolls, i, m);
    }

    method FirstFreeSeat(i: nat) returns (k: nat)
      requires i < |procs|
      ensures k == FirstSeat(procs[i].seats)
    {
      var seats := procs[i].seats;
      k := |seats|;
      for n := 0 to |seats|
        invariant k == if n <= FirstSeat(seats) then |seats| else FirstSeat(seats)
      {
        if seats[n].tid == NONE && n < k {
          k := n;
        }
      }
    }

    /** Every segment that begins at `at` gets the owner; there is one. */
    method SetOwner(at: nat, tid: Word, ghost j: nat)
      requires Tiling(segs, size) && j < |segs| && segs[j].start == at
      modifies this`segs
      ensures segs == old(segs)[j := old(segs)[j].(owner := tid)]
    {
      for n := 0 to |segs|
        invariant segs == if n <= j then old(segs) else old(segs)[j := old(segs)[j].(owner := tid)]
      {
        if n != j {
          SameIndex(old(segs), size, n, j);
        }
        if segs[n].start == at {
          segs := segs[n := segs[n].(owner := tid)];
        }
      }
    }

    method WriteTcb(at: nat, tid: Word, x: Word, y: Word)
      requires at + TCB_SIZE <= mem.Length
      modifies mem
      ensures mem[..] == Splice(old(mem[..]), at, TcbBytes(Member(tid, STATE_NEW, x, y, 0)))
    {
      Copy(mem, at, WordBytes(tid));
      Copy(mem, at + 4, [STATE_NEW]);
      var words := [x, y, 0, 0];
      ghost var head := WordBytes(tid) + [STATE_NEW];
      SpliceTwo(old(mem[..]), at, WordBytes(tid), [STATE_NEW]);
      ghost var written := head;
      for n := 0 to 4
        invariant |written| == 5 + 4 * n && at + |written| <= mem.Length
        invariant mem[..] == Splice(old(mem[..]), at, written)
        invariant written == head + (if n > 0 then WordBytes(x) else []) + (if n > 1 then WordBytes(y) else [])
                             + (if n > 2 then WordBytes(0) else []) + (if n > 3 then WordBytes(0) else [])
      {
        SpliceTwo(old(mem[..]), at, written, WordBytes(words[n]));
        Copy(mem, at + 5 + 4 * n, WordBytes(words[n]));
        written := written + WordBytes(words[n]);
      }
    }

    // ----- Expulsion ------------------------------------------------------------------------------------------

    /** Expels a member, and with the last one the whole patota. */
    method Expel(pid: Word, tid: Word)
      requires Valid() && HasMember(Table(), pid, tid)
      modifies this
      ensures Valid() && Table() == CrewTable.Expel(old(Table()), pid, tid)
      ensures free == old(free) + TCB_SIZE
                + if |old(Table())[FindPid(Pids(old(Table())), pid)].crew| == 1
                  then PCB_SIZE + |old(Table())[FindPid(Pids(old(Table())), pid)].tasks| + 1 else 0
    {
      var i := FindProcess(pid);
      var k := FindSeat(i, tid);
      ExpelledTable(procs, rolls, i, k);
      ClearTheSeat(i, k, tid);
      EmptyCrewIff(procs[i], rolls[i]);
      ExpelledGroups(old(rolls), i, k, pid, tid);
      var empty := CountEmptySeats(i);
      if empty == |procs[i].seats| {
        DropProcess(i);
      }
    }

    method ClearTheSeat(i: nat, k: nat, ghost tid: Word)
      requires Valid() && SeatedAt(i, k, tid)
      modifies this`procs, this`segs, this`free, this`rolls
      ensures Valid() && rolls == SetRoll(old(rolls), i, k, None) && free == old(free) + TCB_SIZE
      ensures i < |procs| && RollOk(procs[i], rolls[i])
    {
      var at := procs[i].seats[k].start;
      ghost var s := PartSegment(procs, SeatOf(i, k));
      assert PartPlaced(procs, segs, SeatOf(i, k));
      FindStartFinds(segs, size, s);
      SeatCleared(procs, rolls, segs, size, mem[..], i, k, FindStart(segs, at));
      GiveUpTiles(segs, size, FindStart(segs, at));
      procs := ClearSeat(procs, i, k);
      GiveUpAt(at);
      free := free + TCB_SIZE;
      rolls := SetRoll(rolls, i, k, None);
    }

    /** The segment that begins at `at` becomes a hole. */
    method GiveUpAt(at: nat)
      requires FindStart(segs, at) >= 0
      modifies this`segs
      ensures segs == GiveUp(old(segs), FindStart(old(segs), at))
    {
      var found := -1;
      for n := 0 to |segs|
        invariant found == FindStart(segs[..n], at)
      {
        assert segs[..n + 1][..n] == segs[..n];
        if segs[n].start == at {
          found := n;
        }
      }
      assert segs[..|segs|] == segs;
      segs := segs[found := segs[found].(kind := Hole, owner := NONE)];
    }

    method CountEmptySeats(i: nat) returns (n: nat)
      requires i < |procs|
      ensures n <= |procs[i].seats|
      ensures n == |procs[i].seats| <==> forall k :: 0 <= k < |procs[i].seats| ==> procs[i].seats[k].tid == NONE
    {
      n := 0;
      for j := 0 to |procs[i].seats|
        invariant n <= j
        invariant n == j <==> forall k :: 0 <= k < j ==> procs[i].seats[k].tid == NONE
      {
        if procs[i].seats[j].tid == NONE {
          n := n + 1;
        }
      }
    }

    /** A patota nobody is left of gives up its PCB and its task text, and leaves the list. */
    method DropProcess(i: nat)
      requires Valid() && i < |procs|
      modifies this`procs, this`segs, this`free, this`rolls
      ensures Valid() && rolls == old(rolls)[..i] + old(rolls)[i + 1..]
      ensures free == old(free) + PCB_SIZE + |old(rolls)[i].tasks| + 1
    {
      var p := procs[i];
      ProcessDropped(procs, rolls, segs, size, mem[..], i);
      GiveUpAt(p.pcb);
      GiveUpAt(p.tasks);
      free := free + PCB_SIZE + p.tasksSize;
      procs := procs[..i] + procs[i + 1..];
      rolls := rolls[..i] + rolls[i + 1..];
    }

    // ----- Compaction -----------------------------------------------------------------------------------------

    /** Compaction will go well: the list is in address order, there is a hole, and what lies above the first hole
        can be moved. */
    ghost predicate CompactSafe()
      reads this
    {
      && Chain(segs, size)
      && exists i: nat :: FirstHole(segs, i) && MovableFrom(procs, segs, i + 1)
    }

    /** The same as a check that goes over list and tables. */
    predicate CanCompact()
      reads this
    {
      && Chain(segs, size)
      && exists i | 0 <= i < |segs| :: FirstHole(segs, i) && AllCanMove(procs, segs, i + 1)
    }

    lemma CanCompactIs()
      ensures CanCompact() <==> CompactSafe()
    {
      forall s ensures CanMove(procs, s) <==> Movable(procs, s) {
        CanMoveIs(procs, s);
      }
      if CanCompact() {
        var i :| 0 <= i < |segs| && FirstHole(segs, i) && AllCanMove(procs, segs, i + 1);
        assert MovableFrom(procs, segs, i + 1);
      }
      if CompactSafe() {
        var i: nat :| FirstHole(segs, i) && MovableFrom(procs, segs, i + 1);
        assert AllCanMove(procs, segs, i + 1);
      }
    }

    /** Moves everything in use down to the beginning of memory. What each part holds can still be read, through
        its new start. */
    method Compact()
      requires Sound() && CompactSafe()
      modifies this`segs, this`procs, mem
      ensures Sound() && Table() == old(Table()) && FreeSum(segs) == old(FreeSum(segs))
      ensures Occupied(segs) == old(Occupied(segs))
      ensures Chain(segs, size) && Compacted(segs, size)
    {
      ghost var i: nat :| FirstHole(segs, i) && MovableFrom(procs, segs, i + 1);
      FirstHoleInChain(segs, size, i);
      var done := IsCompacted();
      while !done
        invariant Sound() && Chain(segs, size) && FirstHole(segs, i) && MovableFrom(procs, segs, i + 1)
        invariant FreeSum(segs) == old(FreeSum(segs)) && Occupied(segs) == old(Occupied(segs))
        invariant done <==> Compacted(segs, size)
        decreases |segs|, |segs| - i, !done
      {
        FirstHoleInChain(segs, size, i);
        i := Reassign(i);
        done := IsCompacted();
      }
    }

    /** Whether there is exactly one hole and some hole ends at the end of memory. */
    method IsCompacted() returns (done: bool)
      ensures done <==> Compacted(segs, size)
    {
      var holes, atEnd := 0, false;
      for n := 0 to |segs|
        invariant holes == HoleCount(segs[..n])
        invariant atEnd <==> exists k :: 0 <= k < n && segs[k].kind.Hole? && End(segs[k]) == size
      {
        assert segs[..n + 1][..n] == segs[..n];
        if End(segs[n]) == size && segs[n].kind.Hole? {
          atEnd := true;
        }
        if segs[n].kind.Hole? {
          holes := holes + 1;
        }
      }
      assert segs[..|segs|] == segs;
      done := holes == 1 && atEnd;
    }

    /** One step: the first hole absorbs the hole after it, or changes places with the segment after it. */
    method Reassign(ghost i: nat) returns (ghost i': nat)
      requires Sound() && Chain(segs, size) && FirstHole(segs, i) && i + 1 < |segs| && MovableFrom(procs, segs, i + 1)
      modifies this`segs, this`procs, mem
      ensures Sound() && segs == Step(old(segs), i)
      ensures Chain(segs, size) && FirstHole(segs, i') && MovableFrom(procs, segs, i' + 1)
      ensures FreeSum(segs) == FreeSum(old(segs)) && Occupied(segs) == Occupied(old(segs))
      ensures |segs| < |old(segs)| || (|segs| == |old(segs)| && i' == i + 1)
    {
      var n := FindFirstHole(i);
      StepFacts(segs, size, i);
      i' := MoveForStep(n);
      StepList(n);
    }

    /** The part of the step that concerns the bytes and the tables. */
    method MoveForStep(i: nat) returns (ghost i': nat)
      requires Sound() && Chain(segs, size) && i + 1 < |segs| && segs[i].kind.Hole? && MovableFrom(procs, segs, i + 1)
      modifies this`procs, mem
      ensures i' == if segs[i + 1].kind.Hole? then i else i + 1
      ensures StoreOk(procs, rolls, Step(segs, i), mem[..]) && MovableFrom(procs, Step(segs, i), i' + 1)
    {
      if segs[i + 1].kind.Hole? {
        HolesMerged(procs, rolls, segs, mem[..], i);
        i' := i;
      } else {
        MoveBytes(segs[i].start, segs[i + 1], i);
        i' := i + 1;
      }
    }

    /** The part of the step that concerns the list of segments. */
    method StepList(n: nat)
      requires n + 1 < |segs| && segs[n].kind.Hole?
      modifies this`segs
      ensures segs == Step(old(segs), n)
    {
      var h, s := segs[n], segs[n + 1];
      if s.kind.Hole? {
        segs := segs[..n] + [h.(size := h.size + s.size)] + segs[n + 2..];
      } else {
        segs := segs[n := Segment(h.start, s.size, s.kind, s.owner)]
                    [n + 1 := Segment(h.start + s.size, h.size, Hole, NONE)];
      }
    }

    method FindFirstHole(ghost i: nat) returns (n: nat)
      requires Tiling(segs, size) && FirstHole(segs, i)
      ensures n == i
    {
      var least := size;
      n := |segs|;
      for k := 0 to |segs|
        invariant n < k ==> n < |segs| && segs[n].kind.Hole? && segs[n].start == least
        invariant (n == |segs| && least == size) || n < k
        invariant forall j :: 0 <= j < k && segs[j].kind.Hole? ==> least <= segs[j].start
      {
        if segs[k].kind.Hole? && segs[k].start < least {
          least := segs[k].start;
          n := k;
        }
      }
      assert n < |segs|;
      if n != i {
        SameIndex(segs, size, n, i);
      }
    }

    /** Moves the bytes of segment `s`, which follows the hole at `i`, down to `dest` and redirects its part. */
    method MoveBytes(dest: nat, s: Segment, ghost i: nat)
      requires Sound() && Chain(segs, size) && i + 1 < |segs| && segs[i].kind.Hole? && segs[i + 1] == s && !s.kind.Hole?
      requires dest == segs[i].start && MovableFrom(procs, segs, i + 1)
      modifies this`procs, mem
      ensures StoreOk(procs, rolls, Step(segs, i), mem[..]) && MovableFrom(procs, Step(segs, i), i + 2)
    {
      ChainIff(segs, size);
      assert Movable(procs, s);
      if s.kind.TcbKind? {
        ghost var i0, k0, found := SeatOfSegment(s);
        if found {
          PartMoved(procs, rolls, segs, size, mem[..], i, SeatOf(i0, k0));
          StillMovable(procs, segs, size, i, SeatOf(i0, k0));
        } else {
          LostMoved(procs, rolls, segs, mem[..], i);
        }
        MoveSeats(dest, s, i0, k0, found);
      } else {
        ghost var q :| IsPartAt(procs, q, s);
        PartMoved(procs, rolls, segs, size, mem[..], i, q);
        StillMovable(procs, segs, size, i, q);
        MoveOfProcess(dest, s, q);
      }
    }

    lemma SeatOfSegment(s: Segment) returns (i: nat, k: nat, found: bool)
      requires s.kind.TcbKind? && Movable(procs, s)
      ensures found ==> IsPartAt(procs, SeatOf(i, k), s) && SeatWith(procs, i, k, s.owner)
      ensures !found ==> NoSeatWith(procs, s.owner)
    {
      if j: nat, l: nat :| SeatWith(procs, j, l, s.owner) {
        i, k, found := j, l, true;
      } else {
        i, k, found := 0, 0, false;
      }
    }

    /** Looks through the seats of all patotas and moves the TCB of each that has the segment's tid. */
    method MoveSeats(dest: nat, s: Segment, ghost i0: nat, ghost k0: nat, ghost found: bool)
      requires Sound() && s.kind.TcbKind? && AtMostOneSeat(procs, s.owner) && dest + s.size <= size && End(s) <= size
      requires found ==> IsPartAt(procs, SeatOf(i0, k0), s) && SeatWith(procs, i0, k0, s.owner)
      requires !found ==> NoSeatWith(procs, s.owner)
      modifies this`procs, mem
      ensures procs == if found then Relocate(old(procs), SeatOf(i0, k0), dest) else old(procs)
      ensures mem[..] == if found then Splice(old(mem[..]), dest, old(mem[s.start..End(s)])) else old(mem[..])
    {
      ghost var ps, bytes := procs, mem[..];
      for j := 0 to |procs|
        invariant |procs| == |ps|
        invariant procs == if found && i0 < j then Relocate(ps, SeatOf(i0, k0), dest) else ps
        invariant mem[..] == if found && i0 < j then Splice(bytes, dest, bytes[s.start..End(s)]) else bytes
      {
        for k := 0 to |procs[j].seats|
          invariant |procs| == |ps| && |procs[j].seats| == |ps[j].seats|
          invariant procs == if found && (i0 < j || (i0 == j && k0 < k)) then Relocate(ps, SeatOf(i0, k0), dest) else ps
          invariant mem[..] == if found && (i0 < j || (i0 == j && k0 < k)) then Splice(bytes, dest, bytes[s.start..End(s)]) else bytes
        {
          assert SeatWith(ps, j, k, s.owner) <==> found && j == i0 && k == k0;
          if procs[j].seats[k].tid == s.owner {
            var at := procs[j].seats[k].start;
            Copy(mem, dest, mem[at..at + TCB_SIZE]);
            procs := procs[j := procs[j].(seats := procs[j].seats[k := procs[j].seats[k].(start := dest)])];
          }
        }
      }
    }

    /** Moves the PCB or the task text of the patota that the segment names. */
    method MoveOfProcess(dest: nat, s: Segment, ghost q: Part)
      requires Sound() && IsPartAt(procs, q, s) && !q.SeatOf? && dest + s.size <= size && End(s) <= size
      modifies this`procs, mem
      ensures procs == Relocate(old(procs), q, dest)
      ensures mem[..] == Splice(old(mem[..]), dest, old(mem[s.start..End(s)]))
    {
      PidOfGroup(q.i);
      var i := FindProcess(s.owner);
      assert i == q.i;
      if s.kind.PcbKind? {
        Copy(mem, dest, mem[procs[i].pcb..procs[i].pcb + PCB_SIZE]);
        procs := procs[i := procs[i].(pcb := dest)];
      } else {
        Copy(mem, dest, mem[procs[i].tasks..procs[i].tasks + procs[i].tasksSize]);
        procs := procs[i := procs[i].(tasks := dest)];
      }
    }

    lemma PidOfGroup(i: nat)
      requires Sound() && i < |procs|
      ensures HasPid(Table(), procs[i].pid)
    {
      assert RollOk(procs[i], rolls[i]);
      assert Pids(Table())[i] == procs[i].pid;
    }

    // ----- Admission ----------------------------------------------------------------------------------------------

    /** Whether some hole is large enough. */
    method HasRoom(n: nat) returns (yes: bool)
      ensures yes <==> HasFit(segs, n)
    {
      yes := false;
      for k := 0 to |segs|
        invariant yes <==> exists j :: 0 <= j < k && Fits(segs[j], n)
      {
        if segs[k].kind.Hole? && segs[k].size >= n {
          yes := true;
        }
      }
    }

    /** The hole that the configured criterion prefers. */
    method FindHole(n: nat) returns (i: nat)
      requires forall k :: 0 <= k < |segs| ==> segs[k].size > 0 && End(segs[k]) <= size
      ensures i == Choose(fit, segs, n)
    {
      i := |segs|;
      var bound := match fit case FirstFit => size case BestFit => size + 1;
      for k := 0 to |segs|
        invariant i == ChooseAmong(fit, segs, n, k)
        invariant bound == match fit
                           case FirstFit => if i == |segs| then size else segs[i].start
                           case BestFit => if i == |segs| then size + 1 else segs[i].size
      {
        if Fits(segs[k], n) {
          match fit
          case FirstFit =>
            if segs[k].start < bound {
              i, bound := k, segs[k].start;
            }
          case BestFit =>
            if segs[k].size < bound {
              i, bound := k, segs[k].size;
            }
        }
      }
    }

    /** Takes `r.size` bytes of the preferred hole. */
    method Take(r: Request) returns (start: nat)
      requires Sound() && HasFit(segs, r.size) && r.size > 0 && r.kind != Hole
      modifies this`segs
      ensures Sound() && segs == Place(old(segs), Choose(fit, old(segs), r.size), r.size, r.kind, r.owner)
      ensures FreeSum(segs) == old(FreeSum(segs)) - r.size && start < size
      ensures forall s: Segment :: s.kind != Hole ==> (s in segs <==> s in old(segs) || s == Segment(start, r.size, r.kind, r.owner))
      ensures forall s :: s in old(segs) && s.kind != Hole ==> s.start != start
    {
      var i := FindHole(r.size);
      start := segs[i].start;
      Taken(procs, rolls, segs, size, mem[..], i, r);
      Split(i, r);
    }

    /** The hole at `i` becomes the requested segment; the remainder goes to the end of the list. */
    method Split(i: nat, r: Request)
      requires i < |segs| && Fits(segs[i], r.size)
      modifies this`segs
      ensures segs == Place(old(segs), i, r.size, r.kind, r.owner)
    {
      var h := segs[i];
      segs := segs[i := Segment(h.start, r.size, r.kind, r.owner)];
      if h.size != r.size {
        segs := segs + [Segment(h.start + r.size, h.size - r.size, Hole, NONE)];
      }
    }

    /** The requests can be met one after the other as the list is, or after compacting it before the first one. */
    ghost predicate Room(rs: seq<Request>)
      reads this
    {
      || AllFit(fit, segs, rs)
      || (rs != [] && !HasFit(segs, rs[0].size) && CompactSafe() && Total(rs) <= FreeSum(segs))
    }

    /** The same for a new patota, as a check that goes over the list. */
    predicate CanPlace(pid: Word, capacity: nat, tasksSize: nat)
      reads this
    {
      var rs := Requests(pid, capacity, tasksSize);
      AllFit(fit, segs, rs) || (!HasFit(segs, rs[0].size) && CanCompact())
    }

    lemma CanPlaceIs(pid: Word, capacity: nat, tasksSize: nat)
      requires Valid() && PCB_SIZE + TCB_SIZE * capacity + tasksSize <= free
      ensures CanPlace(pid, capacity, tasksSize) <==> Room(Requests(pid, capacity, tasksSize))
    {
      CanCompactIs();
    }

    /** Compacts if no hole is large enough. */
    method MakeRoom(n: nat, ghost rs: seq<Request>)
      requires Sound() && rs != [] && rs[0].size == n && Room(rs)
      requires forall k :: 0 <= k < |rs| ==> rs[k].size > 0 && rs[k].kind != Hole
      modifies this`segs, this`procs, mem
      ensures Sound() && FreeSum(segs) == old(FreeSum(segs)) && AllFit(fit, segs, rs)
      ensures old(AllFit(fit, segs, rs)) ==> segs == old(segs) && procs == old(procs) && mem[..] == old(mem[..])
    {
      var yes := HasRoom(n);
      if !yes {
        Compact();
        OneHoleFits(fit, segs, rs);
      }
    }

    /** Finds room for one request and takes it. */
    method TakeNext(r: Request, ghost rs: seq<Request>) returns (start: nat)
      requires Sound() && rs != [] && rs[0] == r && Room(rs)
      requires forall k :: 0 <= k < |rs| ==> rs[k].size > 0 && rs[k].kind != Hole
      modifies this`segs, this`procs, mem
      ensures Sound() && FreeSum(segs) == old(FreeSum(segs)) - r.size && AllFit(fit, segs, rs[1..])
      ensures start < size && Segment(start, r.size, r.kind, r.owner) in segs && NewStart(procs, start)
      ensures old(AllFit(fit, segs, rs)) ==>
                && procs == old(procs) && mem[..] == old(mem[..])
                && forall s :: s in old(segs) && s.kind != Hole ==> s in segs && s.start != start
    {
      MakeRoom(r.size, rs);
      ghost var segs0 := segs;
      start := Take(r);
      NewStartOf(procs, segs0, start);
    }

    /** Obtains all segments of a new patota: its seats one by one, its task text, its PCB. */
    method ObtainSegments(pid: Word, capacity: nat, tasksSize: nat) returns (p: Process)
      requires Sound() && tasksSize > 0 && Room(Requests(pid, capacity, tasksSize))
      modifies this`segs, this`procs, mem
      ensures Sound() && NewParts(procs, p, segs)
      ensures FreeSum(segs) == old(FreeSum(segs)) - (PCB_SIZE + TCB_SIZE * capacity + tasksSize)
      ensures p == Process(pid, p.pcb, p.tasks, tasksSize, p.seats) && |p.seats| == capacity
    {
      var seats := ObtainSeats(pid, capacity, tasksSize);
      ghost var rs := Requests(pid, 0, tasksSize);
      ghost var segs0 := segs;
      var tasks := TakeNext(Request(tasksSize, TasksKind, pid), rs);
      SeatsStill(procs, segs0, segs, seats);
      ghost var segs1 := segs;
      var pcb := TakeNext(Request(PCB_SIZE, PcbKind, pid), rs[1..]);
      SeatsStill(procs, segs1, segs, seats);
      p := Process(pid, pcb, tasks, tasksSize, seats);
    }

    method ObtainSeats(pid: Word, capacity: nat, tasksSize: nat) returns (seats: seq<Seat>)
      requires Sound() && tasksSize > 0 && Room(Requests(pid, capacity, tasksSize))
      modifies this`segs, this`procs, mem
      ensures Sound() && |seats| == capacity && SeatsNew(procs, seats, segs)
      ensures FreeSum(segs) == old(FreeSum(segs)) - TCB_SIZE * capacity
      ensures Room(Requests(pid, 0, tasksSize)) && (seats != [] ==> AllFit(fit, segs, Requests(pid, 0, tasksSize)))
    {
      seats := [];
      for k := 0 to capacity
        invariant Sound() && |seats| == k && SeatsNew(procs, seats, segs)
        invariant FreeSum(segs) == old(FreeSum(segs)) - TCB_SIZE * k
        invariant Room(Requests(pid, capacity - k, tasksSize))
        invariant seats != [] ==> AllFit(fit, segs, Requests(pid, capacity - k, tasksSize))
      {
        var start := TakeSeatSegment(pid, capacity - k, tasksSize, seats);
        seats := seats + [Seat(NONE, start)];
      }
    }

    /** One more seat, with `left` of them to go. */
    method TakeSeatSegment(ghost pid: Word, ghost left: nat, ghost tasksSize: nat, ghost seats: seq<Seat>) returns (start: nat)
      requires Sound() && left > 0 && tasksSize > 0 && SeatsNew(procs, seats, segs)
      requires Room(Requests(pid, left, tasksSize)) && (seats != [] ==> AllFit(fit, segs, Requests(pid, left, tasksSize)))
      modifies this`segs, this`procs, mem
      ensures Sound() && FreeSum(segs) == old(FreeSum(segs)) - TCB_SIZE
      ensures AllFit(fit, segs, Requests(pid, left - 1, tasksSize))
      ensures SeatsNew(procs, seats + [Seat(NONE, start)], segs)
    {
      ghost var segs0 := segs;
      RequestsRest(pid, left, tasksSize);
      start := TakeNext(Request(TCB_SIZE, TcbKind, NONE), Requests(pid, left, tasksSize));
      SeatAdded(procs, segs0, segs, seats, start);
    }

    /** Admits a patota if there are bytes enough; they need not be in one piece if the list can be compacted first. */
    method InitPatota(pid: Word, capacity: nat, tasks: seq<Byte>) returns (ok: bool)
      requires Valid() && !HasPid(Table(), pid) && 0 !in tasks
      requires PCB_SIZE + TCB_SIZE * capacity + |tasks| + 1 < 0x8000_0000
      requires PCB_SIZE + TCB_SIZE * capacity + |tasks| + 1 <= free ==> Room(Requests(pid, capacity, |tasks| + 1))
      modifies this, mem
      ensures Valid() && ok == (PCB_SIZE + TCB_SIZE * capacity + |tasks| + 1 <= old(free))
      ensures Table() == if ok then Admit(old(Table()), pid, capacity, tasks) else old(Table())
      ensures free == old(free) - if ok then PCB_SIZE + TCB_SIZE * capacity + |tasks| + 1 else 0
    {
      var tasksSize := |tasks| + 1;
      if PCB_SIZE + TCB_SIZE * capacity + tasksSize > free {
        return false;
      }
      var p := ObtainSegments(pid, capacity, tasksSize);
      forall i | 0 <= i < |procs| ensures procs[i].pid != pid {
        PidOfGroup(i);
      }
      ProcessAdded(procs, rolls, segs, size, mem[..], p, tasks);
      AdmittedRolls(rolls, pid, tasks, capacity);
      procs := procs + [p];
      free := free - PCB_SIZE - tasksSize - TCB_SIZE * capacity;
      WriteProcess(p, tasks);
      rolls := rolls + [NewRoll(pid, tasks, capacity)];
      ok := true;
    }

    /** The PCB and the task text with its terminator, byte by byte. */
    method WriteProcess(p: Process, tasks: seq<Byte>)
      requires p.pcb + PCB_SIZE <= mem.Length && p.tasks + |tasks| + 1 <= mem.Length
      modifies mem
      ensures mem[..] == Splice(Splice(old(mem[..]), p.pcb, WordBytes(p.pid) + WordBytes(0)), p.tasks, tasks + [0])
    {
      SpliceTwo(mem[..], p.pcb, WordBytes(p.pid), WordBytes(0));
      Copy(mem, p.pcb, WordBytes(p.pid));
      Copy(mem, p.pcb + 4, WordBytes(0));
      WriteText(p.tasks, tasks + [0]);
    }

    method WriteText(at: nat, text: seq<Byte>)
      requires at + |text| <= mem.Length
      modifies mem
      ensures mem[..] == Splice(old(mem[..]), at, text)
    {
      assert text[..0] == [];
      for n := 0 to |text|
        invariant mem[..] == Splice(old(mem[..]), at, text[..n])
      {
        mem[at + n] := text[n];
      }
      assert text[..|text|] == text;
    }

    // ----- Tasks ----------------------------------------------------------------------------------------------

    /** The stored counter of the member is about to wrap around. */
    ghost predicate CounterWraps(pid: Word, tid: Word)
      reads this
    {
      exists i: nat, k: nat :: SeatedAt(i, k, tid) && procs[i].pid == pid && rolls[i].members[k].value.next == NONE
    }

    /** The next task of a member. Its stored counter goes up even when there is none left, so that after 2^32 requests
        the tasks begin again; until then the table advances as it should. */
    method NextTask(pid: Word, tid: Word) returns (task: Option<seq<Byte>>)
      requires Valid() && HasMember(Table(), pid, tid)
      modifies this`rolls, mem
      ensures Valid() && task == CrewTable.NextTask(old(Table()), pid, tid)
      ensures Lookup(old(Table()), pid, tid).next + 1 < 0x1_0000_0000
      ensures Table() == Advance(old(Table()), pid, tid) <==> !old(CounterWraps(pid, tid))
    {
      var i := FindProcess(pid);
      var tasks := ReadTasks(i);
      var lines := Text.SplitAt(tasks, NEWLINE);
      var k := FindSeat(i, tid);
      var at := procs[i].seats[k].start;
      ghost var m, count := rolls[i].members[k].value, |lines|;
      assert RollOk(procs[i], rolls[i]);
      LinesCountWord(rolls[i].tasks);
      SeatHolds(i, k, tid);
      SeatDecodes(mem[..], at, m);
      var n := BytesWord(mem[at + 13..at + 17]);
      TcbSetNext(m, Successor(n));
      OneSeat(i, k, pid, tid);
      MemberReplaced(procs, rolls, i, k, m.(next := Successor(n)));
      Rewrite(i, k, 13, WordBytes(Successor(n)), tid, m.(next := Successor(n)));
      task := if n < |lines| then Some(lines[n]) else None;
      AdvancedIff(old(Table()), i, pid, tid, m, count);
    }

    lemma OneSeat(i: nat, k: nat, pid: Word, tid: Word)
      requires Sound() && SeatedAt(i, k, tid) && procs[i].pid == pid
      ensures CounterWraps(pid, tid) <==> rolls[i].members[k].value.next == NONE
    {
      assert RollOk(procs[i], rolls[i]);
      if CounterWraps(pid, tid) {
        var j: nat, l: nat :| SeatedAt(j, l, tid) && procs[j].pid == pid && rolls[j].members[l].value.next == NONE;
        assert j == i && l == k;
      }
    }

    /** The text of all tasks, copied byte by byte, as a C string. */
    method ReadTasks(i: nat) returns (tasks: seq<Byte>)
      requires Sound() && i < |procs| == |rolls|
      ensures tasks == rolls[i].tasks
    {
      var at := procs[i].tasks;
      ghost var part := TasksOf(i);
      PartInside(procs, segs, size, part);
      assert PartHolds(procs, rolls, mem[..], part);
      var copy := [];
      for n := 0 to procs[i].tasksSize
        invariant copy == mem[at..at + n]
      {
        copy := copy + [mem[at + n]];
      }
      assert RollOk(procs[i], rolls[i]);
      assert copy == rolls[i].tasks + [0] + [];
      CStringOf(rolls[i].tasks, []);
      tasks := CString(copy);
    }
  }

  predicate AllCanMove(ps: seq<Process>, segs: seq<Segment>, from: nat) {
    forall j | 0 <= j < |segs| :: j >= from && !segs[j].kind.Hole? ==> CanMove(ps, segs[j])
  }

  lemma SpliceTwo(s: seq<Byte>, at: nat, a: seq<Byte>, b: seq<Byte>)
    requires at + |a| + |b| <= |s|
    ensures Splice(Splice(s, at, a), at + |a|, b) == Splice(s, at, a + b)
  {
    assert (a + b)[..|a|] == a && (a + b)[|a|..] == b;
    SpliceSplit(s, at, a + b, |a|);
  }

  /** What an expulsion leaves of the table. */
  lemma ExpelledGroups(rs: seq<Roll>, i: nat, k: nat, pid: Word, tid: Word)
    requires i < |rs| && k < |rs[i].members| && i == FindPid(Pids(Groups(rs)), pid)
    requires var n := FindTid(Groups(rs)[i].crew, tid);
      && n < |Groups(rs)[i].crew|
      && Groups(SetRoll(rs, i, k, None))
         == Groups(rs)[i := Groups(rs)[i].(crew := Groups(rs)[i].crew[..n] + Groups(rs)[i].crew[n + 1..])]
    ensures var rs' := SetRoll(rs, i, k, None);
      && (GroupOf(rs'[i]).crew == [] <==> |Groups(rs)[i].crew| == 1)
      && CrewTable.Expel(Groups(rs), pid, tid)
         == if GroupOf(rs'[i]).crew == [] then Groups(rs'[..i] + rs'[i + 1..]) else Groups(rs')
  {
    hide GroupOf, SetRoll, FindTid, FindPid;
    ExpelledRest(Groups(rs), SetRoll(rs, i, k, None), i, FindTid(Groups(rs)[i].crew, tid));
  }

  lemma ExpelledRest(t: Table, rs: seq<Roll>, i: nat, n: nat)
    requires i < |t| && n < |t[i].crew| && |rs| == |t|
    requires Groups(rs) == t[i := t[i].(crew := t[i].crew[..n] + t[i].crew[n + 1..])]
    ensures GroupOf(rs[i]).crew == [] <==> |t[i].crew| == 1
    ensures Groups(rs[..i] + rs[i + 1..]) == t[..i] + t[i + 1..]
  {
    assert GroupOf(rs[i]) == Groups(rs)[i];
    assert |GroupOf(rs[i]).crew| == |t[i].crew| - 1;
    GroupsRemove(rs, i);
    var g := Groups(rs)[i];
    assert t[i := g][..i] == t[..i] && t[i := g][i + 1..] == t[i + 1..];
  }

  lemma StepFacts(segs: seq<Segment>, size: nat, i: nat)
    requires Chain(segs, size) && size > 0 && HolesUnowned(segs) && FirstHole(segs, i) && i + 1 < |segs|
    ensures var segs' := Step(segs, i);
      && Chain(segs', size) && Tiling(segs', size) && HolesUnowned(segs')
      && FreeSum(segs') == FreeSum(segs) && Occupied(segs') == Occupied(segs)
      && FirstHole(segs', if segs[i + 1].kind.Hole? then i else i + 1)
      && |segs'| == if segs[i + 1].kind.Hole? then |segs| - 1 else |segs|
  {
    StepChains(segs, size, i);
    StepUnowned(segs, i);
    StepFree(segs, i);
    StepOccupied(segs, i);
    StepProgress(segs, size, i);
    ChainIff(Step(segs, i), size);
  }

  lemma RequestsRest(pid: Word, seats: nat, tasksSize: nat)
    requires seats > 0
    ensures Requests(pid, seats, tasksSize)[1..] == Requests(pid, seats - 1, tasksSize)
  {
  }

  lemma PositionInTwo(m: Member, x: Word, y: Word)
    ensures Splice(TcbBytes(m), 5, WordBytes(x)) == TcbBytes(m.(x := x))
    ensures Splice(TcbBytes(m.(x := x)), 9, WordBytes(y)) == TcbBytes(m.(x := x, y := y))
  {
  }

  lemma SeatDecodes(s: seq<Byte>, at: nat, m: Member)
    requires at + TCB_SIZE <= |s| && s[at..at + TCB_SIZE] == TcbBytes(m)
    ensures s[at + 4] == m.state && BytesWord(s[at + 5..at + 9]) == m.x
    ensures BytesWord(s[at + 9..at + 13]) == m.y && BytesWord(s[at + 13..at + 17]) == m.next
  {
    TcbDecodes(s, at, m);
  }

  lemma LinesCountWord(tasks: seq<Byte>)
    requires |tasks| + 1 < 0x8000_0000
    ensures |Lines(tasks)| < 0x8000_0000
  {
    LinesCount(tasks);
  }

  /** Counting up without a wrap is advancing. */
  lemma AdvancedIff(t: Table, i: nat, pid: Word, tid: Word, m: Member, count: nat)
    requires i == FindPid(Pids(t), pid) < |t| && FindTid(t[i].crew, tid) < |t[i].crew|
    requires t[i].crew[FindTid(t[i].crew, tid)] == Capped(m, count) && count == |Lines(t[i].tasks)| < 0x8000_0000
    ensures Lookup(t, pid, tid).next + 1 < 0x1_0000_0000
    ensures SetMember(t, i, FindTid(t[i].crew, tid), Capped(m.(next := Successor(m.next)), count)) == Advance(t, pid, tid)
            <==> m.next != NONE
  {
    var k := FindTid(t[i].crew, tid);
    var after := Capped(m.(next := Successor(m.next)), count);
    assert SetMember(t, i, k, after)[i].crew[k] == after;
    if m.next >= count {
      assert t[i].crew[k := Capped(m, count)] == t[i].crew && t[i := t[i]] == t;
      assert Advance(t, pid, tid)[i].crew[k] == Capped(m, count);
    }
  }
}
