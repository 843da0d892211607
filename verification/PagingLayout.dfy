/** How a patota's memory is laid out under paging, as values: an 8-byte PCB, one 21-byte TCB per seat,
    the task text; how many occupants each page has; and where each task begins. */
module PagingLayout {
  import opened Memory
  import opened CrewTable
  import opened PageTables
  import opened PageLifecycle
  import opened PagedMemory

  function SeatAddress(k: nat): nat {
    PCB_SIZE + TCB_SIZE * k
  }

  function TaskBase(g: Group): nat {
    SeatAddress(g.capacity)
  }

  function FramesNeeded(size: nat, p: nat): nat
    requires p > 0
  {
    if OffsetOf(size, p) > 0 then BlockOf(size, p) + 1 else BlockOf(size, p)
  }

  lemma FramesNeededFit(size: nat, p: nat)
    requires p > 0
    ensures size <= Base(FramesNeeded(size, p), p)
  {
    AddressJoins(size, p);
  }

  /** It is the least number of frames that hold so many bytes. */
  lemma FramesNeededIff(size: nat, p: nat, n: nat)
    requires p > 0
    ensures n >= FramesNeeded(size, p) <==> size <= n * p
  {
    AddressJoins(size, p);
    BaseIsProduct(n, p);
    if n > BlockOf(size, p) {
      BlocksOrdered(BlockOf(size, p), n, p);
    } else if n < BlockOf(size, p) {
      BlocksOrdered(n, BlockOf(size, p), p);
    }
  }

  lemma FramesNeededLeast(size: nat, p: nat)
    requires p > 0 && size > 0
    ensures var n := FramesNeeded(size, p);
      (n - 1) * p < size <= n * p
  {
    var n := FramesNeeded(size, p);
    FramesNeededIff(size, p, n);
    FramesNeededIff(size, p, 0);
    FramesNeededIff(size, p, n - 1);
  }

  // ----- Pages of a stretch -----------------------------------------------------------------------------

  lemma {:induction false} BlockOfMonotone(a: nat, b: nat, p: nat)
    requires p > 0 && a <= b
    ensures BlockOf(a, p) <= BlockOf(b, p)
  {
    if a >= p {
      BlockOfMonotone(a - p, b - p, p);
    }
  }

  lemma BlockInRange(a: nat, count: nat, p: nat)
    requires p > 0 && a < Base(count, p)
    ensures BlockOf(a, p) < count
  {
    AddressJoins(a, p);
    if BlockOf(a, p) > count {
      BlocksOrdered(count, BlockOf(a, p), p);
    }
  }

  /** Page `j` holds a byte of the stretch of `len` bytes at `from`. */
  predicate Overlaps(j: nat, from: nat, len: nat, p: nat)
    requires p > 0 && len > 0
  {
    BlockOf(from, p) <= j <= BlockOf(from + len - 1, p)
  }

  lemma OverlapsAt(a: nat, from: nat, len: nat, p: nat)
    requires p > 0 && from <= a < from + len
    ensures Overlaps(BlockOf(a, p), from, len, p)
  {
    BlockOfMonotone(from, a, p);
    BlockOfMonotone(a, from + len - 1, p);
  }

  /** A cursor past the first byte of its page stands on the page of the byte before it. */
  lemma PageOfLastByte(num: nat, offset: nat, logical: nat, p: nat)
    requires 0 < offset <= p && logical == Base(num, p) + offset
    ensures BlockOf(logical - 1, p) == num
  {
    AddressParts(num, offset - 1, p);
  }

  /** The pages that an access to `n` bytes from `from` on enters, or to place a cursor `n` bytes further. */
  function StretchPages(i: nat, from: nat, n: nat, p: nat): seq<Page>
    requires p > 0
  {
    BlockOfMonotone(from, if n > 0 then from + n - 1 else from, p);
    PageRun(i, BlockOf(from, p), BlockOf(if n > 0 then from + n - 1 else from, p) + 1)
  }

  // ----- Occupants ---------------------------------------------------------------------------------------

  /** How many of the members' TCBs have a byte on page `j`. */
  function Occupants(tcbs: seq<TcbAddress>, j: nat, p: nat): nat
    requires p > 0
  {
    if tcbs == [] then 0
    else (if Overlaps(j, tcbs[0].address, TCB_SIZE, p) then 1 else 0) + Occupants(tcbs[1..], j, p)
  }

  lemma {:induction false} OccupantsSnoc(tcbs: seq<TcbAddress>, t: TcbAddress, j: nat, p: nat)
    requires p > 0
    ensures Occupants(tcbs + [t], j, p) ==
            Occupants(tcbs, j, p) + if Overlaps(j, t.address, TCB_SIZE, p) then 1 else 0
  {
    if tcbs == [] {
      assert (tcbs + [t])[1..] == [];
    } else {
      assert (tcbs + [t])[1..] == tcbs[1..] + [t];
      OccupantsSnoc(tcbs[1..], t, j, p);
    }
  }

  lemma {:induction false} OccupantsRemove(tcbs: seq<TcbAddress>, k: nat, j: nat, p: nat)
    requires p > 0 && k < |tcbs|
    ensures Occupants(tcbs[..k] + tcbs[k + 1..], j, p) ==
            Occupants(tcbs, j, p) - if Overlaps(j, tcbs[k].address, TCB_SIZE, p) then 1 else 0
  {
    if k == 0 {
      assert tcbs[..0] + tcbs[1..] == tcbs[1..];
    } else {
      assert (tcbs[..k] + tcbs[k + 1..])[1..] == tcbs[1..][..k - 1] + tcbs[1..][k..];
      OccupantsRemove(tcbs[1..], k - 1, j, p);
    }
  }

  /** The last of the pages that an expulsion takes the TCB at `at` off: the first two at most. */
  function LastLeft(at: nat, p: nat): nat
    requires p > 0
  {
    if OffsetOf(at, p) + TCB_SIZE > p then BlockOf(at, p) + 1 else BlockOf(at, p)
  }

  predicate LeftBehind(j: nat, at: nat, p: nat)
    requires p > 0
  {
    BlockOf(at, p) <= j <= LastLeft(at, p)
  }

  /** These are pages that the TCB touches, and all of them when it touches two at most. */
  lemma LeftBehindOverlaps(j: nat, at: nat, p: nat)
    requires p > 0
    ensures LeftBehind(j, at, p) ==> Overlaps(j, at, TCB_SIZE, p)
    ensures p >= TCB_SIZE ==> (LeftBehind(j, at, p) <==> Overlaps(j, at, TCB_SIZE, p))
  {
    var num, offset := BlockOf(at, p), OffsetOf(at, p);
    AddressJoins(at, p);
    if offset + TCB_SIZE <= p {
      AddressParts(num, offset + TCB_SIZE - 1, p);
    } else {
      AddressParts(num + 1, 0, p);
      BlockOfMonotone(Base(num + 1, p), at + TCB_SIZE - 1, p);
      if p >= TCB_SIZE {
        AddressParts(num + 1, offset + TCB_SIZE - 1 - p, p);
      }
    }
  }

  /** The occupants that never leave: the PCB and the task text on their pages. */
  function Fixed(g: Group, j: nat, p: nat): nat
    requires p > 0
  {
    (if Overlaps(j, 0, PCB_SIZE, p) then 1 else 0) + (if Overlaps(j, TaskBase(g), |g.tasks| + 1, p) then 1 else 0)
  }

  /** A page that a member's TCB touches has an occupant. */
  lemma OccupiedByMember(tcbs: seq<TcbAddress>, k: nat, j: nat, p: nat)
    requires p > 0 && k < |tcbs| && Overlaps(j, tcbs[k].address, TCB_SIZE, p)
    ensures Occupants(tcbs, j, p) > 0
  {
    OccupantsRemove(tcbs, k, j, p);
  }

  // ----- Task offsets --------------------------------------------------------------------------------------

  function OffsetsFrom(text: seq<Byte>, base: nat): seq<nat> {
    if text == [] then []
    else (if text[0] == NEWLINE then [base + 1] else []) + OffsetsFrom(text[1..], base + 1)
  }

  function TaskOffsets(text: seq<Byte>): seq<nat> {
    [0] + OffsetsFrom(text, 0)
  }

  lemma {:induction false} OffsetsSnoc(text: seq<Byte>, b: Byte, base: nat)
    ensures OffsetsFrom(text + [b], base) ==
            OffsetsFrom(text, base) + if b == NEWLINE then [base + |text| + 1] else []
  {
    if text == [] {
      assert ([b])[1..] == [];
      assert text + [b] == [b];
    } else {
      assert (text + [b])[1..] == text[1..] + [b];
      OffsetsSnoc(text[1..], b, base + 1);
    }
  }

  /** Where task `k` ends in the text: just past its newline, or at the end of the text. */
  function TaskEnd(offsets: seq<nat>, k: nat, size: nat): nat
    requires k < |offsets|
  {
    if k + 1 < |offsets| then offsets[k + 1] else size
  }

  /** Between its offset and the next lies line `k`, with its newline unless it is the last. */
  ghost predicate Cut(text: seq<Byte>, base: nat, offsets: seq<nat>, lines: seq<seq<Byte>>, k: nat)
    requires k < |offsets| == |lines|
  {
    var end := TaskEnd(offsets, k, base + |text|);
    && base <= offsets[k] <= end <= base + |text|
    && text[offsets[k] - base..end - base] == lines[k] + if k + 1 == |lines| then [] else [NEWLINE]
  }

  lemma TailSlice<T>(s: seq<T>, a: nat, b: nat)
    requires a <= b < |s|
    ensures s[1..][a..b] == s[a + 1..b + 1]
  {
    assert s[1..] == s[1..|s|];
    SliceOfSlice(s, 1, |s|, a, b);
  }

  lemma HeadSlice<T>(s: seq<T>, b: nat, line: seq<T>, end: seq<T>)
    requires b < |s| && s[1..][0..b] == line + end
    ensures s[0..b + 1] == [s[0]] + line + end
  {
    TailSlice(s, 0, b);
    assert s[0..b + 1] == [s[0]] + s[1..b + 1];
  }

  lemma CutAfterNewline(text: seq<Byte>, base: nat, rest: seq<nat>, lines: seq<seq<Byte>>, k: nat)
    requires |text| > 0 && k < |rest| == |lines| && Cut(text[1..], base + 1, rest, lines, k)
    ensures Cut(text, base, [base] + rest, [[]] + lines, k + 1)
  {
    TailSlice(text, rest[k] - (base + 1), TaskEnd(rest, k, base + |text|) - (base + 1));
  }

  lemma CutAfterChar(text: seq<Byte>, base: nat, os: seq<nat>, lines: seq<seq<Byte>>, k: nat)
    requires |text| > 0 && k < |os| + 1 == |lines| && Cut(text[1..], base + 1, [base + 1] + os, lines, k)
    ensures Cut(text, base, [base] + os, [[text[0]] + lines[0]] + lines[1..], k)
  {
    var rest := [base + 1] + os;
    var from, to := rest[k] - (base + 1), TaskEnd(rest, k, base + |text|) - (base + 1);
    if k == 0 {
      HeadSlice(text, to, lines[0], if |lines| == 1 then [] else [NEWLINE]);
    } else {
      TailSlice(text, from, to);
    }
  }

  lemma {:induction false} OffsetsCount(text: seq<Byte>, base: nat)
    ensures |OffsetsFrom(text, base)| + 1 == |Lines(text)|
  {
    if text != [] {
      OffsetsCount(text[1..], base + 1);
    }
  }

  lemma LinesCons(text: seq<Byte>, base: nat)
    requires text != []
    ensures OffsetsFrom(text, base) == (if text[0] == NEWLINE then [base + 1] else []) + OffsetsFrom(text[1..], base + 1)
    ensures Lines(text) ==
            if text[0] == NEWLINE then [[]] + Lines(text[1..])
            else [[text[0]] + Lines(text[1..])[0]] + Lines(text[1..])[1..]
  {
  }

  /** The offsets cut the text into its lines, each but the last followed by its newline. */
  lemma {:induction false} OffsetsCutLines(text: seq<Byte>, base: nat, k: nat)
    requires k < |Lines(text)|
    ensures |[base] + OffsetsFrom(text, base)| == |Lines(text)|
    ensures Cut(text, base, [base] + OffsetsFrom(text, base), Lines(text), k)
    decreases text, 1
  {
    OffsetsCount(text, base);
    if text == [] {
      assert Cut([], base, [base] + [], [[]], 0);
    } else {
      OffsetsCount(text[1..], base + 1);
      LinesCons(text, base);
      var os, lines := OffsetsFrom(text[1..], base + 1), Lines(text[1..]);
      if text[0] != NEWLINE {
        assert OffsetsFrom(text, base) == os;
        CutChar(text, base, k, os, lines);
      } else {
        assert OffsetsFrom(text, base) == [base + 1] + os;
        CutNewline(text, base, k, os, lines);
      }
    }
  }

  lemma {:induction false} CutChar(text: seq<Byte>, base: nat, k: nat, os: seq<nat>, lines: seq<seq<Byte>>)
    requires text != [] && os == OffsetsFrom(text[1..], base + 1) && lines == Lines(text[1..]) && k < |lines| == |os| + 1
    ensures Cut(text, base, [base] + os, [[text[0]] + lines[0]] + lines[1..], k)
    decreases text, 0
  {
    OffsetsCutLines(text[1..], base + 1, k);
    CutAfterChar(text, base, os, lines, k);
  }

  lemma {:induction false} CutNewline(text: seq<Byte>, base: nat, k: nat, os: seq<nat>, lines: seq<seq<Byte>>)
    requires text != [] && text[0] == NEWLINE
    requires os == OffsetsFrom(text[1..], base + 1) && lines == Lines(text[1..]) && k <= |lines| == |os| + 1
    ensures Cut(text, base, [base] + ([base + 1] + os), [[]] + lines, k)
    decreases text, 0
  {
    if k > 0 {
      OffsetsCutLines(text[1..], base + 1, k - 1);
      CutAfterNewline(text, base, [base + 1] + os, lines, k - 1);
    } else {
      CutNewlineFirst(text, base, os, lines);
    }
  }

  lemma CutNewlineFirst(text: seq<Byte>, base: nat, os: seq<nat>, lines: seq<seq<Byte>>)
    requires |text| > 0 && text[0] == NEWLINE && |os| + 1 == |lines|
    ensures Cut(text, base, [base] + ([base + 1] + os), [[]] + lines, 0)
  {
  }

  // ----- One patota ------------------------------------------------------------------------------------------

  /** The `k`-th crew member's TCB is where the patota's entry says, and says what the table says. */
  ghost predicate TcbOk(p: Patota, line: seq<Byte>, g: Group, k: nat)
    requires k < |g.crew| == |p.tcbs|
  {
    var a := p.tcbs[k].address;
    && p.tcbs[k].tid == g.crew[k].tid
    && PCB_SIZE <= a && a + TCB_SIZE <= SeatAddress(g.started)
    && a + TCB_SIZE <= |line|
    && line[a..a + TCB_SIZE] == TcbBytes(g.crew[k])
    && g.crew[k].next <= |Lines(g.tasks)|
  }

  /** What the entry of a patota records about it. */
  ghost predicate EntryOk(p: Patota, line: seq<Byte>, g: Group) {
    && p.pid == g.pid
    && p.taskSize == |g.tasks| + 1
    && p.taskOffsets == TaskOffsets(g.tasks)
    && p.written == g.started <= g.capacity
    && |p.tcbs| == |g.crew| <= g.started
    && TaskBase(g) + |g.tasks| + 1 <= |line|
    && TaskBase(g) + |g.tasks| + 1 < 0x8000_0000
    && 0 !in g.tasks
  }

  /** The PCB and the task text are in place. */
  ghost predicate TextOk(line: seq<Byte>, g: Group) {
    && TaskBase(g) + |g.tasks| + 1 <= |line|
    && TaskBase(g) < 0x8000_0000
    && line[..4] == WordBytes(g.pid)
    && line[4..8] == WordBytes(TaskBase(g))
    && line[TaskBase(g)..TaskBase(g) + |g.tasks| + 1] == g.tasks + [0]
  }

  ghost predicate CrewOk(p: Patota, line: seq<Byte>, g: Group) {
    && |p.tcbs| == |g.crew|
    && (forall k {:trigger TcbOk(p, line, g, k)} :: 0 <= k < |g.crew| ==> TcbOk(p, line, g, k))
    && (forall a, b :: 0 <= a < b < |p.tcbs| ==> p.tcbs[a].address + TCB_SIZE <= p.tcbs[b].address)
    && DistinctTids(g)
  }

  /** The occupant count of a page is at least the number of members whose TCB touches it, plus one if the PCB does,
      plus one if task text does; it is exactly that when no TCB touches more than two pages, since an expulsion
      takes its member off two pages at most. */
  ghost predicate CountOk(p: Patota, g: Group, j: nat, size: nat)
    requires size > 0 && j < |p.rows|
  {
    && p.rows[j].occupants >= Occupants(p.tcbs, j, size) + Fixed(g, j, size)
    && (size >= TCB_SIZE ==> p.rows[j].occupants == Occupants(p.tcbs, j, size) + Fixed(g, j, size))
  }

  ghost predicate CountsOk(p: Patota, g: Group, size: nat)
    requires size > 0
  {
    forall j {:trigger CountOk(p, g, j, size)} :: 0 <= j < |p.rows| ==> CountOk(p, g, j, size)
  }

  /** Pages given up early have no occupants, and are given up only once somebody has been expelled. */
  ghost predicate ReleasedOk(p: Patota, g: Group, i: nat, released: set<Page>) {
    forall pg :: pg in released && pg.pat == i ==>
      pg.num < |p.rows| && p.rows[pg.num].occupants == 0 && |g.crew| < g.started
  }

  ghost predicate PatotaOk(p: Patota, line: seq<Byte>, g: Group, i: nat, released: set<Page>, size: nat)
    requires size > 0
  {
    && EntryOk(p, line, g)
    && TextOk(line, g)
    && CrewOk(p, line, g)
    && CountsOk(p, g, size)
    && ReleasedOk(p, g, i, released)
  }

  /** A patota whose bytes and occupant counts were left alone is still in order. */
  lemma PatotaKept(p: Patota, p': Patota, line: seq<Byte>, g: Group, i: nat, released: set<Page>, size: nat)
    requires size > 0 && PatotaOk(p, line, g, i, released, size) && SameHead(p, p')
    requires forall j :: 0 <= j < |p.rows| ==> p'.rows[j].occupants == p.rows[j].occupants
    ensures PatotaOk(p', line, g, i, released, size)
  {
    forall k | 0 <= k < |g.crew| ensures TcbOk(p', line, g, k) {
      assert TcbOk(p, line, g, k);
    }
    forall j | 0 <= j < |p'.rows| ensures CountOk(p', g, j, size) {
      assert CountOk(p, g, j, size);
    }
  }

  /** No page that a live member, the PCB or the task text needs has been released: they can all be read. */
  lemma NeededIsLive(c: Control, line: seq<Byte>, g: Group, i: nat, a: nat, p: nat)
    requires p > 0 && i < |c.patotas| && |line| == Base(|c.patotas[i].rows|, p)
    requires PatotaOk(c.patotas[i], line, g, i, c.released, p)
    requires a < |line|
    requires a < PCB_SIZE || TaskBase(g) <= a < TaskBase(g) + |g.tasks| + 1
             || (exists k :: 0 <= k < |g.crew| && c.patotas[i].tcbs[k].address <= a < c.patotas[i].tcbs[k].address + TCB_SIZE)
             || |g.crew| == g.started
    ensures LiveAt(c, i, a, p)
  {
    BlockInRange(a, |c.patotas[i].rows|, p);
    var pg := Page(i, BlockOf(a, p));
    assert CountOk(c.patotas[i], g, BlockOf(a, p), p);
    if pg in c.released {
      if TaskBase(g) <= a < TaskBase(g) + |g.tasks| + 1 {
        OverlapsAt(a, TaskBase(g), |g.tasks| + 1, p);
      } else if a < PCB_SIZE {
        OverlapsAt(a, 0, PCB_SIZE, p);
      } else {
        var k :| 0 <= k < |g.crew| && c.patotas[i].tcbs[k].address <= a < c.patotas[i].tcbs[k].address + TCB_SIZE;
        OverlapsAt(a, c.patotas[i].tcbs[k].address, TCB_SIZE, p);
        OccupiedByMember(c.patotas[i].tcbs, k, BlockOf(a, p), p);
      }
    }
  }

  lemma HeaderReadable(c: Control, line: seq<Byte>, g: Group, i: nat, p: nat)
    requires p > 0 && i < |c.patotas| && |line| == Base(|c.patotas[i].rows|, p)
    requires PatotaOk(c.patotas[i], line, g, i, c.released, p)
    ensures Readable(c, i, 0, PCB_SIZE, p)
  {
    forall a | 0 <= a < PCB_SIZE ensures LiveAt(c, i, a, p) {
      NeededIsLive(c, line, g, i, a, p);
    }
  }

  lemma TextReadable(c: Control, line: seq<Byte>, g: Group, i: nat, p: nat)
    requires p > 0 && i < |c.patotas| && |line| == Base(|c.patotas[i].rows|, p)
    requires PatotaOk(c.patotas[i], line, g, i, c.released, p)
    ensures Readable(c, i, TaskBase(g), TaskBase(g) + |g.tasks| + 1, p)
  {
    forall a | TaskBase(g) <= a < TaskBase(g) + |g.tasks| + 1 ensures LiveAt(c, i, a, p) {
      NeededIsLive(c, line, g, i, a, p);
    }
  }

  lemma TcbReadable(c: Control, line: seq<Byte>, g: Group, i: nat, k: nat, p: nat)
    requires p > 0 && i < |c.patotas| && |line| == Base(|c.patotas[i].rows|, p)
    requires PatotaOk(c.patotas[i], line, g, i, c.released, p) && k < |g.crew|
    ensures var at := c.patotas[i].tcbs[k].address;
      at + TCB_SIZE <= |line| && Readable(c, i, at, at + TCB_SIZE, p)
  {
    var at := c.patotas[i].tcbs[k].address;
    assert TcbOk(c.patotas[i], line, g, k);
    forall a | at <= a < at + TCB_SIZE ensures LiveAt(c, i, a, p) {
      NeededIsLive(c, line, g, i, a, p);
    }
  }

  /** A write among the seats leaves the PCB and the task text alone. */
  lemma TextKept(line: seq<Byte>, g: Group, at: nat, data: seq<Byte>)
    requires TextOk(line, g) && PCB_SIZE <= at && at + |data| <= TaskBase(g)
    ensures TextOk(Splice(line, at, data), g)
  {
    var line' := Splice(line, at, data);
    SpliceApart(line, at, data, 0, 4);
    assert line'[..4] == line'[0..4] && line[..4] == line[0..4];
    SpliceApart(line, at, data, 4, 8);
    SpliceApart(line, at, data, TaskBase(g), TaskBase(g) + |g.tasks| + 1);
  }

  /** Rewriting part of one member's TCB. */
  lemma TcbRewritten(p: Patota, line: seq<Byte>, g: Group, k: nat, off: nat, data: seq<Byte>, m: Member, i: nat, released: set<Page>, size: nat)
    requires size > 0 && PatotaOk(p, line, g, i, released, size) && k < |g.crew|
    requires off + |data| <= TCB_SIZE && Splice(TcbBytes(g.crew[k]), off, data) == TcbBytes(m)
    requires m.tid == g.crew[k].tid && m.next <= |Lines(g.tasks)|
    ensures p.tcbs[k].address + off + |data| <= |line|
    ensures PatotaOk(p, Splice(line, p.tcbs[k].address + off, data), g.(crew := g.crew[k := m]), i, released, size)
  {
    assert TcbOk(p, line, g, k);
    var a := p.tcbs[k].address;
    var line', g' := Splice(line, a + off, data), g.(crew := g.crew[k := m]);
    SeatsBelowText(g);
    TextKept(line, g, a + off, data);
    CrewRewritten(p, line, g, k, off, data, m);
    assert TaskBase(g') == TaskBase(g);
    forall j | 0 <= j < |p.rows| ensures CountOk(p, g', j, size) {
      assert CountOk(p, g, j, size);
    }
  }

  lemma CrewRewritten(p: Patota, line: seq<Byte>, g: Group, k: nat, off: nat, data: seq<Byte>, m: Member)
    requires CrewOk(p, line, g) && k < |g.crew| && TcbOk(p, line, g, k)
    requires off + |data| <= TCB_SIZE && Splice(TcbBytes(g.crew[k]), off, data) == TcbBytes(m)
    requires m.tid == g.crew[k].tid && m.next <= |Lines(g.tasks)|
    ensures CrewOk(p, Splice(line, p.tcbs[k].address + off, data), g.(crew := g.crew[k := m]))
  {
    var a := p.tcbs[k].address;
    var line', g' := Splice(line, a + off, data), g.(crew := g.crew[k := m]);
    forall n | 0 <= n < |g'.crew| ensures TcbOk(p, line', g', n) {
      assert TcbOk(p, line, g, n);
      var b := p.tcbs[n].address;
      if n == k {
        SpliceInside(line, a + off, data, a, a + TCB_SIZE);
      } else {
        SpliceApart(line, a + off, data, b, b + TCB_SIZE);
      }
    }
  }

  lemma SeatsBelowText(g: Group)
    requires g.started <= g.capacity
    ensures SeatAddress(g.started) <= TaskBase(g)
  {
  }

  /** No page under the next seat has been given up. */
  ghost predicate SeatLive(released: set<Page>, i: nat, started: nat, size: nat)
    requires size > 0
  {
    forall pg :: pg in released && pg.pat == i ==> !Overlaps(pg.num, SeatAddress(started), TCB_SIZE, size)
  }

  /** An expulsion leaves the next seat usable exactly when no page that the leaver is taken off and that is under that seat
      has the leaver as its only occupant. */
  lemma SeatStaysIff(c: Control, c': Control, i: nat, at: nat, started: nat, size: nat)
    requires size > 0 && PagesLeft(c, c', i, BlockOf(at, size), LastLeft(at, size) + 1) && SeatLive(c.released, i, started, size)
    ensures SeatLive(c'.released, i, started, size) <==> SeatShared(c, i, at, started, size)
  {
    if !SeatShared(c, i, at, started, size) {
      var pg :| AloneUnder(c, pg, i, at, size) && Overlaps(pg.num, SeatAddress(started), TCB_SIZE, size);
      assert pg in c'.released;
    }
    if SeatShared(c, i, at, started, size) {
      forall pg | pg in c'.released && pg.pat == i ensures !Overlaps(pg.num, SeatAddress(started), TCB_SIZE, size) {
        if pg !in c.released {
          assert IsPage(c.patotas, pg) by {
            assert SameHead(c.patotas[i], c'.patotas[i]);
          }
          assert AloneUnder(c, pg, i, at, size);
        }
      }
    }
  }

  /** The page loses its only occupant with the TCB at `at`. */
  predicate AloneUnder(c: Control, pg: Page, i: nat, at: nat, size: nat)
    requires size > 0
  {
    IsPage(c.patotas, pg) && pg.pat == i && LeftBehind(pg.num, at, size) && RowAt(c.patotas, pg).occupants == 1
  }

  ghost predicate SeatShared(c: Control, i: nat, at: nat, started: nat, size: nat)
    requires size > 0
  {
    forall pg {:trigger AloneUnder(c, pg, i, at, size)} ::
      AloneUnder(c, pg, i, at, size) ==> !Overlaps(pg.num, SeatAddress(started), TCB_SIZE, size)
  }

  /** A member takes the next seat. */
  lemma MemberStarted(p: Patota, p': Patota, line: seq<Byte>, g: Group, m: Member, i: nat, released: set<Page>, size: nat)
    requires size > 0 && PatotaOk(p, line, g, i, released, size)
    requires g.started < g.capacity && m.next == 0 && SeatLive(released, i, g.started, size)
    requires forall k :: 0 <= k < |g.crew| ==> g.crew[k].tid != m.tid
    requires p' == p.(written := p.written + 1, tcbs := p.tcbs + [TcbAddress(m.tid, SeatAddress(g.started))], rows := p'.rows)
    requires |p'.rows| == |p.rows|
    requires forall j :: 0 <= j < |p.rows| ==>
               p'.rows[j].occupants == p.rows[j].occupants + if Overlaps(j, SeatAddress(g.started), TCB_SIZE, size) then 1 else 0
    ensures SeatAddress(g.started) + TCB_SIZE <= |line|
    ensures PatotaOk(p', Splice(line, SeatAddress(g.started), TcbBytes(m)),
                     g.(started := g.started + 1, crew := g.crew + [m]), i, released, size)
  {
    hide Lines, OffsetsFrom, Base, Occupants, Overlaps;
    var at, g' := SeatAddress(g.started), g.(started := g.started + 1, crew := g.crew + [m]);
    SeatsBelowText(g');
    var line' := Splice(line, at, TcbBytes(m));
    TextKept(line, g, at, TcbBytes(m));
    SpliceInside(line, at, TcbBytes(m), at, at + TCB_SIZE);
    assert Splice(line[at..at + TCB_SIZE], 0, TcbBytes(m)) == TcbBytes(m);
    forall n | 0 <= n < |g'.crew| ensures TcbOk(p', line', g', n) {
      if n < |g.crew| {
        assert TcbOk(p, line, g, n);
        SpliceApart(line, at, TcbBytes(m), p.tcbs[n].address, p.tcbs[n].address + TCB_SIZE);
      }
    }
    forall a, b | 0 <= a < b < |p'.tcbs| ensures p'.tcbs[a].address + TCB_SIZE <= p'.tcbs[b].address {
      assert TcbOk(p, line, g, a);
    }
    forall j | 0 <= j < |p'.rows| ensures CountOk(p', g', j, size) {
      assert CountOk(p, g, j, size);
      OccupantsSnoc(p.tcbs, TcbAddress(m.tid, at), j, size);
    }
  }

  /** A member leaves; the pages released with it have no occupants left. */
  lemma MemberExpelled(p: Patota, p': Patota, line: seq<Byte>, g: Group, k: nat, i: nat, released: set<Page>, released': set<Page>, size: nat)
    requires size > 0 && PatotaOk(p, line, g, i, released, size) && k < |g.crew|
    requires p' == p.(tcbs := p.tcbs[..k] + p.tcbs[k + 1..], rows := p'.rows) && |p'.rows| == |p.rows|
    requires forall j :: 0 <= j < |p.rows| ==>
               p'.rows[j].occupants == p.rows[j].occupants - if LeftBehind(j, p.tcbs[k].address, size) then 1 else 0
    requires forall pg :: pg in released' && pg.pat == i ==> pg.num < |p.rows| && p'.rows[pg.num].occupants == 0
    ensures PatotaOk(p', line, g.(crew := g.crew[..k] + g.crew[k + 1..]), i, released', size)
  {
    var g' := g.(crew := g.crew[..k] + g.crew[k + 1..]);
    forall n | 0 <= n < |g'.crew| ensures TcbOk(p', line, g', n) {
      assert TcbOk(p, line, g, if n < k then n else n + 1);
    }
    forall j | 0 <= j < |p'.rows| ensures CountOk(p', g', j, size) {
      assert CountOk(p, g, j, size);
      OccupantsRemove(p.tcbs, k, j, size);
      LeftBehindOverlaps(j, p.tcbs[k].address, size);
    }
  }

  /** A patota as its admission leaves it. */
  lemma PatotaAdmitted(p: Patota, line: seq<Byte>, g: Group, i: nat, released: set<Page>, size: nat)
    requires size > 0 && EntryOk(p, line, g) && TextOk(line, g) && g.crew == [] && p.tcbs == []
    requires forall j :: 0 <= j < |p.rows| ==> p.rows[j].occupants == Fixed(g, j, size)
    requires forall pg :: pg in released ==> pg.pat != i
    ensures PatotaOk(p, line, g, i, released, size)
  {
    forall j | 0 <= j < |p.rows| ensures CountOk(p, g, j, size) {
      assert Occupants(p.tcbs, j, size) == 0;
    }
  }

  // ----- All patotas -------------------------------------------------------------------------------------------

  ghost predicate TableOk(c: Control, flat: seq<seq<Byte>>, t: Table, size: nat)
    requires size > 0
  {
    && |flat| == |c.patotas| == |t|
    && forall i {:trigger PatotaOk(c.patotas[i], flat[i], t[i], i, c.released, size)} :: 0 <= i < |t| ==>
         PatotaOk(c.patotas[i], flat[i], t[i], i, c.released, size)
  }

  lemma OthersKept(c: Control, c': Control, flat: seq<seq<Byte>>, flat': seq<seq<Byte>>, t: Table, i: nat, from: int, to: int, extra: int, size: nat)
    requires size > 0 && TableOk(c, flat, t, size) && Follows(c, c', i, from, to, extra)
    requires |flat'| == |flat| && forall k :: 0 <= k < |flat| && k != i ==> flat'[k] == flat[k]
    ensures forall k {:trigger PatotaOk(c'.patotas[k], flat'[k], t[k], k, c'.released, size)} :: 0 <= k < |t| && k != i ==>
              PatotaOk(c'.patotas[k], flat'[k], t[k], k, c'.released, size)
  {
    forall k | 0 <= k < |t| && k != i ensures PatotaOk(c'.patotas[k], flat'[k], t[k], k, c'.released, size) {
      assert PatotaOk(c.patotas[k], flat[k], t[k], k, c.released, size);
      RowsOf(c, c', k, i, from, to, extra);
      PatotaKept(c.patotas[k], c'.patotas[k], flat[k], t[k], k, c.released, size);
    }
  }

  /** The occupant counts of one patota's rows. */
  lemma RowsOf(c: Control, c': Control, k: nat, i: nat, from: int, to: int, extra: int)
    requires Follows(c, c', i, from, to, extra) && k < |c.patotas|
    ensures SameHead(c.patotas[k], c'.patotas[k])
    ensures forall j :: 0 <= j < |c.patotas[k].rows| ==>
              c'.patotas[k].rows[j].occupants ==
              c.patotas[k].rows[j].occupants + if k == i && from < j <= to then extra else 0
  {
    assert SameHead(c.patotas[k], c'.patotas[k]);
    forall j | 0 <= j < |c.patotas[k].rows|
      ensures c'.patotas[k].rows[j].occupants ==
              c.patotas[k].rows[j].occupants + if k == i && from < j <= to then extra else 0
    {
      var q := Page(k, j);
      assert IsPage(c.patotas, q);
      assert RowAt(c.patotas, q) == c.patotas[k].rows[j] && RowAt(c'.patotas, q) == c'.patotas[k].rows[j];
    }
  }

  /** Accesses that only move pages leave the table in order. */
  lemma TableKept(c: Control, c': Control, flat: seq<seq<Byte>>, t: Table, size: nat)
    requires size > 0 && TableOk(c, flat, t, size) && Quiet(c, c')
    ensures TableOk(c', flat, t, size)
  {
    forall k | 0 <= k < |t| ensures PatotaOk(c'.patotas[k], flat[k], t[k], k, c'.released, size) {
      assert PatotaOk(c.patotas[k], flat[k], t[k], k, c.released, size);
      RowsOf(c, c', k, 0, 0, 0, 0);
      PatotaKept(c.patotas[k], c'.patotas[k], flat[k], t[k], k, c.released, size);
    }
  }

  /** Rewriting part of one member's TCB, with whatever page faults that took. */
  lemma MemberRewritten(c: Control, c': Control, flat: seq<seq<Byte>>, flat': seq<seq<Byte>>, t: Table,
                        i: nat, k: nat, off: nat, data: seq<Byte>, m: Member, size: nat)
    requires size > 0 && TableOk(c, flat, t, size) && Quiet(c, c') && i < |t| && k < |t[i].crew| == |c.patotas[i].tcbs|
    requires Wrote(flat, flat', i, c.patotas[i].tcbs[k].address + off, data)
    requires off + |data| <= TCB_SIZE && Splice(TcbBytes(t[i].crew[k]), off, data) == TcbBytes(m)
    requires m.tid == t[i].crew[k].tid && m.next <= |Lines(t[i].tasks)|
    ensures TableOk(c', flat', SetMember(t, i, k, m), size)
  {
    TableKept(c, c', flat, t, size);
    var t' := SetMember(t, i, k, m);
    forall n | 0 <= n < |t'| ensures PatotaOk(c'.patotas[n], flat'[n], t'[n], n, c'.released, size) {
      assert PatotaOk(c'.patotas[n], flat[n], t[n], n, c'.released, size);
      if n == i {
        RowsOf(c, c', i, 0, 0, 0, 0);
        TcbRewritten(c'.patotas[i], flat[i], t[i], k, off, data, m, i, c'.released, size);
      }
    }
  }

  function PatotaPids(ps: seq<Patota>): (r: seq<Word>)
    ensures |r| == |ps| && forall i :: 0 <= i < |ps| ==> r[i] == ps[i].pid
  {
    seq(|ps|, i requires 0 <= i < |ps| => ps[i].pid)
  }

  lemma PidsAgree(c: Control, flat: seq<seq<Byte>>, t: Table, size: nat)
    requires size > 0 && TableOk(c, flat, t, size)
    ensures PatotaPids(c.patotas) == Pids(t)
  {
    forall i | 0 <= i < |t| ensures c.patotas[i].pid == t[i].pid {
      assert PatotaOk(c.patotas[i], flat[i], t[i], i, c.released, size);
    }
  }

  function FindTcb(tcbs: seq<TcbAddress>, tid: Word): (k: nat)
    ensures k <= |tcbs|
    ensures forall m :: 0 <= m < k ==> tcbs[m].tid != tid
    ensures k < |tcbs| ==> tcbs[k].tid == tid
  {
    if tcbs == [] || tcbs[0].tid == tid then 0 else 1 + FindTcb(tcbs[1..], tid)
  }

  lemma TidsAgree(p: Patota, line: seq<Byte>, g: Group, tid: Word)
    requires CrewOk(p, line, g)
    ensures FindTcb(p.tcbs, tid) == FindTid(g.crew, tid)
  {
    forall k | 0 <= k < |g.crew| ensures p.tcbs[k].tid == g.crew[k].tid {
      assert TcbOk(p, line, g, k);
    }
    assert FindTcb(p.tcbs, tid) == FindTid(g.crew, tid);
  }

  lemma LastTaskText(tasks: seq<Byte>, from: nat, line: seq<Byte>)
    requires from <= |tasks| && tasks[from..|tasks|] == line && 0 !in line
    ensures CString((tasks + [0])[from..|tasks| + 1] + [0]) == line
  {
    assert (tasks + [0])[from..|tasks| + 1] == line + [0];
    CStringOf(line, [0]);
  }

  lemma InnerTaskText(tasks: seq<Byte>, from: nat, to: nat, line: seq<Byte>)
    requires from <= to <= |tasks| && tasks[from..to] == line + [NEWLINE] && 0 !in line
    ensures CString((tasks + [0])[from..to] + [0]) == line + [NEWLINE]
  {
    assert (tasks + [0])[from..to] == line + [NEWLINE];
    CStringOf(line + [NEWLINE], []);
    assert line + [NEWLINE] + [0] + [] == line + [NEWLINE] + [0];
  }

  /** What lies in memory between the offset of task `n` and its end, followed by the terminator that the
      copy gets: as a C string, line `n`, with its newline unless it is the last. */
  lemma TaskBytes(line: seq<Byte>, g: Group, n: nat)
    requires TextOk(line, g) && 0 !in g.tasks && n < |Lines(g.tasks)|
    ensures |TaskOffsets(g.tasks)| == |Lines(g.tasks)|
    ensures var from, to := TaskOffsets(g.tasks)[n], TaskEnd(TaskOffsets(g.tasks), n, |g.tasks| + 1);
      && from <= to <= |g.tasks| + 1 && from <= |g.tasks|
      && CString(line[TaskBase(g) + from..TaskBase(g) + to] + [0])
         == Lines(g.tasks)[n] + if n + 1 == |Lines(g.tasks)| then [] else [NEWLINE]
  {
    hide Lines, OffsetsFrom, CString;
    var offsets, lines := TaskOffsets(g.tasks), Lines(g.tasks);
    OffsetsCutLines(g.tasks, 0, n);
    assert Cut(g.tasks, 0, offsets, lines, n);
    var from, to := offsets[n], TaskEnd(offsets, n, |g.tasks| + 1);
    SliceOfSlice(line, TaskBase(g), TaskBase(g) + |g.tasks| + 1, from, to);
    LinesClean(g.tasks, n);
    if n + 1 < |lines| {
      InnerTaskText(g.tasks, from, to, lines[n]);
    } else {
      assert lines[n] + [] == lines[n];
      LastTaskText(g.tasks, from, lines[n]);
    }
  }

  lemma ChompLine(line: seq<Byte>)
    requires NEWLINE !in line
    ensures Chomp(line) == line && Chomp(line + [NEWLINE]) == line
  {
    assert (line + [NEWLINE])[..|line|] == line;
  }

  lemma TaskText(line: seq<Byte>, g: Group, n: nat)
    requires TextOk(line, g) && 0 !in g.tasks && n < |Lines(g.tasks)|
    ensures |TaskOffsets(g.tasks)| == |Lines(g.tasks)|
    ensures var from, to := TaskOffsets(g.tasks)[n], TaskEnd(TaskOffsets(g.tasks), n, |g.tasks| + 1);
      && from <= to <= |g.tasks| + 1 && from <= |g.tasks|
      && Chomp(CString(line[TaskBase(g) + from..TaskBase(g) + to] + [0])) == Lines(g.tasks)[n]
  {
    TaskBytes(line, g, n);
    LinesClean(g.tasks, n);
    ChompLine(Lines(g.tasks)[n]);
    assert Lines(g.tasks)[n] + [] == Lines(g.tasks)[n];
  }

  /** Everything needed to fetch task `n` of a patota in order. */
  lemma TaskStretch(c: Control, line: seq<Byte>, g: Group, i: nat, n: nat, p: nat)
    requires p > 0 && i < |c.patotas| && |line| == Base(|c.patotas[i].rows|, p)
    requires PatotaOk(c.patotas[i], line, g, i, c.released, p) && n <= |Lines(g.tasks)|
    ensures |c.patotas[i].taskOffsets| == |Lines(g.tasks)|
    ensures Readable(c, i, TaskBase(g), TaskBase(g) + |g.tasks| + 1, p)
    ensures n < |Lines(g.tasks)| ==>
              var from, to := c.patotas[i].taskOffsets[n], TaskEnd(c.patotas[i].taskOffsets, n, c.patotas[i].taskSize);
              && from <= to <= |g.tasks| + 1 && from <= |g.tasks| && TaskBase(g) + to <= |line|
              && Chomp(CString(line[TaskBase(g) + from..TaskBase(g) + to] + [0])) == Lines(g.tasks)[n]
  {
    hide Readable, CString, Chomp, Lines;
    OffsetsCount(g.tasks, 0);
    TextReadable(c, line, g, i, p);
    if n < |Lines(g.tasks)| {
      TaskText(line, g, n);
    }
  }
}
