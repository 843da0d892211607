/** How pages come and go: the rows of a newly admitted patota, the early release of a page that no
    member occupies any more, and the release of everything when the last member has been expelled. */
module PageLifecycle {
  import opened Memory
  import opened CrewTable
  import opened PageTables

  // ----- Admission -----------------------------------------------------------------------------------

  /** `used` with its first `k` free frames taken. */
  function Taken(used: seq<bool>, k: nat): (r: seq<bool>)
    ensures |r| == |used|
    ensures forall f :: 0 <= f < |used| ==> (r[f] <==> used[f] || FreeCount(used[..f]) < k)
  {
    seq(|used|, f requires 0 <= f < |used| => used[f] || FreeCount(used[..f]) < k)
  }

  /** The next frame taken is the free one with `k` free ones before it. */
  lemma {:induction false} TakenNext(used: seq<bool>, k: nat)
    requires k < FreeCount(used)
    ensures var f := FirstFree(Taken(used, k));
      && f < |used| && !used[f] && FreeCount(used[..f]) == k
      && Taken(used, k)[f := true] == Taken(used, k + 1)
  {
    var f := RankedFree(used, k);
    var t := Taken(used, k);
    assert forall g :: 0 <= g < f ==> t[g];
    assert !t[f];
    assert t[FirstFree(t)] || FirstFree(t) <= f;
  }

  /** The free frame with `k` free ones before it. */
  lemma {:induction false} RankedFree(used: seq<bool>, k: nat) returns (f: nat)
    requires k < FreeCount(used)
    ensures f < |used| && !used[f] && FreeCount(used[..f]) == k
    ensures forall g :: 0 <= g < f && !used[g] ==> FreeCount(used[..g]) < k
    ensures forall g :: f < g < |used| && !used[g] ==> FreeCount(used[..g]) > k
  {
    var rest := used[1..];
    forall g: nat | 0 < g <= |used|
      ensures FreeCount(used[..g]) == FreeCount(rest[..g - 1]) + if used[0] then 0 else 1
    {
      assert used[..g][1..] == rest[..g - 1];
    }
    if !used[0] && k == 0 {
      f := 0;
    } else {
      f := RankedFree(rest, if used[0] then k else k - 1);
      f := f + 1;
    }
  }

  lemma TakenNone(used: seq<bool>)
    ensures Taken(used, 0) == used
  {
  }

  /** The first free RAM frame if there is one, else the first free swap frame. */
  function NewRow(ramUsed: seq<bool>, swapUsed: seq<bool>, counter: nat): Row {
    if FirstFree(ramUsed) < |ramUsed| then Row(FirstFree(ramUsed), -1, counter, 1, 0)
    else Row(-1, FirstFree(swapUsed), -1, -1, 0)
  }

  /** The patota at the end of the list gets one more row. */
  ghost function AddRow(c: Control): Control
    requires |c.patotas| > 0 && |c.ramOwner| == |c.ramUsed| && |c.swapOwner| == |c.swapUsed|
    requires FreeCount(c.ramUsed) + FreeCount(c.swapUsed) > 0
  {
    var last := |c.patotas| - 1;
    var pg := Page(last, |c.patotas[last].rows|);
    var r := NewRow(c.ramUsed, c.swapUsed, c.counter);
    var c1 := c.(patotas := c.patotas[last := c.patotas[last].(rows := c.patotas[last].rows + [r])]);
    if r.ramFrame != -1 then
      c1.(ramUsed := c.ramUsed[r.ramFrame := true], ramOwner := c.ramOwner[r.ramFrame := Of(pg)])
    else
      c1.(swapUsed := c.swapUsed[r.swapFrame := true], swapOwner := c.swapOwner[r.swapFrame := Of(pg)])
  }

  lemma AddRowPages(c: Control, q: Page)
    requires |c.patotas| > 0 && |c.ramOwner| == |c.ramUsed| && |c.swapOwner| == |c.swapUsed|
    requires FreeCount(c.ramUsed) + FreeCount(c.swapUsed) > 0
    ensures var pg := Page(|c.patotas| - 1, |c.patotas[|c.patotas| - 1].rows|);
      && (IsPage(AddRow(c).patotas, q) <==> IsPage(c.patotas, q) || q == pg)
      && (IsPage(c.patotas, q) ==> q != pg && RowAt(AddRow(c).patotas, q) == RowAt(c.patotas, q))
      && (q == pg ==> RowAt(AddRow(c).patotas, q) == NewRow(c.ramUsed, c.swapUsed, c.counter))
  {
  }

  lemma AddRowFrames(c: Control)
    requires FramesOk(c) && |c.patotas| > 0
    requires FreeCount(c.ramUsed) + FreeCount(c.swapUsed) > 0
    ensures FramesOk(AddRow(c))
    ensures FreeCount(AddRow(c).ramUsed) + FreeCount(AddRow(c).swapUsed) == FreeCount(c.ramUsed) + FreeCount(c.swapUsed) - 1
  {
    var c' := AddRow(c);
    var last := |c.patotas| - 1;
    var pg := Page(last, |c.patotas[last].rows|);
    var r := NewRow(c.ramUsed, c.swapUsed, c.counter);
    assert pg !in c.released;
    if r.ramFrame != -1 {
      assert OwnedRam(c, r.ramFrame);
      FreeCountUpdate(c.ramUsed, r.ramFrame, true);
    } else {
      assert OwnedSwap(c, r.swapFrame);
      FreeCountUpdate(c.swapUsed, r.swapFrame, true);
    }
    forall g | 0 <= g < |c'.ramOwner| ensures OwnedRam(c', g) {
      assert OwnedRam(c, g);
      if c.ramOwner[g].Of? {
        AddRowPages(c, c.ramOwner[g].page);
      }
      AddRowPages(c, pg);
    }
    forall s | 0 <= s < |c'.swapOwner| ensures OwnedSwap(c', s) {
      assert OwnedSwap(c, s);
      if c.swapOwner[s].Of? {
        AddRowPages(c, c.swapOwner[s].page);
      }
      AddRowPages(c, pg);
    }
    forall q | IsPage(c'.patotas, q) ensures Placed(c', q) {
      AddRowPages(c, q);
      if q != pg {
        assert Placed(c, q);
      }
    }
    forall q | q in c'.released ensures IsPage(c'.patotas, q) {
      AddRowPages(c, q);
    }
  }

  /** What the new page holds at first: whatever its frame held. */
  ghost function NewPageBytes(c: Control, ram: seq<Byte>, swap: seq<Byte>, p: nat): seq<Byte> {
    Location(NewRow(c.ramUsed, c.swapUsed, c.counter), ram, swap, p)
  }

  lemma BlockOfConcat(s: seq<Byte>, t: seq<Byte>, k: nat, count: nat, p: nat)
    requires p > 0 && |s| == Base(count, p) && |t| == p && k <= count
    ensures Block(s + t, k, p) == if k == count then t else Block(s, k, p)
  {
    if k < count {
      BlockFits(k, count, p);
      assert (s + t)[Base(k, p)..Base(k, p) + p] == s[Base(k, p)..Base(k, p) + p];
    } else {
      assert (s + t)[Base(k, p)..Base(k, p) + p] == t;
    }
  }

  lemma AddRowContent(c: Control, flat: seq<seq<Byte>>, ram: seq<Byte>, swap: seq<Byte>, p: nat)
    requires SizesOk(c, ram, swap, p) && FramesOk(c) && ContentOk(c, flat, ram, swap, p) && |c.patotas| > 0
    requires FreeCount(c.ramUsed) + FreeCount(c.swapUsed) > 0
    ensures |NewPageBytes(c, ram, swap, p)| == p
    ensures ContentOk(AddRow(c), flat[|flat| - 1 := flat[|flat| - 1] + NewPageBytes(c, ram, swap, p)], ram, swap, p)
  {
    var c' := AddRow(c);
    var last := |c.patotas| - 1;
    var count := |c.patotas[last].rows|;
    var r := NewRow(c.ramUsed, c.swapUsed, c.counter);
    if r.ramFrame != -1 {
      BlockFits(r.ramFrame, |c.ramUsed|, p);
    } else {
      BlockFits(r.swapFrame, |c.swapUsed|, p);
    }
    var page := NewPageBytes(c, ram, swap, p);
    assert |page| == p;
    var flat' := flat[last := flat[last] + page];
    forall i | 0 <= i < |flat'| ensures |flat'[i]| == Base(|c'.patotas[i].rows|, p) {
    }
    forall q | IsPage(c'.patotas, q) && q !in c'.released ensures Stored(c', q, flat', ram, swap, p) {
      AddRowPages(c, q);
      if q.pat == last {
        BlockOfConcat(flat[last], page, q.num, count, p);
      }
      if q != Page(last, count) {
        assert Stored(c, q, flat, ram, swap, p);
      }
    }
  }

  lemma AddRowStamps(c: Control)
    requires FramesOk(c) && StampsOk(c) && |c.patotas| > 0 && c.admitted == c.counter
    requires FreeCount(c.ramUsed) + FreeCount(c.swapUsed) > 0
    ensures StampsOk(AddRow(c))
  {
    var c' := AddRow(c);
    forall q | Resident(c'.patotas, q) ensures Stamped(c', q) {
      AddRowPages(c, q);
      if IsPage(c.patotas, q) {
        assert Stamped(c, q);
      }
    }
  }

  /** Admitting one more page keeps the paged memory sound. */
  lemma AddRowOk(c: Control, flat: seq<seq<Byte>>, ram: seq<Byte>, swap: seq<Byte>, p: nat)
    requires MemoryOk(c, flat, ram, swap, p) && |c.patotas| > 0 && c.admitted == c.counter
    requires FreeCount(c.ramUsed) + FreeCount(c.swapUsed) > 0
    ensures |NewPageBytes(c, ram, swap, p)| == p
    ensures MemoryOk(AddRow(c), flat[|flat| - 1 := flat[|flat| - 1] + NewPageBytes(c, ram, swap, p)], ram, swap, p)
    ensures FreeCount(AddRow(c).ramUsed) + FreeCount(AddRow(c).swapUsed) == FreeCount(c.ramUsed) + FreeCount(c.swapUsed) - 1
  {
    AddRowFrames(c);
    AddRowContent(c, flat, ram, swap, p);
    AddRowStamps(c);
  }

  /** A patota without pages enters the list. */
  ghost function AddEmpty(c: Control, p: Patota): Control {
    c.(patotas := c.patotas + [p], admitted := c.counter)
  }

  lemma AddEmptyOk(c: Control, p: Patota, flat: seq<seq<Byte>>, ram: seq<Byte>, swap: seq<Byte>, size: nat)
    requires MemoryOk(c, flat, ram, swap, size) && p.rows == []
    requires forall i :: 0 <= i < |c.patotas| ==> c.patotas[i].pid != p.pid
    ensures MemoryOk(AddEmpty(c, p), flat + [[]], ram, swap, size)
  {
    var c' := AddEmpty(c, p);
    forall q ensures IsPage(c'.patotas, q) <==> IsPage(c.patotas, q) {
    }
    forall g | 0 <= g < |c'.ramOwner| ensures OwnedRam(c', g) {
      assert OwnedRam(c, g);
    }
    forall s | 0 <= s < |c'.swapOwner| ensures OwnedSwap(c', s) {
      assert OwnedSwap(c, s);
    }
    forall q | IsPage(c'.patotas, q) ensures Placed(c', q) {
      assert Placed(c, q);
    }
    forall q | Resident(c'.patotas, q) ensures Stamped(c', q) {
      assert Stamped(c, q);
    }
    forall q | IsPage(c'.patotas, q) && q !in c'.released ensures Stored(c', q, flat + [[]], ram, swap, size) {
      assert Stored(c, q, flat, ram, swap, size);
    }
  }

  /** Where the page number `j` of a new patota goes: to the free RAM frame with `j` free ones before it or, when there are
      not so many, to a free swap frame in the same way. */
  ghost predicate FirstPlaced(row: Row, ramUsed: seq<bool>, swapUsed: seq<bool>, counter: nat, j: nat) {
    if j < FreeCount(ramUsed) then
      && 0 <= row.ramFrame < |ramUsed| && !ramUsed[row.ramFrame] && FreeCount(ramUsed[..row.ramFrame]) == j
      && row == Row(row.ramFrame, -1, counter, 1, 0)
    else
      && 0 <= row.swapFrame < |swapUsed| && !swapUsed[row.swapFrame]
      && FreeCount(swapUsed[..row.swapFrame]) == j - FreeCount(ramUsed)
      && row == Row(-1, row.swapFrame, -1, -1, 0)
  }

  ghost predicate AllPlaced(rows: seq<Row>, ramUsed: seq<bool>, swapUsed: seq<bool>, counter: nat) {
    forall j {:trigger FirstPlaced(rows[j], ramUsed, swapUsed, counter, j)} :: 0 <= j < |rows| ==>
      FirstPlaced(rows[j], ramUsed, swapUsed, counter, j)
  }

  /** What `k` pages of a new patota have taken of RAM and of swap. */
  ghost predicate TakenBoth(ramUsed: seq<bool>, swapUsed: seq<bool>, k: nat, ramUsed': seq<bool>, swapUsed': seq<bool>) {
    && ramUsed' == Taken(ramUsed, k)
    && swapUsed' == Taken(swapUsed, if k < FreeCount(ramUsed) then 0 else k - FreeCount(ramUsed))
  }

  lemma NoneTaken(ramUsed: seq<bool>, swapUsed: seq<bool>)
    ensures TakenBoth(ramUsed, swapUsed, 0, ramUsed, swapUsed)
  {
    TakenNone(ramUsed);
    TakenNone(swapUsed);
  }

  lemma TakenAll(used: seq<bool>, k: nat)
    requires k >= FreeCount(used)
    ensures FreeCount(Taken(used, k)) == 0 && Taken(used, k + 1) == Taken(used, k)
  {
    forall f | 0 <= f < |used| && !used[f] ensures FreeCount(used[..f]) < FreeCount(used) {
      FreePrefix(used, f);
    }
    assert FirstFree(Taken(used, k)) == |used|;
  }

  lemma {:induction false} FreePrefix(used: seq<bool>, f: nat)
    requires f < |used| && !used[f]
    ensures FreeCount(used[..f]) < FreeCount(used)
  {
    if f > 0 {
      assert used[..f][1..] == used[1..][..f - 1];
      FreePrefix(used[1..], f - 1);
    }
  }

  /** The next page takes its place. */
  lemma NextPlaced(ramUsed: seq<bool>, swapUsed: seq<bool>, k: nat, ramUsed': seq<bool>, swapUsed': seq<bool>, counter: nat)
    requires TakenBoth(ramUsed, swapUsed, k, ramUsed', swapUsed') && k < FreeCount(ramUsed) + FreeCount(swapUsed)
    ensures var row := NewRow(ramUsed', swapUsed', counter);
      && FirstPlaced(row, ramUsed, swapUsed, counter, k)
      && row.ramFrame < |ramUsed'| && row.swapFrame < |swapUsed'|
      && (row.ramFrame != -1 ==>
            row.ramFrame >= 0 && TakenBoth(ramUsed, swapUsed, k + 1, ramUsed'[row.ramFrame := true], swapUsed'))
      && (row.ramFrame == -1 ==>
            row.swapFrame >= 0 && TakenBoth(ramUsed, swapUsed, k + 1, ramUsed', swapUsed'[row.swapFrame := true]))
  {
    if k < FreeCount(ramUsed) {
      TakenNext(ramUsed, k);
    } else {
      TakenAll(ramUsed, k);
      TakenNext(swapUsed, k - FreeCount(ramUsed));
    }
    TakenNone(swapUsed);
  }

  /** Midway through an admission: the patota `p` has received the rows `rows` so far. */
  ghost predicate Admitting(c0: Control, c: Control, p: Patota, rows: seq<Row>) {
    && c == c0.(admitted := c0.counter, patotas := c0.patotas + [p.(rows := rows)],
                ramUsed := c.ramUsed, ramOwner := c.ramOwner, swapUsed := c.swapUsed, swapOwner := c.swapOwner)
    && |c.ramUsed| == |c0.ramUsed| && |c.swapUsed| == |c0.swapUsed|
  }

  lemma AdmitStep(c0: Control, c: Control, p: Patota, rows: seq<Row>,
                  flat: seq<seq<Byte>>, line: seq<Byte>, ram: seq<Byte>, swap: seq<Byte>, size: nat)
    requires Admitting(c0, c, p, rows) && MemoryOk(c, flat + [line], ram, swap, size)
    requires FreeCount(c.ramUsed) + FreeCount(c.swapUsed) > 0
    ensures |c.ramOwner| == |c.ramUsed| && |c.swapOwner| == |c.swapUsed|
    ensures Admitting(c0, AddRow(c), p, rows + [NewRow(c.ramUsed, c.swapUsed, c.counter)])
    ensures MemoryOk(AddRow(c), flat + [line + NewPageBytes(c, ram, swap, size)], ram, swap, size)
    ensures FreeCount(AddRow(c).ramUsed) + FreeCount(AddRow(c).swapUsed) == FreeCount(c.ramUsed) + FreeCount(c.swapUsed) - 1
  {
    AddRowOk(c, flat + [line], ram, swap, size);
    assert (flat + [line])[|flat| := line + NewPageBytes(c, ram, swap, size)]
        == flat + [line + NewPageBytes(c, ram, swap, size)];
    assert AddRow(c).patotas == c0.patotas + [p.(rows := rows + [NewRow(c.ramUsed, c.swapUsed, c.counter)])];
  }

  /** Fields of patotas other than their rows and pid do not matter to the memory. */
  lemma SameRowsOk(c: Control, ps: seq<Patota>, flat: seq<seq<Byte>>, ram: seq<Byte>, swap: seq<Byte>, p: nat)
    requires MemoryOk(c, flat, ram, swap, p) && |ps| == |c.patotas|
    requires forall i :: 0 <= i < |ps| ==> ps[i].pid == c.patotas[i].pid && ps[i].rows == c.patotas[i].rows
    ensures MemoryOk(c.(patotas := ps), flat, ram, swap, p)
  {
    var c' := c.(patotas := ps);
    forall q ensures IsPage(c'.patotas, q) <==> IsPage(c.patotas, q) {
    }
    forall g | 0 <= g < |c'.ramOwner| ensures OwnedRam(c', g) {
      assert OwnedRam(c, g);
    }
    forall s | 0 <= s < |c'.swapOwner| ensures OwnedSwap(c', s) {
      assert OwnedSwap(c, s);
    }
    forall q | IsPage(c'.patotas, q) ensures Placed(c', q) {
      assert Placed(c, q);
    }
    forall q | Resident(c'.patotas, q) ensures Stamped(c', q) {
      assert Stamped(c, q);
    }
    SameLocations(c, c', flat, ram, swap, p);
  }

  // ----- Early release -----------------------------------------------------------------------------------

  /** A member leaves the page; with the last occupant gone, the page gives up its live location. A page
      released from RAM keeps naming its old swap frame. */
  ghost function LeavePage(c: Control, pg: Page): Control
    requires IsPage(c.patotas, pg) && Placed(c, pg) && pg !in c.released
    requires |c.ramOwner| == |c.ramUsed| && |c.swapOwner| == |c.swapUsed|
  {
    var r := RowAt(c.patotas, pg).(occupants := RowAt(c.patotas, pg).occupants - 1);
    if r.occupants != 0 then c.(patotas := SetRow(c.patotas, pg, r))
    else if r.ramFrame == -1 then
      c.(patotas := SetRow(c.patotas, pg, r.(swapFrame := -1)),
         swapUsed := c.swapUsed[r.swapFrame := false], swapOwner := c.swapOwner[r.swapFrame := Free],
         released := c.released + {pg})
    else
      c.(patotas := SetRow(c.patotas, pg, r.(ramFrame := -1)),
         ramUsed := c.ramUsed[r.ramFrame := false], ramOwner := c.ramOwner[r.ramFrame := Free],
         released := c.released + {pg})
  }

  lemma LeavePageFrames(c: Control, pg: Page)
    requires FramesOk(c) && IsPage(c.patotas, pg) && Placed(c, pg) && pg !in c.released
    ensures FramesOk(LeavePage(c, pg))
  {
    var c' := LeavePage(c, pg);
    forall g | 0 <= g < |c'.ramOwner| ensures OwnedRam(c', g) {
      assert OwnedRam(c, g);
    }
    forall s | 0 <= s < |c'.swapOwner| ensures OwnedSwap(c', s) {
      assert OwnedSwap(c, s);
    }
    forall q | IsPage(c'.patotas, q) ensures Placed(c', q) {
      assert Placed(c, q);
    }
  }

  /** Leaving a page keeps the memory sound and every other page's bytes in place. */
  lemma LeavePageOk(c: Control, pg: Page, flat: seq<seq<Byte>>, ram: seq<Byte>, swap: seq<Byte>, p: nat)
    requires MemoryOk(c, flat, ram, swap, p) && IsPage(c.patotas, pg) && pg !in c.released
    ensures Placed(c, pg)
    ensures MemoryOk(LeavePage(c, pg), flat, ram, swap, p)
  {
    assert Placed(c, pg);
    LeavePageFrames(c, pg);
    var c' := LeavePage(c, pg);
    forall q | Resident(c'.patotas, q) ensures Stamped(c', q) {
      assert Stamped(c, q);
    }
    forall q | IsPage(c'.patotas, q) && q !in c'.released ensures Stored(c', q, flat, ram, swap, p) {
      assert Stored(c, q, flat, ram, swap, p);
    }
  }

  // ----- Release of a whole patota -----------------------------------------------------------------------

  /** `used` with every frame that `frames` names marked free. */
  function FreeAll(used: seq<bool>, frames: seq<int>): (r: seq<bool>)
    requires forall k :: 0 <= k < |frames| ==> -1 <= frames[k] < |used|
    ensures |r| == |used|
    ensures forall f :: 0 <= f < |used| ==> (r[f] <==> used[f] && f !in frames)
  {
    if frames == [] then used
    else
      var rest := FreeAll(used, frames[..|frames| - 1]);
      var f := frames[|frames| - 1];
      assert frames == frames[..|frames| - 1] + [f];
      if f == -1 then rest else rest[f := false]
  }

  function RamFrames(rows: seq<Row>): (r: seq<int>)
    ensures |r| == |rows| && forall k :: 0 <= k < |rows| ==> r[k] == rows[k].ramFrame
  {
    seq(|rows|, k requires 0 <= k < |rows| => rows[k].ramFrame)
  }

  function SwapFrames(rows: seq<Row>): (r: seq<int>)
    ensures |r| == |rows| && forall k :: 0 <= k < |rows| ==> r[k] == rows[k].swapFrame
  {
    seq(|rows|, k requires 0 <= k < |rows| => rows[k].swapFrame)
  }

  /** Where a page is found once the patota at position `i` has left the list. */
  function ShiftOwner(o: Owner, i: nat): Owner {
    match o
    case Free => Free
    case Of(pg) =>
      if pg.pat == i then Free
      else if pg.pat > i then Of(Page(pg.pat - 1, pg.num))
      else o
  }

  function Unshift(pg: Page, i: nat): Page {
    if pg.pat >= i then Page(pg.pat + 1, pg.num) else pg
  }

  /** The patota at position `i` gives up every frame its rows name, stale swap frames included, and leaves. */
  ghost function RemovePatota(c: Control, i: nat): Control
    requires FramesOk(c) && i < |c.patotas|
  {
    RowsInRange(c, i);
    var rows := c.patotas[i].rows;
    c.(patotas := c.patotas[..i] + c.patotas[i + 1..],
       ramUsed := FreeAll(c.ramUsed, RamFrames(rows)),
       swapUsed := FreeAll(c.swapUsed, SwapFrames(rows)),
       ramOwner := seq(|c.ramOwner|, f requires 0 <= f < |c.ramOwner| => ShiftOwner(c.ramOwner[f], i)),
       swapOwner := seq(|c.swapOwner|, s requires 0 <= s < |c.swapOwner| => ShiftOwner(c.swapOwner[s], i)),
       released := set pg | pg in c.released && pg.pat != i :: if pg.pat > i then Page(pg.pat - 1, pg.num) else pg)
  }

  lemma RowsInRange(c: Control, i: nat)
    requires FramesOk(c) && i < |c.patotas|
    ensures forall k :: 0 <= k < |c.patotas[i].rows| ==>
              -1 <= RamFrames(c.patotas[i].rows)[k] < |c.ramUsed| && -1 <= SwapFrames(c.patotas[i].rows)[k] < |c.swapUsed|
  {
    forall k | 0 <= k < |c.patotas[i].rows|
      ensures -1 <= RamFrames(c.patotas[i].rows)[k] < |c.ramUsed| && -1 <= SwapFrames(c.patotas[i].rows)[k] < |c.swapUsed|
    {
      assert Placed(c, Page(i, k));
      assert RowAt(c.patotas, Page(i, k)) == c.patotas[i].rows[k];
    }
  }

  /** No row of patota `i` names a swap frame in which a page of another patota now lives. */
  ghost predicate NoStaleClash(c: Control, i: nat)
    requires i < |c.patotas|
  {
    forall k :: 0 <= k < |c.patotas[i].rows| ==> HarmlessRow(c, i, c.patotas[i].rows[k])
  }

  /** No row of patota `i` names a swap frame that a row of another patota outside RAM names too. */
  predicate NoRowShared(ps: seq<Patota>, i: nat)
    requires i < |ps|
  {
    forall k :: 0 <= k < |ps[i].rows| ==>
      forall m :: 0 <= m < |ps| && m != i ==>
        forall l :: 0 <= l < |ps[m].rows| ==> !NamesFrame(ps[m].rows[l], ps[i].rows[k].swapFrame)
  }

  predicate NamesFrame(r: Row, s: int) {
    s != -1 && r.ramFrame == -1 && r.swapFrame == s
  }

  /** Nobody's page that was given up still names a swap frame. */
  ghost predicate NoneNamedLate(c: Control) {
    forall pg {:trigger pg in c.released} :: pg in c.released && IsPage(c.patotas, pg) ==> RowAt(c.patotas, pg).swapFrame == -1
  }

  lemma NoRowSharedIs(c: Control, i: nat)
    requires FramesOk(c) && i < |c.patotas|
    ensures NoRowShared(c.patotas, i) ==> NoStaleClash(c, i)
    ensures NoneNamedLate(c) && NoStaleClash(c, i) ==> NoRowShared(c.patotas, i)
  {
    if NoRowShared(c.patotas, i) {
      NoRowSharedSuffices(c, i);
    }
    if NoneNamedLate(c) && NoStaleClash(c, i) {
      forall k, m, l | 0 <= k < |c.patotas[i].rows| && 0 <= m < |c.patotas| && m != i && 0 <= l < |c.patotas[m].rows|
        ensures !NamesFrame(c.patotas[m].rows[l], c.patotas[i].rows[k].swapFrame)
      {
        var pg := Page(m, l);
        assert RowAt(c.patotas, pg) == c.patotas[m].rows[l] && Placed(c, pg) && HarmlessRow(c, i, c.patotas[i].rows[k]);
      }
    }
  }

  lemma NoRowSharedSuffices(c: Control, i: nat)
    requires FramesOk(c) && i < |c.patotas| && NoRowShared(c.patotas, i)
    ensures NoStaleClash(c, i)
  {
    forall k | 0 <= k < |c.patotas[i].rows| ensures HarmlessRow(c, i, c.patotas[i].rows[k]) {
      var s := c.patotas[i].rows[k].swapFrame;
      if 0 <= s < |c.swapOwner| && c.swapOwner[s].Of? {
        var pg := c.swapOwner[s].page;
        assert OwnedSwap(c, s);
        assert NamesFrame(c.patotas[pg.pat].rows[pg.num], s);
      }
    }
  }

  ghost predicate HarmlessRow(c: Control, i: nat, r: Row) {
    0 <= r.swapFrame < |c.swapOwner| && c.swapOwner[r.swapFrame].Of? ==> c.swapOwner[r.swapFrame].page.pat == i
  }

  /** Every live page has the frame it lives in marked as used. */
  ghost predicate LiveFramesUsed(c: Control) {
    forall pg {:trigger FrameMarked(c, pg)} :: IsPage(c.patotas, pg) && pg !in c.released ==> FrameMarked(c, pg)
  }

  ghost predicate FrameMarked(c: Control, pg: Page)
    requires IsPage(c.patotas, pg)
  {
    var r := RowAt(c.patotas, pg);
    if r.ramFrame != -1 then 0 <= r.ramFrame < |c.ramUsed| && c.ramUsed[r.ramFrame]
    else 0 <= r.swapFrame < |c.swapUsed| && c.swapUsed[r.swapFrame]
  }

  lemma FramesOkMarked(c: Control)
    requires FramesOk(c)
    ensures LiveFramesUsed(c)
  {
    forall pg | IsPage(c.patotas, pg) && pg !in c.released ensures FrameMarked(c, pg) {
      assert Placed(c, pg);
      var r := RowAt(c.patotas, pg);
      if r.ramFrame != -1 {
        assert OwnedRam(c, r.ramFrame);
      } else {
        assert OwnedSwap(c, r.swapFrame);
      }
    }
  }

  lemma RemovedPages(c: Control, i: nat, pg: Page)
    requires FramesOk(c) && i < |c.patotas|
    ensures IsPage(RemovePatota(c, i).patotas, pg) <==> IsPage(c.patotas, Unshift(pg, i))
    ensures IsPage(c.patotas, Unshift(pg, i)) ==>
              RowAt(RemovePatota(c, i).patotas, pg) == RowAt(c.patotas, Unshift(pg, i))
    ensures pg in RemovePatota(c, i).released <==> Unshift(pg, i) in c.released
  {
    var q := Unshift(pg, i);
    if q in c.released {
      assert q.pat != i;
      assert pg == if q.pat > i then Page(q.pat - 1, q.num) else q;
    }
  }

  lemma RemoveFrames(c: Control, i: nat)
    requires FramesOk(c) && i < |c.patotas| && NoStaleClash(c, i)
    ensures FramesOk(RemovePatota(c, i))
  {
    var c' := RemovePatota(c, i);
    var rows := c.patotas[i].rows;
    RowsInRange(c, i);
    forall f | 0 <= f < |c'.ramOwner| ensures OwnedRam(c', f) {
      RemoveOneRam(c, i, f);
    }
    forall s | 0 <= s < |c'.swapOwner| ensures OwnedSwap(c', s) {
      RemoveOneSwap(c, i, s);
    }
    forall q | IsPage(c'.patotas, q) ensures Placed(c', q) {
      RemovedPages(c, i, q);
      assert Placed(c, Unshift(q, i));
    }
    forall q | q in c'.released ensures IsPage(c'.patotas, q) {
      RemovedPages(c, i, q);
    }
  }

  lemma RemoveOneRam(c: Control, i: nat, f: nat)
    requires FramesOk(c) && i < |c.patotas| && f < |c.ramOwner|
    ensures OwnedRam(RemovePatota(c, i), f)
  {
    var c' := RemovePatota(c, i);
    var rows := c.patotas[i].rows;
    RowsInRange(c, i);
    assert OwnedRam(c, f);
    if c.ramOwner[f].Of? && c.ramOwner[f].page.pat == i {
      assert RamFrames(rows)[c.ramOwner[f].page.num] == f;
    }
    if f in RamFrames(rows) {
      var k :| 0 <= k < |rows| && RamFrames(rows)[k] == f;
      assert Placed(c, Page(i, k));
      assert RowAt(c.patotas, Page(i, k)) == rows[k];
    } else if c.ramOwner[f].Of? {
      var pg := c.ramOwner[f].page;
      RemovedPages(c, i, if pg.pat > i then Page(pg.pat - 1, pg.num) else pg);
    }
  }

  lemma RemoveOneSwap(c: Control, i: nat, s: nat)
    requires FramesOk(c) && i < |c.patotas| && s < |c.swapOwner| && NoStaleClash(c, i)
    ensures OwnedSwap(RemovePatota(c, i), s)
  {
    var c' := RemovePatota(c, i);
    var rows := c.patotas[i].rows;
    RowsInRange(c, i);
    assert OwnedSwap(c, s);
    if c.swapOwner[s].Of? && c.swapOwner[s].page.pat == i {
      assert SwapFrames(rows)[c.swapOwner[s].page.num] == s;
    }
    if s in SwapFrames(rows) {
      var k :| 0 <= k < |rows| && SwapFrames(rows)[k] == s;
      assert HarmlessRow(c, i, rows[k]);
    } else if c.swapOwner[s].Of? {
      var pg := c.swapOwner[s].page;
      RemovedPages(c, i, if pg.pat > i then Page(pg.pat - 1, pg.num) else pg);
    }
  }

  /** Releasing a whole patota keeps the memory sound if no stale swap frame clashes. */
  lemma RemoveOk(c: Control, i: nat, flat: seq<seq<Byte>>, ram: seq<Byte>, swap: seq<Byte>, p: nat)
    requires MemoryOk(c, flat, ram, swap, p) && i < |c.patotas| && NoStaleClash(c, i)
    ensures MemoryOk(RemovePatota(c, i), flat[..i] + flat[i + 1..], ram, swap, p)
  {
    RemoveFrames(c, i);
    var c' := RemovePatota(c, i);
    var flat' := flat[..i] + flat[i + 1..];
    forall q | Resident(c'.patotas, q) ensures Stamped(c', q) {
      RemovedPages(c, i, q);
      assert Stamped(c, Unshift(q, i));
    }
    forall q | IsPage(c'.patotas, q) && q !in c'.released ensures Stored(c', q, flat', ram, swap, p) {
      RemovedPages(c, i, q);
      assert Stored(c, Unshift(q, i), flat, ram, swap, p);
    }
  }

  /** The release is right exactly when no stale swap frame of the leaving patota has become the home
      of another patota's page. */
  lemma RemoveRightIff(c: Control, i: nat)
    requires FramesOk(c) && i < |c.patotas|
    ensures LiveFramesUsed(RemovePatota(c, i)) <==> NoStaleClash(c, i)
  {
    var c' := RemovePatota(c, i);
    if NoStaleClash(c, i) {
      RemoveFrames(c, i);
      FramesOkMarked(c');
    } else {
      var rows := c.patotas[i].rows;
      var k :| 0 <= k < |rows| && !HarmlessRow(c, i, rows[k]);
      var s := rows[k].swapFrame;
      var pg := c.swapOwner[s].page;
      assert OwnedSwap(c, s);
      var pg' := if pg.pat > i then Page(pg.pat - 1, pg.num) else pg;
      RemovedPages(c, i, pg');
      RowsInRange(c, i);
      assert s in SwapFrames(rows) by {
        assert SwapFrames(rows)[k] == s;
      }
      assert !FrameMarked(c', pg');
    }
  }

  /** The pages of patota `i` from `lo` below `hi` have each lost an occupant; those without any were given up for that. */
  ghost predicate PagesLeft(c: Control, c': Control, i: nat, lo: nat, hi: nat) {
    && |c'.patotas| == |c.patotas| && i < |c.patotas|
    && (forall k :: 0 <= k < |c.patotas| ==> SameHead(c.patotas[k], c'.patotas[k]))
    && (forall q :: IsPage(c.patotas, q) ==>
          RowAt(c'.patotas, q).occupants ==
          RowAt(c.patotas, q).occupants - if q.pat == i && lo <= q.num < hi then 1 else 0)
    && c.released <= c'.released
    && (forall q :: q in c'.released && q !in c.released ==>
          q.pat == i && lo <= q.num < hi && IsPage(c'.patotas, q) && RowAt(c'.patotas, q).occupants == 0)
    && (forall q :: IsPage(c.patotas, q) && q.pat == i && lo <= q.num < hi && RowAt(c'.patotas, q).occupants == 0 ==>
          q in c'.released)
    && c'.counter == c.counter && c'.admitted == c.admitted
    && |c'.ramUsed| == |c.ramUsed| && |c'.swapUsed| == |c.swapUsed|
    && (NoStaleClash(c', i) <==> NoStaleClash(c, i))
  }

  lemma LeaveEffect(c: Control, i: nat, num: nat)
    requires FramesOk(c) && IsPage(c.patotas, Page(i, num)) && Placed(c, Page(i, num)) && Page(i, num) !in c.released
    ensures PagesLeft(c, LeavePage(c, Page(i, num)), i, num, num + 1)
  {
    var pg := Page(i, num);
    var c' := LeavePage(c, pg);
    forall k | 0 <= k < |c.patotas[i].rows|
      ensures HarmlessRow(c', i, c'.patotas[i].rows[k]) <==> HarmlessRow(c, i, c.patotas[i].rows[k])
    {
      assert c.patotas[i].rows[k] == RowAt(c.patotas, Page(i, k)) && c'.patotas[i].rows[k] == RowAt(c'.patotas, Page(i, k));
    }
  }
}
