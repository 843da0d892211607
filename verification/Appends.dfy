/** What an append does to a list of blocks, to the bitmap and to the disk, write by write. */
module Appends {
  import opened Memory
  import opened Storage

  datatype Store = Store(bits: seq<bool>, disk: seq<Byte>)

  /** Bytes to write into the blocks `ids`, list `i` of `lists`, from offset `off` of the last block on. */
  datatype Job = Job(lists: seq<seq<Word>>, i: nat, ids: seq<Word>, off: nat, data: seq<Byte>, bs: nat, start: Store)

  /** Where in the list the writing begins. */
  function From(j: Job): nat
    requires j.ids != []
  {
    Base(|j.ids| - 1, j.bs) + j.off
  }

  /** How many blocks the writing asks for. */
  function Asked(off: nat, n: nat, bs: nat): nat
    requires bs > 0
  {
    BlocksFor(off + n, bs) - 1
  }

  function Upto(w: seq<Byte>, n: nat): seq<Byte> {
    if n <= |w| then w[..n] else w
  }

  /** What the list held before the place where the writing begins. */
  function Front(j: Job): seq<Byte>
    requires j.ids != []
  {
    Upto(Whole(j.start.disk, j.ids, j.bs), From(j))
  }

  ghost predicate StoreOk(s: Store, bs: nat) {
    bs > 0 && 0 < |s.bits| < 0x1_0000_0000 && |s.disk| == Base(|s.bits|, bs)
  }

  ghost predicate JobOk(j: Job) {
    && StoreOk(j.start, j.bs) && j.i < |j.lists| && j.ids != [] && j.off < j.bs
    && OwnersOk(j.start.bits, j.lists[j.i := j.ids])
    && Asked(j.off, |j.data|, j.bs) <= FreeCount(j.start.bits)
    && InsideDisk(j.ids + Requested(j.start.bits, Asked(j.off, |j.data|, j.bs)), From(j) + |j.data|, |j.start.bits|, j.bs)
  }

  ghost predicate SameWhole(disk: seq<Byte>, disk': seq<Byte>, ids: seq<Word>, bs: nat) {
    Whole(disk', ids, bs) == Whole(disk, ids, bs)
  }

  /** Every other list holds what it held. */
  ghost predicate OthersKept(lists: seq<seq<Word>>, i: nat, disk: seq<Byte>, disk': seq<Byte>, bs: nat) {
    forall m {:trigger SameWhole(disk, disk', lists[m], bs)} :: 0 <= m < |lists| && m != i ==> SameWhole(disk, disk', lists[m], bs)
  }

  /** After `k` requests and `w` bytes. */
  ghost predicate Spilling(j: Job, k: nat, w: nat, s: Store, ids: seq<Word>)
    requires JobOk(j)
  {
    && k <= FreeCount(j.start.bits) && w <= |j.data|
    && StoreOk(s, j.bs) && |s.bits| == |j.start.bits|
    && ids == j.ids + Requested(j.start.bits, k)
    && s.bits == AfterRequests(j.start.bits, k)
    && OwnersOk(s.bits, j.lists[j.i := ids])
    && Holds(s.disk, ids, Front(j) + j.data[..w], j.bs)
    && Reached(j.off, |j.data|, k, w, j.bs)
    && OthersKept(j.lists, j.i, j.start.disk, s.disk, j.bs)
  }

  /** Blocks are asked for only when the last one is full. */
  ghost predicate Reached(off: nat, n: nat, k: nat, w: nat, bs: nat) {
    && off + w <= Base(k + 1, bs)
    && (k > 0 ==> Base(k, bs) < off + w)
    && (w < n ==> off + w == Base(k + 1, bs))
  }

  // ----- Arithmetic --------------------------------------------------------------------------------------

  lemma {:induction false} BaseAdd(a: nat, b: nat, bs: nat)
    ensures Base(a, bs) + Base(b, bs) == Base(a + b, bs)
    decreases b
  {
    if b > 0 {
      BaseAdd(a, b - 1, bs);
    }
  }

  /** Exactly as many blocks are asked for as the bytes beyond the first block need. */
  lemma ReachedAll(off: nat, n: nat, k: nat, bs: nat)
    requires bs > 0 && Reached(off, n, k, n, bs)
    ensures k == Asked(off, n, bs)
  {
    BlocksForIs(off + n, bs, k + 1);
  }

  lemma ReachedMore(off: nat, n: nat, k: nat, w: nat, bs: nat)
    requires bs > 0 && Reached(off, n, k, w, bs) && w < n
    ensures k < Asked(off, n, bs)
  {
    NeedsMore(off + n, k + 1, bs);
  }

  function Min(a: nat, b: nat): nat {
    if a < b then a else b
  }

  lemma ReachedFirst(off: nat, n: nat, bs: nat)
    requires off < bs
    ensures Reached(off, n, 0, Min(n, bs - off), bs)
  {
    assert Base(1, bs) == Base(0, bs) + bs;
  }

  lemma ReachedNext(off: nat, n: nat, k: nat, w: nat, bs: nat)
    requires bs > 0 && Reached(off, n, k, w, bs) && w < n
    ensures Reached(off, n, k + 1, w + Min(n - w, bs), bs)
  {
    assert Base(k + 2, bs) == Base(k + 1, bs) + bs;
  }

  /** A position in blocks counted from the beginning of a list and from a later block. */
  lemma Position(m: nat, off: nat, w: nat, k: nat, bs: nat)
    requires m > 0 && off + w == Base(k + 1, bs)
    ensures Base(m - 1, bs) + off + w == Base(m + k, bs)
  {
    BaseAdd(m - 1, k + 1, bs);
  }

  // ----- The steps -------------------------------------------------------------------------------------------

  lemma FrontFits(j: Job)
    requires JobOk(j)
    ensures ListOk(j.ids, |j.start.bits|)
    ensures |Front(j)| == From(j) && Holds(j.start.disk, j.ids, Front(j), j.bs)
  {
    var lists := j.lists[j.i := j.ids];
    assert lists[j.i] == j.ids;
    WholeSize(j.start.disk, j.ids, j.bs, |j.start.bits|);
  }

  lemma OthersStay(bits: seq<bool>, lists: seq<seq<Word>>, i: nat, ids: seq<Word>, disk0: seq<Byte>, disk: seq<Byte>, disk': seq<Byte>,
                   id: Word, off: nat, data: seq<Byte>, bs: nat)
    requires i < |lists| && OwnersOk(bits, lists[i := ids]) && id in ids
    requires WroteBlock(disk, disk', id, off, data, bs) && OthersKept(lists, i, disk0, disk, bs)
    ensures OthersKept(lists, i, disk0, disk', bs)
  {
    var all := lists[i := ids];
    forall m | 0 <= m < |lists| && m != i ensures SameWhole(disk0, disk', lists[m], bs) {
      assert all[m] == lists[m] && all[i] == ids && Disjoint(all[i], all[m]);
      assert SameWhole(disk0, disk, lists[m], bs);
      WholeElsewhere(disk, disk', id, off, data, lists[m], bs);
    }
  }

  /** The write into the block that was already there. */
  lemma SpillFirst(j: Job, disk': seq<Byte>, w: nat)
    requires JobOk(j) && w == Min(|j.data|, j.bs - j.off)
    requires WroteBlock(j.start.disk, disk', j.ids[|j.ids| - 1], j.off, j.data[..w], j.bs)
    ensures Spilling(j, 0, w, Store(j.start.bits, disk'), j.ids)
  {
    FrontFits(j);
    ReachedFirst(j.off, |j.data|, j.bs);
    HoldsMore(j.start.disk, disk', j.ids, j.off, Front(j), j.data[..w], j.bs, |j.start.bits|);
    forall m | 0 <= m < |j.lists| && m != j.i ensures SameWhole(j.start.disk, j.start.disk, j.lists[m], j.bs) {
    }
    OthersStay(j.start.bits, j.lists, j.i, j.ids, j.start.disk, j.start.disk, disk', j.ids[|j.ids| - 1], j.off, j.data[..w], j.bs);
    assert j.ids + [] == j.ids;
  }

  /** Where the first write ends on the disk. */
  lemma FirstAccepted(j: Job, w: nat)
    requires JobOk(j) && w == Min(|j.data|, j.bs - j.off)
    ensures 1 <= j.ids[|j.ids| - 1] as nat <= |j.start.bits|
    ensures Base(j.ids[|j.ids| - 1] - 1, j.bs) + j.off + w < Base(|j.start.bits|, j.bs)
  {
    FrontFits(j);
    var all := j.ids + Requested(j.start.bits, Asked(j.off, |j.data|, j.bs));
    forall k | 0 <= k < |j.ids| && j.ids[k] as nat == |j.start.bits| ensures From(j) + |j.data| < Base(k + 1, j.bs) {
      assert all[k] == j.ids[k];
    }
    AcceptedWrite(j.ids, |j.ids| - 1, From(j) + |j.data|, |j.start.bits|, j.bs, j.off, w, j.ids[|j.ids| - 1] - 1);
  }

  /** When bytes are left over, there is a free block for them. */
  lemma SpillNext(bits: seq<bool>, off: nat, n: nat, k: nat, w: nat, now: seq<bool>, bs: nat) returns (more: seq<Word>, f: nat)
    requires bs > 0 && |bits| < 0x1_0000_0000 && Asked(off, n, bs) <= FreeCount(bits)
    requires k <= FreeCount(bits) && now == AfterRequests(bits, k) && Reached(off, n, k, w, bs) && w < n
    ensures more == Requested(bits, Asked(off, n, bs)) && f == FirstFree(now)
    ensures f < |now| && k < |more| && more[k] == f + 1
  {
    more, f := Requested(bits, Asked(off, n, bs)), FirstFree(now);
    ReachedMore(off, n, k, w, bs);
    NextRequested(bits, k, Asked(off, n, bs), now);
  }

  /** And the disk accepts the write. */
  lemma SpillAccepted(ids: seq<Word>, more: seq<Word>, off: nat, n: nat, k: nat, w: nat, f: nat, count: nat, bs: nat)
    requires ids != [] && bs > 0 && InsideDisk(ids + more, Base(|ids| - 1, bs) + off + n, count, bs)
    requires k < |more| && f < count && more[k] == f + 1
    requires Reached(off, n, k, w, bs) && w < n
    ensures Base(f, bs) + Min(n - w, bs) < Base(count, bs)
  {
    Position(|ids|, off, w, k, bs);
    NextAccepted(ids, more, k, Base(|ids| - 1, bs) + off + n, count, bs, Min(n - w, bs), f);
  }

  lemma NextAccepted(ids: seq<Word>, more: seq<Word>, k: nat, size: nat, count: nat, bs: nat, n: nat, f: nat)
    requires k < |more| && f < count && more[k] == f + 1 && InsideDisk(ids + more, size, count, bs)
    requires bs > 0 && n <= bs && Base(|ids| + k, bs) + n <= size
    ensures Base(f, bs) + n < Base(count, bs)
  {
    assert (ids + more)[|ids| + k] == more[k];
    AcceptedWrite(ids + more, |ids| + k, size, count, bs, 0, n, f);
  }

  lemma NextRequested(bits: seq<bool>, k: nat, e: nat, now: seq<bool>)
    requires k < e <= FreeCount(bits) && |bits| < 0x1_0000_0000 && now == AfterRequests(bits, k)
    ensures FirstFree(now) < |now| == |bits| && Requested(bits, e)[k] == FirstFree(now) + 1
  {
    RequestedSnoc(bits, k);
    RequestedPrefix(bits, k + 1, e);
    assert Requested(bits, e)[k] == Requested(bits, e)[..k + 1][k];
  }

  lemma SpillStep(j: Job, k: nat, w: nat, s: Store, ids: seq<Word>, id: Word, disk': seq<Byte>, n: nat)
    requires JobOk(j) && Spilling(j, k, w, s, ids) && w < |j.data| && n == Min(|j.data| - w, j.bs)
    requires FirstFree(s.bits) < |s.bits| && id == FirstFree(s.bits) + 1
    requires WroteBlock(s.disk, disk', id, 0, j.data[w..w + n], j.bs)
    ensures Spilling(j, k + 1, w + n, Store(s.bits[id - 1 := true], disk'), ids + [id])
  {
    var bits' := s.bits[id - 1 := true];
    StepLists(j, k, w, s, ids, id, bits');
    FrontFits(j);
    SpillHolds(Front(j), |j.ids|, j.off, j.data, k, w, n, s.disk, ids, id, disk', j.bs, |bits'|);
    ReachedNext(j.off, |j.data|, k, w, j.bs);
    OthersStay(bits', j.lists, j.i, ids + [id], j.start.disk, s.disk, disk', id, 0, j.data[w..w + n], j.bs);
  }

  lemma StepLists(j: Job, k: nat, w: nat, s: Store, ids: seq<Word>, id: Word, bits': seq<bool>)
    requires JobOk(j) && Spilling(j, k, w, s, ids) && w < |j.data|
    requires FirstFree(s.bits) < |s.bits| && id == FirstFree(s.bits) + 1 && bits' == s.bits[id - 1 := true]
    ensures k < FreeCount(j.start.bits)
    ensures ids + [id] == j.ids + Requested(j.start.bits, k + 1) && bits' == AfterRequests(j.start.bits, k + 1)
    ensures ListOk(ids + [id], |bits'|) && OwnersOk(bits', j.lists[j.i := ids + [id]])
  {
    ReachedMore(j.off, |j.data|, k, w, j.bs);
    RequestedSnoc(j.start.bits, k);
    assert j.ids + (Requested(j.start.bits, k) + [id]) == ids + [id];
    var all := j.lists[j.i := ids];
    ListGrows(s.bits, all, j.i, id - 1);
    assert all[j.i := ids + [id]] == j.lists[j.i := ids + [id]] && all[j.i] == ids;
    assert j.lists[j.i := ids + [id]][j.i] == ids + [id];
  }

  lemma SpillHolds(front: seq<Byte>, m: nat, off: nat, data: seq<Byte>, k: nat, w: nat, n: nat, disk: seq<Byte>, ids: seq<Word>,
                   id: Word, disk': seq<Byte>, bs: nat, count: nat)
    requires m > 0 && |ids| == m + k && |front| == Base(m - 1, bs) + off
    requires off + w == Base(k + 1, bs) && w + n <= |data|
    requires ListOk(ids + [id], count) && |disk| == Base(count, bs)
    requires Holds(disk, ids, front + data[..w], bs) && WroteBlock(disk, disk', id, 0, data[w..w + n], bs)
    ensures Holds(disk', ids + [id], front + data[..w + n], bs)
  {
    Position(m, off, w, k, bs);
    HoldsOn(disk, disk', ids, id, front + data[..w], data[w..w + n], bs, count);
    NextBytes(front, data, w, n);
  }

  /** A full list gets a block and the next bytes go there. */
  lemma HoldsOn(disk: seq<Byte>, disk': seq<Byte>, ids: seq<Word>, id: Word, text: seq<Byte>, data: seq<Byte>, bs: nat, count: nat)
    requires ListOk(ids + [id], count) && |disk| == Base(count, bs)
    requires Holds(disk, ids, text, bs) && |text| == Base(|ids|, bs)
    requires WroteBlock(disk, disk', id, 0, data, bs)
    ensures Holds(disk', ids + [id], text + data, bs)
  {
    HoldsSnoc(disk, ids, id, text, bs);
    HoldsMore(disk, disk', ids + [id], 0, text, data, bs, count);
  }

  lemma NextBytes(front: seq<Byte>, data: seq<Byte>, w: nat, n: nat)
    requires w + n <= |data|
    ensures front + data[..w] + data[w..w + n] == front + data[..w + n]
  {
  }

  // ----- Whole appends -----------------------------------------------------------------------------------------

  /** List `i` got the blocks of `k` requests and `data` from position `from` on; no other list changed or lost a byte. */
  ghost predicate Appended(s: Store, s': Store, lists: seq<seq<Word>>, lists': seq<seq<Word>>, i: nat, from: nat, data: seq<Byte>,
                           k: nat, bs: nat) {
    && i < |lists| && k <= FreeCount(s.bits) && |s.bits| < 0x1_0000_0000
    && lists' == lists[i := lists[i] + Requested(s.bits, k)]
    && s'.bits == AfterRequests(s.bits, k) && OwnersOk(s'.bits, lists')
    && Holds(s'.disk, lists'[i], Upto(Whole(s.disk, lists[i], bs), from) + data, bs)
    && OthersKept(lists, i, s.disk, s'.disk, bs)
  }

  lemma SpillDone(j: Job, s: Store, ids: seq<Word>, k: nat)
    requires JobOk(j) && Spilling(j, k, |j.data|, s, ids)
    ensures k == Asked(j.off, |j.data|, j.bs)
    ensures Appended(j.start, s, j.lists[j.i := j.ids], j.lists[j.i := ids], j.i, From(j), j.data, k, j.bs)
  {
    ReachedAll(j.off, |j.data|, k, j.bs);
    var lists, lists' := j.lists[j.i := j.ids], j.lists[j.i := ids];
    assert lists[j.i := ids] == lists' && lists[j.i] == j.ids && lists'[j.i] == ids;
    assert j.data[..|j.data|] == j.data;
    forall m | 0 <= m < |lists| && m != j.i ensures SameWhole(j.start.disk, s.disk, lists[m], j.bs) {
      assert SameWhole(j.start.disk, s.disk, j.lists[m], j.bs);
    }
  }

  /** An append that begins in a block of its own. */
  lemma AppendedOneMore(s: Store, s': Store, lists: seq<seq<Word>>, lists': seq<seq<Word>>, i: nat, data: seq<Byte>, k: nat, bs: nat, id: Word)
    requires StoreOk(s, bs) && i < |lists| && OwnersOk(s.bits, lists) && FirstFree(s.bits) < |s.bits| && id == FirstFree(s.bits) + 1
    requires Appended(Store(s.bits[id - 1 := true], s.disk), s', lists[i := lists[i] + [id]], lists', i, Base(|lists[i]|, bs), data, k, bs)
    ensures Appended(s, s', lists, lists', i, Base(|lists[i]|, bs), data, k + 1, bs)
  {
    FreeAfter(s.bits);
    RequestedUnfold(s.bits, k + 1);
    ListTwice(lists, i, [id], Requested(s.bits[id - 1 := true], k), Requested(s.bits, k + 1));
    FrontOneMore(s.disk, lists[i], id, bs, |s.bits|);
    OthersTwice(lists, i, lists[i] + [id], s.disk, s'.disk, bs);
  }

  lemma ListTwice(lists: seq<seq<Word>>, i: nat, a: seq<Word>, b: seq<Word>, ab: seq<Word>)
    requires i < |lists| && ab == a + b
    ensures lists[i := lists[i] + a][i := lists[i := lists[i] + a][i] + b] == lists[i := lists[i] + ab]
    ensures lists[i := lists[i] + a][i] == lists[i] + a
  {
    assert lists[i] + a + b == lists[i] + ab;
  }

  lemma FrontOneMore(disk: seq<Byte>, ids: seq<Word>, id: Word, bs: nat, count: nat)
    requires |disk| == Base(count, bs) && InRange(ids, count)
    ensures Upto(Whole(disk, ids + [id], bs), Base(|ids|, bs)) == Upto(Whole(disk, ids, bs), Base(|ids|, bs))
  {
    WholeSize(disk, ids, bs, count);
    WholeSnoc(disk, ids, id, bs);
    FrontSame(Whole(disk, ids, bs), Piece(disk, id, bs), Base(|ids|, bs));
  }

  lemma OthersTwice(lists: seq<seq<Word>>, i: nat, ids: seq<Word>, disk: seq<Byte>, disk': seq<Byte>, bs: nat)
    requires i < |lists| && OthersKept(lists[i := ids], i, disk, disk', bs)
    ensures OthersKept(lists, i, disk, disk', bs)
  {
    forall m | 0 <= m < |lists| && m != i ensures SameWhole(disk, disk', lists[m], bs) {
      assert lists[i := ids][m] == lists[m] && SameWhole(disk, disk', lists[i := ids][m], bs);
    }
  }

  lemma FrontSame(w: seq<Byte>, p: seq<Byte>, n: nat)
    requires n <= |w|
    ensures Upto(w + p, n) == Upto(w, n)
  {
  }

  // ----- Logs and files ----------------------------------------------------------------------------------------

  /** The blocks hold a text of the recorded size. */
  ghost predicate Stored(disk: seq<Byte>, ids: seq<Word>, size: nat, text: seq<Byte>, bs: nat) {
    |text| == size && Holds(disk, ids, text, bs)
  }

  /** And there are exactly as many of them as the size needs. */
  ghost predicate Right(disk: seq<Byte>, ids: seq<Word>, size: nat, text: seq<Byte>, bs: nat)
    requires bs > 0
  {
    Stored(disk, ids, size, text, bs) && |ids| == BlocksFor(size, bs)
  }

  /** The data came in the place of the last block's content. */
  ghost predicate Overwrote(disk: seq<Byte>, ids: seq<Word>, size: nat, text: seq<Byte>, data: seq<Byte>, bs: nat) {
    bs <= size <= |text| && Holds(disk, ids, text[..size - bs] + data, bs)
  }

  /** Whether the content ends where a block does. */
  predicate Aligned(size: nat, bs: nat)
    requires bs > 0
  {
    size > 0 && OffsetOf(size, bs) == 0
  }

  /** How many blocks an append of `n` bytes to a log asks for, and where it writes. */
  function LogAsks(size: nat, n: nat, bs: nat): nat
    requires bs > 0
  {
    Asked(OffsetOf(size, bs), n, bs) + if Aligned(size, bs) then 1 else 0
  }

  function LogFrom(length: nat, size: nat, bs: nat): nat
    requires bs > 0 && length > 0
  {
    if Aligned(size, bs) then Base(length, bs) else FileFrom(length, size, bs)
  }

  function FileFrom(length: nat, size: nat, bs: nat): nat
    requires bs > 0 && length > 0
  {
    Base(length - 1, bs) + OffsetOf(size, bs)
  }

  lemma SizeParts(size: nat, bs: nat)
    requires bs > 0
    ensures Aligned(size, bs) ==> size == Base(BlocksFor(size, bs), bs)
    ensures !Aligned(size, bs) ==> size == Base(BlocksFor(size, bs) - 1, bs) + OffsetOf(size, bs)
  {
    var q := BlockOf(size, bs);
    AddressJoins(size, bs);
    if Aligned(size, bs) {
      assert q > 0;
      BlockEnds(q - 1, bs);
      BlocksForIs(size, bs, q);
    } else {
      BlockEnds(q, bs);
      BlocksForIs(size, bs, q + 1);
    }
  }

  lemma BlocksForShift(q: nat, r: nat, bs: nat)
    requires bs > 0 && r > 0
    ensures BlocksFor(Base(q, bs) + r, bs) == q + BlocksFor(r, bs)
  {
    var b := BlocksFor(r, bs);
    BlocksForFits(r, bs);
    BaseAdd(q, b, bs);
    BaseAdd(q, b - 1, bs);
    BlocksForIs(Base(q, bs) + r, bs, q + b);
  }

  /** An append to a log asks for exactly the blocks that the longer content needs, unless nothing is appended to a
      log whose content ends where a block does. */
  lemma LogCountIff(size: nat, n: nat, bs: nat)
    requires bs > 0
    ensures BlocksFor(size, bs) + LogAsks(size, n, bs) == BlocksFor(size + n, bs) <==> !(Aligned(size, bs) && n == 0)
  {
    SizeParts(size, bs);
    var off := OffsetOf(size, bs);
    if Aligned(size, bs) {
      if n > 0 {
        BlocksForShift(BlocksFor(size, bs), n, bs);
      }
    } else if off + n > 0 {
      BlocksForShift(BlocksFor(size, bs) - 1, off + n, bs);
    }
  }

  /** Filling a file asks for one block too few exactly when its content ends where a block does. */
  lemma FileCountIff(size: nat, n: nat, bs: nat)
    requires bs > 0 && n > 0
    ensures BlocksFor(size, bs) + Asked(OffsetOf(size, bs), n, bs) == BlocksFor(size + n, bs) <==> !Aligned(size, bs)
  {
    SizeParts(size, bs);
    BlocksForShift(if Aligned(size, bs) then BlocksFor(size, bs) else BlocksFor(size, bs) - 1, OffsetOf(size, bs) + n, bs);
  }

  /** The first bytes of what the blocks hold. */
  lemma FrontIs(disk: seq<Byte>, ids: seq<Word>, text: seq<Byte>, n: nat, bs: nat)
    requires Holds(disk, ids, text, bs) && n <= |text|
    ensures Upto(Whole(disk, ids, bs), n) == text[..n]
  {
  }

  /** An append to a log that is right leaves the longer text in the blocks; the log is right again unless nothing is
      appended to a content that ends where a block does. */
  lemma LogAppended(s: Store, s': Store, lists: seq<seq<Word>>, lists': seq<seq<Word>>, i: nat, size: nat, text: seq<Byte>,
                    data: seq<Byte>, bs: nat)
    requires bs > 0 && i < |lists| && lists[i] != [] && Right(s.disk, lists[i], size, text, bs)
    requires Appended(s, s', lists, lists', i, LogFrom(|lists[i]|, size, bs), data, LogAsks(size, |data|, bs), bs)
    ensures i < |lists'| && Stored(s'.disk, lists'[i], size + |data|, text + data, bs)
    ensures Right(s'.disk, lists'[i], size + |data|, text + data, bs) <==> !(Aligned(size, bs) && data == [])
  {
    hide Appended, BlocksFor, Asked, Holds, Whole, Upto, OffsetOf, Base;
    SizeParts(size, bs);
    LogCountIff(size, |data|, bs);
    FrontIs(s.disk, lists[i], text, size, bs);
    AppendedText(s, s', lists, lists', i, LogFrom(|lists[i]|, size, bs), data, LogAsks(size, |data|, bs), bs, text);
  }

  lemma AppendedSound(s: Store, s': Store, lists: seq<seq<Word>>, lists': seq<seq<Word>>, i: nat, from: nat, data: seq<Byte>, k: nat, bs: nat)
    requires Appended(s, s', lists, lists', i, from, data, k, bs)
    ensures OwnersOk(s'.bits, lists') && i < |lists'| && |lists'[i]| == |lists[i]| + k
  {
  }

  /** Other logs and files are as right as they were. */
  lemma OthersRight(s: Store, s': Store, lists: seq<seq<Word>>, lists': seq<seq<Word>>, i: nat, from: nat, data: seq<Byte>, k: nat,
                    bs: nat, m: nat, size: nat, text: seq<Byte>)
    requires Appended(s, s', lists, lists', i, from, data, k, bs) && bs > 0 && m < |lists| && m != i
    ensures |lists'| == |lists| && lists'[m] == lists[m]
    ensures Right(s'.disk, lists'[m], size, text, bs) == Right(s.disk, lists[m], size, text, bs)
  {
    hide OwnersOk, AfterRequests, Requested, FreeCount, Whole;
    assert SameWhole(s.disk, s'.disk, lists[m], bs);
  }

  lemma AppendedText(s: Store, s': Store, lists: seq<seq<Word>>, lists': seq<seq<Word>>, i: nat, from: nat, data: seq<Byte>, k: nat,
                     bs: nat, front: seq<Byte>)
    requires Appended(s, s', lists, lists', i, from, data, k, bs) && Upto(Whole(s.disk, lists[i], bs), from) == front
    ensures i < |lists'| && |lists'[i]| == |lists[i]| + k && Holds(s'.disk, lists'[i], front + data, bs)
  {
  }

  /** Filling a file that is right: the blocks hold the longer text, and are as many as it needs, exactly when the
      content did not end where a block does; otherwise the last block is overwritten. */
  lemma FileAppended(s: Store, s': Store, lists: seq<seq<Word>>, lists': seq<seq<Word>>, i: nat, size: nat, text: seq<Byte>,
                     data: seq<Byte>, bs: nat)
    requires bs > 0 && i < |lists| && lists[i] != [] && data != [] && Right(s.disk, lists[i], size, text, bs)
    requires Appended(s, s', lists, lists', i, FileFrom(|lists[i]|, size, bs), data, Asked(OffsetOf(size, bs), |data|, bs), bs)
    ensures i < |lists'| && (Right(s'.disk, lists'[i], size + |data|, text + data, bs) <==> !Aligned(size, bs))
    ensures Aligned(size, bs) ==> Overwrote(s'.disk, lists'[i], size, text, data, bs)
  {
    hide Appended, BlocksFor, Asked, Holds, Whole, Upto, OffsetOf, Base;
    SizeParts(size, bs);
    FileCountIff(size, |data|, bs);
    var from := FileFrom(|lists[i]|, size, bs);
    if Aligned(size, bs) {
      BlockEnds(BlocksFor(size, bs) - 1, bs);
    }
    FrontIs(s.disk, lists[i], text, from, bs);
    assert text[..size] == text;
    AppendedText(s, s', lists, lists', i, from, data, Asked(OffsetOf(size, bs), |data|, bs), bs, text[..from]);
  }

  /** The write that begins in the last block. */
  lemma JobHere(s: Store, lists: seq<seq<Word>>, i: nat, off: nat, data: seq<Byte>, bs: nat) returns (j: Job)
    requires StoreOk(s, bs) && i < |lists| && lists[i] != [] && off < bs && OwnersOk(s.bits, lists)
    requires Asked(off, |data|, bs) <= FreeCount(s.bits)
    requires InsideDisk(lists[i] + Requested(s.bits, Asked(off, |data|, bs)), Base(|lists[i]| - 1, bs) + off + |data|, |s.bits|, bs)
    ensures j == Job(lists, i, lists[i], off, data, bs, s) && JobOk(j) && j.lists[j.i := j.ids] == lists
  {
    j := Job(lists, i, lists[i], off, data, bs, s);
    assert lists[i := lists[i]] == lists;
  }

  /** The write that begins in a block just asked for. */
  lemma JobFresh(s: Store, lists: seq<seq<Word>>, i: nat, data: seq<Byte>, bs: nat) returns (id: Word, j: Job)
    requires StoreOk(s, bs) && i < |lists| && lists[i] != [] && OwnersOk(s.bits, lists)
    requires Asked(0, |data|, bs) + 1 <= FreeCount(s.bits)
    requires InsideDisk(lists[i] + Requested(s.bits, Asked(0, |data|, bs) + 1), Base(|lists[i]|, bs) + |data|, |s.bits|, bs)
    ensures FirstFree(s.bits) < |s.bits| && id == FirstFree(s.bits) + 1
    ensures j == Job(lists, i, lists[i] + [id], 0, data, bs, Store(s.bits[id - 1 := true], s.disk)) && JobOk(j)
  {
    hide OwnersOk, InsideDisk;
    var a := Asked(0, |data|, bs);
    id := FirstFree(s.bits) + 1;
    j := Job(lists, i, lists[i] + [id], 0, data, bs, Store(s.bits[id - 1 := true], s.disk));
    RequestedUnfold(s.bits, a + 1);
    ListGrows(s.bits, lists, i, id - 1);
    assert lists[i] + [id] + Requested(j.start.bits, a) == lists[i] + Requested(s.bits, a + 1);
  }

  // ----- The byte that ends a filled file -------------------------------------------------------------------------

  /** Where the content ends inside its last block. */
  lemma EndOffset(size: nat, n: nat, k: nat, bs: nat)
    requires bs > 0 && n > 0 && k == Asked(OffsetOf(size, bs), n, bs) && OffsetOf(size + n, bs) > 0
    ensures OffsetOf(size, bs) + n == Base(k, bs) + OffsetOf(size + n, bs)
  {
    var off := OffsetOf(size, bs);
    var q, b, r := BlockOf(size, bs), BlockOf(off + n, bs), OffsetOf(off + n, bs);
    AddressJoins(size, bs);
    AddressJoins(off + n, bs);
    BaseAdd(q, b, bs);
    AddressParts(q + b, r, bs);
    BlockEnds(b, bs);
    BlocksForIs(off + n, bs, b + 1);
  }

  lemma EndFrom(m: nat, size: nat, n: nat, bs: nat)
    requires m > 0 && bs > 0 && n > 0 && OffsetOf(size + n, bs) > 0
    ensures FileFrom(m, size, bs) + n == Base(m - 1 + Asked(OffsetOf(size, bs), n, bs), bs) + OffsetOf(size + n, bs)
  {
    var k := Asked(OffsetOf(size, bs), n, bs);
    EndOffset(size, n, k, bs);
    BaseAdd(m - 1, k, bs);
  }

  lemma EndAccepted(ids: seq<Word>, end: nat, off: nat, count: nat, bs: nat)
    requires ids != [] && InRange(ids, count) && InsideDisk(ids, end + 1, count, bs) && 0 < off < bs && end == Base(|ids| - 1, bs) + off
    ensures Base(ids[|ids| - 1] - 1, bs) + off + 1 < Base(count, bs)
  {
    AcceptedWrite(ids, |ids| - 1, end + 1, count, bs, off, 1, ids[|ids| - 1] - 1);
  }

  /** A byte written right after the content disturbs nobody. */
  lemma EndWritten(s: Store, s': Store, disk: seq<Byte>, lists: seq<seq<Word>>, lists': seq<seq<Word>>, i: nat, from: nat, data: seq<Byte>,
                   k: nat, bs: nat, off: nat, b: seq<Byte>)
    requires StoreOk(s', bs) && Appended(s, s', lists, lists', i, from, data, k, bs)
    requires lists'[i] != [] && WroteBlock(s'.disk, disk, lists'[i][|lists'[i]| - 1], off, b, bs)
    requires |Upto(Whole(s.disk, lists[i], bs), from) + data| == Base(|lists'[i]| - 1, bs) + off
    ensures Appended(s, Store(s'.bits, disk), lists, lists', i, from, data, k, bs)
  {
    hide AfterRequests, Requested, FreeCount, Whole, WroteBlock;
    var text := Upto(Whole(s.disk, lists[i], bs), from) + data;
    var ids := lists'[i];
    HoldsMore(s'.disk, disk, ids, off, text, b, bs, |s'.bits|);
    HoldsLess(disk, ids, text, b, bs);
    assert lists'[i := ids] == lists';
    forall m | 0 <= m < |lists'| && m != i ensures SameWhole(s.disk, s'.disk, lists'[m], bs) {
      assert SameWhole(s.disk, s'.disk, lists[m], bs);
    }
    OthersStay(s'.bits, lists', i, ids, s.disk, s'.disk, disk, ids[|ids| - 1], off, b, bs);
    forall m | 0 <= m < |lists| && m != i ensures SameWhole(s.disk, disk, lists[m], bs) {
      assert SameWhole(s.disk, disk, lists'[m], bs);
    }
  }

  lemma HoldsLess(disk: seq<Byte>, ids: seq<Word>, text: seq<Byte>, more: seq<Byte>, bs: nat)
    requires Holds(disk, ids, text + more, bs)
    ensures Holds(disk, ids, text, bs)
  {
    var w := Whole(disk, ids, bs);
    assert w[..|text|] == w[..|text + more|][..|text|];
  }

  // ----- Reading back ------------------------------------------------------------------------------------------

  /** What has been read after `k` blocks. */
  ghost predicate ReadUpto(disk: seq<Byte>, ids: seq<Word>, k: nat, size: nat, text: seq<Byte>, bs: nat)
    requires k <= |ids|
  {
    text == Upto(Whole(disk, ids[..k], bs), size)
  }

  lemma ReadBegins(disk: seq<Byte>, ids: seq<Word>, size: nat, bs: nat)
    ensures ReadUpto(disk, ids, 0, size, [], bs) && Base(0, bs) == 0
  {
  }

  lemma ReadAccepted(ids: seq<Word>, k: nat, size: nat, n: nat, count: nat, bs: nat)
    requires k < |ids| && InRange(ids, count) && InsideDisk(ids, size, count, bs) && bs > 0
    requires n == Min(size - Min(size, Base(k, bs)), bs)
    ensures Base(ids[k] - 1, bs) + n < Base(count, bs)
  {
    if n < bs {
      EndsBefore(ids[k] - 1, count, bs, n);
    } else {
      AcceptedWrite(ids, k, size, count, bs, 0, n, ids[k] - 1);
    }
  }

  lemma ReadStep(disk: seq<Byte>, ids: seq<Word>, k: nat, size: nat, text: seq<Byte>, data: seq<Byte>, count: nat, bs: nat)
    requires k < |ids| && InRange(ids, count) && |disk| == Base(count, bs) && bs > 0
    requires ReadUpto(disk, ids, k, size, text, bs)
    requires |Piece(disk, ids[k], bs)| == bs && |text| <= size && data == Piece(disk, ids[k], bs)[..Min(size - |text|, bs)]
    ensures ReadUpto(disk, ids, k + 1, size, text + data, bs) && |text + data| == Min(size, Base(k + 1, bs))
  {
    hide Whole, Piece;
    WholeSize(disk, ids[..k], bs, count);
    WholeSize(disk, ids[..k + 1], bs, count);
    assert ids[..k + 1] == ids[..k] + [ids[k]];
    WholeSnoc(disk, ids[..k], ids[k], bs);
    UptoSnoc(Whole(disk, ids[..k], bs), Piece(disk, ids[k], bs), size);
  }

  lemma UptoSnoc(w: seq<Byte>, p: seq<Byte>, size: nat)
    ensures |Upto(w, size)| <= size
    ensures Upto(w + p, size) == Upto(w, size) + p[..Min(size - |Upto(w, size)|, |p|)]
  {
  }

  lemma ReadAll(disk: seq<Byte>, ids: seq<Word>, size: nat, text: seq<Byte>, read: seq<Byte>, bs: nat)
    requires Stored(disk, ids, size, text, bs) && ReadUpto(disk, ids, |ids|, size, read, bs)
    ensures read == text
  {
    assert ids[..|ids|] == ids;
  }

  // ----- Releases --------------------------------------------------------------------------------------------------

  lemma ReleasedSnoc(bits: seq<bool>, ids: seq<Word>, k: nat)
    requires k < |ids| && 1 <= ids[k] as nat <= |bits|
    ensures Released(bits, ids[..k + 1]) == Released(bits, ids[..k])[ids[k] - 1 := false]
  {
    var l, r := Released(bits, ids[..k + 1]), Released(bits, ids[..k])[ids[k] - 1 := false];
    assert ids[..k + 1] == ids[..k] + [ids[k]];
    forall b | 0 <= b < |bits| ensures l[b] == r[b] {
    }
  }

  lemma ReleasedAll(bits: seq<bool>, ids: seq<Word>)
    ensures Released(bits, ids[..0]) == bits && Released(bits, ids[..|ids|]) == Released(bits, ids)
  {
    assert ids[..|ids|] == ids;
  }

  // ----- Runs -------------------------------------------------------------------------------------------------------

  lemma {:induction false} RequestedAdd(bits: seq<bool>, a: nat, b: nat)
    requires a + b <= FreeCount(bits) && |bits| < 0x1_0000_0000
    ensures b <= FreeCount(AfterRequests(bits, a))
    ensures Requested(bits, a + b) == Requested(bits, a) + Requested(AfterRequests(bits, a), b)
    ensures AfterRequests(bits, a + b) == AfterRequests(AfterRequests(bits, a), b)
    decreases a
  {
    if a > 0 {
      RequestedUnfold(bits, a);
      RequestedUnfold(bits, a + b);
      RequestedAdd(bits[FirstFree(bits) := true], a - 1, b);
    }
  }

  lemma InsideEarlier(bits: seq<bool>, a: nat, size: nat, b: nat, total: nat, count: nat, bs: nat)
    requires a <= b <= FreeCount(bits) && |bits| < 0x1_0000_0000 && size <= total
    requires InsideDisk(Requested(bits, b), total, count, bs)
    ensures InsideDisk(Requested(bits, a), size, count, bs)
  {
    RequestedPrefix(bits, a, b);
    forall k | 0 <= k < a && Requested(bits, a)[k] as nat == count ensures size < Base(k + 1, bs) {
      assert Requested(bits, b)[k] == Requested(bits, b)[..a][k];
    }
  }
}
