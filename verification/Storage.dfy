/** Block lists over a disk as values: what a list of blocks holds, who owns which block, and what requests,
    releases and writes do to both. Block ids count from 1. */
module Storage {
  import opened Memory

  // ----- How many blocks a content needs ----------------------------------------------------------------

  /** At least one. */
  function BlocksFor(size: nat, bs: nat): (n: nat)
    requires bs > 0
    ensures n >= 1
  {
    if size == 0 then 1 else BlockOf(size - 1, bs) + 1
  }

  /** The last of them is the first one that the content does not exceed. */
  lemma BlocksForFits(size: nat, bs: nat)
    requires bs > 0
    ensures size <= Base(BlocksFor(size, bs), bs)
    ensures size > 0 ==> Base(BlocksFor(size, bs) - 1, bs) < size
  {
    if size > 0 {
      AddressJoins(size - 1, bs);
    }
  }

  lemma BlocksForIs(size: nat, bs: nat, n: nat)
    requires bs > 0 && n >= 1 && size <= Base(n, bs) && (n > 1 ==> Base(n - 1, bs) < size)
    ensures BlocksFor(size, bs) == n
  {
    BlocksForFits(size, bs);
    var m := BlocksFor(size, bs);
    if n < m {
      BlocksOrdered(n - 1, m - 1, bs);
    } else if m < n {
      BlocksOrdered(m - 1, n - 1, bs);
    }
  }

  // ----- What a list of blocks holds ----------------------------------------------------------------------

  function Piece(disk: seq<Byte>, id: Word, bs: nat): seq<Byte> {
    if id == 0 then [] else Block(disk, id - 1, bs)
  }

  function Whole(disk: seq<Byte>, ids: seq<Word>, bs: nat): seq<Byte> {
    if ids == [] then [] else Whole(disk, ids[..|ids| - 1], bs) + Piece(disk, ids[|ids| - 1], bs)
  }

  ghost predicate InRange(ids: seq<Word>, count: nat) {
    forall k :: 0 <= k < |ids| ==> 1 <= ids[k] <= count
  }

  ghost predicate Distinct(ids: seq<Word>) {
    forall k, l :: 0 <= k < l < |ids| ==> ids[k] != ids[l]
  }

  lemma {:induction false} WholeSize(disk: seq<Byte>, ids: seq<Word>, bs: nat, count: nat)
    requires InRange(ids, count) && |disk| == Base(count, bs)
    ensures |Whole(disk, ids, bs)| == Base(|ids|, bs)
  {
    if ids != [] {
      WholeSize(disk, ids[..|ids| - 1], bs, count);
      BlockFits(ids[|ids| - 1] - 1, count, bs);
    }
  }

  lemma WholeSnoc(disk: seq<Byte>, ids: seq<Word>, id: Word, bs: nat)
    ensures Whole(disk, ids + [id], bs) == Whole(disk, ids, bs) + Piece(disk, id, bs)
  {
    assert (ids + [id])[..|ids|] == ids;
  }

  /** `data` written at offset `off` of block `id`. */
  ghost predicate WroteBlock(disk: seq<Byte>, disk': seq<Byte>, id: Word, off: nat, data: seq<Byte>, bs: nat) {
    && id >= 1 && bs > 0 && off + |data| <= bs
    && Base(id - 1, bs) + bs <= |disk|
    && disk' == Splice(disk, Base(id - 1, bs) + off, data)
  }

  lemma PieceSize(disk: seq<Byte>, id: Word, bs: nat)
    requires id >= 1 && Base(id - 1, bs) + bs <= |disk|
    ensures |Piece(disk, id, bs)| == bs
  {
  }

  lemma PieceWritten(disk: seq<Byte>, disk': seq<Byte>, id: Word, off: nat, data: seq<Byte>, bs: nat)
    requires WroteBlock(disk, disk', id, off, data, bs)
    ensures |Piece(disk, id, bs)| == bs && Piece(disk', id, bs) == Splice(Piece(disk, id, bs), off, data)
  {
    PieceSize(disk, id, bs);
    SpliceBlock(disk, Base(id - 1, bs) + off, data, id - 1, off, bs, id - 1);
  }

  lemma PieceElsewhere(disk: seq<Byte>, disk': seq<Byte>, id: Word, off: nat, data: seq<Byte>, m: Word, bs: nat)
    requires WroteBlock(disk, disk', id, off, data, bs) && m != id
    ensures Piece(disk', m, bs) == Piece(disk, m, bs)
  {
    if m != 0 {
      SpliceBlock(disk, Base(id - 1, bs) + off, data, id - 1, off, bs, m - 1);
    }
  }

  lemma {:induction false} WholeSame(disk: seq<Byte>, disk': seq<Byte>, ids: seq<Word>, bs: nat)
    requires forall k :: 0 <= k < |ids| ==> Piece(disk', ids[k], bs) == Piece(disk, ids[k], bs)
    ensures Whole(disk', ids, bs) == Whole(disk, ids, bs)
  {
    if ids != [] {
      WholeSame(disk, disk', ids[..|ids| - 1], bs);
    }
  }

  /** A write into a block leaves lists without that block alone. */
  lemma WholeElsewhere(disk: seq<Byte>, disk': seq<Byte>, id: Word, off: nat, data: seq<Byte>, ids: seq<Word>, bs: nat)
    requires WroteBlock(disk, disk', id, off, data, bs) && id !in ids
    ensures Whole(disk', ids, bs) == Whole(disk, ids, bs)
  {
    forall k | 0 <= k < |ids| ensures Piece(disk', ids[k], bs) == Piece(disk, ids[k], bs) {
      PieceElsewhere(disk, disk', id, off, data, ids[k], bs);
    }
    WholeSame(disk, disk', ids, bs);
  }

  /** A write into the last block of a list is the same write at the end of what the list holds. */
  lemma WholeWritten(disk: seq<Byte>, disk': seq<Byte>, id: Word, off: nat, data: seq<Byte>, ids: seq<Word>, bs: nat, count: nat)
    requires WroteBlock(disk, disk', id, off, data, bs) && |disk| == Base(count, bs)
    requires ids != [] && ids[|ids| - 1] == id && InRange(ids, count) && Distinct(ids)
    ensures Base(|ids| - 1, bs) + off + |data| <= |Whole(disk, ids, bs)|
    ensures Whole(disk', ids, bs) == Splice(Whole(disk, ids, bs), Base(|ids| - 1, bs) + off, data)
  {
    var init := ids[..|ids| - 1];
    LastApart(ids, count);
    WholeElsewhere(disk, disk', id, off, data, init, bs);
    PieceWritten(disk, disk', id, off, data, bs);
    WholeSize(disk, init, bs, count);
    WholeLast(disk, ids, bs);
    WholeLast(disk', ids, bs);
    SpliceLater(Whole(disk, init, bs), Piece(disk, id, bs), Piece(disk', id, bs),
                Whole(disk, ids, bs), Whole(disk', ids, bs), Base(|ids| - 1, bs) + off, off, data);
  }

  lemma LastApart(ids: seq<Word>, count: nat)
    requires ids != [] && InRange(ids, count) && Distinct(ids)
    ensures ids[|ids| - 1] !in ids[..|ids| - 1] && InRange(ids[..|ids| - 1], count)
  {
  }

  lemma WholeLast(disk: seq<Byte>, ids: seq<Word>, bs: nat)
    requires ids != []
    ensures Whole(disk, ids, bs) == Whole(disk, ids[..|ids| - 1], bs) + Piece(disk, ids[|ids| - 1], bs)
  {
  }

  lemma SpliceLater(a: seq<Byte>, b: seq<Byte>, b': seq<Byte>, w: seq<Byte>, w': seq<Byte>, at: nat, off: nat, data: seq<Byte>)
    requires at == |a| + off && off + |data| <= |b| && b' == Splice(b, off, data) && w == a + b && w' == a + b'
    ensures at + |data| <= |w| && w' == Splice(w, at, data)
  {
  }

  // ----- Requests -------------------------------------------------------------------------------------------------

  /** The ids that `k` requests in a row hand out: each time the lowest free one. */
  function Requested(bits: seq<bool>, k: nat): (ids: seq<Word>)
    requires k <= FreeCount(bits) && |bits| < 0x1_0000_0000
    ensures |ids| == k
    decreases k
  {
    if k == 0 then []
    else
      FreeAfter(bits);
      [FirstFree(bits) + 1 as Word] + Requested(bits[FirstFree(bits) := true], k - 1)
  }

  function AfterRequests(bits: seq<bool>, k: nat): (r: seq<bool>)
    requires k <= FreeCount(bits)
    ensures |r| == |bits| && FreeCount(r) == FreeCount(bits) - k
    decreases k
  {
    if k == 0 then bits
    else
      FreeAfter(bits);
      AfterRequests(bits[FirstFree(bits) := true], k - 1)
  }

  lemma FreeAfter(bits: seq<bool>)
    requires FreeCount(bits) > 0
    ensures FreeCount(bits[FirstFree(bits) := true]) == FreeCount(bits) - 1
  {
    FreeCountUpdate(bits, FirstFree(bits), true);
  }

  lemma RequestedUnfold(bits: seq<bool>, k: nat)
    requires 0 < k <= FreeCount(bits) && |bits| < 0x1_0000_0000
    ensures FreeCount(bits[FirstFree(bits) := true]) == FreeCount(bits) - 1
    ensures Requested(bits, k) == [FirstFree(bits) + 1 as Word] + Requested(bits[FirstFree(bits) := true], k - 1)
    ensures AfterRequests(bits, k) == AfterRequests(bits[FirstFree(bits) := true], k - 1)
  {
    FreeAfter(bits);
  }

  /** One more request. */
  lemma {:induction false} RequestedSnoc(bits: seq<bool>, k: nat)
    requires k < FreeCount(bits) && |bits| < 0x1_0000_0000
    ensures FirstFree(AfterRequests(bits, k)) < |bits|
    ensures Requested(bits, k + 1) == Requested(bits, k) + [FirstFree(AfterRequests(bits, k)) + 1 as Word]
    ensures AfterRequests(bits, k + 1) == AfterRequests(bits, k)[FirstFree(AfterRequests(bits, k)) := true]
    decreases k
  {
    RequestedUnfold(bits, k + 1);
    if k > 0 {
      RequestedUnfold(bits, k);
      RequestedSnoc(bits[FirstFree(bits) := true], k - 1);
    }
  }

  /** Fewer requests hand out a beginning of what more of them do. */
  lemma {:induction false} RequestedPrefix(bits: seq<bool>, k: nat, m: nat)
    requires k <= m <= FreeCount(bits) && |bits| < 0x1_0000_0000
    ensures Requested(bits, m)[..k] == Requested(bits, k)
    decreases k
  {
    if k > 0 {
      RequestedUnfold(bits, k);
      RequestedUnfold(bits, m);
      RequestedPrefix(bits[FirstFree(bits) := true], k - 1, m - 1);
    }
  }

  // ----- Ownership -----------------------------------------------------------------------------------------------------

  ghost predicate Owned(lists: seq<seq<Word>>, id: Word) {
    exists i :: 0 <= i < |lists| && id in lists[i]
  }

  ghost predicate ListOk(ids: seq<Word>, count: nat) {
    InRange(ids, count) && Distinct(ids)
  }

  ghost predicate Disjoint(a: seq<Word>, b: seq<Word>) {
    forall id :: id in a ==> id !in b
  }

  /** A bit is set exactly when some list has the block. */
  ghost predicate BitOk(bits: seq<bool>, lists: seq<seq<Word>>, b: nat)
    requires b < |bits| < 0x1_0000_0000
  {
    bits[b] == Owned(lists, b + 1)
  }

  /** The set bits are exactly the disjoint union of all block lists. */
  ghost predicate OwnersOk(bits: seq<bool>, lists: seq<seq<Word>>) {
    && |bits| < 0x1_0000_0000
    && (forall i :: 0 <= i < |lists| ==> ListOk(lists[i], |bits|))
    && (forall i, j :: 0 <= i < |lists| && 0 <= j < |lists| && i != j ==> Disjoint(lists[i], lists[j]))
    && (forall b: nat {:trigger BitOk(bits, lists, b)} :: b < |bits| ==> BitOk(bits, lists, b))
  }

  /** A free block belongs to nobody. */
  lemma FreeUnowned(bits: seq<bool>, lists: seq<seq<Word>>, b: nat)
    requires OwnersOk(bits, lists) && b < |bits| && !bits[b]
    ensures forall i :: 0 <= i < |lists| ==> (b + 1) as Word !in lists[i]
  {
    assert BitOk(bits, lists, b);
  }

  /** A list gets a free block. */
  lemma ListGrows(bits: seq<bool>, lists: seq<seq<Word>>, i: nat, b: nat)
    requires OwnersOk(bits, lists) && i < |lists| && b < |bits| && !bits[b]
    ensures OwnersOk(bits[b := true], lists[i := lists[i] + [(b + 1) as Word]])
  {
    var id := (b + 1) as Word;
    var bits', lists' := bits[b := true], lists[i := lists[i] + [id]];
    FreeUnowned(bits, lists, b);
    forall c: nat | c < |bits'| ensures BitOk(bits', lists', c) {
      assert BitOk(bits, lists, c);
      if Owned(lists, c + 1) {
        var j :| 0 <= j < |lists| && (c + 1) as Word in lists[j];
        assert (c + 1) as Word in lists'[j];
      }
      if c == b {
        assert id in lists'[i];
      }
    }
  }

  /** A new list with a free block. */
  lemma ListAdded(bits: seq<bool>, lists: seq<seq<Word>>, b: nat)
    requires OwnersOk(bits, lists) && b < |bits| && !bits[b]
    ensures OwnersOk(bits[b := true], lists + [[(b + 1) as Word]])
  {
    var id := (b + 1) as Word;
    var bits', lists' := bits[b := true], lists + [[id]];
    FreeUnowned(bits, lists, b);
    forall c: nat | c < |bits'| ensures BitOk(bits', lists', c) {
      assert BitOk(bits, lists, c);
      if Owned(lists, c + 1) {
        var j :| 0 <= j < |lists| && (c + 1) as Word in lists[j];
        assert (c + 1) as Word in lists'[j];
      }
      if c == b {
        assert id in lists'[|lists|];
      }
    }
  }

  /** All bits of a list cleared. */
  function Released(bits: seq<bool>, ids: seq<Word>): (r: seq<bool>)
    ensures |r| == |bits| && forall b :: 0 <= b < |bits| ==> r[b] == (bits[b] && ((b + 1) !in ids))
  {
    seq(|bits|, b requires 0 <= b < |bits| => bits[b] && ((b + 1) !in ids))
  }

  /** A list leaves, and its blocks become free. */
  lemma ListDropped(bits: seq<bool>, lists: seq<seq<Word>>, i: nat)
    requires OwnersOk(bits, lists) && i < |lists|
    ensures OwnersOk(Released(bits, lists[i]), lists[..i] + lists[i + 1..])
  {
    var bits', lists' := Released(bits, lists[i]), lists[..i] + lists[i + 1..];
    forall a, b | 0 <= a < |lists'| && 0 <= b < |lists'| && a != b ensures Disjoint(lists'[a], lists'[b]) {
      assert lists'[a] == lists[if a < i then a else a + 1] && lists'[b] == lists[if b < i then b else b + 1];
    }
    forall a | 0 <= a < |lists'| ensures ListOk(lists'[a], |bits'|) {
      assert lists'[a] == lists[if a < i then a else a + 1];
    }
    forall c: nat | c < |bits'| ensures BitOk(bits', lists', c) {
      BitDropped(bits, lists, i, bits', lists', c);
    }
  }

  lemma BitDropped(bits: seq<bool>, lists: seq<seq<Word>>, i: nat, bits': seq<bool>, lists': seq<seq<Word>>, c: nat)
    requires OwnersOk(bits, lists) && i < |lists| && c < |bits| && bits' == Released(bits, lists[i])
    requires lists' == lists[..i] + lists[i + 1..]
    ensures BitOk(bits', lists', c)
  {
    assert BitOk(bits, lists, c);
    var id := (c + 1) as Word;
    if Owned(lists', id) {
      var j :| 0 <= j < |lists'| && id in lists'[j];
      assert lists'[j] == lists[if j < i then j else j + 1];
      assert Disjoint(lists[i], lists[if j < i then j else j + 1]);
    }
    if Owned(lists, id) && id !in lists[i] {
      var j :| 0 <= j < |lists| && id in lists[j];
      assert id in lists'[if j < i then j else j - 1];
    }
  }

  // ----- Contents ----------------------------------------------------------------------------------------------------

  /** The blocks hold the text, from the first byte of the first block on. */
  ghost predicate Holds(disk: seq<Byte>, ids: seq<Word>, text: seq<Byte>, bs: nat) {
    |text| <= |Whole(disk, ids, bs)| && Whole(disk, ids, bs)[..|text|] == text
  }

  lemma HoldsSnoc(disk: seq<Byte>, ids: seq<Word>, id: Word, text: seq<Byte>, bs: nat)
    requires Holds(disk, ids, text, bs)
    ensures Holds(disk, ids + [id], text, bs)
  {
    WholeSnoc(disk, ids, id, bs);
  }

  /** Writing right after the text, in the last block, makes the text longer. */
  lemma HoldsMore(disk: seq<Byte>, disk': seq<Byte>, ids: seq<Word>, off: nat, text: seq<Byte>, data: seq<Byte>, bs: nat, count: nat)
    requires ids != [] && ListOk(ids, count) && |disk| == Base(count, bs) && Holds(disk, ids, text, bs)
    requires |text| == Base(|ids| - 1, bs) + off && WroteBlock(disk, disk', ids[|ids| - 1], off, data, bs)
    ensures Holds(disk', ids, text + data, bs)
  {
    WholeWritten(disk, disk', ids[|ids| - 1], off, data, ids, bs, count);
    TextGrows(Whole(disk, ids, bs), Whole(disk', ids, bs), text, data);
  }

  lemma TextGrows(w: seq<Byte>, w': seq<Byte>, text: seq<Byte>, data: seq<Byte>)
    requires |text| + |data| <= |w| && w[..|text|] == text && w' == Splice(w, |text|, data)
    ensures w'[..|text| + |data|] == text + data
  {
  }

  /** No byte of the content lies on the disk's last byte, which the disk refuses to touch. */
  ghost predicate InsideDisk(ids: seq<Word>, size: nat, count: nat, bs: nat) {
    forall k :: 0 <= k < |ids| && ids[k] as nat == count ==> size < Base(k + 1, bs)
  }

  /** A write that ends before the content of the list does is one that the disk accepts. */
  lemma AcceptedWrite(ids: seq<Word>, k: nat, size: nat, count: nat, bs: nat, off: nat, n: nat, f: nat)
    requires k < |ids| && f < count && ids[k] == f + 1 && InsideDisk(ids, size, count, bs)
    requires bs > 0 && off + n <= bs && Base(k, bs) + off + n <= size
    ensures Base(f, bs) + off + n < Base(count, bs)
  {
    if f + 1 == count {
      assert size < Base(k + 1, bs);
      BlockEnds(k, bs);
    }
    EndsBefore(f, count, bs, off + n);
  }

  lemma BlockEnds(k: nat, bs: nat)
    ensures Base(k + 1, bs) == Base(k, bs) + bs
  {
  }

  lemma EndsBefore(f: nat, count: nat, bs: nat, n: nat)
    requires f < count && bs > 0 && n <= bs && (f + 1 == count ==> n < bs)
    ensures Base(f, bs) + n < Base(count, bs)
  {
    BlockEnds(f, bs);
    if f + 1 < count {
      BlocksOrdered(f + 1, count, bs);
    }
  }

  /** Text that goes beyond its blocks needs more of them. */
  lemma NeedsMore(size: nat, n: nat, bs: nat)
    requires bs > 0 && Base(n, bs) < size
    ensures n < BlocksFor(size, bs)
  {
    BlocksForFits(size, bs);
    if BlocksFor(size, bs) < n {
      BlocksOrdered(BlocksFor(size, bs), n, bs);
    }
  }

  lemma BlocksForGrows(size: nat, n: nat, bs: nat)
    requires bs > 0
    ensures BlocksFor(size, bs) <= BlocksFor(size + n, bs)
  {
    BlocksForFits(size, bs);
    if size > 0 {
      NeedsMore(size + n, BlocksFor(size, bs) - 1, bs);
    }
  }
}
