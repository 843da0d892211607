/** The block file system: a bitmap of used blocks, a disk cut into blocks, and the configuration records of logs and
    files, whose sizes and block lists are kept as text. */
module FileSystem {
  import opened Memory
  import opened Storage
  import opened Appends
  import Bitmap
  import Text

  datatype Kind = Log | File

  /** A record as its configuration file has it. */
  datatype Entry = Entry(kind: Kind, size: string, blocks: string, count: string)

  /** A list without its element `i`. */
  function Without<T>(s: seq<T>, i: nat): (r: seq<T>)
    requires i < |s|
    ensures |r| == |s| - 1 && forall m :: 0 <= m < |r| ==> r[m] == s[if m < i then m else m + 1]
  {
    s[..i] + s[i + 1..]
  }

  /** The record describes this block list and this size. */
  ghost predicate Describes(e: Entry, ids: seq<Word>, size: nat) {
    && e.size == Text.PrintInt(size) && e.blocks == Text.PrintList(ids) && ids != []
    && (e.kind.File? ==> e.count == Text.PrintInt(|ids|))
  }

  // ----- Repair -----------------------------------------------------------------------------------------------------

  /** The bits below `m` that belong to nobody cleared, the others as they were. */
  ghost function Repaired(bits: seq<bool>, lists: seq<seq<Word>>, m: nat): (r: seq<bool>)
    requires |bits| < 0x1_0000_0000
    ensures |r| == |bits|
    ensures forall b :: 0 <= b < |bits| ==> r[b] == (bits[b] && (b < m ==> Owned(lists, b + 1)))
  {
    seq(|bits|, b requires 0 <= b < |bits| => bits[b] && (b < m ==> Owned(lists, b + 1)))
  }

  /** The bits that are set and belong to somebody. */
  ghost function OwnedBits(bits: seq<bool>, lists: seq<seq<Word>>): (r: seq<bool>)
    requires |bits| < 0x1_0000_0000
    ensures |r| == |bits| && forall b :: 0 <= b < |bits| ==> r[b] == (bits[b] && Owned(lists, b + 1))
  {
    seq(|bits|, b requires 0 <= b < |bits| => bits[b] && Owned(lists, b + 1))
  }

  /** The first bit that repair never looks at, since the bitmap's size in bytes is rounded down. */
  function Checked(count: nat): (m: nat)
    ensures m <= count < m + 8 && m % 8 == 0
  {
    count / 8 * 8
  }

  ghost predicate TailClean(bits: seq<bool>, lists: seq<seq<Word>>, m: nat)
    requires |bits| < 0x1_0000_0000
  {
    forall b :: m <= b < |bits| && bits[b] ==> Owned(lists, b + 1)
  }

  /** Repair yields the owned part of the bitmap exactly when the bits that it never looks at need no clearing. */
  lemma RepairIff(bits: seq<bool>, lists: seq<seq<Word>>)
    requires |bits| < 0x1_0000_0000
    ensures Repaired(bits, lists, Checked(|bits|)) == OwnedBits(bits, lists) <==> TailClean(bits, lists, Checked(|bits|))
    ensures |bits| % 8 == 0 ==> Repaired(bits, lists, Checked(|bits|)) == OwnedBits(bits, lists)
  {
    var l, r := Repaired(bits, lists, Checked(|bits|)), OwnedBits(bits, lists);
    if l == r {
      forall b | Checked(|bits|) <= b < |bits| && bits[b] ensures Owned(lists, b + 1) {
        assert l[b] == r[b];
      }
    }
  }

  /** A second repair changes nothing. */
  lemma RepairTwice(bits: seq<bool>, lists: seq<seq<Word>>, m: nat)
    requires |bits| < 0x1_0000_0000
    ensures Repaired(Repaired(bits, lists, m), lists, m) == Repaired(bits, lists, m)
  {
  }

  /** From a bitmap that only gained bits, repair gets back the bitmap that the lists call for, unless a bit that it
      never looks at was set. */
  lemma RepairRestores(bits: seq<bool>, broken: seq<bool>, lists: seq<seq<Word>>)
    requires OwnersOk(bits, lists) && |broken| == |bits| && forall b :: 0 <= b < |bits| && bits[b] ==> broken[b]
    ensures Repaired(broken, lists, Checked(|bits|)) == bits <==>
            forall b :: Checked(|bits|) <= b < |bits| ==> broken[b] == bits[b]
  {
    var l, m := Repaired(broken, lists, Checked(|bits|)), Checked(|bits|);
    forall b: nat | b < |bits| ensures l[b] == if b < m then bits[b] else broken[b] {
      assert BitOk(bits, lists, b);
    }
    if forall b :: m <= b < |bits| ==> broken[b] == bits[b] {
      assert l == bits;
    }
  }

  // ----- The component ---------------------------------------------------------------------------------------------------

  class FileSystem {
    const blockSize: nat
    const count: nat
    const bitmap: array<bv8>
    const disk: array<Byte>
    var entries: seq<Entry>
    ghost var lists: seq<seq<Word>>
    ghost var sizes: seq<nat>
    ghost var texts: seq<seq<Byte>>

    /** A clean initialization: nothing used, nothing stored. */
    constructor (blockSize: nat, count: nat)
      requires blockSize > 0 && 0 < count < 0x1_0000_0000
      ensures Valid() && fresh(bitmap) && fresh(disk) && this.blockSize == blockSize && this.count == count
      ensures entries == [] && forall b :: 0 <= b < count ==> !B()[b]
    {
      this.blockSize, this.count := blockSize, count;
      bitmap := new bv8[count + 1](_ => 0);
      disk := new Byte[Base(count, blockSize)](_ => 0);
      entries, lists, sizes, texts := [], [], [], [];
      new;
      forall b: nat | b < count ensures !B()[b] && BitOk(B(), lists, b) {
        Bitmap.ZeroByte(b % 8);
      }
    }

    ghost predicate Shape() {
      bitmap as object != disk as object && blockSize > 0 && 0 < count < 0x1_0000_0000 && bitmap.Length == count + 1 && disk.Length == Base(count, blockSize)
    }

    ghost function B(): (r: seq<bool>)
      requires Shape()
      reads bitmap
      ensures |r| == count
    {
      Bitmap.Bits(bitmap[..], count)
    }

    ghost function S(): (s: Store)
      requires Shape()
      reads bitmap, disk
      ensures StoreOk(s, blockSize)
    {
      Store(B(), disk[..])
    }

    /** The records describe the lists, and sizes are what a signed 32-bit number holds. */
    ghost predicate Described()
      reads this
    {
      && |lists| == |entries| && |sizes| == |entries| && |texts| == |entries|
      && forall i :: 0 <= i < |entries| ==> Describes(entries[i], lists[i], sizes[i]) && sizes[i] < 0x8000_0000
    }

    /** The set bits are exactly the disjoint union of the block lists that the records name. */
    ghost predicate Valid()
      reads this, bitmap
    {
      Shape() && Described() && OwnersOk(B(), lists)
    }

    ghost predicate RightAt(i: nat)
      requires Valid() && i < |entries|
      reads this, bitmap, disk
    {
      Right(disk[..], lists[i], sizes[i], texts[i], blockSize)
    }

    // ----- Blocks ---------------------------------------------------------------------------------------------------

    /** The lowest free block becomes used; 0 when there is none. */
    method RequestBlock() returns (id: Word)
      requires Shape()
      modifies bitmap
      ensures FirstFree(old(B())) < count ==> id == FirstFree(old(B())) + 1 && B() == old(B())[id - 1 := true]
      ensures FirstFree(old(B())) == count ==> id == 0 && B() == old(B())
    {
      ghost var bits := B();
      for i := 0 to count
        invariant B() == bits && forall b :: 0 <= b < i ==> bits[b]
      {
        if !Bitmap.Test(bitmap[..], i) {
          FirstFreeIs(bits, i);
          Bitmap.SetBit(bitmap, i, count);
          return i + 1;
        }
      }
      id := 0;
    }

    /** Releasing block 0 is outside the bitmap. */
    method ReleaseBlock(id: Word)
      requires Shape() && 1 <= id <= count
      modifies bitmap
      ensures B() == old(B())[id - 1 := false]
    {
      Bitmap.CleanBit(bitmap, id - 1, count);
    }

    /** Writes as much of the data as the block has room for. The disk refuses to touch its last byte. */
    method WriteInBlock(id: Word, data: seq<Byte>, off: nat) returns (n: nat)
      requires Shape() && 1 <= id <= count && off < blockSize
      requires Base(id - 1, blockSize) + off + Min(|data|, blockSize - off) < disk.Length
      modifies disk
      ensures n == Min(|data|, blockSize - off)
      ensures WroteBlock(old(disk[..]), disk[..], id, off, data[..n], blockSize)
    {
      n := if |data| + off < blockSize then |data| else |data| - (|data| + off - blockSize);
      BlockFits(id - 1, count, blockSize);
      Copy(disk, Base(id - 1, blockSize) + off, data[..n]);
    }

    /** Reads at most `n` bytes from the beginning of a block. */
    method ReadInBlock(id: Word, n: nat) returns (data: seq<Byte>)
      requires Shape() && 1 <= id <= count
      requires Base(id - 1, blockSize) + Min(n, blockSize) < disk.Length
      ensures |Piece(disk[..], id, blockSize)| == blockSize
      ensures data == Piece(disk[..], id, blockSize)[..Min(n, blockSize)]
    {
      var at, m := Base(id - 1, blockSize), if n < blockSize then n else n - (n - blockSize);
      BlockFits(id - 1, count, blockSize);
      data := disk[at..at + m];
      ReadIs(disk[..], id - 1, m, blockSize, count);
    }

    static lemma ReadIs(d: seq<Byte>, k: nat, m: nat, bs: nat, count: nat)
      requires k < count && |d| == Base(count, bs) && m <= bs && Base(k, bs) + bs <= |d|
      ensures Block(d, k, bs)[..m] == d[Base(k, bs)..Base(k, bs) + m] && |Block(d, k, bs)| == bs
    {
      BlockSlice(d, k, 0, m, bs);
    }

    /** Writes `data` after the first `off` bytes of the last block of a list, asking for more blocks when one is full. */
    method Spill(ids0: seq<Word>, data: seq<Byte>, off: nat, ghost j: Job) returns (ids: seq<Word>)
      requires Shape() && JobOk(j) && j.start == S() && j.bs == blockSize && j.ids == ids0 && j.data == data && j.off == off
      modifies bitmap, disk
      ensures Appended(j.start, S(), j.lists[j.i := j.ids], j.lists[j.i := ids], j.i, From(j), j.data,
                       Asked(j.off, |j.data|, j.bs), j.bs)
    {
      hide Spilling, JobOk, Appended, Requested, AfterRequests, FreeCount, FirstFree;
      ghost var k, s := 0, j.start;
      ids := ids0;
      var w;
      w, s := SpillHere(j, ids0, data, off);
      while w < |data|
        invariant s == S() && w <= |data| && Spilling(j, k, w, s, ids)
        decreases |data| - w
      {
        ids, w, s := SpillOver(j, k, w, ids, data, s);
        k := k + 1;
      }
      SpillDone(j, s, ids, k);
    }

    /** The bytes that fit in the last block. */
    method SpillHere(ghost j: Job, ids: seq<Word>, data: seq<Byte>, off: nat) returns (w: nat, ghost s: Store)
      requires Shape() && JobOk(j) && j.start == S() && j.bs == blockSize && j.ids == ids && j.data == data && j.off == off
      modifies disk
      ensures s == S() && w <= |data| && Spilling(j, 0, w, s, ids)
    {
      FirstAccepted(j, Min(|data|, blockSize - off));
      w := WriteInBlock(ids[|ids| - 1], data, off);
      s := S();
      SpillFirst(j, s.disk, w);
    }

    /** One more block for bytes that are left over. */
    method SpillOver(ghost j: Job, ghost k: nat, w: nat, ids: seq<Word>, data: seq<Byte>, ghost s: Store)
      returns (ids': seq<Word>, w': nat, ghost s': Store)
      requires Shape() && JobOk(j) && j.bs == blockSize && |j.start.bits| == count && j.data == data
      requires w < |data| && s == S() && Spilling(j, k, w, s, ids)
      modifies bitmap, disk
      ensures s' == S() && w < w' <= |data| && Spilling(j, k + 1, w', s', ids')
    {
      hide Requested, AfterRequests, FreeCount, Whole, OwnersOk, Reached, Holds, OthersKept, InsideDisk;
      ghost var more, f := SpillNext(j.start.bits, j.off, |data|, k, w, s.bits, blockSize);
      SpillAccepted(j.ids, more, j.off, |data|, k, w, f, count, blockSize);
      var id, n := WriteInNext(data[w..]);
      s' := S();
      assert data[w..][..n] == j.data[w..w + n];
      SpillStep(j, k, w, s, ids, id, s'.disk, n);
      ids', w' := ids + [id], w + n;
    }

    /** A block is asked for and written from its beginning on. */
    method WriteInNext(data: seq<Byte>) returns (id: Word, n: nat)
      requires Shape() && FirstFree(B()) < count
      requires Base(FirstFree(B()), blockSize) + Min(|data|, blockSize) < disk.Length
      modifies bitmap, disk
      ensures id == FirstFree(old(B())) + 1 && n == Min(|data|, blockSize)
      ensures B() == old(B())[id - 1 := true] && WroteBlock(old(disk[..]), disk[..], id, 0, data[..n], blockSize)
    {
      id := RequestBlock();
      n := WriteInBlock(id, data, 0);
    }

    // ----- Logs -------------------------------------------------------------------------------------------------------

    /** A new log with one block and no content. Without a free block it names block 0, and the records are no longer
        sound. */
    method CreateLog()
      requires Valid()
      modifies this`entries, this`lists, this`sizes, this`texts, bitmap
      ensures var id: Word := if FirstFree(old(B())) < count then FirstFree(old(B())) + 1 else 0;
              && entries == old(entries) + [Entry(Log, "0", "[" + Text.PrintWord(id) + "]", "")]
              && lists == old(lists) + [[id]] && sizes == old(sizes) + [0] && texts == old(texts) + [[]]
              && (id > 0 ==> B() == old(B())[id - 1 := true])
      ensures Valid() <==> FirstFree(old(B())) < count
      ensures FirstFree(old(B())) < count ==> RightAt(|entries| - 1)
    {
      ghost var bits := B();
      var id := RequestBlock();
      AddEntry(Entry(Log, "0", "[" + Text.PrintWord(id) + "]", ""), id);
      if id > 0 {
        ListAdded(bits, old(lists), id - 1);
      } else {
        assert lists[|lists| - 1][0] == 0 && !InRange(lists[|lists| - 1], count);
      }
    }

    method AddEntry(e: Entry, ghost id: Word)
      requires Described() && e.size == "0" && e.blocks == "[" + Text.PrintWord(id) + "]" && (e.kind.File? ==> e.count == "1")
      modifies this`entries, this`lists, this`sizes, this`texts
      ensures Described() && entries == old(entries) + [e]
      ensures lists == old(lists) + [[id]] && sizes == old(sizes) + [0] && texts == old(texts) + [[]]
    {
      Text.OneInList(id);
      entries := entries + [e];
      lists, sizes, texts := lists + [[id]], sizes + [0], texts + [[]];
    }

    /** Appends to a log: the record is parsed, the bytes are written, the record is printed again. */
    method AddContent(i: nat, content: seq<Byte>)
      requires Valid() && i < |entries| && entries[i].kind.Log? && sizes[i] + |content| < 0x8000_0000
      requires LogAsks(sizes[i], |content|, blockSize) <= FreeCount(B())
      requires InsideDisk(lists[i] + Requested(B(), LogAsks(sizes[i], |content|, blockSize)),
                          LogFrom(|lists[i]|, sizes[i], blockSize) + |content|, count, blockSize)
      modifies this`entries, this`lists, this`sizes, this`texts, bitmap, disk
      ensures Valid() && |entries| == |old(entries)| && entries[i].kind == old(entries)[i].kind
      ensures Appended(old(S()), S(), old(lists), lists, i, LogFrom(|old(lists)[i]|, old(sizes)[i], blockSize), content,
                       LogAsks(old(sizes)[i], |content|, blockSize), blockSize)
      ensures sizes == old(sizes)[i := old(sizes)[i] + |content|] && texts == old(texts)[i := old(texts)[i] + content]
      ensures forall m :: 0 <= m < |entries| && m != i ==> entries[m] == old(entries)[m] && RightAt(m) == old(RightAt(m))
      ensures old(RightAt(i)) ==> Stored(disk[..], lists[i], sizes[i], texts[i], blockSize)
      ensures old(RightAt(i)) ==> (RightAt(i) <==> !(content == [] && Aligned(old(sizes)[i], blockSize)))
    {
      hide Requested, AfterRequests, Whole, InsideDisk, FreeCount, Appended;
      ghost var s := S();
      var ids, size := ReadEntry(i);
      ids := WriteLog(i, ids, size, content);
      AppendedSound(s, S(), lists, lists[i := ids], i, LogFrom(|lists[i]|, size, blockSize), content,
                    LogAsks(size, |content|, blockSize), blockSize);
      WriteEntry(i, ids, |content| + size, texts[i] + content);
      forall m | 0 <= m < |entries| && m != i ensures RightAt(m) == old(RightAt(m)) {
        OthersRight(s, S(), old(lists), lists, i, LogFrom(|old(lists)[i]|, size, blockSize), content,
                    LogAsks(size, |content|, blockSize), blockSize, m, sizes[m], texts[m]);
      }
      if old(RightAt(i)) {
        LogAppended(s, S(), old(lists), lists, i, size, old(texts[i]), content, blockSize);
      }
    }

    /** The block list and the size that a record describes. */
    method ReadEntry(i: nat) returns (ids: seq<Word>, size: int)
      requires Described() && i < |entries|
      ensures ids == lists[i] && size == sizes[i]
    {
      Text.ListRoundTrip(lists[i]);
      Text.IntRoundTrip(sizes[i]);
      ids := Text.ParseList(entries[i].blocks);
      size := Text.Atoi(entries[i].size);
    }

    /** The record printed again. Logs have no block count. */
    method WriteEntry(i: nat, ids: seq<Word>, size: nat, ghost text: seq<Byte>)
      requires Described() && i < |entries| && ids != [] && size < 0x8000_0000
      modifies this`entries, this`lists, this`sizes, this`texts
      ensures Described() && |entries| == |old(entries)| && entries[i].kind == old(entries)[i].kind
      ensures forall m :: 0 <= m < |entries| && m != i ==> entries[m] == old(entries)[m]
      ensures lists == old(lists)[i := ids] && sizes == old(sizes)[i := size] && texts == old(texts)[i := text]
    {
      var e := entries[i];
      var list := Text.WriteList(ids);
      var n := if e.kind.File? then Text.PrintInt(|ids|) else e.count;
      entries := entries[i := Entry(e.kind, Text.PrintInt(size), list, n)];
      lists, sizes, texts := lists[i := ids], sizes[i := size], texts[i := text];
    }

    /** The writes of an append to a log: a block of its own when the content ends where a block does. */
    method WriteLog(i: nat, ids0: seq<Word>, size: nat, content: seq<Byte>) returns (ids: seq<Word>)
      requires Shape() && i < |lists| && ids0 == lists[i] && ids0 != [] && OwnersOk(B(), lists)
      requires LogAsks(size, |content|, blockSize) <= FreeCount(B())
      requires InsideDisk(lists[i] + Requested(B(), LogAsks(size, |content|, blockSize)),
                          LogFrom(|lists[i]|, size, blockSize) + |content|, count, blockSize)
      modifies bitmap, disk
      ensures Appended(old(S()), S(), lists, lists[i := ids], i, LogFrom(|ids0|, size, blockSize), content,
                       LogAsks(size, |content|, blockSize), blockSize)
    {
      hide Appended, Requested, AfterRequests, Whole, OwnersOk, InsideDisk, FreeCount;
      ghost var s := S();
      var off := OffsetOf(size, blockSize);
      if off == 0 && size != 0 {
        ghost var free, j := JobFresh(s, lists, i, content, blockSize);
        var id := RequestBlock();
        ids := Spill(ids0 + [id], content, off, j);
        AppendedOneMore(s, S(), lists, lists[i := ids], i, content, Asked(0, |content|, blockSize), blockSize, free);
      } else {
        ghost var j := JobHere(s, lists, i, off, content, blockSize);
        ids := Spill(ids0, content, off, j);
      }
    }

    /** The content read back, block after block. */
    method GetContent(i: nat) returns (text: seq<Byte>)
      requires Valid() && i < |entries| && Stored(disk[..], lists[i], sizes[i], texts[i], blockSize)
      requires InsideDisk(lists[i], sizes[i], count, blockSize)
      ensures text == texts[i]
    {
      hide Whole, Piece, OwnersOk, BlocksFor, InsideDisk, Distinct, Holds;
      var ids, size := ReadEntry(i);
      assert ListOk(ids, count) by { ListsOk(B(), lists, i); }
      text := [];
      ReadBegins(disk[..], ids, size, blockSize);
      for k := 0 to |ids|
        invariant ReadUpto(disk[..], ids, k, size, text, blockSize) && |text| == Min(size, Base(k, blockSize))
      {
        ReadAccepted(ids, k, size, Min(size - |text|, blockSize), count, blockSize);
        var data := ReadInBlock(ids[k], size - |text|);
        ReadStep(disk[..], ids, k, size, text, data, count, blockSize);
        text := text + data;
      }
      ReadAll(disk[..], ids, size, texts[i], text, blockSize);
    }

    static lemma ListsOk(bits: seq<bool>, lists: seq<seq<Word>>, i: nat)
      requires OwnersOk(bits, lists) && i < |lists|
      ensures ListOk(lists[i], |bits|)
    {
    }

    /** Deletes a log, which gives its blocks back and leaves every other log and file alone. */
    method DeleteLog(i: nat)
      requires Valid() && i < |entries| && entries[i].kind.Log?
      modifies this`entries, this`lists, this`sizes, this`texts, bitmap
      ensures Valid() && B() == Released(old(B()), old(lists)[i])
      ensures entries == Without(old(entries), i) && lists == Without(old(lists), i)
      ensures sizes == Without(old(sizes), i) && texts == Without(old(texts), i)
    {
      ghost var bits := B();
      var ids, size := ReadEntry(i);
      assert ListOk(ids, count) by { ListsOk(bits, lists, i); }
      ReleaseBlocks(ids, |ids|);
      DropEntry(i, bits);
    }

    /** Deletes a file: the blocks that its block count covers are given back. */
    method DeleteFile(i: nat)
      requires Valid() && i < |entries| && entries[i].kind.File?
      modifies this`entries, this`lists, this`sizes, this`texts, bitmap
      ensures Valid() && B() == Released(old(B()), old(lists)[i])
      ensures entries == Without(old(entries), i) && lists == Without(old(lists), i)
      ensures sizes == Without(old(sizes), i) && texts == Without(old(texts), i)
    {
      ghost var bits := B();
      var ids, size := ReadEntry(i);
      assert ListOk(ids, count) by { ListsOk(bits, lists, i); }
      Text.IntRoundTrip(|ids|);
      ReleaseBlocks(ids, Text.Atoi(entries[i].count));
      DropEntry(i, bits);
    }

    method ReleaseBlocks(ids: seq<Word>, n: nat)
      requires Shape() && InRange(ids, count) && n == |ids|
      modifies bitmap
      ensures B() == Released(old(B()), ids)
    {
      ghost var bits := B();
      ReleasedAll(bits, ids);
      for k := 0 to n
        invariant B() == Released(bits, ids[..k])
      {
        ReleasedSnoc(bits, ids, k);
        ReleaseBlock(ids[k]);
      }
    }

    method DropEntry(i: nat, ghost bits: seq<bool>)
      requires Shape() && Described() && i < |entries| && OwnersOk(bits, lists) && B() == Released(bits, lists[i])
      modifies this`entries, this`lists, this`sizes, this`texts
      ensures Valid()
      ensures entries == Without(old(entries), i) && lists == Without(old(lists), i)
      ensures sizes == Without(old(sizes), i) && texts == Without(old(texts), i)
    {
      hide OwnersOk;
      ListDropped(bits, lists, i);
      hide Without;
      entries := Without(entries, i);
      lists, sizes, texts := Without(lists, i), Without(sizes, i), Without(texts, i);
    }

    // ----- Files -------------------------------------------------------------------------------------------------------

    /** A new file with one block that begins with the byte that ends its empty content. */
    method CreateFile()
      requires Valid() && FirstFree(B()) < count && InsideDisk([FirstFree(B()) + 1], 1, count, blockSize)
      modifies this`entries, this`lists, this`sizes, this`texts, bitmap, disk
      ensures Valid() && B() == old(B())[FirstFree(old(B())) := true]
      ensures lists == old(lists) + [[FirstFree(old(B())) + 1]] && sizes == old(sizes) + [0] && texts == old(texts) + [[]]
      ensures |entries| == |old(entries)| + 1 && entries[..|entries| - 1] == old(entries) && entries[|entries| - 1].kind.File?
      ensures RightAt(|entries| - 1)
      ensures forall m :: 0 <= m < |old(entries)| ==> RightAt(m) == old(RightAt(m))
    {
      hide Whole, Appended, BlocksFor, FreeCount, OwnersOk;
      ghost var bits, d := B(), disk[..];
      var id := RequestBlock();
      FileCreated(bits, lists, id, count, blockSize);
      var n := WriteInBlock(id, [0], 0);
      AddEntry(Entry(File, "0", "[" + Text.PrintWord(id) + "]", "1"), id);
      forall m | 0 <= m < |old(entries)| ensures RightAt(m) == old(RightAt(m)) {
        NewBlockElsewhere(bits, old(lists), m, d, disk[..], id, [0][..n], blockSize);
      }
      EmptyRight(disk[..], id, blockSize);
    }

    static lemma EmptyRight(d: seq<Byte>, id: Word, bs: nat)
      requires bs > 0
      ensures Right(d, [id], 0, [], bs)
    {
    }

    static lemma FileCreated(bits: seq<bool>, lists: seq<seq<Word>>, id: Word, count: nat, bs: nat)
      requires OwnersOk(bits, lists) && |bits| == count && FirstFree(bits) < count && id == FirstFree(bits) + 1
      requires bs > 0 && InsideDisk([id], 1, count, bs)
      ensures OwnersOk(bits[id - 1 := true], lists + [[id]])
      ensures Base(id - 1, bs) + 0 + Min(1, bs) < Base(count, bs)
    {
      ListAdded(bits, lists, id - 1);
      assert [id][0] == id;
      AcceptedWrite([id], 0, 1, count, bs, 0, 1, id - 1);
    }

    static lemma NewBlockElsewhere(bits: seq<bool>, lists: seq<seq<Word>>, m: nat, d: seq<Byte>, d': seq<Byte>, id: Word,
                                   data: seq<Byte>, bs: nat)
      requires OwnersOk(bits, lists) && m < |lists| && 1 <= id as nat <= |bits| && !bits[id - 1]
      requires WroteBlock(d, d', id, 0, data, bs)
      ensures Whole(d', lists[m], bs) == Whole(d, lists[m], bs)
    {
      FreeUnowned(bits, lists, id - 1);
      WholeElsewhere(d, d', id, 0, data, lists[m], bs);
    }

    /** Fills a file with `amount` bytes more. Unlike a log, a file whose content ends where a block does gets its last
        block overwritten. */
    method AddFill(i: nat, amount: nat, fill: Byte)
      requires Valid() && i < |entries| && entries[i].kind.File? && amount > 0 && sizes[i] + amount < 0x8000_0000
      requires Asked(OffsetOf(sizes[i], blockSize), amount, blockSize) <= FreeCount(B())
      requires InsideDisk(lists[i] + Requested(B(), Asked(OffsetOf(sizes[i], blockSize), amount, blockSize)),
                          FileFrom(|lists[i]|, sizes[i], blockSize) + amount + 1, count, blockSize)
      modifies this`entries, this`lists, this`sizes, this`texts, bitmap, disk
      ensures Valid() && |entries| == |old(entries)| && entries[i].kind == old(entries)[i].kind
      ensures Appended(old(S()), S(), old(lists), lists, i, FileFrom(|old(lists)[i]|, old(sizes)[i], blockSize),
                       seq(amount, _ => fill), Asked(OffsetOf(old(sizes)[i], blockSize), amount, blockSize), blockSize)
      ensures sizes == old(sizes)[i := old(sizes)[i] + amount]
      ensures texts == old(texts)[i := old(texts)[i] + seq(amount, _ => fill)]
      ensures forall m :: 0 <= m < |entries| && m != i ==> entries[m] == old(entries)[m] && RightAt(m) == old(RightAt(m))
      ensures old(RightAt(i)) ==> (RightAt(i) <==> !Aligned(old(sizes)[i], blockSize))
      ensures old(RightAt(i)) && Aligned(old(sizes)[i], blockSize) ==>
                Overwrote(disk[..], lists[i], old(sizes)[i], old(texts)[i], seq(amount, _ => fill), blockSize)
    {
      hide Requested, AfterRequests, Whole, InsideDisk, FreeCount, Appended, Right, Aligned;
      ghost var s := S();
      var data := seq(amount, _ => fill);
      var ids, size := ReadEntry(i);
      ids := WriteFile(i, ids, size, data);
      AppendedSound(s, S(), lists, lists[i := ids], i, FileFrom(|lists[i]|, size, blockSize), data,
                    Asked(OffsetOf(size, blockSize), amount, blockSize), blockSize);
      WriteEntry(i, ids, size + amount, texts[i] + data);
      forall m | 0 <= m < |entries| && m != i ensures RightAt(m) == old(RightAt(m)) {
        OthersRight(s, S(), old(lists), lists, i, FileFrom(|old(lists)[i]|, size, blockSize), data,
                    Asked(OffsetOf(size, blockSize), amount, blockSize), blockSize, m, sizes[m], texts[m]);
      }
      if old(RightAt(i)) {
        FileAppended(s, S(), old(lists), lists, i, size, old(texts[i]), data, blockSize);
      }
    }

    /** The writes of a filling, and the byte that ends the content when it does not end where a block does. */
    method WriteFile(i: nat, ids0: seq<Word>, size: nat, data: seq<Byte>) returns (ids: seq<Word>)
      requires Shape() && i < |lists| && ids0 == lists[i] && ids0 != [] && OwnersOk(B(), lists) && data != []
      requires Asked(OffsetOf(size, blockSize), |data|, blockSize) <= FreeCount(B())
      requires InsideDisk(lists[i] + Requested(B(), Asked(OffsetOf(size, blockSize), |data|, blockSize)),
                          FileFrom(|lists[i]|, size, blockSize) + |data| + 1, count, blockSize)
      modifies bitmap, disk
      ensures Appended(old(S()), S(), lists, lists[i := ids], i, FileFrom(|ids0|, size, blockSize), data,
                       Asked(OffsetOf(size, blockSize), |data|, blockSize), blockSize)
    {
      hide Appended, Requested, AfterRequests, Whole, OwnersOk, InsideDisk, FreeCount;
      ghost var s := S();
      var off := OffsetOf(size, blockSize);
      ghost var k := Asked(off, |data|, blockSize);
      InsideLess(lists[i] + Requested(B(), k), FileFrom(|lists[i]|, size, blockSize) + |data|, count, blockSize);
      ghost var j := JobHere(s, lists, i, off, data, blockSize);
      ids := Spill(ids0, data, off, j);
      ghost var s' := S();
      var end := OffsetOf(size + |data|, blockSize);
      if end != 0 {
        EndPlace(s, s', lists, lists[i := ids], i, size, data, end, blockSize);
        var n := WriteInBlock(ids[|ids| - 1], [0], end);
        EndWritten(s, s', disk[..], lists, lists[i := ids], i, FileFrom(|ids0|, size, blockSize), data, k, blockSize, end, [0][..n]);
        assert S() == Store(s'.bits, disk[..]);
      }
    }

    static lemma InsideLess(ids: seq<Word>, size: nat, count: nat, bs: nat)
      requires InsideDisk(ids, size + 1, count, bs)
      ensures InsideDisk(ids, size, count, bs)
    {
    }

    static lemma EndPlace(s: Store, s': Store, lists: seq<seq<Word>>, lists': seq<seq<Word>>, i: nat, size: nat, data: seq<Byte>,
                          end: nat, bs: nat)
      requires StoreOk(s, bs) && StoreOk(s', bs) && i < |lists| && lists[i] != [] && OwnersOk(s.bits, lists) && data != []
      requires end == OffsetOf(size + |data|, bs) && end > 0
      requires Appended(s, s', lists, lists', i, FileFrom(|lists[i]|, size, bs), data, Asked(OffsetOf(size, bs), |data|, bs), bs)
      requires InsideDisk(lists[i] + Requested(s.bits, Asked(OffsetOf(size, bs), |data|, bs)),
                          FileFrom(|lists[i]|, size, bs) + |data| + 1, |s.bits|, bs)
      ensures i < |lists'| && lists'[i] != [] && 1 <= lists'[i][|lists'[i]| - 1] as nat <= |s.bits|
      ensures Base(lists'[i][|lists'[i]| - 1] - 1, bs) + end + Min(1, bs - end) < Base(|s.bits|, bs)
      ensures |Upto(Whole(s.disk, lists[i], bs), FileFrom(|lists[i]|, size, bs)) + data| == Base(|lists'[i]| - 1, bs) + end
    {
      hide Whole, OwnersOk, InsideDisk, Requested, AfterRequests, FreeCount, Holds, OthersKept;
      ListsOk(s.bits, lists, i);
      ListsOk(s'.bits, lists', i);
      EndFrom(|lists[i]|, size, |data|, bs);
      EndAccepted(lists'[i], FileFrom(|lists[i]|, size, bs) + |data|, end, |s.bits|, bs);
      WholeSize(s.disk, lists[i], bs, |s.bits|);
      BlockEnds(|lists[i]| - 1, bs);
    }

    // ----- Repair -----------------------------------------------------------------------------------------------------

    /** Clears the bits that belong to no log or file, whatever the bitmap was, and tells whether it cleared any. */
    method CheckBitmap() returns (sabotaged: bool)
      requires Shape() && Described()
      modifies bitmap
      ensures B() == Repaired(old(B()), lists, Checked(count))
      ensures sabotaged <==> B() != old(B())
    {
      ghost var bits := B();
      var ids := BlockIds();
      ghost var all := ids;
      sabotaged := false;
      for i := 0 to count / 8 * 8
        invariant B() == Repaired(bits, lists, i)
        invariant forall id: Word :: i < id as nat <= count ==> (id in ids <==> Owned(lists, id))
        invariant sabotaged <==> B() != bits
      {
        RepairedNext(bits, lists, i);
        if Bitmap.Test(bitmap[..], i) {
          if ids != [] && i + 1 in ids {
            ids := RemoveFirst(ids, i + 1);
          } else {
            Bitmap.CleanBit(bitmap, i, count);
            sabotaged := true;
            assert !B()[i] && bits[i];
          }
        }
      }
    }

    static lemma RepairedNext(bits: seq<bool>, lists: seq<seq<Word>>, i: nat)
      requires i < |bits| < 0x1_0000_0000
      ensures Repaired(bits, lists, i)[i] == bits[i]
      ensures Repaired(bits, lists, i + 1) ==
              if bits[i] && !Owned(lists, i + 1) then Repaired(bits, lists, i)[i := false] else Repaired(bits, lists, i)
    {
    }

    /** The ids that all records name. */
    method BlockIds() returns (ids: seq<Word>)
      requires Described()
      ensures forall id :: id in ids <==> Owned(lists, id)
    {
      hide Owned, Describes;
      ids := [];
      NoneOwned(lists);
      for i := 0 to |entries|
        invariant forall id :: id in ids <==> Owned(lists[..i], id)
      {
        var list, size := ReadEntry(i);
        OwnedSnoc(lists, i);
        ids := ids + list;
      }
      assert lists[..|entries|] == lists;
    }

    static lemma NoneOwned(lists: seq<seq<Word>>)
      ensures forall id :: !Owned(lists[..0], id)
    {
    }

    static lemma OwnedSnoc(lists: seq<seq<Word>>, i: nat)
      requires i < |lists|
      ensures forall id :: Owned(lists[..i + 1], id) <==> Owned(lists[..i], id) || id in lists[i]
    {
      forall id | Owned(lists[..i], id) || id in lists[i] ensures Owned(lists[..i + 1], id) {
        if id in lists[i] {
          assert id in lists[..i + 1][i];
        } else {
          var k :| 0 <= k < i && id in lists[..i][k];
          assert id in lists[..i + 1][k];
        }
      }
      forall id | Owned(lists[..i + 1], id) ensures Owned(lists[..i], id) || id in lists[i] {
        var k :| 0 <= k < i + 1 && id in lists[..i + 1][k];
        if k < i {
          assert id in lists[..i][k];
        }
      }
    }

    // ----- Runs -------------------------------------------------------------------------------------------------------

    /** A new log, any number of appends of one byte or more, and the content read back: it is the concatenation of what
        was appended, in exactly the lowest free blocks that it needs, and no other log or file has lost anything. */
    method LogRun(pieces: seq<seq<Byte>>) returns (text: seq<Byte>)
      requires Valid() && (forall k :: 0 <= k < |pieces| ==> pieces[k] != []) && |Concat(pieces)| < 0x8000_0000
      requires BlocksFor(|Concat(pieces)|, blockSize) <= FreeCount(B())
      requires InsideDisk(Requested(B(), BlocksFor(|Concat(pieces)|, blockSize)), |Concat(pieces)|, count, blockSize)
      modifies this`entries, this`lists, this`sizes, this`texts, bitmap, disk
      ensures Valid() && text == Concat(pieces)
      ensures lists == old(lists) + [Requested(old(B()), BlocksFor(|text|, blockSize))]
      ensures B() == AfterRequests(old(B()), BlocksFor(|text|, blockSize))
      ensures sizes == old(sizes) + [|text|] && texts == old(texts) + [text]
      ensures |entries| == |old(entries)| + 1 && entries[..|entries| - 1] == old(entries)
      ensures forall m :: 0 <= m < |old(entries)| ==> RightAt(m) == old(RightAt(m))
    {
      hide Requested, AfterRequests, FreeCount, Whole, OwnersOk, InsideDisk, Right, BlocksFor;
      var n := |entries|;
      ghost var bits, total := B(), |Concat(pieces)|;
      RunBegins(bits, blockSize, total);
      CreateLog();
      assert Concat(pieces[..0]) == [];
      for k := 0 to |pieces|
        invariant Valid() && |entries| == n + 1 && entries[..n] == old(entries)
        invariant Ran(bits, Concat(pieces[..k]), old(lists), old(sizes), old(texts))
        invariant forall m :: 0 <= m < n ==> RightAt(m) == old(RightAt(m))
      {
        ConcatSnoc(pieces, k);
        RunStep(n, pieces[k], bits, Concat(pieces[..k]), total, old(lists), old(sizes), old(texts));
      }
      assert pieces[..|pieces|] == pieces;
      RightStored(disk[..], lists[n], sizes[n], texts[n], blockSize);
      text := GetContent(n);
    }

    /** The last record is a log that has got exactly this text since the bitmap was `bits`. */
    ghost predicate Ran(bits: seq<bool>, text: seq<Byte>, lists0: seq<seq<Word>>, sizes0: seq<nat>, texts0: seq<seq<Byte>>)
      requires Valid() && |bits| == count
      reads this, bitmap, disk
    {
      && |entries| > 0 && entries[|entries| - 1].kind.Log? && BlocksFor(|text|, blockSize) <= FreeCount(bits)
      && lists == lists0 + [Requested(bits, BlocksFor(|text|, blockSize))]
      && sizes == sizes0 + [|text|] && texts == texts0 + [text]
      && B() == AfterRequests(bits, BlocksFor(|text|, blockSize)) && RightAt(|entries| - 1)
    }

    method RunStep(n: nat, piece: seq<Byte>, ghost bits: seq<bool>, ghost text: seq<Byte>, ghost total: nat,
                   ghost lists0: seq<seq<Word>>, ghost sizes0: seq<nat>, ghost texts0: seq<seq<Byte>>)
      requires Valid() && |entries| == n + 1 && |bits| == count && Ran(bits, text, lists0, sizes0, texts0)
      requires piece != [] && |text| + |piece| <= total < 0x8000_0000 && BlocksFor(total, blockSize) <= FreeCount(bits)
      requires InsideDisk(Requested(bits, BlocksFor(total, blockSize)), total, count, blockSize)
      modifies this`entries, this`lists, this`sizes, this`texts, bitmap, disk
      ensures Valid() && |entries| == n + 1 && entries[..n] == old(entries[..n]) && Ran(bits, text + piece, lists0, sizes0, texts0)
      ensures forall m :: 0 <= m < n ==> RightAt(m) == old(RightAt(m))
    {
      hide Requested, AfterRequests, FreeCount, Whole, OwnersOk, InsideDisk, Right, BlocksFor, Appended, LogAsks, Base, OffsetOf;
      ghost var s, all := S(), lists;
      RunContinues(bits, |text|, |piece|, total, count, blockSize);
      AddContent(n, piece);
      AppendedIs(s, S(), all, lists, n, |text|, piece, LogAsks(|text|, |piece|, blockSize), blockSize);
      LastReplaced(lists0, all[n], lists[n]);
      LastReplaced(sizes0, |text|, |text + piece|);
      LastReplaced(texts0, text, text + piece);
    }
  }

  lemma LastReplaced<T>(a: seq<T>, x: T, y: T)
    ensures (a + [x])[|a|] == x && (a + [x])[|a| := y] == a + [y]
  {
  }

  function Concat(pieces: seq<seq<Byte>>): seq<Byte> {
    if pieces == [] then [] else Concat(pieces[..|pieces| - 1]) + pieces[|pieces| - 1]
  }

  lemma ConcatSnoc(pieces: seq<seq<Byte>>, k: nat)
    requires k < |pieces|
    ensures Concat(pieces[..k + 1]) == Concat(pieces[..k]) + pieces[k]
    ensures |Concat(pieces[..k + 1])| <= |Concat(pieces)|
  {
    assert pieces[..k + 1][..k] == pieces[..k];
    ConcatGrows(pieces, k + 1);
  }

  lemma {:induction false} ConcatGrows(pieces: seq<seq<Byte>>, k: nat)
    requires k <= |pieces|
    ensures |Concat(pieces[..k])| <= |Concat(pieces)|
    decreases |pieces| - k
  {
    if k == |pieces| {
      assert pieces[..k] == pieces;
    } else {
      assert pieces[..k + 1][..k] == pieces[..k];
      ConcatGrows(pieces, k + 1);
    }
  }

  lemma RequestedNone(bits: seq<bool>)
    requires |bits| < 0x1_0000_0000
    ensures Requested(bits, 0) == [] && AfterRequests(bits, 0) == bits
  {
  }

  lemma RunBegins(bits: seq<bool>, bs: nat, total: nat)
    requires bs > 0 && |bits| < 0x1_0000_0000 && BlocksFor(total, bs) <= FreeCount(bits)
    ensures FirstFree(bits) < |bits| && BlocksFor(0, bs) == 1
    ensures Requested(bits, 1) == [FirstFree(bits) + 1] && AfterRequests(bits, 1) == bits[FirstFree(bits) := true]
  {
    hide Requested, AfterRequests, FreeCount, FirstFree;
    RequestedNone(bits);
    RequestedSnoc(bits, 0);
  }

  /** What the next append of a run asks for. */
  lemma RunContinues(bits: seq<bool>, size: nat, n: nat, total: nat, count: nat, bs: nat)
    requires bs > 0 && n > 0 && size + n <= total && |bits| < 0x1_0000_0000
    requires BlocksFor(total, bs) <= FreeCount(bits) && InsideDisk(Requested(bits, BlocksFor(total, bs)), total, count, bs)
    ensures BlocksFor(size, bs) <= FreeCount(bits) && BlocksFor(size + n, bs) <= FreeCount(bits)
    ensures LogFrom(BlocksFor(size, bs), size, bs) == size
    ensures var now := AfterRequests(bits, BlocksFor(size, bs));
            && LogAsks(size, n, bs) <= FreeCount(now)
            && Requested(bits, BlocksFor(size, bs)) + Requested(now, LogAsks(size, n, bs)) == Requested(bits, BlocksFor(size + n, bs))
            && AfterRequests(now, LogAsks(size, n, bs)) == AfterRequests(bits, BlocksFor(size + n, bs))
    ensures InsideDisk(Requested(bits, BlocksFor(size + n, bs)), size + n, count, bs)
  {
    hide InsideDisk, Requested, AfterRequests, FreeCount;
    SizeParts(size, bs);
    LogCountIff(size, n, bs);
    BlocksForGrows(size, n, bs);
    BlocksForGrows(size + n, total - size - n, bs);
    RequestedAdd(bits, BlocksFor(size, bs), LogAsks(size, n, bs));
    InsideEarlier(bits, BlocksFor(size + n, bs), size + n, BlocksFor(total, bs), total, count, bs);
  }

  lemma AppendedIs(s: Store, s': Store, lists: seq<seq<Word>>, lists': seq<seq<Word>>, i: nat, from: nat, data: seq<Byte>, k: nat, bs: nat)
    requires Appended(s, s', lists, lists', i, from, data, k, bs)
    ensures lists' == lists[i := lists[i] + Requested(s.bits, k)] && s'.bits == AfterRequests(s.bits, k)
  {
  }

  lemma RightStored(disk: seq<Byte>, ids: seq<Word>, size: nat, text: seq<Byte>, bs: nat)
    requires bs > 0 && Right(disk, ids, size, text, bs)
    ensures Stored(disk, ids, size, text, bs)
  {
  }

  /** The list without the first occurrence of an id. */
  function RemoveFirst(ids: seq<Word>, id: Word): (r: seq<Word>)
    ensures forall m :: m != id ==> (m in r <==> m in ids)
  {
    if ids == [] then []
    else if ids[0] == id then ids[1..]
    else [ids[0]] + RemoveFirst(ids[1..], id)
  }

  lemma {:induction false} FirstFreeIs(bits: seq<bool>, i: nat)
    requires i < |bits| && !bits[i] && forall b :: 0 <= b < i ==> bits[b]
    ensures FirstFree(bits) == i
  {
    if i > 0 {
      assert bits[0];
      FirstFreeIs(bits[1..], i - 1);
    }
  }
}
