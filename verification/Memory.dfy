/** Bytes, little-endian words, and the two views of a byte buffer that the memory
    schemes share: overwriting a stretch of it, and cutting it into equal blocks. */
module Memory {

  type Byte = x: int | 0 <= x < 256
  type Word = x: int | 0 <= x < 0x1_0000_0000

  /** The four bytes of a 32-bit unsigned word, least significant first. */
  function WordBytes(w: Word): (s: seq<Byte>)
    ensures |s| == 4
  {
    [w % 256, w / 256 % 256, w / 65536 % 256, w / 16777216]
  }

  function BytesWord(s: seq<Byte>): Word
    requires |s| == 4
  {
    s[0] as int + 256 * (s[1] as int) + 65536 * (s[2] as int) + 16777216 * (s[3] as int)
  }

  lemma WordRoundTrip(w: Word)
    ensures BytesWord(WordBytes(w)) == w
  {
    assert w / 65536 == w / 256 / 256;
    assert w / 16777216 == w / 256 / 256 / 256;
  }

  /** Unsigned 32-bit increment. */
  function Successor(w: Word): Word {
    if w + 1 == 0x1_0000_0000 then 0 else w + 1
  }

  /** Counting up always changes the lowest byte. */
  lemma SuccessorLowByte(w: Word)
    ensures WordBytes(Successor(w))[0] != WordBytes(w)[0]
  {
  }

  /** `s` with `data` copied over it from position `at`. */
  function Splice<T>(s: seq<T>, at: nat, data: seq<T>): (r: seq<T>)
    requires at + |data| <= |s|
    ensures |r| == |s|
    ensures forall k :: 0 <= k < |s| ==> r[k] == if at <= k < at + |data| then data[k - at] else s[k]
  {
    seq(|s|, k requires 0 <= k < |s| => if at <= k < at + |data| then data[k - at] else s[k])
  }

  /** Copying two adjacent stretches one after the other is copying their concatenation. */
  lemma SpliceSplit<T>(s: seq<T>, at: nat, data: seq<T>, q: nat)
    requires at + |data| <= |s| && q <= |data|
    ensures Splice(Splice(s, at, data[..q]), at + q, data[q..]) == Splice(s, at, data)
  {
  }

  /** Writes to disjoint stretches commute. */
  lemma SpliceApart<T>(s: seq<T>, at: nat, data: seq<T>, from: nat, to: nat)
    requires at + |data| <= |s| && from <= to <= |s|
    requires to <= at || at + |data| <= from
    ensures Splice(s, at, data)[from..to] == s[from..to]
  {
  }

  /** A write inside a window is the same write on the window. */
  lemma SpliceInside<T>(s: seq<T>, at: nat, data: seq<T>, from: nat, to: nat)
    requires from <= at && at + |data| <= to <= |s|
    ensures Splice(s, at, data)[from..to] == Splice(s[from..to], at - from, data)
  {
  }

  // ----- Lists of used and free places ------------------------------------------------------------

  function FreeCount(used: seq<bool>): (n: nat)
    ensures n <= |used|
  {
    if used == [] then 0 else (if used[0] then 0 else 1) + FreeCount(used[1..])
  }

  /** The first free frame, or the length of the list. */
  function FirstFree(used: seq<bool>): (f: nat)
    ensures f <= |used|
    ensures forall k :: 0 <= k < f ==> used[k]
    ensures f < |used| ==> !used[f]
    ensures f < |used| <==> FreeCount(used) > 0
  {
    if used == [] || !used[0] then 0 else 1 + FirstFree(used[1..])
  }

  lemma {:induction false} FreeCountUpdate(used: seq<bool>, f: nat, b: bool)
    requires f < |used|
    ensures FreeCount(used[f := b]) == FreeCount(used) - (if used[f] then 0 else 1) + (if b then 0 else 1)
  {
    if f == 0 {
      assert used[f := b][1..] == used[1..];
    } else {
      assert used[f := b][1..] == used[1..][f - 1 := b];
      FreeCountUpdate(used[1..], f - 1, b);
    }
  }

  // ----- Cutting an address space into blocks of equal size ---------------------------------------

  /** Where block `k` of size `p` begins: `k * p`, written so that proofs stay linear. */
  function Base(k: nat, p: nat): nat {
    if k == 0 then 0 else Base(k - 1, p) + p
  }

  /** The block an address falls in, `a / p`, and its offset there, `a % p`. */
  function BlockOf(a: nat, p: nat): nat
    requires p > 0
  {
    if a < p then 0 else 1 + BlockOf(a - p, p)
  }

  function OffsetOf(a: nat, p: nat): (off: nat)
    requires p > 0
    ensures off < p
  {
    if a < p then a else OffsetOf(a - p, p)
  }

  lemma {:induction false} BaseIsProduct(k: nat, p: nat)
    ensures Base(k, p) == k * p
  {
    if k > 0 {
      BaseIsProduct(k - 1, p);
      assert (k - 1) * p + p == k * p;
    }
  }

  lemma {:induction false} BlockOfIsQuotient(a: nat, p: nat)
    requires p > 0
    ensures BlockOf(a, p) == a / p && OffsetOf(a, p) == a % p
  {
    if a >= p {
      BlockOfIsQuotient(a - p, p);
      assert (a - p) / p == a / p - 1 && (a - p) % p == a % p by {
        QuotientStep(a, p);
      }
    }
  }

  lemma QuotientStep(a: nat, p: nat)
    requires 0 < p <= a
    ensures (a - p) / p == a / p - 1 && (a - p) % p == a % p
  {
    var q, r, d := (a - p) / p, (a - p) % p, a / p;
    assert (q + 1) * p == q * p + p;
    if q + 1 < d {
      MultipleApart(q + 1, d, p);
    } else if d < q + 1 {
      MultipleApart(d, q + 1, p);
    }
  }

  lemma {:induction false} MultipleApart(a: nat, b: nat, p: nat)
    requires a < b
    ensures a * p + p <= b * p
  {
    assert b * p == (b - 1) * p + p;
    if a + 1 < b {
      MultipleApart(a, b - 1, p);
    }
  }

  lemma {:induction false} AddressJoins(a: nat, p: nat)
    requires p > 0
    ensures a == Base(BlockOf(a, p), p) + OffsetOf(a, p)
  {
    if a >= p {
      AddressJoins(a - p, p);
    }
  }

  /** The address at offset `off` of block `k` falls in block `k` at offset `off`. */
  lemma {:induction false} AddressParts(k: nat, off: nat, p: nat)
    requires off < p
    ensures BlockOf(Base(k, p) + off, p) == k && OffsetOf(Base(k, p) + off, p) == off
  {
    if k > 0 {
      AddressParts(k - 1, off, p);
      assert Base(k, p) + off - p == Base(k - 1, p) + off;
    }
  }

  lemma {:induction false} BlocksOrdered(k: nat, m: nat, p: nat)
    requires k < m
    ensures Base(k, p) + p <= Base(m, p)
  {
    if k + 1 < m {
      BlocksOrdered(k, m - 1, p);
    }
  }

  lemma BlockFits(k: nat, count: nat, p: nat)
    requires k < count
    ensures Base(k, p) + p <= Base(count, p)
  {
    BlocksOrdered(k, count, p);
  }

  /** Block number `k` of size `p`; empty when the buffer does not reach that far. */
  function Block<T>(s: seq<T>, k: nat, p: nat): seq<T> {
    if Base(k, p) + p <= |s| then s[Base(k, p)..Base(k, p) + p] else []
  }

  /** Writing inside one window leaves a window apart from it alone. */
  lemma SpliceWindow<T>(s: seq<T>, at: nat, data: seq<T>, base: nat, off: nat, p: nat, other: nat)
    requires at == base + off && off + |data| <= p && base + p <= |s| && other + p <= |s|
    requires other == base || other + p <= base || base + p <= other
    ensures Splice(s, at, data)[other..other + p] ==
            if other == base then Splice(s[base..base + p], off, data) else s[other..other + p]
  {
    if other == base {
      SpliceInside(s, at, data, base, base + p);
    } else {
      SpliceApart(s, at, data, other, other + p);
    }
  }

  /** Writing inside one block changes that block alone. */
  lemma SpliceBlock<T>(s: seq<T>, at: nat, data: seq<T>, k: nat, off: nat, p: nat, m: nat)
    requires p > 0 && at == Base(k, p) + off && off + |data| <= p && Base(k, p) + p <= |s|
    ensures Block(Splice(s, at, data), m, p) ==
            if m == k then Splice(Block(s, k, p), off, data) else Block(s, m, p)
  {
    hide Splice;
    if m < k {
      BlocksOrdered(m, k, p);
    } else if k < m {
      BlocksOrdered(k, m, p);
    }
    if Base(m, p) + p <= |s| {
      SpliceWindow(s, at, data, Base(k, p), off, p, Base(m, p));
    }
  }

  /** The byte at `off` in block `k`. */
  lemma BlockAt<T>(s: seq<T>, k: nat, off: nat, p: nat)
    requires Base(k, p) + p <= |s| && off < p
    ensures |Block(s, k, p)| == p && Block(s, k, p)[off] == s[Base(k, p) + off]
  {
  }

  lemma SliceOfSlice<T>(s: seq<T>, a: nat, b: nat, from: nat, to: nat)
    requires a <= b <= |s| && from <= to <= b - a
    ensures s[a..b][from..to] == s[a + from..a + to]
  {
    var l, r := s[a..b][from..to], s[a + from..a + to];
    forall k | 0 <= k < to - from ensures l[k] == r[k] {
      assert l[k] == s[a..b][from + k];
    }
  }

  lemma SliceJoin<T>(s: seq<T>, a: nat, b: nat, c: nat, l: seq<T>, r: seq<T>)
    requires a <= b <= c <= |s| && l == s[a..b] && r == s[b..c]
    ensures l + r == s[a..c] && |l + r| == c - a
  {
  }

  /** A stretch that lies inside one block. */
  lemma BlockSlice<T>(s: seq<T>, k: nat, from: nat, to: nat, p: nat)
    requires Base(k, p) + p <= |s| && from <= to <= p
    ensures |Block(s, k, p)| == p
    ensures s[Base(k, p) + from..Base(k, p) + to] == Block(s, k, p)[from..to]
  {
    SliceOfSlice(s, Base(k, p), Base(k, p) + p, from, to);
  }

  /** Copies `data` into an array, as `memcpy` does. */
  method Copy(dst: array<Byte>, at: nat, data: seq<Byte>)
    requires at + |data| <= dst.Length
    modifies dst
    ensures dst[..] == Splice(old(dst[..]), at, data)
  {
    forall k | 0 <= k < |data| {
      dst[at + k] := data[k];
    }
  }
}
