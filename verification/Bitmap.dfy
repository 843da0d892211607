/** Bits in an array of bytes, least significant bit first. */
module Bitmap {

  /** The mask of bit `k` of a byte. */
  function Mask(k: nat): bv8
    requires k < 8
  {
    if k == 0 then 0x01 else Mask(k - 1) << 1
  }

  lemma Masks()
    ensures Mask(0) == 0x01 && Mask(1) == 0x02 && Mask(2) == 0x04 && Mask(3) == 0x08
    ensures Mask(4) == 0x10 && Mask(5) == 0x20 && Mask(6) == 0x40 && Mask(7) == 0x80
  {
    assert Mask(1) == Mask(0) << 1;
    assert Mask(2) == Mask(1) << 1;
    assert Mask(3) == Mask(2) << 1;
    assert Mask(4) == Mask(3) << 1;
    assert Mask(5) == Mask(4) << 1;
    assert Mask(6) == Mask(5) << 1;
    assert Mask(7) == Mask(6) << 1;
  }

  /** The mask is 0x80 shifted right by 7 - k, which is how it is computed when bits are counted from the least
      significant one (LSB_FIRST). */
  lemma MaskIsShift(k: nat)
    requires k < 8
    ensures Mask(k) == (0x80 as bv8) >> (7 - k)
  {
    Masks();
  }

  predicate HasBit(v: bv8, k: nat)
    requires k < 8
  {
    v & Mask(k) != 0
  }

  lemma SetMask(v: bv8, j: nat, k: nat)
    requires j < 8 && k < 8
    ensures HasBit(v | Mask(j), k) <==> j == k || HasBit(v, k)
  {
    Masks();
  }

  lemma CleanMask(v: bv8, j: nat, k: nat)
    requires j < 8 && k < 8
    ensures HasBit(v & !Mask(j), k) <==> j != k && HasBit(v, k)
  {
    Masks();
  }

  lemma ZeroByte(k: nat)
    requires k < 8
    ensures !HasBit(0, k)
  {
    Masks();
  }

  predicate Test(bytes: seq<bv8>, i: nat)
    requires i / 8 < |bytes|
  {
    HasBit(bytes[i / 8], i % 8)
  }

  /** The first `n` bits. */
  function Bits(bytes: seq<bv8>, n: nat): (r: seq<bool>)
    requires n <= 8 * |bytes|
    ensures |r| == n && forall i :: 0 <= i < n ==> r[i] == Test(bytes, i)
  {
    seq(n, i requires 0 <= i < n => Test(bytes, i))
  }

  lemma SamePlace(i: nat, j: nat)
    ensures i == j <==> i / 8 == j / 8 && i % 8 == j % 8
  {
  }

  /** Replacing one byte by one that differs in bit `k` only. */
  ghost predicate Differs(v: bv8, v': bv8, k: nat, b: bool)
    requires k < 8
  {
    forall l: nat :: l < 8 ==> HasBit(v', l) == if l == k then b else HasBit(v, l)
  }

  lemma ByteBits(bytes: seq<bv8>, i: nat, n: nat, v: bv8, b: bool)
    requires i < n <= 8 * |bytes| && Differs(bytes[i / 8], v, i % 8, b)
    ensures Bits(bytes[i / 8 := v], n) == Bits(bytes, n)[i := b]
  {
    var l, r := Bits(bytes[i / 8 := v], n), Bits(bytes, n)[i := b];
    forall j | 0 <= j < n ensures l[j] == r[j] {
      SamePlace(i, j);
    }
  }

  lemma SetDiffers(v: bv8, k: nat)
    requires k < 8
    ensures Differs(v, v | Mask(k), k, true)
  {
    forall l: nat | l < 8 ensures HasBit(v | Mask(k), l) == if l == k then true else HasBit(v, l) {
      SetMask(v, k, l);
    }
  }

  lemma CleanDiffers(v: bv8, k: nat)
    requires k < 8
    ensures Differs(v, v & !Mask(k), k, false)
  {
    forall l: nat | l < 8 ensures HasBit(v & !Mask(k), l) == if l == k then false else HasBit(v, l) {
      CleanMask(v, k, l);
    }
  }

  function WithBit(v: bv8, k: nat): (r: bv8)
    requires k < 8
    ensures Differs(v, r, k, true)
  {
    SetDiffers(v, k);
    v | Mask(k)
  }

  function WithoutBit(v: bv8, k: nat): (r: bv8)
    requires k < 8
    ensures Differs(v, r, k, false)
  {
    CleanDiffers(v, k);
    v & !Mask(k)
  }

  method SetBit(b: array<bv8>, i: nat, ghost n: nat)
    requires i < n <= 8 * b.Length
    modifies b
    ensures Bits(b[..], n) == Bits(old(b[..]), n)[i := true]
  {
    var v := WithBit(b[i / 8], i % 8);
    StoreByte(b, i, v, true, n);
  }

  method CleanBit(b: array<bv8>, i: nat, ghost n: nat)
    requires i < n <= 8 * b.Length
    modifies b
    ensures Bits(b[..], n) == Bits(old(b[..]), n)[i := false]
  {
    var v := WithoutBit(b[i / 8], i % 8);
    StoreByte(b, i, v, false, n);
  }

  method StoreByte(b: array<bv8>, i: nat, v: bv8, ghost bit: bool, ghost n: nat)
    requires i < n <= 8 * b.Length && Differs(b[i / 8], v, i % 8, bit)
    modifies b
    ensures Bits(b[..], n) == Bits(old(b[..]), n)[i := bit]
  {
    ByteBits(b[..], i, n, v, bit);
    ghost var after := b[..][i / 8 := v];
    b[i / 8] := v;
    assert b[..] == after;
  }
}
