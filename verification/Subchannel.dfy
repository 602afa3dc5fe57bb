/** The two layouts of a 96-byte CD subchannel block. */
module Subchannel {
  import opened Words
  import opened Bits
  import Arith

  const ENTRY: nat := 12
  const BLOCK: nat := 96

  /** Bit `j` of a byte, counted from the top. */
  predicate Top(b: Byte, j: nat)
    requires j < 8
  {
    Bit(b, 7 - j)
  }

  /** The byte whose bit 7 - j is `f(j)`. */
  function FromTop(f: nat -> bool): (b: Byte)
    ensures forall j: nat :: j < 8 ==> Top(b, j) == f(j)
  {
    MakeBits(BYTE_BITS, FromTopBit(f));
    Pow2Values();
    assert forall j: nat :: j < 8 ==> FromTopBit(f)(7 - j) == f(j);
    Make(BYTE_BITS, FromTopBit(f))
  }

  function FromTopBit(f: nat -> bool): nat -> bool {
    (k: nat) => if k < 8 then f(7 - k) else false
  }

  function SourceBit(s: seq<Byte>, at: nat, bit: nat): bool {
    at < |s| && Bit(s[at], bit)
  }

  /** Bit 7 - j of byte i of the interleaved block is one bit of channel j. */
  function InterleavedBit(s: seq<Byte>, i: nat): nat -> bool {
    (j: nat) => SourceBit(s, i / 8 + j * ENTRY, 7 - i % 8)
  }

  /** Bit 7 - j of byte i of the de-interleaved block. */
  function DeinterleavedBit(s: seq<Byte>, i: nat): nat -> bool
    requires i < BLOCK
  {
    (j: nat) => SourceBit(s, i % ENTRY * 8 + j, 7 - i / ENTRY)
  }

  function Interleave(s: seq<Byte>): (d: seq<Byte>)
    ensures |d| == BLOCK
  {
    seq(BLOCK, i requires 0 <= i => FromTop(InterleavedBit(s, i)))
  }

  function Deinterleave(s: seq<Byte>): (d: seq<Byte>)
    ensures |d| == BLOCK
  {
    seq(BLOCK, i requires 0 <= i < BLOCK => FromTop(DeinterleavedBit(s, i)))
  }

  lemma SameByte(a: Byte, b: Byte)
    requires forall j: nat :: j < 8 ==> Top(a, j) == Top(b, j)
    ensures a == b
  {
    Pow2Values();
    forall i: nat | i < 8
      ensures Bit(a, i) == Bit(b, i)
    {
      assert Top(a, 7 - i) == Top(b, 7 - i);
    }
    SameBits(8, a, b);
  }

  lemma InterleavedPlace(i: nat, j: nat)
    requires i < BLOCK && j < 8
    ensures var at := i / 8 + j * ENTRY;
            at < BLOCK && at % ENTRY == i / 8 && at / ENTRY == j && at % ENTRY * 8 + i % 8 == i
  {
    Arith.DivModIs(i / 8 + j * ENTRY, ENTRY, j, i / 8);
  }

  lemma DeinterleavedPlace(i: nat, j: nat)
    requires i < BLOCK && j < 8
    ensures var at := i % ENTRY * 8 + j;
            at < BLOCK && at / 8 == i % ENTRY && at % 8 == j && at / 8 + i / ENTRY * ENTRY == i && i / ENTRY < 8
  {
    Arith.DivModIs(i % ENTRY * 8 + j, 8, i % ENTRY, j);
  }

  lemma InterleavedTop(s: seq<Byte>, i: nat, j: nat)
    requires i < BLOCK && j < 8
    ensures Top(Interleave(s)[i], j) == SourceBit(s, i / 8 + j * ENTRY, 7 - i % 8)
  {
    hide SourceBit, Bit, Top;
    assert Interleave(s)[i] == FromTop(InterleavedBit(s, i));
  }

  lemma DeinterleavedTop(s: seq<Byte>, i: nat, j: nat)
    requires i < BLOCK && j < 8
    ensures Top(Deinterleave(s)[i], j) == SourceBit(s, i % ENTRY * 8 + j, 7 - i / ENTRY)
  {
    hide SourceBit, Bit, Top;
    assert Deinterleave(s)[i] == FromTop(DeinterleavedBit(s, i));
  }

  lemma TopIs(s: seq<Byte>, i: nat, j: nat)
    requires i < |s| && j < 8
    ensures Top(s[i], j) == SourceBit(s, i, 7 - j)
  {
    hide Bit;
  }

  lemma BitReturns(s: seq<Byte>, i: nat, j: nat)
    requires |s| == BLOCK && i < BLOCK && j < 8
    ensures Top(Deinterleave(Interleave(s))[i], j) == Top(s[i], j)
  {
    hide SourceBit, Top, Interleave, Deinterleave;
    var m := Interleave(s);
    var (at, k) := (i % ENTRY * 8 + j, i / ENTRY);
    DeinterleavedPlace(i, j);
    DeinterleavedTop(m, i, j);
    TopIs(m, at, k);
    InterleavedTop(s, at, k);
    TopIs(s, i, j);
  }

  lemma BitReturnsToo(s: seq<Byte>, i: nat, j: nat)
    requires |s| == BLOCK && i < BLOCK && j < 8
    ensures Top(Interleave(Deinterleave(s))[i], j) == Top(s[i], j)
  {
    hide SourceBit, Top, Interleave, Deinterleave;
    var m := Deinterleave(s);
    var (at, k) := (i / 8 + j * ENTRY, i % 8);
    InterleavedPlace(i, j);
    InterleavedTop(m, i, j);
    TopIs(m, at, k);
    DeinterleavedTop(s, at, k);
    TopIs(s, i, j);
  }

  lemma DeinterleaveInterleave(s: seq<Byte>)
    requires |s| == BLOCK
    ensures Deinterleave(Interleave(s)) == s
  {
    hide Top, Interleave, Deinterleave;
    var r := Deinterleave(Interleave(s));
    forall i: nat | i < BLOCK
      ensures r[i] == s[i]
    {
      forall j: nat | j < 8
        ensures Top(r[i], j) == Top(s[i], j)
      {
        BitReturns(s, i, j);
      }
      SameByte(r[i], s[i]);
    }
  }

  lemma InterleaveDeinterleave(s: seq<Byte>)
    requires |s| == BLOCK
    ensures Interleave(Deinterleave(s)) == s
  {
    hide Top, Interleave, Deinterleave;
    var r := Interleave(Deinterleave(s));
    forall i: nat | i < BLOCK
      ensures r[i] == s[i]
    {
      forall j: nat | j < 8
        ensures Top(r[i], j) == Top(s[i], j)
      {
        BitReturnsToo(s, i, j);
      }
      SameByte(r[i], s[i]);
    }
  }

  lemma NoTopBits()
    ensures forall k: nat :: k < 8 ==> !Top(0, k)
  {
    forall k: nat | k < 8
      ensures !Top(0, k)
    {
      ZeroBits(7 - k);
    }
  }

  lemma SetTopAt(b: Byte, j: nat, k: nat)
    requires j < 8 && k < 8
    ensures PutBit(b, 7 - j, true) < 256
    ensures Top(PutBit(b, 7 - j, true), k) == (k == j || Top(b, k))
  {
    hide PutBit, Pow2;
    Pow2Values();
    PutBitBound(b, 7 - j, true, 8);
    PutBitBits(b, 7 - j, true, 7 - k);
  }

  lemma SetTop(b: Byte, j: nat)
    requires j < 8
    ensures PutBit(b, 7 - j, true) < 256
    ensures forall k: nat :: k < 8 ==> Top(PutBit(b, 7 - j, true), k) == (k == j || Top(b, k))
  {
    hide PutBit, Top;
    SetTopAt(b, j, j);
    forall k: nat | k < 8
      ensures Top(PutBit(b, 7 - j, true), k) == (k == j || Top(b, k))
    {
      SetTopAt(b, j, k);
    }
  }

  /** One destination byte, bit by bit from the top. */
  method Gather(s: array<Byte>, start: nat, stride: nat, bit: nat, ghost f: nat -> bool) returns (b: Byte)
    requires start + 7 * stride < s.Length
    requires forall j: nat :: j < 8 ==> f(j) == SourceBit(s[..], start + j * stride, bit)
    ensures b == FromTop(f)
  {
    hide PutBit, Bit, Top, SourceBit, FromTop;
    b := 0;
    NoneGathered(f);
    for j := 0 to 8
      invariant Gathered(b, f, j)
    {
      InBounds(start, j, stride);
      var at := start + j * stride;
      SourceIs(s[..], at, bit);
      OneGathered(b, f, j);
      if Bit(s[at], bit) {
        b := PutBit(b, 7 - j, true);
      }
    }
    AllGathered(b, f);
  }

  /** A byte with its first `n` bits from the top filled in. */
  ghost predicate Gathered(b: Byte, f: nat -> bool, n: nat) {
    forall k: nat :: k < 8 ==> Top(b, k) == (k < n && f(k))
  }

  lemma InBounds(start: nat, j: nat, stride: nat)
    requires j <= 7
    ensures 0 <= start + j * stride <= start + 7 * stride
  {
    Arith.ScaleUp(7, j, stride);
    Arith.MulNat(j, stride);
  }

  lemma SourceIs(s: seq<Byte>, at: nat, bit: nat)
    requires at < |s|
    ensures SourceBit(s, at, bit) == Bit(s[at], bit)
  {
    hide Bit;
  }

  lemma NoneGathered(f: nat -> bool)
    ensures Gathered(0, f, 0)
  {
    hide Top;
    NoTopBits();
  }

  lemma OneGathered(b: Byte, f: nat -> bool, j: nat)
    requires j < 8 && Gathered(b, f, j)
    ensures PutBit(b, 7 - j, true) < 0x100
    ensures Gathered(if f(j) then PutBit(b, 7 - j, true) else b, f, j + 1)
  {
    hide PutBit, Top;
    SetTop(b, j);
  }

  lemma AllGathered(b: Byte, f: nat -> bool)
    requires Gathered(b, f, 8)
    ensures b == FromTop(f)
  {
    hide Top, FromTop;
    SameByte(b, FromTop(f));
  }

  method SubToInterleaved(s: array<Byte>, d: array<Byte>)
    requires s.Length == BLOCK && d.Length == BLOCK && s != d
    modifies d
    ensures d[..] == Interleave(s[..])
  {
    for i := 0 to BLOCK
      invariant s[..] == old(s[..])
      invariant forall k: nat :: k < i ==> d[k] == Interleave(s[..])[k]
    {
      d[i] := Gather(s, i / 8, ENTRY, 7 - i % 8, InterleavedBit(s[..], i));
    }
  }

  method SubToDeinterleaved(s: array<Byte>, d: array<Byte>)
    requires s.Length == BLOCK && d.Length == BLOCK && s != d
    modifies d
    ensures d[..] == Deinterleave(s[..])
  {
    for i := 0 to BLOCK
      invariant s[..] == old(s[..])
      invariant forall k: nat :: k < i ==> d[k] == Deinterleave(s[..])[k]
    {
      d[i] := Gather(s, i % ENTRY * 8, 1, 7 - i / ENTRY, DeinterleavedBit(s[..], i));
    }
  }
}
