/** The blitter's area fill: the byte table, and what table lookups do to words and rows. */
module AreaFill {
  import opened Words
  import opened Bits

  /** One step of the bit-serial fill: with the carry set, inclusive mode sets the pixel, exclusive mode flips it. */
  function FillBit(b: bool, fc: bool, ife: bool): bool {
    if !fc then b else if ife then true else !b
  }

  /** Reference: the whole bit string filled serially. Every set input bit toggles the carry for the bits after it. */
  function Fill(bits: seq<bool>, fc: bool, ife: bool): (r: seq<bool>)
    ensures |r| == |bits|
  {
    if bits == [] then [] else [FillBit(bits[0], fc, ife)] + Fill(bits[1..], fc != bits[0], ife)
  }

  function Carry(bits: seq<bool>, fc: bool): bool {
    if bits == [] then fc else Carry(bits[1..], fc != bits[0])
  }

  /** How many edge pixels a stretch of bits holds. */
  function Edges(bits: seq<bool>): nat {
    if bits == [] then 0 else (if bits[0] then 1 else 0) + Edges(bits[1..])
  }

  lemma {:induction false} CarryIsParity(bits: seq<bool>, fc: bool)
    ensures Carry(bits, fc) == (fc != (Edges(bits) % 2 == 1))
  {
    if bits != [] {
      CarryIsParity(bits[1..], fc != bits[0]);
    }
  }

  lemma {:induction false} CarryConcat(a: seq<bool>, b: seq<bool>, fc: bool)
    ensures Carry(a + b, fc) == Carry(b, Carry(a, fc))
  {
    if a == [] {
      assert a + b == b;
    } else {
      assert (a + b)[1..] == a[1..] + b;
      CarryConcat(a[1..], b, fc != a[0]);
    }
  }

  lemma {:induction false} FillConcat(a: seq<bool>, b: seq<bool>, fc: bool, ife: bool)
    ensures Fill(a + b, fc, ife) == Fill(a, fc, ife) + Fill(b, Carry(a, fc), ife)
  {
    if a == [] {
      assert a + b == b;
    } else {
      assert (a + b)[1..] == a[1..] + b;
      FillConcat(a[1..], b, fc != a[0], ife);
    }
  }

  lemma {:induction false} FillStep(bits: seq<bool>, fc: bool, ife: bool, i: nat)
    requires i < |bits|
    ensures Fill(bits, fc, ife)[i] == FillBit(bits[i], Carry(bits[..i], fc), ife)
    ensures Carry(bits[..i + 1], fc) == (Carry(bits[..i], fc) != bits[i])
  {
    if i > 0 {
      FillStep(bits[1..], fc != bits[0], ife, i - 1);
      assert bits[..i][1..] == bits[1..][..i - 1];
      assert bits[..i + 1][1..] == bits[1..][..i];
    }
  }

  /** Inclusive fill sets exactly the edges and the pixels that have an odd number of edges before them
      (one more when the carry starts set). */
  lemma InclusiveFillMeaning(bits: seq<bool>, fc: bool, i: nat)
    requires i < |bits|
    ensures Fill(bits, fc, true)[i] == (bits[i] || fc != (Edges(bits[..i]) % 2 == 1))
  {
    FillStep(bits, fc, true, i);
    CarryIsParity(bits[..i], fc);
  }

  /** Exclusive fill is the running XOR of the input: pixel `i` is the parity of the edges up to and including it. */
  lemma ExclusiveFillMeaning(bits: seq<bool>, fc: bool, i: nat)
    requires i < |bits|
    ensures Fill(bits, fc, false)[i] == (fc != (Edges(bits[..i + 1]) % 2 == 1))
  {
    FillStep(bits, fc, false, i);
    CarryIsParity(bits[..i + 1], fc);
  }

  /** Undoes an exclusive fill: an output pixel is the carry of the next one. */
  function Unfill(out: seq<bool>, fc: bool): (r: seq<bool>)
    ensures |r| == |out|
  {
    if out == [] then [] else [out[0] != fc] + Unfill(out[1..], out[0])
  }

  /** Exclusive fill is a bijection on bit strings. */
  lemma {:induction false} ExclusiveFillInvertible(bits: seq<bool>, fc: bool)
    ensures Unfill(Fill(bits, fc, false), fc) == bits
    ensures Fill(Unfill(bits, fc), fc, false) == bits
  {
    if bits != [] {
      ExclusiveFillInvertible(bits[1..], fc != bits[0]);
      ExclusiveFillInvertible(bits[1..], bits[0]);
      assert Fill(bits, fc, false)[1..] == Fill(bits[1..], fc != bits[0], false);
      assert Unfill(bits, fc)[1..] == Unfill(bits[1..], bits[0]);
    }
  }

  // ----- the table -----

  datatype Entry = Entry(data: Byte, carry: bool)

  /** Table column: bit 0 is the carry in, bit 1 selects inclusive fill. */
  function Column(fc: bool, ife: bool): nat {
    (if ife then 2 else 0) + (if fc then 1 else 0)
  }

  function ByteFill(d: Byte, fc: bool, ife: bool): Entry {
    ToFromBits(Fill(ToBits(d, BYTE_BITS), fc, ife));
    Pow2Values();
    Entry(FromBits(Fill(ToBits(d, BYTE_BITS), fc, ife)), Carry(ToBits(d, BYTE_BITS), fc))
  }

  ghost predicate IsFillTable(table: array2<Entry>)
    reads table
  {
    && table.Length0 == 256 && table.Length1 == 4
    && forall d: nat, fc: bool, ife: bool :: d < 256 ==> table[d, Column(fc, ife)] == ByteFill(d, fc, ife)
  }

  /** `data` is the number whose bits are those of `bits` with the low `k` of them filled. */
  ghost predicate Partial(data: nat, bits: seq<bool>, fc: bool, ife: bool, k: nat) {
    && data < Pow2(|bits|)
    && forall j: nat :: j < |bits| ==> Bit(data, j) == if j < k then Fill(bits, fc, ife)[j] else bits[j]
  }

  lemma PartialStart(d: nat, n: nat, fc: bool, ife: bool)
    requires d < Pow2(n)
    ensures Partial(d, ToBits(d, n), fc, ife, 0)
  {
    forall j: nat | j < n
      ensures Bit(d, j) == ToBits(d, n)[j]
    {
      ToBitsAt(d, n, j);
    }
  }

  lemma PartialStep(data: nat, bits: seq<bool>, fc0: bool, ife: bool, k: nat)
    requires k < |bits| && Partial(data, bits, fc0, ife, k)
    ensures var r := if Carry(bits[..k], fc0) then PutBit(data, k, ife || !Bit(data, k)) else data;
            Partial(r, bits, fc0, ife, k + 1)
  {
    FillStep(bits, fc0, ife, k);
    if Carry(bits[..k], fc0) {
      var b := ife || !Bit(data, k);
      PutBitBound(data, k, b, |bits|);
      forall j: nat | j < |bits|
        ensures Bit(PutBit(data, k, b), j) == if j < k + 1 then Fill(bits, fc0, ife)[j] else bits[j]
      {
        PutBitBits(data, k, b, j);
      }
    }
  }

  lemma PartialDone(data: nat, bits: seq<bool>, fc: bool, ife: bool)
    requires Partial(data, bits, fc, ife, |bits|)
    ensures data == FromBits(Fill(bits, fc, ife))
  {
    var want := FromBits(Fill(bits, fc, ife));
    ToFromBits(Fill(bits, fc, ife));
    forall j: nat | j < |bits|
      ensures Bit(data, j) == Bit(want, j)
    {
      ToBitsAt(want, |bits|, j);
    }
    SameBits(|bits|, data, want);
  }

  method FillOneByte(d: Byte, i: nat) returns (e: Entry)
    requires i < 4
    ensures e == ByteFill(d, i % 2 == 1, i >= 2)
  {
    var fc := i % 2 == 1;
    var data: nat := d;
    ghost var bits, fc0, ife := ToBits(d, 8), fc, i >= 2;
    Pow2Values();
    PartialStart(d, 8, fc0, ife);
    for k := 0 to 8
      invariant Partial(data, bits, fc0, ife, k)
      invariant fc == Carry(bits[..k], fc0)
    {
      PartialStep(data, bits, fc0, ife, k);
      FillStep(bits, fc0, ife, k);
      var was := Bit(data, k);
      if fc {
        data := PutBit(data, k, i >= 2 || !was);
      }
      if was {
        fc := !fc;
      }
    }
    assert bits[..8] == bits;
    PartialDone(data, bits, fc0, ife);
    e := Entry(data, fc);
  }

  method BuildFillTable(table: array2<Entry>)
    requires table.Length0 == 256 && table.Length1 == 4
    modifies table
    ensures IsFillTable(table)
  {
    hide ByteFill;
    for d := 0 to 256
      invariant forall x: nat, fc: bool, ife: bool :: x < d ==> table[x, Column(fc, ife)] == ByteFill(x, fc, ife)
    {
      for i := 0 to 4
        invariant forall x: nat, fc: bool, ife: bool :: x < d ==> table[x, Column(fc, ife)] == ByteFill(x, fc, ife)
        invariant forall fc: bool, ife: bool :: Column(fc, ife) < i ==> table[d, Column(fc, ife)] == ByteFill(d, fc, ife)
      {
        var e := FillOneByte(d, i);
        table[d, i] := e;
      }
    }
  }

  // ----- what the blit does with the table -----

  /** The low byte is looked up with the carry of the word, the high byte with the carry out of the low one. */
  function WordFill(d: Word, fc: bool, ife: bool): (Word, bool) {
    var lo := ByteFill(d % 256, fc, ife);
    var hi := ByteFill(d / 256, lo.carry, ife);
    (lo.data + hi.data * 256, hi.carry)
  }

  /** Two byte lookups fill the 16 bits of the word serially. */
  lemma WordFillIsSerial(d: Word, fc: bool, ife: bool)
    ensures ToBits(WordFill(d, fc, ife).0, 16) == Fill(ToBits(d, 16), fc, ife)
    ensures WordFill(d, fc, ife).1 == Carry(ToBits(d, 16), fc)
  {
    hide Pow2, ToBits, FromBits, Fill, Carry;
    var lo, hi := ToBits(d % 256, 8), ToBits(d / 256, 8);
    Pow2Values();
    assert d == d % 256 + Pow2(8) * (d / 256);
    ToBitsConcat(d % 256, d / 256, 8, 8);
    FillConcat(lo, hi, fc, ife);
    CarryConcat(lo, hi, fc);
    var e, f := ByteFill(d % 256, fc, ife), ByteFill(d / 256, Carry(lo, fc), ife);
    ToFromBits(Fill(lo, fc, ife));
    ToFromBits(Fill(hi, Carry(lo, fc), ife));
    ToBitsConcat(e.data, f.data, 8, 8);
  }

  /** A row, word by word in processing order, the carry threaded through. */
  function RowFill(ws: seq<Word>, fc: bool, ife: bool): (seq<Word>, bool) {
    if ws == [] then ([], fc) else
      var (w, fc1) := WordFill(ws[0], fc, ife);
      var (rest, fc2) := RowFill(ws[1..], fc1, ife);
      ([w] + rest, fc2)
  }

  function RowBits(ws: seq<Word>): seq<bool> {
    if ws == [] then [] else ToBits(ws[0], 16) + RowBits(ws[1..])
  }

  /** Filling a row of any width by table lookups is one bit-serial fill of the row. */
  lemma {:induction false} RowFillIsSerial(ws: seq<Word>, fc: bool, ife: bool)
    ensures RowBits(RowFill(ws, fc, ife).0) == Fill(RowBits(ws), fc, ife)
    ensures RowFill(ws, fc, ife).1 == Carry(RowBits(ws), fc)
  {
    if ws != [] {
      var fc1 := WordFill(ws[0], fc, ife).1;
      WordFillIsSerial(ws[0], fc, ife);
      RowFillIsSerial(ws[1..], fc1, ife);
      FillConcat(ToBits(ws[0], 16), RowBits(ws[1..]), fc, ife);
      CarryConcat(ToBits(ws[0], 16), RowBits(ws[1..]), fc);
      assert RowFill(ws, fc, ife).0[1..] == RowFill(ws[1..], fc1, ife).0;
    }
  }

  lemma {:induction false} RowBitsInjective(a: seq<Word>, b: seq<Word>)
    requires |a| == |b| && RowBits(a) == RowBits(b)
    ensures a == b
  {
    if a != [] {
      assert ToBits(a[0], 16) == RowBits(a)[..16] == RowBits(b)[..16] == ToBits(b[0], 16);
      assert RowBits(a[1..]) == RowBits(a)[16..] == RowBits(b)[16..] == RowBits(b[1..]);
      Pow2Values();
      FromToBits(a[0], 16);
      FromToBits(b[0], 16);
      RowBitsInjective(a[1..], b[1..]);
    }
  }

  lemma {:induction false} RowFillLength(ws: seq<Word>, fc: bool, ife: bool)
    ensures |RowFill(ws, fc, ife).0| == |ws|
  {
    if ws != [] {
      RowFillLength(ws[1..], WordFill(ws[0], fc, ife).1, ife);
    }
  }

  /** No two rows have the same exclusive fill. */
  lemma ExclusiveRowFillInjective(a: seq<Word>, b: seq<Word>, fc: bool)
    requires |a| == |b| && RowFill(a, fc, false).0 == RowFill(b, fc, false).0
    ensures a == b
  {
    RowFillIsSerial(a, fc, false);
    RowFillIsSerial(b, fc, false);
    ExclusiveFillInvertible(RowBits(a), fc);
    ExclusiveFillInvertible(RowBits(b), fc);
    RowBitsInjective(a, b);
  }
}
