/** Akiko's chunky-to-planar converter: the plain loop, the table-driven form, and the register port around them. */
module ChunkyToPlanar {
  import opened Words
  import opened Bits
  import Arith

  const LONGS: nat := 8
  const LONG_BITS: nat := 32

  /** Bit `b` of plane `p`: bit `p` of chunky pixel `31 - b`, four pixels a long. */
  function PlaneBit(chunky: seq<Long>, p: nat): nat -> bool
    requires |chunky| == LONGS
  {
    (b: nat) => b < LONG_BITS && Bit(chunky[7 - b / 4], 8 * (b % 4) + p)
  }

  function Planes(chunky: seq<Long>): (r: seq<Long>)
    requires |chunky| == LONGS
    ensures |r| == LONGS
    ensures forall p: nat, b: nat :: p < LONGS && b < LONG_BITS ==> Bit(r[p], b) == PlaneBit(chunky, p)(b)
  {
    LongMade();
    seq(LONGS, p requires 0 <= p < LONGS => MakeLong(PlaneBit(chunky, p)))
  }

  function MakeLong(f: nat -> bool): Long {
    LongMade();
    Make(LONG_BITS, f)
  }

  lemma LongMade()
    ensures forall f: nat -> bool :: Make(LONG_BITS, f) < 0x1_0000_0000
    ensures forall f: nat -> bool, i: nat :: i < LONG_BITS ==> Bit(Make(LONG_BITS, f), i) == f(i)
  {
    Pow2Values();
    forall f: nat -> bool
      ensures Make(LONG_BITS, f) < 0x1_0000_0000 && forall i: nat :: i < LONG_BITS ==> Bit(Make(LONG_BITS, f), i) == f(i)
    {
      MakeBits(LONG_BITS, f);
    }
  }

  /** Bit `c` of chunky long `j`, read back from the planes. */
  function ChunkyBit(planes: seq<Long>, j: nat): nat -> bool
    requires |planes| == LONGS
  {
    (c: nat) => j < 8 && Bit(planes[c % 8], c / 8 + 4 * (7 - j))
  }

  /** Planar to chunky. */
  function Chunky(planes: seq<Long>): (r: seq<Long>)
    requires |planes| == LONGS
    ensures |r| == LONGS
    ensures forall j: nat, c: nat :: j < LONGS && c < LONG_BITS ==> Bit(r[j], c) == ChunkyBit(planes, j)(c)
  {
    LongMade();
    seq(LONGS, j requires 0 <= j < LONGS => MakeLong(ChunkyBit(planes, j)))
  }

  lemma SameLongs(a: seq<Long>, b: seq<Long>)
    requires |a| == |b| == LONGS
    requires forall j: nat, c: nat :: j < LONGS && c < LONG_BITS ==> Bit(a[j], c) == Bit(b[j], c)
    ensures a == b
  {
    hide Bit;
    Pow2Values();
    forall j: nat | j < LONGS
      ensures a[j] == b[j]
    {
      SameBits(LONG_BITS, a[j], b[j]);
    }
  }

  /** The conversion loses nothing: the planes give the chunky longs back. */
  lemma ChunkyPlanes(chunky: seq<Long>)
    requires |chunky| == LONGS
    ensures Chunky(Planes(chunky)) == chunky
  {
    hide Bit, Planes, Chunky;
    var planes := Planes(chunky);
    forall j: nat, c: nat | j < LONGS && c < LONG_BITS
      ensures Bit(Chunky(planes)[j], c) == Bit(chunky[j], c)
    {
      var p, b := c % 8, c / 8 + 4 * (7 - j);
      assert Bit(Chunky(planes)[j], c) == ChunkyBit(planes, j)(c) == Bit(planes[p], b);
      assert b / 4 == 7 - j && 8 * (b % 4) + p == c;
      assert Bit(planes[p], b) == PlaneBit(chunky, p)(b);
    }
    SameLongs(Chunky(planes), chunky);
  }

  /** And every eight planes are the conversion of something. */
  lemma PlanesChunky(planes: seq<Long>)
    requires |planes| == LONGS
    ensures Planes(Chunky(planes)) == planes
  {
    hide Bit, Planes, Chunky;
    var chunky := Chunky(planes);
    forall p: nat, b: nat | p < LONGS && b < LONG_BITS
      ensures Bit(Planes(chunky)[p], b) == Bit(planes[p], b)
    {
      var j, c := 7 - b / 4, 8 * (b % 4) + p;
      assert Bit(Planes(chunky)[p], b) == PlaneBit(chunky, p)(b) == Bit(chunky[j], c);
      assert c % 8 == p && c / 8 + 4 * (7 - j) == b;
      assert Bit(chunky[j], c) == ChunkyBit(planes, j)(c);
    }
    SameLongs(Planes(chunky), planes);
  }

  lemma {:induction false} AndPow2(w: nat, i: nat)
    ensures And(w, Pow2(i)) != 0 <==> Bit(w, i)
    decreases i
  {
    if w == 0 {
      ZeroBits(i);
    } else if i == 0 {
      AndZero(w / 2);
      AndSplit(w, Pow2(0));
    } else {
      hide And;
      AndPow2(w / 2, i - 1);
      AndSplit(w, Pow2(i));
    }
  }

  lemma AndSplit(w: nat, b: nat)
    requires w > 0
    ensures And(w, b) == 2 * And(w / 2, b / 2) + w % 2 * (b % 2)
  {
  }

  lemma {:induction false} AndZero(w: nat)
    ensures And(w, 0) == 0
  {
    if w > 0 {
      AndZero(w / 2);
    }
  }

  lemma SetLongBit(w: Long, i: nat, j: nat)
    requires i < LONG_BITS
    ensures PutBit(w, i, true) < 0x1_0000_0000
    ensures Bit(PutBit(w, i, true), j) == (j == i || Bit(w, j))
  {
    hide Pow2, PutBit, Bit;
    Pow2Values();
    PutBitBound(w, i, true, LONG_BITS);
    PutBitBits(w, i, true, j);
  }

  /** `w | 1 << i` */
  function SetBit(w: Long, i: nat): (r: Long)
    requires i < LONG_BITS
    ensures forall j: nat :: Bit(r, j) == (j == i || Bit(w, j))
  {
    SetLongBit(w, i, i);
    assert forall j: nat :: Bit(PutBit(w, i, true), j) == (j == i || Bit(w, j)) by {
      forall j: nat
        ensures Bit(PutBit(w, i, true), j) == (j == i || Bit(w, j))
      {
        SetLongBit(w, i, j);
      }
    }
    PutBit(w, i, true)
  }

  /** The registers of the port: both buffers and the two positions. */
  datatype Port = Port(chunky: seq<Long>, planar: seq<Long>, wr: nat, rd: nat) {
    ghost predicate Valid() {
      |chunky| == LONGS && |planar| == LONGS && wr < LONGS && rd < LONGS
    }
  }

  /** A long write fills the next chunky slot; any write restarts reading. */
  function LongWritten(s: Port, v: Long): (r: Port)
    requires s.Valid()
    ensures r.Valid()
  {
    Port(s.chunky[s.wr := v], s.planar, (s.wr + 1) % LONGS, 0)
  }

  /** A long read at the first position converts; any read restarts writing. */
  function LongRead(s: Port): (r: (Port, Long))
    requires s.Valid()
    ensures r.0.Valid()
  {
    var planar := if s.rd == 0 then Planes(s.chunky) else s.planar;
    (Port(s.chunky, planar, 0, (s.rd + 1) % LONGS), planar[s.rd])
  }

  function WriteAll(s: Port, vs: seq<Long>): (r: Port)
    requires s.Valid()
    ensures r.Valid()
  {
    if vs == [] then s else LongWritten(WriteAll(s, vs[..|vs| - 1]), vs[|vs| - 1])
  }

  function ReadAll(s: Port, n: nat): (r: (Port, seq<Long>))
    requires s.Valid()
    ensures r.0.Valid() && |r.1| == n
  {
    if n == 0 then (s, []) else
      var (t, vs) := ReadAll(s, n - 1);
      var (u, v) := LongRead(t);
      (u, vs + [v])
  }

  lemma {:induction false} WritesFill(s: Port, vs: seq<Long>)
    requires s.Valid() && s.wr == 0 && |vs| <= LONGS
    ensures var t := WriteAll(s, vs);
            && t.chunky == vs + s.chunky[|vs|..]
            && t.wr == (if |vs| == LONGS then 0 else |vs|) && (vs != [] ==> t.rd == 0)
  {
    if vs != [] {
      hide LongWritten, WriteAll;
      var n := |vs| - 1;
      WritesFill(s, vs[..n]);
      LastWrite(s, vs[..n], vs[n], vs);
      Writing(WriteAll(s, vs[..n]), vs[n]);
      Overwrite(vs[..n], vs[n], s.chunky);
    } else {
      assert vs + s.chunky[0..] == s.chunky;
    }
  }

  lemma LastWrite(s: Port, a: seq<Long>, v: Long, vs: seq<Long>)
    requires s.Valid() && |vs| == |a| + 1 && vs[..|a|] == a && vs[|a|] == v
    ensures WriteAll(s, vs) == LongWritten(WriteAll(s, a), v) && vs == a + [v]
  {
    hide LongWritten;
  }

  lemma Writing(s: Port, v: Long)
    requires s.Valid()
    ensures var t := LongWritten(s, v);
            t.chunky == s.chunky[s.wr := v] && t.wr == (if s.wr == 7 then 0 else s.wr + 1) && t.rd == 0
  {
  }

  lemma Overwrite(a: seq<Long>, v: Long, b: seq<Long>)
    requires |a| < |b|
    ensures (a + b[|a|..])[|a| := v] == a + [v] + b[|a| + 1..]
  {
  }

  lemma Reading(s: Port)
    requires s.Valid()
    ensures var (t, v) := LongRead(s);
            && t.planar == (if s.rd == 0 then Planes(s.chunky) else s.planar) && v == t.planar[s.rd]
            && t.chunky == s.chunky && t.wr == 0 && t.rd == (if s.rd == 7 then 0 else s.rd + 1)
  {
  }

  lemma {:induction false} ReadsConvert(s: Port, n: nat)
    requires s.Valid() && s.rd == 0 && n <= LONGS
    ensures var (t, vs) := ReadAll(s, n);
            && vs == Planes(s.chunky)[..n]
            && t.chunky == s.chunky && t.rd == (if n == LONGS then 0 else n) && (n > 0 ==> t.planar == Planes(s.chunky))
  {
    hide Planes, Bit, PlaneBit, LongRead;
    if n > 0 {
      ReadsConvert(s, n - 1);
      Reading(ReadAll(s, n - 1).0);
      assert Planes(s.chunky)[..n] == Planes(s.chunky)[..n - 1] + [Planes(s.chunky)[n - 1]];
    }
  }

  /** Whatever went before, after any read eight writes and eight reads convert those eight longs. */
  lemma AfterAnyRead(s: Port, chunky: seq<Long>)
    requires s.Valid() && |chunky| == LONGS
    ensures ReadAll(WriteAll(LongRead(s).0, chunky), LONGS).1 == Planes(chunky)
  {
    hide Planes, LongRead, Bit, PlaneBit;
    var t := LongRead(s).0;
    Reading(s);
    WritesFill(t, chunky);
    assert chunky + t.chunky[8..] == chunky;
    ReadsConvert(WriteAll(t, chunky), LONGS);
    assert Planes(chunky)[..8] == Planes(chunky);
  }

  /** What byte `offset` of a long is worth: byte 3 is the lowest. */
  function Lane(offset: nat): nat
    requires offset < 4
  {
    if offset == 3 then 1 else if offset == 2 then 0x100 else if offset == 1 then 0x1_0000 else 0x100_0000
  }

  function ByteAt(v: Long, offset: nat): Byte
    requires offset < 4
  {
    v / Lane(offset) % 0x100
  }

  lemma LongOfBytes(v: Long)
    ensures v == ByteAt(v, 3) + ByteAt(v, 2) * 0x100 + ByteAt(v, 1) * 0x1_0000 + ByteAt(v, 0) * 0x100_0000
  {
    Quarters(v);
    assert ByteAt(v, 3) == v % 0x100;
  }

  lemma Quarters(v: nat)
    requires v < 0x1_0000_0000
    ensures v == v % 0x100 + v / 0x100 % 0x100 * 0x100 + v / 0x1_0000 % 0x100 * 0x1_0000 +
                 v / 0x100_0000 % 0x100 * 0x100_0000
  {
    var a := v / 0x100;
    var b := a / 0x100;
    var c := b / 0x100;
    Arith.Nested(v, 0x100, 0x100);
    Arith.Nested(v, 0x1_0000, 0x100);
    assert c < 0x100;
  }

  /** Bitwise OR. */
  function Or(a: nat, b: nat): nat
    decreases a + b
  {
    if a == 0 then b else if b == 0 then a else
      2 * Or(a / 2, b / 2) + if a % 2 == 1 || b % 2 == 1 then 1 else 0
  }

  lemma {:induction false} OrBits(a: nat, b: nat, i: nat)
    ensures Bit(Or(a, b), i) == (Bit(a, i) || Bit(b, i))
    decreases i
  {
    ZeroBits(i);
    if a > 0 && b > 0 && i > 0 {
      OrBits(a / 2, b / 2, i - 1);
    }
  }

  lemma {:induction false} OrBound(a: nat, b: nat, n: nat)
    requires a < Pow2(n) && b < Pow2(n)
    ensures Or(a, b) < Pow2(n)
  {
    if n > 0 {
      OrBound(a / 2, b / 2, n - 1);
    }
  }

  /** OR-ing in bits above a number adds them. */
  lemma {:induction false} OrAbove(a: nat, v: nat, n: nat)
    requires a < Pow2(n)
    ensures Or(a, v * Pow2(n)) == a + v * Pow2(n)
    decreases n
  {
    if n > 0 && a > 0 && v > 0 {
      var p := Pow2(n - 1);
      assert v * Pow2(n) == 2 * (v * p);
      OrAbove(a / 2, v, n - 1);
    }
  }

  lemma OrLane(a: Long, v: Byte, offset: nat)
    requires offset < 4
    ensures Or(a, v * Lane(offset)) < 0x1_0000_0000
    ensures a < Lane(offset) ==> Or(a, v * Lane(offset)) == a + v * Lane(offset)
  {
    hide Or, Pow2;
    Pow2Values();
    OrBound(a, v * Lane(offset), 32);
    assert Pow2(0) == 1 && Pow2(24) == 0x100_0000 by {
      Pow2At24();
    }
    if a < Lane(offset) {
      OrAbove(a, v, 8 * (3 - offset));
    }
  }

  lemma Pow2At24()
    ensures Pow2(0) == 1 && Pow2(24) == 0x100_0000
  {
    assert Pow2(4) == 0x10;
    assert Pow2(8) == 16 * Pow2(4);
    assert Pow2(12) == 16 * Pow2(8);
    assert Pow2(16) == 16 * Pow2(12);
    assert Pow2(20) == 16 * Pow2(16);
    assert Pow2(24) == 16 * Pow2(20);
  }

  /** The plain loop after its first `i` chunky bits. */
  ghost predicate Done(planar: seq<Long>, chunky: seq<Long>, i: nat) {
    && |planar| == |chunky| == LONGS
    && forall p: nat, b: nat :: p < LONGS && b < LONG_BITS ==> Bit(planar[p], b) == (8 * b + p < i && PlaneBit(chunky, p)(b))
  }

  lemma NoneDone(planar: seq<Long>, chunky: seq<Long>)
    requires |planar| == |chunky| == LONGS && forall p: nat :: p < LONGS ==> planar[p] == 0
    ensures Done(planar, chunky, 0)
  {
    hide Bit;
    NoBits();
  }

  lemma OneDone(planar: seq<Long>, chunky: seq<Long>, i: nat)
    requires Done(planar, chunky, i) && i < LONGS * LONG_BITS
    ensures Done(if Bit(chunky[7 - i / 32], i % 32) then planar[i % 8 := SetBit(planar[i % 8], i / 8)] else planar, chunky, i + 1)
  {
    hide Bit, SetBit;
    var p, b := i % 8, i / 8;
    assert b / 4 == i / 32 && 8 * (b % 4) + p == i % 32;
    assert PlaneBit(chunky, p)(b) == Bit(chunky[7 - i / 32], i % 32);
    var next := if Bit(chunky[7 - i / 32], i % 32) then planar[p := SetBit(planar[p], b)] else planar;
    forall q: nat, c: nat | q < LONGS && c < LONG_BITS
      ensures Bit(next[q], c) == (8 * c + q < i + 1 && PlaneBit(chunky, q)(c))
    {
      assert 8 * c + q == i <==> q == p && c == b;
    }
  }

  lemma AllDone(planar: seq<Long>, chunky: seq<Long>)
    requires Done(planar, chunky, LONGS * LONG_BITS)
    ensures planar == Planes(chunky)
  {
    hide Bit, Planes;
    SameLongs(planar, Planes(chunky));
  }

  lemma NoBits()
    ensures forall b: nat :: !Bit(0, b)
  {
    forall b: nat
      ensures !Bit(0, b)
    {
      ZeroBits(b);
    }
  }

  class Akiko {
    const buffer: array<Long>
    const result: array<Long>
    /** akiko_precalc_shift and akiko_precalc_bytenum */
    const shift: array<Long>
    const bytenum: array2<nat>
    var writeOffset: nat
    var readOffset: nat

    ghost predicate Valid()
      reads this, shift, bytenum
    {
      && buffer.Length == LONGS && result.Length == LONGS && shift.Length == LONG_BITS
      && bytenum.Length0 == LONG_BITS && bytenum.Length1 == LONGS
      && buffer != result && buffer != shift && result != shift
      && writeOffset < LONGS && readOffset < LONGS
      && (forall i: nat :: i < LONG_BITS ==> shift[i] == Pow2(i))
      && (forall i: nat, j: nat :: i < LONG_BITS && j < LONGS ==> bytenum[i, j] == i / 8 + 4 * (7 - j))
    }

    ghost function State(): (s: Port)
      requires Valid()
      reads this, buffer, result, shift, bytenum
      ensures s.Valid()
    {
      Port(buffer[..], result[..], writeOffset, readOffset)
    }

    /** akiko_precalculate */
    constructor ()
      ensures Valid() && fresh(buffer) && fresh(result) && fresh(shift) && fresh(bytenum)
      ensures writeOffset == 0 && readOffset == 0
    {
      hide Pow2;
      buffer, result := new Long[LONGS](_ => 0), new Long[LONGS](_ => 0);
      var sh: array<Long> := new Long[LONG_BITS](_ => 0);
      var bn := new nat[LONG_BITS, LONGS]((_, _) => 0);
      writeOffset, readOffset := 0, 0;
      for i := 0 to LONG_BITS
        invariant forall k: nat :: k < i ==> sh[k] == Pow2(k)
        invariant forall k: nat, j: nat :: k < i && j < LONGS ==> bn[k, j] == k / 8 + 4 * (7 - j)
      {
        Pow2Long(i);
        sh[i] := Pow2(i);
        for j := 0 to LONGS
          invariant forall k: nat :: k <= i ==> sh[k] == Pow2(k)
          invariant forall m: nat :: m < j ==> bn[i, m] == i / 8 + 4 * (7 - m)
          invariant forall k: nat, m: nat :: k < i && m < LONGS ==> bn[k, m] == k / 8 + 4 * (7 - m)
        {
          bn[i, j] := i / 8 + 4 * (7 - j);
        }
      }
      shift, bytenum := sh, bn;
    }

    static lemma Pow2Long(i: nat)
      requires i < LONG_BITS
      ensures Pow2(i) < 0x1_0000_0000
    {
      Pow2Less(i, LONG_BITS);
      Pow2Values();
    }

    /** akiko_c2p_do as it first was: one chunky bit after the other. */
    method ConvertSimply()
      requires Valid()
      modifies result
      ensures result[..] == Planes(buffer[..])
    {
      hide Bit, SetBit, Planes, Pow2, Done;
      for i := 0 to LONGS
        invariant forall p: nat :: p < i ==> result[p] == 0
      {
        result[i] := 0;
      }
      NoneDone(result[..], buffer[..]);
      for i := 0 to LONGS * LONG_BITS
        invariant buffer[..] == old(buffer[..])
        invariant Done(result[..], buffer[..], i)
      {
        OneDone(result[..], buffer[..], i);
        if Bit(buffer[7 - i / 32], i % 32) {
          result[i % 8] := SetBit(result[i % 8], i / 8);
        }
      }
      AllDone(result[..], buffer[..]);
    }

    /** akiko_c2p_do: plane `i` is the OR of 32 single bits, found through the tables. */
    method Convert()
      requires Valid()
      modifies result
      ensures result[..] == Planes(buffer[..])
    {
      hide Bit, SetBit, Planes, Pow2;
      for i := 0 to LONGS
        invariant buffer[..] == old(buffer[..])
        invariant forall p: nat :: p < i ==> result[p] == Planes(buffer[..])[p]
      {
        result[i] := Plane(i);
      }
    }

    /** One plane: bits i, i + 8, i + 16 and i + 24 of each of the eight longs. */
    method Plane(i: nat) returns (r: Long)
      requires Valid() && i < LONGS
      ensures r == Planes(buffer[..])[i]
    {
      hide Bit, SetBit, Planes, Pow2, And;
      r := 0;
      NoBits();
      ghost var chunky := buffer[..];
      for k := 0 to 4
        invariant forall b: nat :: b < LONG_BITS ==> Bit(r, b) == (b % 4 < k && PlaneBit(chunky, i)(b))
      {
        for j := 0 to LONGS
          invariant forall b: nat :: b < LONG_BITS ==>
            Bit(r, b) == ((b % 4 < k || (b % 4 == k && 7 - b / 4 < j)) && PlaneBit(chunky, i)(b))
        {
          r := Gather(i, k, j, r);
        }
      }
      SamePlane(r, chunky, i);
    }

    static lemma SamePlane(r: Long, chunky: seq<Long>, i: nat)
      requires |chunky| == LONGS && i < LONGS
      requires forall b: nat :: b < LONG_BITS ==> Bit(r, b) == PlaneBit(chunky, i)(b)
      ensures r == Planes(chunky)[i]
    {
      hide Bit, Planes, PlaneBit;
      Pow2Values();
      SameBits(LONG_BITS, r, Planes(chunky)[i]);
    }

    /** One term of the OR. */
    method Gather(i: nat, k: nat, j: nat, was: Long) returns (r: Long)
      requires Valid() && i < LONGS && k < 4 && j < LONGS
      ensures forall b: nat :: b < LONG_BITS ==>
        Bit(r, b) == (Bit(was, b) || (b == k + 4 * (7 - j) && PlaneBit(buffer[..], i)(b)))
    {
      hide Bit, SetBit, Planes, Pow2, And;
      var n := bytenum[i + 8 * k, j];
      assert n == k + 4 * (7 - j);
      assert PlaneBit(buffer[..], i)(n) == Bit(buffer[j], i + 8 * k);
      AndPow2(buffer[j], i + 8 * k);
      r := was;
      if And(buffer[j], shift[i + 8 * k]) != 0 {
        r := SetBit(was, n);
      }
    }

    /** akiko_c2p_write */
    method C2pWrite(offset: nat, v: Byte)
      requires Valid() && offset < 4
      modifies this`writeOffset, this`readOffset, buffer
      ensures Valid() && result[..] == old(result[..]) && readOffset == 0
      ensures writeOffset == if offset == 0 then (old(writeOffset) + 1) % LONGS else old(writeOffset)
      ensures var was := if offset == 3 then 0 else old(buffer[writeOffset]);
              Or(was, v * Lane(offset)) < 0x1_0000_0000 &&
              buffer[..] == old(buffer[..])[old(writeOffset) := Or(was, v * Lane(offset))]
    {
      hide Pow2, Or;
      if offset == 3 {
        buffer[writeOffset] := 0;
      }
      OrLane(buffer[writeOffset], v, offset);
      buffer[writeOffset] := Or(buffer[writeOffset], v * Lane(offset));
      if offset == 0 {
        writeOffset := (writeOffset + 1) % LONGS;
      }
      readOffset := 0;
    }

    /** akiko_c2p_read, as far as the byte that reaches the bus */
    method C2pRead(offset: nat) returns (v: Byte)
      requires Valid() && offset < 4
      modifies this`writeOffset, this`readOffset, result
      ensures Valid() && buffer[..] == old(buffer[..]) && writeOffset == 0
      ensures result[..] == if old(readOffset) == 0 && offset == 3 then Planes(buffer[..]) else old(result[..])
      ensures readOffset == if offset == 0 then (old(readOffset) + 1) % LONGS else old(readOffset)
      ensures v == ByteAt(result[old(readOffset)], offset)
    {
      hide Pow2, Planes;
      if readOffset == 0 && offset == 3 {
        Convert();
      }
      writeOffset := 0;
      v := ByteAt(result[readOffset], offset);
      if offset == 0 {
        readOffset := (readOffset + 1) % LONGS;
      }
    }

    /** akiko_lput on the port: four bytes, the lowest first. */
    method LongPut(v: Long)
      requires Valid()
      modifies this`writeOffset, this`readOffset, buffer
      ensures Valid() && State() == LongWritten(old(State()), v)
    {
      hide Pow2, Or, ByteAt, Lane;
      Lanes();
      LongOfBytes(v);
      OrZero(ByteAt(v, 3));
      ghost var w := writeOffset;
      C2pWrite(3, ByteAt(v, 3));
      OrLane(buffer[w], ByteAt(v, 2), 2);
      C2pWrite(2, ByteAt(v, 2));
      OrLane(buffer[w], ByteAt(v, 1), 1);
      C2pWrite(1, ByteAt(v, 1));
      OrLane(buffer[w], ByteAt(v, 0), 0);
      C2pWrite(0, ByteAt(v, 0));
    }

    static lemma Lanes()
      ensures Lane(3) == 1 && Lane(2) == 0x100 && Lane(1) == 0x1_0000 && Lane(0) == 0x100_0000
    {
    }

    static lemma OrZero(v: nat)
      ensures Or(0, v) == v
    {
    }

    /** akiko_lget on the port */
    method LongGet() returns (v: Long)
      requires Valid()
      modifies this`writeOffset, this`readOffset, result
      ensures Valid() && (State(), v) == LongRead(old(State()))
    {
      hide Pow2, Planes, ByteAt, Lane;
      var b3: nat := C2pRead(3);
      var b2: nat := C2pRead(2);
      var b1: nat := C2pRead(1);
      var b0: nat := C2pRead(0);
      LongOfBytes(result[old(readOffset)]);
      v := b3 + b2 * 0x100 + b1 * 0x1_0000 + b0 * 0x100_0000;
    }
  }
}
