/** The A2065's board memory and the rings of buffer descriptors in it. */
module DescriptorRing {
  import opened Words
  import opened BigEndian
  import opened Bits

  const RAM: nat := 0x8000

  // bit numbers in a descriptor's second word
  const OWN: nat := 15
  const ERR: nat := 14
  const OFLO: nat := 12
  const BUFF: nat := 10
  const STP: nat := 9
  const ENP: nat := 8

  type Ram = r: seq<Byte> | |r| == RAM witness seq(RAM, _ => 0)

  /** `length` descriptors of eight bytes each, from `base` on and round the end of memory if need be. */
  datatype Ring = Ring(base: nat, length: nat) {
    predicate Valid() {
      base < RAM && base % 8 == 0 && 1 <= length <= 128
    }

    function Index(off: nat, i: nat): (k: nat)
      requires Valid()
      ensures k < length
    {
      (off + i) % length
    }

    /** Address of descriptor `k`. */
    function At(k: nat): (p: nat)
      requires Valid() && k < length
      ensures p % 8 == 0 && p + 7 < RAM
    {
      if base + k * 8 >= RAM then base + k * 8 - RAM else base + k * 8
    }

    /** That is the address modulo the size of memory. */
    lemma AtIs(k: nat)
      requires Valid() && k < length
      ensures At(k) == (base + k * 8) % RAM
    {
    }

    lemma Apart(j: nat, k: nat)
      requires Valid() && j < length && k < length && j != k
      ensures At(j) + 8 <= At(k) || At(k) + 8 <= At(j)
    {
    }

    lemma Shift(off: nat, i: nat)
      requires Valid()
      ensures Index(Index(off, 0) + 1, i) == Index(off, i + 1)
    {
      var q, o := off / length, off % length;
      assert off == q * length + o;
      var x := o + 1 + i;
      var y, z := x / length, x % length;
      assert x == y * length + z;
      Arith.Distribute(length, q, y);
      Arith.DivModIs(off + (i + 1), length, q + y, z);
    }

    lemma Differ(off: nat, n: nat)
      requires Valid() && 0 < n < length
      ensures Index(off + n, 0) != Index(off, 0)
    {
      var q, o := off / length, off % length;
      assert off == q * length + o;
      if o + n < length {
        Arith.DivModIs(off + n, length, q, o + n);
      } else {
        Arith.Distribute(length, q, 1);
        Arith.DivModIs(off + n, length, q + 1, o + n - length);
      }
    }

    lemma Wraps(off: nat)
      requires Valid()
      ensures Index(off, length) == Index(off, 0)
    {
      var q, o := off / length, off % length;
      assert off == q * length + o;
      Arith.Distribute(length, q, 1);
      Arith.DivModIs(off + length, length, q + 1, o);
    }
  }

  import Arith

  /** The ring an initialisation block asks for: the address in the low bits, the length as a power of two in the top. */
  function RingOf(register: Long): (ring: Ring)
    ensures ring.Valid() && ring.length == Pow2(register / 0x2000_0000)
    ensures ring.base == register % RAM - register % 8
  {
    ShortRing(register / 0x2000_0000);
    RingBase(register);
    hide Pow2;
    Ring(register % RAM / 8 * 8, Pow2(register / 0x2000_0000))
  }

  lemma RingBase(register: nat)
    ensures register % RAM / 8 * 8 == register % RAM - register % 8 < RAM
    ensures register % RAM / 8 * 8 % 8 == 0
  {
    var (q, r) := (register / RAM, register % RAM);
    assert register == q * RAM + r;
    assert r == r / 8 * 8 + r % 8;
    assert register % 8 == r % 8 by {
      Arith.DivModIs(register, 8, q * 0x1000 + r / 8, r % 8);
    }
    Arith.DivModIs(r / 8 * 8, 8, r / 8, 0);
  }

  lemma ShortRing(k: nat)
    requires k < 8
    ensures Pow2(k) <= 128
  {
    assert Pow2(0) == 1 && Pow2(1) == 2 && Pow2(2) == 4 && Pow2(3) == 8;
    assert Pow2(4) == 16 && Pow2(5) == 32 && Pow2(6) == 64 && Pow2(7) == 128;
  }

  /** A descriptor as its four words. */
  datatype Desc = Desc(w0: Word, w1: Word, w2: Word, w3: Word) {
    predicate Own() {
      Bit(w1, OWN)
    }

    predicate Enp() {
      Bit(w1, ENP)
    }

    function Addr(): nat {
      (w0 + w1 % 0x100 * 0x1_0000) % RAM
    }

    /** The buffer's length is kept as a negative number. */
    function Size(): (n: nat)
      ensures 1 <= n <= 0x1_0000
    {
      0x1_0000 - w2
    }
  }

  /** `w` with one bit set or cleared. */
  function With(w: Word, bit: nat, on: bool): (r: Word)
    requires bit < WORD_BITS
    ensures Bit(r, bit) == on
    ensures forall b: nat :: b < WORD_BITS && b != bit ==> Bit(r, b) == Bit(w, b)
  {
    WithBits(w, bit, on, bit);
    assert forall b: nat :: b < WORD_BITS && b != bit ==> Bit(PutBit(w, bit, on), b) == Bit(w, b) by {
      forall b: nat | b < WORD_BITS && b != bit
        ensures Bit(PutBit(w, bit, on), b) == Bit(w, b)
      {
        WithBits(w, bit, on, b);
      }
    }
    PutBit(w, bit, on)
  }

  lemma WithBits(w: Word, bit: nat, on: bool, b: nat)
    requires bit < WORD_BITS
    ensures PutBit(w, bit, on) < 0x1_0000 && Bit(PutBit(w, bit, on), b) == if b == bit then on else Bit(w, b)
  {
    hide Pow2, PutBit, Bit;
    Pow2Values();
    PutBitBound(w, bit, on, WORD_BITS);
    PutBitBits(w, bit, on, b);
  }

  function DescAt(ram: Ram, ring: Ring, k: nat): Desc
    requires ring.Valid() && k < ring.length
  {
    var p := ring.At(k);
    Desc(Half(ram, p), Half(ram, p + 2), Half(ram, p + 4), Half(ram, p + 6))
  }

  /** The two words of a descriptor that the chip writes back. */
  function PutBack(ram: Ram, ring: Ring, k: nat, w1: Word, w3: Word): Ram
    requires ring.Valid() && k < ring.length
  {
    var p := ring.At(k);
    Stamped(Stamped(ram, p + 2, w1), p + 6, w3)
  }

  predicate InDesc(ring: Ring, k: nat, a: nat)
    requires ring.Valid() && k < ring.length
  {
    ring.At(k) <= a < ring.At(k) + 8
  }

  lemma PutBackMeans(ram: Ram, ring: Ring, k: nat, w1: Word, w3: Word)
    requires ring.Valid() && k < ring.length
    ensures var r := PutBack(ram, ring, k, w1, w3);
            && DescAt(r, ring, k) == DescAt(ram, ring, k).(w1 := w1, w3 := w3)
            && (forall j: nat :: j < ring.length && j != k ==> DescAt(r, ring, j) == DescAt(ram, ring, j))
            && (forall a: nat :: a < RAM && !InDesc(ring, k, a) ==> r[a] == ram[a])
  {
    hide Stamped;
    var p := ring.At(k);
    var m := Stamped(ram, p + 2, w1);
    var r := Stamped(m, p + 6, w3);
    assert Half(r, p + 2) == Half(m, p + 2);
    forall j: nat | j < ring.length && j != k
      ensures DescAt(r, ring, j) == DescAt(ram, ring, j)
    {
      ring.Apart(j, k);
      SameDesc(ram, r, ring, j);
    }
  }

  lemma SameDesc(ram: Ram, r: Ram, ring: Ring, k: nat)
    requires ring.Valid() && k < ring.length
    requires forall a: nat :: a < RAM && InDesc(ring, k, a) ==> r[a] == ram[a]
    ensures DescAt(r, ring, k) == DescAt(ram, ring, k)
  {
    var p := ring.At(k);
    assert r[p] == ram[p] && r[p + 1] == ram[p + 1] && r[p + 2] == ram[p + 2] && r[p + 3] == ram[p + 3];
    assert r[p + 4] == ram[p + 4] && r[p + 5] == ram[p + 5] && r[p + 6] == ram[p + 6] && r[p + 7] == ram[p + 7];
  }

  /** How far `a` lies behind `from`, round the end of memory if need be. */
  function Dist(from: nat, a: nat): (d: nat)
    requires from < RAM && a < RAM
    ensures d < RAM && (from + d) % RAM == a
  {
    if a >= from then a - from else a + RAM - from
  }

  lemma DistOf(from: nat, d: nat)
    requires from < RAM && d < RAM
    ensures Dist(from, (from + d) % RAM) == d
  {
  }

  /** Bytes written upwards from `addr`. */
  function Copied(ram: Ram, addr: nat, bytes: seq<Byte>): (r: Ram)
    requires addr < RAM && |bytes| <= RAM
    ensures forall a: nat :: a < RAM ==> r[a] == if Dist(addr, a) < |bytes| then bytes[Dist(addr, a)] else ram[a]
  {
    seq(RAM, a requires 0 <= a < RAM => if Dist(addr, a) < |bytes| then bytes[Dist(addr, a)] else ram[a])
  }

  lemma CopiedOne(ram: Ram, addr: nat, bytes: seq<Byte>, b: Byte)
    requires addr < RAM && |bytes| < RAM
    ensures Copied(ram, addr, bytes + [b]) == Copied(ram, addr, bytes)[(addr + |bytes|) % RAM := b]
  {
    DistOf(addr, |bytes|);
  }

  lemma CopiedNone(ram: Ram, addr: nat)
    requires addr < RAM
    ensures Copied(ram, addr, []) == ram
  {
  }

  /** Bytes read upwards from `addr`. */
  function ReadAt(ram: Ram, addr: nat, n: nat): (s: seq<Byte>)
    requires addr < RAM
    ensures |s| == n && forall j: nat :: j < n ==> s[j] == ram[(addr + j) % RAM]
  {
    seq(n, j requires 0 <= j < n => ram[(addr + j) % RAM])
  }
}
