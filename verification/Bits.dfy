/** A value that may be missing. */
module Wrappers {
  datatype Option<T> = None | Some(value: T)
}

/** Fixed-width machine integers as bounded naturals, and their bits. */
module Words {
  const BYTE_BITS: nat := 8
  const WORD_BITS: nat := 16

  type Byte = x: nat | x < 0x100
  type Word = x: nat | x < 0x1_0000
  type Long = x: nat | x < 0x1_0000_0000

  /** Unsigned 32-bit arithmetic wraps around. */
  function Wrap(x: int): Long {
    x % 0x1_0000_0000
  }

  lemma WrapAdd(x: int, y: int)
    ensures Wrap(Wrap(x) + y) == Wrap(x + y)
  {
    assert x == x / 0x1_0000_0000 * 0x1_0000_0000 + Wrap(x);
  }

  /** The low 16 bits of a number read as a signed number, as a C cast to a 16-bit int does. */
  function Signed16(x: int): int {
    var w := x % 0x1_0000;
    if w < 0x8000 then w else w - 0x1_0000
  }

  /** C's `con & mask` test, for a mask that is a power of two. */
  predicate Flag(con: nat, mask: nat)
    requires mask > 0
  {
    con / mask % 2 == 1
  }
}

/** 16-bit numbers in memory, most significant byte first. */
module BigEndian {
  import opened Words

  /** The 16-bit number whose bytes are at `i` and `i + 1`, most significant first. */
  function Half(d: seq<Byte>, i: nat): Word
    requires i + 1 < |d|
  {
    Big(d[i], d[i + 1])
  }

  function Big(high: nat, low: nat): (w: nat)
    ensures high < 0x100 && low < 0x100 ==> w < 0x1_0000
  {
    high * 0x100 + low
  }

  /** A 16-bit number stored at `at`, most significant byte first. */
  function Stamped(d: seq<Byte>, at: nat, c: Word): (e: seq<Byte>)
    requires at + 1 < |d|
    ensures |e| == |d| && Half(e, at) == c
    ensures forall i: nat :: i < |d| && i != at && i != at + 1 ==> e[i] == d[i]
  {
    d[at := c / 0x100][at + 1 := c % 0x100]
  }
}

/** Products, quotients and remainders: facts the solver needs spelled out. */
module Arith {

  lemma ScaleUp(a: int, b: int, c: nat)
    requires a >= b
    ensures a * c >= b * c
  {
  }

  lemma Distribute(a: int, b: int, c: int)
    ensures a * (b + c) == a * b + a * c && (b + c) * a == b * a + c * a
  {
  }

  lemma Rearrange(a: int, b: int, c: int)
    ensures a * b * c == a * c * b && a * b * c == a * (b * c)
  {
  }

  /** A quotient and remainder are recognised by what they add up to. */
  lemma DivModIs(x: int, d: int, q: int, r: int)
    requires d > 0 && 0 <= r < d && x == q * d + r
    ensures x / d == q && x % d == r
  {
    var e := x / d - q;
    assert x == x / d * d + x % d;
    assert e * d == r - x % d;
    assert e >= 1 ==> e * d >= d;
    assert e <= -1 ==> e * d <= -d;
  }

  /** Dividing twice is dividing once by the product. */
  lemma Nested(v: nat, d: nat, e: nat)
    requires d > 0 && e > 0
    ensures v / d / e == v / (d * e)
  {
    var q, r := v / d, v % d;
    assert v == d * q + r;
    assert q == e * (q / e) + q % e;
    assert d * q == d * e * (q / e) + d * (q % e) by {
      Distribute(d, e * (q / e), q % e);
      Rearrange(d, e, q / e);
    }
    assert 0 <= d * (q % e) + r < d * e by {
      ScaleUp(e - 1, q % e, d);
      Distribute(d, e, -1);
      MulNat(d, q % e);
    }
    DivModIs(v, d * e, q / e, d * (q % e) + r);
  }

  /** Two places less than `n` apart differ modulo `n`. */
  lemma Differ(at: nat, i: nat, k: nat, n: nat)
    requires n > 0 && i < k < i + n
    ensures (at + i) % n != (at + k) % n
  {
    var q, r := (at + i) / n, (at + i) % n;
    assert at + i == q * n + r;
    var s := r + (k - i);
    if s < n {
      DivModIs(at + k, n, q, s);
    } else {
      Distribute(n, q, 1);
      DivModIs(at + k, n, q + 1, s - n);
    }
  }

  lemma MulNat(a: nat, b: nat)
    ensures 0 <= a as int * b as int
  {
  }

  lemma DivShrinks(x: nat, d: nat)
    requires d > 0
    ensures 0 <= x / d <= x
  {
    var q := x / d;
    assert x == q * d + x % d;
    if q < 0 {
      ScaleUp(-1, q, d);
    } else if q > x {
      ScaleUp(d, 1, q);
    }
  }
}

/** Bit-level view of naturals: bit 0 is the least significant one. */
module Bits {

  function Pow2(n: nat): (p: nat)
    ensures p >= 1
  {
    if n == 0 then 1 else 2 * Pow2(n - 1)
  }

  lemma {:induction false} Pow2Less(i: nat, n: nat)
    requires i < n
    ensures Pow2(i) < Pow2(n)
  {
    if i + 1 < n {
      Pow2Less(i, n - 1);
    }
  }

  lemma {:induction false} Pow2Product(m: nat, n: nat)
    ensures Pow2(m + n) == Pow2(m) * Pow2(n)
  {
    if m > 0 {
      Pow2Product(m - 1, n);
      Doubled(Pow2(m - 1), Pow2(n));
    }
  }

  lemma Doubled(x: nat, y: nat)
    ensures 2 * x * y == 2 * (x * y)
  {
  }

  predicate Bit(w: nat, i: nat)
    decreases i
  {
    if i == 0 then w % 2 == 1 else Bit(w / 2, i - 1)
  }

  /** Multiplying by a power of two moves the bits up. */
  lemma {:induction false} BitUp(w: nat, i: nat, n: nat)
    ensures Bit(w * Pow2(n), i + n) == Bit(w, i)
  {
    if n > 0 {
      BitUp(w, i, n - 1);
      var x := w * Pow2(n - 1);
      DoubleProduct(w, Pow2(n - 1));
      assert Bit(2 * x, i + n) == Bit(2 * x / 2, i + n - 1);
    }
  }

  lemma DoubleProduct(w: nat, p: nat)
    ensures w * (2 * p) == 2 * (w * p)
  {
  }

  /** `w` with bit `i` replaced by `b`. */
  function PutBit(w: nat, i: nat, b: bool): nat
    decreases i
  {
    if i == 0 then w / 2 * 2 + (if b then 1 else 0)
    else 2 * PutBit(w / 2, i - 1, b) + w % 2
  }

  lemma {:induction false} PutBitBits(w: nat, i: nat, b: bool, j: nat)
    ensures Bit(PutBit(w, i, b), j) == if j == i then b else Bit(w, j)
    decreases i
  {
    if i > 0 && j > 0 {
      PutBitBits(w / 2, i - 1, b, j - 1);
    }
  }

  lemma {:induction false} PutBitBound(w: nat, i: nat, b: bool, n: nat)
    requires i < n && w < Pow2(n)
    ensures PutBit(w, i, b) < Pow2(n)
    decreases i
  {
    var half := Pow2(n - 1);
    assert w / 2 < half;
    if i > 0 {
      PutBitBound(w / 2, i - 1, b, n - 1);
    }
  }

  lemma {:induction false} ZeroBits(i: nat)
    ensures !Bit(0, i)
  {
    if i > 0 {
      ZeroBits(i - 1);
    }
  }

  /** Two `n`-bit numbers with the same bits are the same number. */
  lemma {:induction false} SameBits(n: nat, a: nat, b: nat)
    requires a < Pow2(n) && b < Pow2(n)
    requires forall i: nat :: i < n ==> Bit(a, i) == Bit(b, i)
    ensures a == b
  {
    if n > 0 {
      assert Bit(a, 0) == Bit(b, 0);
      forall i: nat | i < n - 1
        ensures Bit(a / 2, i) == Bit(b / 2, i)
      {
        assert Bit(a, i + 1) == Bit(b, i + 1);
      }
      SameBits(n - 1, a / 2, b / 2);
    }
  }

  /** The low `n` bits of `w`, least significant first. */
  function ToBits(w: nat, n: nat): (s: seq<bool>)
    ensures |s| == n
  {
    if n == 0 then [] else [w % 2 == 1] + ToBits(w / 2, n - 1)
  }

  function FromBits(s: seq<bool>): nat {
    if s == [] then 0 else (if s[0] then 1 else 0) + 2 * FromBits(s[1..])
  }

  lemma {:induction false} FromToBits(w: nat, n: nat)
    requires w < Pow2(n)
    ensures FromBits(ToBits(w, n)) == w
  {
    if n > 0 {
      FromToBits(w / 2, n - 1);
      assert ToBits(w, n)[1..] == ToBits(w / 2, n - 1);
    }
  }

  lemma {:induction false} ToFromBits(s: seq<bool>)
    ensures FromBits(s) < Pow2(|s|)
    ensures ToBits(FromBits(s), |s|) == s
  {
    if s != [] {
      ToFromBits(s[1..]);
    }
  }

  lemma {:induction false} ToBitsAt(w: nat, n: nat, i: nat)
    requires i < n
    ensures ToBits(w, n)[i] == Bit(w, i)
  {
    if i > 0 {
      ToBitsAt(w / 2, n - 1, i - 1);
    }
  }

  /** Bitwise AND. */
  function And(a: nat, b: nat): (r: nat)
    ensures r <= a
    decreases a
  {
    if a == 0 then 0 else 2 * And(a / 2, b / 2) + a % 2 * (b % 2)
  }

  lemma {:induction false} AndBits(a: nat, b: nat, i: nat)
    ensures Bit(And(a, b), i) == (Bit(a, i) && Bit(b, i))
    decreases i
  {
    if a == 0 {
      ZeroBits(i);
    } else {
      AndStep(a, b);
      hide And;
      if i > 0 {
        AndBits(a / 2, b / 2, i - 1);
      }
    }
  }

  lemma AndStep(a: nat, b: nat)
    requires a > 0
    ensures And(a, b) / 2 == And(a / 2, b / 2) && (And(a, b) % 2 == 1 <==> a % 2 == 1 && b % 2 == 1)
  {
    var r := And(a / 2, b / 2);
    assert And(a, b) == 2 * r + a % 2 * (b % 2);
    BitProduct(a % 2, b % 2);
  }

  lemma BitProduct(x: nat, y: nat)
    requires x < 2 && y < 2
    ensures x * y == if x == 1 && y == 1 then 1 else 0
  {
    if x == 0 {
      assert x * y == 0;
    } else {
      assert x * y == y;
    }
  }

  lemma Pow2Values()
    ensures Pow2(4) == 0x10 && Pow2(8) == 0x100 && Pow2(16) == 0x1_0000 && Pow2(32) == 0x1_0000_0000
  {
    assert Pow2(4) == 0x10;
    assert Pow2(8) == 16 * Pow2(4);
    assert Pow2(12) == 16 * Pow2(8);
    assert Pow2(16) == 16 * Pow2(12);
    assert Pow2(20) == 16 * Pow2(16);
    assert Pow2(24) == 16 * Pow2(20);
    assert Pow2(28) == 16 * Pow2(24);
    assert Pow2(32) == 16 * Pow2(28);
  }

  /** Bits of a number put together from a low and a high part. */
  lemma {:induction false} ToBitsConcat(lo: nat, hi: nat, m: nat, n: nat)
    requires lo < Pow2(m)
    ensures ToBits(lo + Pow2(m) * hi, m + n) == ToBits(lo, m) + ToBits(hi, n)
    decreases m
  {
    if m > 0 {
      var p := Pow2(m - 1);
      assert Pow2(m) * hi == 2 * (p * hi);
      assert (lo + Pow2(m) * hi) / 2 == lo / 2 + p * hi;
      ToBitsConcat(lo / 2, hi, m - 1, n);
    }
  }

  /** The number with `n` bits whose bit `i` is `f(i)`. */
  function Make(n: nat, f: nat -> bool): nat {
    FromBits(seq(n, i requires 0 <= i => f(i)))
  }

  lemma MakeBits(n: nat, f: nat -> bool)
    ensures Make(n, f) < Pow2(n)
    ensures forall i: nat :: i < n ==> Bit(Make(n, f), i) == f(i)
  {
    var s := seq(n, i requires 0 <= i => f(i));
    ToFromBits(s);
    forall i: nat | i < n
      ensures Bit(Make(n, f), i) == f(i)
    {
      ToBitsAt(FromBits(s), n, i);
    }
  }
}
