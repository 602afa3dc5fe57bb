/** The barrel shifter acts on the whole stream of words as on one big integer. */
module BarrelShifter {
  import opened Words
  import opened Arith
  import opened Bits
  import opened BlitterModel

  const BASE: nat := 0x1_0000

  /** The shifter fed with word after word, `prev` being the word before the first. */
  function ShiftStream(desc: bool, shift: Shift, prev: Word, ws: seq<Word>): (r: seq<Word>)
    ensures |r| == |ws|
    decreases |ws|
  {
    if ws == [] then [] else [Shifted(desc, shift, prev, ws[0])] + ShiftStream(desc, shift, ws[0], ws[1..])
  }

  function Power(n: nat): (p: nat)
    ensures p > 0
  {
    if n == 0 then 1 else BASE * Power(n - 1)
  }

  /** Words of an ascending blit: the first is the most significant. */
  function Big(ws: seq<Word>): nat {
    if ws == [] then 0 else ws[0] * Power(|ws| - 1) + Big(ws[1..])
  }

  /** Words of a descending blit: the first is the least significant. */
  function Little(ws: seq<Word>): nat {
    if ws == [] then 0 else ws[0] + BASE * Little(ws[1..])
  }

  /** 2^16 as 2^shift * 2^(16 - shift). */
  lemma Halves(shift: Shift)
    ensures Pow2(shift) * Pow2(16 - shift) == BASE
  {
    Pow2Product(shift, 16 - shift);
    Pow2Values();
  }

  // ----- arithmetic steps, over any base b == p * q -----

  lemma Below(x: nat, m: nat, n: nat)
    requires m > 0 && x < m * n
    ensures x / m < n
  {
    var k := x / m;
    assert x == k * m + x % m;
    if k >= n {
      ScaleUp(k, n, m);
    }
  }

  lemma DigitBelow(r: nat, p: nat, w: nat, b: nat)
    requires r < p && w < b
    ensures r * b + w < p * b
  {
    ScaleUp(p, r + 1, b);
    Distribute(b, r, 1);
  }

  lemma AscendingDigit(p: nat, q: nat, b: nat, prev: nat, w: nat)
    requires p > 0 && q > 0 && b == p * q && w < b
    ensures (prev * b + w) / p % b == (prev % p * b + w) / p
  {
    var a, r := prev / p, prev % p;
    var y := r * b + w;
    DigitBelow(r, p, w, b);
    Below(y, p, b);
    assert prev == a * p + r;
    Distribute(b, a * p, r);
    Rearrange(a, p, b);
    assert y == y / p * p + y % p;
    Distribute(p, a * b, y / p);
    assert prev * b + w == (a * b + y / p) * p + y % p;
    DivModIs(prev * b + w, p, a * b + y / p, y % p);
    DivModIs(a * b + y / p, b, a, y / p);
  }

  lemma AscendingRest(p: nat, q: nat, b: nat, r: nat, w: nat)
    requires p > 0 && b == p * q
    ensures (r * b + w) % p == w % p
  {
    Rearrange(r, p, q);
    assert w == w / p * p + w % p;
    Distribute(p, r * q, w / p);
    DivModIs((r * q + w / p) * p + w % p, p, r * q + w / p, w % p);
  }

  lemma AscendingSum(p: nat, b: nat, n: nat, r: nat, w: nat, tail: nat)
    requires p > 0
    ensures var y := r * b + w;
            y / p * n + (y % p * n + tail) / p == (r * (b * n) + (w * n + tail)) / p
  {
    var y := r * b + w;
    var rest := y % p * n + tail;
    assert y == y / p * p + y % p;
    Distribute(n, y / p * p, y % p);
    Rearrange(y / p, p, n);
    Distribute(n, r * b, w);
    Rearrange(r, b, n);
    assert rest == rest / p * p + rest % p;
    Distribute(p, y / p * n, rest / p);
    DivModIs((y / p * n + rest / p) * p + rest % p, p, y / p * n + rest / p, rest % p);
  }

  lemma DescendingDigit(p: nat, q: nat, b: nat, prev: nat, w: nat)
    requires p > 0 && q > 0 && b == p * q && prev < b
    ensures var x := w * p + prev / q;
            (w * b + prev) / q == x && x / b == w / q
  {
    var (t, r) := (prev / q, prev % q);
    Rearrange(q, p, 1);
    Below(prev, q, p);
    assert prev == t * q + r;
    DescendingSplit(p, q, b, t, r, w);
    DescendingCarry(p, q, b, t, w);
  }

  lemma DescendingSplit(p: nat, q: nat, b: nat, t: nat, r: nat, w: nat)
    requires q > 0 && b == p * q && r < q
    ensures (w * b + (t * q + r)) / q == w * p + t
  {
    Rearrange(w, p, q);
    Distribute(q, w * p, t);
    DivModIs(w * b + (t * q + r), q, w * p + t, r);
  }

  lemma DescendingCarry(p: nat, q: nat, b: nat, t: nat, w: nat)
    requires p > 0 && q > 0 && b == p * q && t < p
    ensures (w * p + t) / b == w / q
  {
    var (h, l) := (w / q, w % q);
    assert w == h * q + l;
    Distribute(p, h * q, l);
    Rearrange(h, q, p);
    Rearrange(q, p, 1);
    DigitBelow(l, q, t, p);
    MulNat(l, p);
    assert w * p + t == h * b + (l * p + t);
    DivModIs(w * p + t, b, h, l * p + t);
  }

  lemma PullOut(x: nat, y: nat, b: nat, m: nat)
    requires m > 0 && b > 0
    ensures b * m > 0 && x % b + b * ((y + x / b) % m) == (x + b * y) % (b * m)
  {
    var z := y + x / b;
    assert z == z / m * m + z % m;
    assert x == x / b * b + x % b;
    Distribute(b, z / m * m, z % m);
    Rearrange(z / m, m, b);
    Distribute(b, y, x / b);
    DigitBelow(z % m, m, x % b, b);
    DivModIs(z / m * (b * m) + (x % b + b * (z % m)), b * m, z / m, x % b + b * (z % m));
  }

  lemma DescendingSum(p: nat, q: nat, b: nat, m: nat, prev: nat, w: nat, rest: nat)
    requires p > 0 && q > 0 && b == p * q && prev < b && m > 0
    ensures b * m > 0
    ensures (w * b + prev) / q % b + b * ((rest * p + w / q) % m) == ((w + b * rest) * p + prev / q) % (b * m)
  {
    DescendingDigit(p, q, b, prev, w);
    Regroup(p, b, prev / q, w, rest);
    DescendingWhole(w * p + prev / q, rest * p, (w + b * rest) * p + prev / q, b, m, w / q);
  }

  lemma Regroup(p: nat, b: nat, t: nat, w: nat, rest: nat)
    ensures (w + b * rest) * p + t == (w * p + t) + b * (rest * p)
  {
    Distribute(p, w, b * rest);
    Rearrange(b, rest, p);
  }

  lemma DescendingWhole(x: nat, y: nat, total: nat, b: nat, m: nat, carry: nat)
    requires b > 0 && m > 0 && x / b == carry && total == x + b * y
    ensures b * m > 0
    ensures x % b + b * ((y + carry) % m) == total % (b * m)
  {
    PullOut(x, y, b, m);
  }

  // ----- ascending: a division -----

  lemma {:induction false} AscendingFrom(shift: Shift, prev: Word, ws: seq<Word>)
    ensures Big(ShiftStream(false, shift, prev, ws)) == (prev % Pow2(shift) * Power(|ws|) + Big(ws)) / Pow2(shift)
    decreases |ws|
  {
    var p := Pow2(shift);
    if ws == [] {
      DivModIs(0 * p + prev % p, p, 0, prev % p);
    } else {
      var w, n := ws[0], Power(|ws| - 1);
      var out := ShiftStream(false, shift, prev, ws);
      Halves(shift);
      AscendingDigit(p, Pow2(16 - shift), BASE, prev, w);
      AscendingRest(p, Pow2(16 - shift), BASE, prev % p, w);
      AscendingFrom(shift, w, ws[1..]);
      AscendingSum(p, BASE, n, prev % p, w, Big(ws[1..]));
      assert out[1..] == ShiftStream(false, shift, w, ws[1..]);
    }
  }

  /** Ascending mode divides the whole stream by 2^shift. */
  lemma AscendingDivides(shift: Shift, ws: seq<Word>)
    ensures Big(ShiftStream(false, shift, 0, ws)) == Big(ws) / Pow2(shift)
  {
    AscendingFrom(shift, 0, ws);
    DivModIs(0 * Pow2(shift) + 0, Pow2(shift), 0, 0);
  }

  // ----- descending: a multiplication -----

  lemma {:induction false} DescendingFrom(shift: Shift, prev: Word, ws: seq<Word>)
    ensures Little(ShiftStream(true, shift, prev, ws)) == (Little(ws) * Pow2(shift) + prev / Pow2(16 - shift)) % Power(|ws|)
    decreases |ws|
  {
    var p, q := Pow2(shift), Pow2(16 - shift);
    if ws == [] {
      DivModIs(prev / q * 1 + 0, 1, prev / q, 0);
    } else {
      var w, rest := ws[0], Little(ws[1..]);
      var out := ShiftStream(true, shift, prev, ws);
      Halves(shift);
      DescendingFrom(shift, w, ws[1..]);
      DescendingSum(p, q, BASE, Power(|ws| - 1), prev, w, rest);
      assert out[1..] == ShiftStream(true, shift, w, ws[1..]);
    }
  }

  lemma {:induction false} PowerIsPow2(n: nat)
    ensures Power(n) == Pow2(16 * n)
  {
    if n > 0 {
      PowerIsPow2(n - 1);
      Pow2Product(16, 16 * (n - 1));
      Pow2Values();
    }
  }

  /** Descending mode multiplies the whole stream by 2^shift, modulo its width. */
  lemma DescendingMultiplies(shift: Shift, ws: seq<Word>)
    ensures Little(ShiftStream(true, shift, 0, ws)) == Little(ws) * Pow2(shift) % Pow2(16 * |ws|)
  {
    DescendingFrom(shift, 0, ws);
    DivModIs(0, Pow2(16 - shift), 0, 0);
    PowerIsPow2(|ws|);
  }

  // ----- the A channel of a blit -----

  /** The first `n` masked A words of a blit. */
  function AWords(s: Setup, p: Pointers, c: Core, reload: bool, n: nat): (r: seq<Word>)
    requires s.Sized()
    ensures |r| == n
  {
    if n == 0 then [] else AWords(s, p, c, reload, n - 1) + [After(s, p, c, reload, n).core.preva]
  }

  /** What the shifter hands to the minterm logic for each of them. */
  function AHeld(s: Setup, p: Pointers, c: Core, reload: bool, n: nat): (r: seq<Word>)
    requires s.Sized()
    ensures |r| == n
  {
    if n == 0 then [] else
      AHeld(s, p, c, reload, n - 1)
      + [Shifted(s.desc, s.ashift, After(s, p, c, reload, n - 1).core.preva, After(s, p, c, reload, n).core.preva)]
  }

  lemma {:induction false} StreamAppend(desc: bool, shift: Shift, prev: Word, ws: seq<Word>, w: Word)
    ensures ShiftStream(desc, shift, prev, ws + [w]) ==
            ShiftStream(desc, shift, prev, ws) + [Shifted(desc, shift, if ws == [] then prev else ws[|ws| - 1], w)]
    decreases |ws|
  {
    if ws == [] {
      assert ws + [w] == [w];
      assert ShiftStream(desc, shift, prev, [w]) == [Shifted(desc, shift, prev, w)] + ShiftStream(desc, shift, w, []);
    } else {
      assert (ws + [w])[1..] == ws[1..] + [w];
      StreamAppend(desc, shift, ws[0], ws[1..], w);
    }
  }

  lemma {:induction false} HeldIsStream(s: Setup, p: Pointers, c: Core, reload: bool, n: nat)
    requires s.Sized()
    ensures AHeld(s, p, c, reload, n) == ShiftStream(s.desc, s.ashift, 0, AWords(s, p, c, reload, n))
  {
    hide Shifted, DoBlit, Loaded;
    if n > 0 {
      HeldIsStream(s, p, c, reload, n - 1);
      StreamAppend(s.desc, s.ashift, 0, AWords(s, p, c, reload, n - 1), After(s, p, c, reload, n).core.preva);
    }
  }

  /** Over a whole blit the shifted A words are one division, or one multiplication, of the masked A words. */
  lemma BlitShiftsAsInteger(s: Setup, p: Pointers, c: Core, reload: bool)
    requires s.Sized()
    ensures var a, held := AWords(s, p, c, reload, s.Words()), AHeld(s, p, c, reload, s.Words());
            if s.desc then Little(held) == Little(a) * Pow2(s.ashift) % Pow2(16 * s.Words())
            else Big(held) == Big(a) / Pow2(s.ashift)
  {
    hide Shifted, DoBlit, Loaded;
    var a := AWords(s, p, c, reload, s.Words());
    HeldIsStream(s, p, c, reload, s.Words());
    if s.desc {
      DescendingMultiplies(s.ashift, a);
    } else {
      AscendingDivides(s.ashift, a);
    }
  }
}
