/** What the words of a blit are, bit by bit, where they end up, and what the zero flag says about them. */
module BlitterMeaning {
  import opened Words
  import opened Bits
  import opened BlitterModel
  import LineDraw
  import LineModel
  import Arith

  function Quotient(x: nat, d: nat): nat
    requires d > 0
  {
    Arith.DivShrinks(x, d);
    x / d
  }

  lemma {:induction false} BitOfQuotient(x: nat, m: nat, i: nat)
    ensures Bit(Quotient(x, Pow2(m)), i) == Bit(x, i + m)
  {
    hide Quotient;
    if m > 0 {
      BitOfQuotient(x / 2, m - 1, i);
      HalfFirst(x, Pow2(m - 1));
    } else {
      assert Quotient(x, 1) == x by {
        ByOne(x);
      }
    }
  }

  lemma ByOne(x: nat)
    ensures Quotient(x, 1) == x
  {
  }

  lemma HalfFirst(x: nat, p: nat)
    requires p > 0
    ensures Quotient(x, 2 * p) == Quotient(x / 2, p)
  {
    var h := x / 2;
    var (q, r) := (h / p, h % p);
    assert h == q * p + r;
    assert x == q * (2 * p) + (2 * r + x % 2) by {
      Arith.Rearrange(q, 2, p);
    }
    Arith.DivModIs(x, 2 * p, q, 2 * r + x % 2);
  }

  lemma {:induction false} BitOfPair(high: nat, low: nat, n: nat, i: nat)
    requires low < Pow2(n)
    ensures Bit(high * Pow2(n) + low, i) == if i < n then Bit(low, i) else Bit(high, i - n)
    decreases n
  {
    if n > 0 {
      var p := Pow2(n - 1);
      var x := high * p + low / 2;
      assert high * Pow2(n) == 2 * (high * p);
      assert (high * Pow2(n) + low) / 2 == x && (high * Pow2(n) + low) % 2 == low % 2;
      if i > 0 {
        BitOfPair(high, low / 2, n - 1, i - 1);
      }
    }
  }

  lemma {:induction false} FlagBit(con: nat, i: nat)
    ensures Flag(con, Pow2(i)) == Bit(con, i)
  {
    if i == 0 {
      assert con / 1 == con;
    } else {
      FlagBit(con / 2, i - 1);
      Arith.Nested(con, 2, Pow2(i - 1));
    }
  }

  lemma FlagPowers()
    ensures Pow2(1) == 2 && Pow2(2) == 4 && Pow2(3) == 8 && Pow2(4) == 0x10
    ensures Pow2(8) == 0x100 && Pow2(9) == 0x200 && Pow2(10) == 0x400 && Pow2(11) == 0x800
  {
    Pow2Values();
    assert Pow2(9) == 2 * Pow2(8);
    assert Pow2(10) == 2 * Pow2(9);
    assert Pow2(11) == 2 * Pow2(10);
  }

  /** The control registers bit by bit. */
  lemma DecodeMeans(con0: Word, con1: Word, afwm: Word, alwm: Word, h: nat, v: nat, amod: int, bmod: int, cmod: int, dmod: int)
    ensures var s := Decode(con0, con1, afwm, alwm, h, v, amod, bmod, cmod, dmod);
            && s.useA == Bit(con0, 11) && s.useB == Bit(con0, 10) && s.useC == Bit(con0, 9) && s.useD == Bit(con0, 8)
            && con0 == s.ashift * 0x1000 + con0 / 0x100 % 0x10 * 0x100 + s.mt && s.bshift == con1 / 0x1000
            && s.desc == Bit(con1, 1) && s.carryIn == Bit(con1, 2)
            && s.fill == (Bit(con1, 3) || Bit(con1, 4)) && s.ife == (Bit(con1, 3) && !Bit(con1, 4))
            && s.afwm == afwm && s.alwm == alwm && s.h == h && s.v == v
            && s.amod == amod && s.bmod == bmod && s.cmod == cmod && s.dmod == dmod
  {
    hide Bit, Pow2, Flag;
    FlagPowers();
    FlagBit(con0, 8);
    FlagBit(con0, 9);
    FlagBit(con0, 10);
    FlagBit(con0, 11);
    FlagBit(con1, 1);
    FlagBit(con1, 2);
    FlagBit(con1, 3);
    FlagBit(con1, 4);
    NibbleAndByte(con0);
  }

  lemma NibbleAndByte(w: Word)
    ensures w == w / 0x1000 * 0x1000 + w / 0x100 % 0x10 * 0x100 + w % 0x100
  {
    Arith.Nested(w, 0x100, 0x10);
    var q := w / 0x100;
    assert w == q * 0x100 + w % 0x100;
    assert q == q / 0x10 * 0x10 + q % 0x10;
  }

  lemma LineDecodeMeans(con0: Word, con1: Word, afwm: Word, adat: Word, amod: int, bmod: int, cmod: int)
    ensures var s := LineModel.DecodeLine(con0, con1, afwm, adat, amod, bmod, cmod);
            && s.useA == Bit(con0, 11) && s.useC == Bit(con0, 9) && s.mt == con0 % 0x100
            && s.sud == Bit(con1, 4) && s.sul == Bit(con1, 3) && s.aul == Bit(con1, 2) && s.sing == Bit(con1, 1)
            && s.afwm == afwm && s.blinea == adat && s.amod == amod && s.bmod == bmod && s.cmod == cmod
  {
    hide Bit, Pow2, Flag;
    FlagPowers();
    FlagBit(con0, 9);
    FlagBit(con0, 11);
    FlagBit(con1, 1);
    FlagBit(con1, 2);
    FlagBit(con1, 3);
    FlagBit(con1, 4);
  }

  /** The barrel shifter moves every bit `shift` places, down in ascending and up in descending mode, and lets in bits of
      the word before. */
  lemma ShiftedBit(desc: bool, shift: Shift, prev: Word, cur: Word, i: nat)
    requires i < WORD_BITS
    ensures Bit(Shifted(desc, shift, prev, cur), i) ==
            if desc then (if i >= shift then Bit(cur, i - shift) else Bit(prev, 16 + i - shift))
            else if i + shift < 16 then Bit(cur, i + shift) else Bit(prev, i + shift - 16)
  {
    hide Pow2, Bit;
    Pow2Values();
    var (high, low) := if desc then (cur, prev) else (prev, cur);
    var m: nat := if desc then 16 - shift else shift;
    var x: nat := high as nat * 0x1_0000 + low;
    ShiftedIs(desc, shift, prev, cur, x, m);
    LineDraw.LowBits(Quotient(x, Pow2(m)), 16, i);
    BitOfQuotient(x, m, i);
    BitOfPair(high, low, 16, i + m);
  }

  lemma ShiftedIs(desc: bool, shift: Shift, prev: Word, cur: Word, x: nat, m: nat)
    requires x == if desc then cur * 0x1_0000 + prev else prev * 0x1_0000 + cur
    requires m == if desc then 16 - shift else shift
    ensures Shifted(desc, shift, prev, cur) == Quotient(x, Pow2(m)) % 0x1_0000
  {
  }

  /** The texture of a line starts as the B data register turned right by the B shift. */
  lemma TextureBit(b: Word, shift: Shift, i: nat)
    requires i < WORD_BITS
    ensures Bit(Shifted(false, shift, b, b), i) == Bit(b, (i + shift) % 16)
  {
    hide Bit, Shifted;
    ShiftedBit(false, shift, b, b, i);
  }

  /** The first word of a row passes the first-word mask, the last word the last-word mask. */
  lemma MaskedBit(s: Setup, a: Word, col: nat, i: nat)
    ensures Bit(Masked(s, a, col), i) ==
            (Bit(a, i) && (col == 0 ==> Bit(s.afwm, i)) && (col == s.h - 1 ==> Bit(s.alwm, i)))
  {
    hide Bit, And;
    var first := if col == 0 then And(a, s.afwm) else a;
    AndBits(a, s.afwm, i);
    AndBits(first, s.alwm, i);
  }

  /** Bit `i` of the word that is due, before any fill: the minterm the three sources select there. */
  lemma WordBit(s: Setup, c: Core, col: nat, i: nat)
    requires !s.fill && i < WORD_BITS
    ensures var a := Shifted(s.desc, s.ashift, c.preva, Masked(s, c.adat, col));
            Bit(DoBlit(s, c, col).1, i) ==
            Bit(s.mt, (if Bit(a, i) then 4 else 0) + (if Bit(c.bhold, i) then 2 else 0) + if Bit(c.cdat, i) then 1 else 0)
  {
    hide Bit, Shifted, Masked, Minterms;
    LineDraw.MintermsBit(16, Shifted(s.desc, s.ashift, c.preva, Masked(s, c.adat, col)), c.bhold, c.cdat, s.mt, i);
  }

  /** B words go through the same shifter, unmasked, and stay in the hold register while the channel is off. */
  lemma HeldB(s: Setup, p: Pointers, c: Core, k: nat, i: nat)
    requires s.Sized() && i < WORD_BITS
    ensures var f := Fetch(s, p, c, k);
            if s.useB then
              var w := Read(c.mem, At(s, p.b, s.bmod, k));
              && f.prevb == w
              && Bit(f.bhold, i) == if s.desc then (if i >= s.bshift then Bit(w, i - s.bshift) else Bit(c.prevb, 16 + i - s.bshift))
                                    else if i + s.bshift < 16 then Bit(w, i + s.bshift) else Bit(c.prevb, i + s.bshift - 16)
            else f.bhold == c.bhold && f.prevb == c.prevb
  {
    hide Bit, Shifted, At, Read;
    if s.useB {
      ShiftedBit(s.desc, s.bshift, c.prevb, Read(c.mem, At(s, p.b, s.bmod, k)), i);
    }
  }

  /** The A and C words of word `k` come from where the channel's pointer has got to by then: two bytes for each word and the
      modulo for each full row, backwards in descending mode, modulo 2^32, in memory of words addressed modulo its size. A
      channel that is off leaves its register alone. */
  lemma SourcesRead(s: Setup, p: Pointers, c: Core, k: nat)
    requires s.Sized()
    ensures var f := Fetch(s, p, c, k);
            var (rows, d) := (k / s.h, if s.desc then -1 else 1);
            && f.adat == (if s.useA then c.mem[(p.a + d * (2 * k + s.amod * rows)) % 0x1_0000_0000 / 2 % |c.mem|] else c.adat)
            && f.cdat == (if s.useC then c.mem[(p.c + d * (2 * k + s.cmod * rows)) % 0x1_0000_0000 / 2 % |c.mem|] else c.cdat)
            && (s.useB ==> f.prevb == c.mem[(p.b + d * (2 * k + s.bmod * rows)) % 0x1_0000_0000 / 2 % |c.mem|])
            && f.mem == c.mem
  {
    hide Shifted;
  }

  /** The zero flag is set at the end exactly if every word of the blit was zero. */
  lemma {:induction false} ZeroFlag(s: Setup, p: Pointers, c: Core, reload: bool, k: nat)
    requires s.Sized()
    ensures After(s, p, c, reload, k).core.zero <==>
            forall j: nat :: 1 <= j <= k ==> After(s, p, c, reload, j).word == 0
  {
    hide DoBlit, Loaded;
    if k > 0 {
      ZeroFlag(s, p, c, reload, k - 1);
      var w := After(s, p, c, reload, k - 1);
      ZeroKept(s, p, w, k - 1);
      assert After(s, p, c, reload, k).word == DoBlit(s, Loaded(s, p, w, k - 1), (k - 1) % s.h).1;
      assert After(s, p, c, reload, k).core.zero == (w.core.zero && After(s, p, c, reload, k).word == 0);
    }
  }

  lemma ZeroKept(s: Setup, p: Pointers, w: Progress, k: nat)
    requires s.Sized()
    ensures Loaded(s, p, w, k).zero == w.core.zero && |Loaded(s, p, w, k).mem| == |w.core.mem|
  {
    hide At, Read, Shifted;
  }

  /** Where word `j` of the blit is stored. */
  function Target(s: Setup, p: Pointers, size: nat, j: nat): (t: nat)
    requires s.Sized() && size > 0
    ensures t < size
  {
    At(s, p.d, s.dmod, j) / 2 % size
  }

  /** The last of the first `k` words stored to slot `x`, or -1. */
  function LastTo(s: Setup, p: Pointers, size: nat, k: nat, x: nat): (l: int)
    requires s.Sized() && size > 0
    ensures -1 <= l < k
    ensures l >= 0 ==> Target(s, p, size, l) == x
    ensures forall j: nat :: l < j < k ==> Target(s, p, size, j) != x
  {
    if k == 0 then -1 else if Target(s, p, size, k - 1) == x then k - 1 else LastTo(s, p, size, k - 1, x)
  }

  /** Memory holds at every place the last word stored there; what no word was stored to is as before. */
  lemma {:induction false} StoredWords(s: Setup, p: Pointers, c: Core, reload: bool, k: nat, x: nat)
    requires s.Sized() && s.useD && x < |c.mem|
    ensures var (m, l) := (Flush(s, p, After(s, p, c, reload, k), k), LastTo(s, p, |c.mem|, k, x));
            |m| == |c.mem| && m[x] == if l >= 0 then After(s, p, c, reload, l + 1).word else c.mem[x]
  {
    hide At, DoBlit, After, Flush, Target;
    if k > 0 {
      StoredWords(s, p, c, reload, k - 1, x);
      FlushIs(s, p, c, reload, k);
    } else {
      FlushNone(s, p, c, reload);
    }
  }

  lemma FlushNone(s: Setup, p: Pointers, c: Core, reload: bool)
    requires s.Sized()
    ensures Flush(s, p, After(s, p, c, reload, 0), 0) == c.mem
  {
  }

  lemma FlushIs(s: Setup, p: Pointers, c: Core, reload: bool, k: nat)
    requires s.Sized() && s.useD && k > 0
    ensures var (w, w1) := (After(s, p, c, reload, k - 1), After(s, p, c, reload, k));
            var m := Flush(s, p, w, k - 1);
            Flush(s, p, w1, k) == m[Target(s, p, |m|, k - 1) := w1.word]
  {
    hide At, DoBlit;
    var w := After(s, p, c, reload, k - 1);
    var l := Loaded(s, p, w, k - 1);
    LoadedMem(s, p, w, k - 1);
    assert DoBlit(s, l, (k - 1) % s.h).0.mem == l.mem;
    assert After(s, p, c, reload, k).core.mem == l.mem;
  }

  lemma LoadedMem(s: Setup, p: Pointers, w: Progress, k: nat)
    requires s.Sized()
    ensures Loaded(s, p, w, k).mem == Flush(s, p, w, k)
  {
  }
}
