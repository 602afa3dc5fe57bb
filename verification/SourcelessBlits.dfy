/** Blits without source channels: every row is the same row of minterm results, so the registers alone tell what
    reloading the fill carry on each row does to the words, to memory and to the zero flag. */
module SourcelessBlits {
  import opened Words
  import opened Arith
  import opened Bits
  import opened AreaFill
  import opened BlitterModel
  import opened BlitterMeaning
  import opened PipeRefines
  import FastRefines

  /** Word `i` of a row before the fill. The first row starts with an empty shifter, every later one with the last
      word of the row before it. */
  function RowWord(s: Setup, c: Core, first: bool, i: nat): Word
    requires s.Sized()
  {
    var prev := if i > 0 then Masked(s, c.adat, i - 1) else if first then 0 else Masked(s, c.adat, s.h - 1);
    BlitFunc(Shifted(s.desc, s.ashift, prev, Masked(s, c.adat, i)), c.bhold, c.cdat, s.mt)
  }

  predicate Odd(n: nat) {
    n % 2 == 1
  }

  function WordEdges(w: Word): nat {
    Edges(ToBits(w, 16))
  }

  /** Bits set in the first `n` words of the row. */
  function RowEdges(s: Setup, c: Core, first: bool, n: nat): nat
    requires s.Sized()
  {
    if n == 0 then 0 else RowEdges(s, c, first, n - 1) + WordEdges(RowWord(s, c, first, n - 1))
  }

  /** Row `j` starts with the wrong carry if nobody reloads it. */
  predicate Slipped(s: Setup, c: Core, j: nat)
    requires s.Sized()
  {
    s.fill && j > 0 && Odd(RowEdges(s, c, true, s.h)) != (Odd(j - 1) && Odd(RowEdges(s, c, false, s.h)))
  }

  /** Word `i` of row `j` comes out the same even so. */
  predicate SameWord(s: Setup, c: Core, j: nat, i: nat)
    requires s.Sized()
  {
    !Slipped(s, c, j) || (s.ife && RowWord(s, c, false, i) == 0xFFFF)
  }

  predicate SameAt(s: Setup, c: Core, k: nat)
    requires s.Sized()
  {
    SameWord(s, c, k / s.h, k % s.h)
  }

  // ----- one word -----

  function Before(s: Setup, c: Core, k: nat): Word
    requires s.Sized()
  {
    if k == 0 then 0 else Masked(s, c.adat, (k - 1) % s.h)
  }

  lemma BeforeIs(s: Setup, c: Core, k: nat)
    requires s.Sized()
    ensures BlitFunc(Shifted(s.desc, s.ashift, Before(s, c, k), Masked(s, c.adat, k % s.h)), c.bhold, c.cdat, s.mt) ==
            RowWord(s, c, k < s.h, k % s.h)
  {
    hide BlitFunc, Shifted, Masked;
    if k > 0 {
      NextCount(s.h, k - 1);
      if k < s.h {
        DivModIs(k, s.h, 0, k);
      }
    }
  }

  lemma {:induction false} ShifterHolds(s: Setup, p: Pointers, c: Core, reload: bool, k: nat)
    requires s.Sized() && !Fetching(s)
    ensures After(s, p, c, reload, k).core.preva == Before(s, c, k)
  {
    hide BlitFunc, Shifted, Masked, WordFill, Flush, At;
    if k > 0 {
      SourcesKept(s, p, c, reload, k - 1);
      assert Loaded(s, p, After(s, p, c, reload, k - 1), k - 1).adat == c.adat;
    }
  }

  /** Word `k` and the carry it leaves, by the carry it starts with. */
  lemma OneWord(s: Setup, p: Pointers, c: Core, reload: bool, k: nat)
    requires s.Sized() && !Fetching(s)
    ensures var (w, w1, raw) := (After(s, p, c, reload, k), After(s, p, c, reload, k + 1), RowWord(s, c, k < s.h, k % s.h));
            && w1.word == (if s.fill then WordFill(raw, w.core.fc, s.ife).0 else raw)
            && w1.core.zero == (w.core.zero && w1.word == 0)
            && w1.core.fc == if reload && (k + 1) % s.h == 0 then s.carryIn
                             else if s.fill then WordFill(raw, w.core.fc, s.ife).1 else w.core.fc
  {
    hide BlitFunc, Shifted, Masked, WordFill, Flush, At, RowWord;
    SourcesKept(s, p, c, reload, k);
    ShifterHolds(s, p, c, reload, k);
    BeforeIs(s, c, k);
    var w := After(s, p, c, reload, k);
    var l := Loaded(s, p, w, k);
    assert l.adat == c.adat && l.bhold == c.bhold && l.cdat == c.cdat && l.preva == w.core.preva && l.fc == w.core.fc;
  }

  lemma CarryPast(w: Word, fc: bool, ife: bool)
    ensures WordFill(w, fc, ife).1 == (fc != Odd(WordEdges(w)))
  {
    hide WordFill;
    WordFillIsSerial(w, fc, ife);
    CarryIsParity(ToBits(w, 16), fc);
  }

  // ----- the fill carry -----

  /** The carry at word `i` of row `j`, in closed form. */
  function CarryAt(s: Setup, c: Core, reload: bool, j: nat, i: nat): bool
    requires s.Sized()
  {
    (s.carryIn != (!reload && Slipped(s, c, j))) != (s.fill && Odd(RowEdges(s, c, j == 0, i)))
  }

  lemma NextSlip(s: Setup, c: Core, j: nat)
    requires s.Sized()
    ensures s.fill ==> Slipped(s, c, j + 1) == (Slipped(s, c, j) != Odd(RowEdges(s, c, j == 0, s.h)))
  {
    hide RowEdges;
  }

  lemma NextEdges(s: Setup, c: Core, first: bool, i: nat)
    requires s.Sized()
    ensures Odd(RowEdges(s, c, first, i + 1)) == (Odd(RowEdges(s, c, first, i)) != Odd(WordEdges(RowWord(s, c, first, i))))
  {
    hide WordEdges, RowWord;
  }

  lemma FirstRow(s: Setup, j: nat, i: nat)
    requires i < s.h
    ensures FastRefines.WordNo(s, j, i) < s.h <==> j == 0
  {
    if j > 0 {
      ScaleUp(j, 1, s.h);
    }
  }

  lemma PlaceAfter(s: Setup, j: nat, i: nat)
    requires s.Sized() && (j > 0 || i > 0)
    ensures FastRefines.WordNo(s, j, i) == 1 + if i > 0 then FastRefines.WordNo(s, j, i - 1) else FastRefines.WordNo(s, j - 1, s.h - 1)
  {
    Distribute(s.h, j, -1);
  }

  lemma NoEdgesYet(s: Setup, c: Core, first: bool)
    requires s.Sized()
    ensures !Odd(RowEdges(s, c, first, 0))
  {
  }

  lemma CarryStarts(s: Setup, p: Pointers, c: Core, reload: bool)
    requires s.Sized()
    ensures After(s, p, c, reload, FastRefines.WordNo(s, 0, 0)).core.fc == CarryAt(s, c, reload, 0, 0)
  {
    assert FastRefines.WordNo(s, 0, 0) == 0;
  }

  lemma SlipsOnlyFills(s: Setup, c: Core, j: nat)
    requires s.Sized()
    ensures Slipped(s, c, j) ==> s.fill && j > 0
  {
  }

  lemma CarryStep(s: Setup, p: Pointers, c: Core, reload: bool, j: nat, i: nat, k: nat)
    requires s.Sized() && !Fetching(s) && i < s.h && k == FastRefines.WordNo(s, j, i)
    requires After(s, p, c, reload, k).core.fc == CarryAt(s, c, reload, j, i)
    ensures After(s, p, c, reload, k + 1).core.fc ==
            if i + 1 < s.h then CarryAt(s, c, reload, j, i + 1) else CarryAt(s, c, reload, j + 1, 0)
  {
    hide After, WordFill, RowWord, RowEdges, WordEdges, Slipped, Odd;
    FastRefines.RowCol(s.h, j, i);
    FirstRow(s, j, i);
    NextCount(s.h, k);
    OneWord(s, p, c, reload, k);
    CarryPast(RowWord(s, c, j == 0, i), After(s, p, c, reload, k).core.fc, s.ife);
    NextEdges(s, c, j == 0, i);
    NextSlip(s, c, j);
    SlipsOnlyFills(s, c, j);
    SlipsOnlyFills(s, c, j + 1);
    NoEdgesYet(s, c, false);
  }

  lemma {:induction false} CarryIs(s: Setup, p: Pointers, c: Core, reload: bool, j: nat, i: nat)
    requires s.Sized() && !Fetching(s) && i < s.h
    ensures After(s, p, c, reload, FastRefines.WordNo(s, j, i)).core.fc == CarryAt(s, c, reload, j, i)
    decreases j, i
  {
    hide After, CarryAt;
    if j == 0 && i == 0 {
      CarryStarts(s, p, c, reload);
    } else {
      PlaceAfter(s, j, i);
      var (j0, i0) := if i > 0 then (j, (i - 1) as nat) else ((j - 1) as nat, (s.h - 1) as nat);
      CarryIs(s, p, c, reload, j0, i0);
      CarryStep(s, p, c, reload, j0, i0, FastRefines.WordNo(s, j0, i0));
    }
  }

  // ----- when the wrong carry shows -----

  lemma FillBitsDiffer(bits: seq<bool>, fc: bool, ife: bool, i: nat)
    requires i < |bits|
    ensures Fill(bits, fc, ife)[i] == Fill(bits, !fc, ife)[i] <==> ife && bits[i]
  {
    hide Fill, Carry;
    FillStep(bits, fc, ife, i);
    FillStep(bits, !fc, ife, i);
    CarryIsParity(bits[..i], fc);
    CarryIsParity(bits[..i], !fc);
  }

  lemma SameNumber(a: Word, b: Word)
    ensures a == b <==> ToBits(a, 16) == ToBits(b, 16)
  {
    Pow2Values();
    FromToBits(a, 16);
    FromToBits(b, 16);
  }

  function Full(n: nat): (r: seq<bool>)
    ensures |r| == n
  {
    seq(n, _ => true)
  }

  lemma {:induction false} OnesAreFull(n: nat)
    ensures ToBits(Pow2(n) - 1, n) == Full(n)
  {
    if n > 0 {
      OnesAreFull(n - 1);
      assert (Pow2(n) - 1) / 2 == Pow2(n - 1) - 1;
      assert Full(n) == [true] + Full(n - 1);
    }
  }

  lemma FillsDiffer(bits: seq<bool>, fc: bool, ife: bool)
    requires bits != []
    ensures Fill(bits, fc, ife) == Fill(bits, !fc, ife) <==> ife && bits == Full(|bits|)
  {
    hide Fill;
    var (a, b) := (Fill(bits, fc, ife), Fill(bits, !fc, ife));
    forall i: nat | i < |bits|
      ensures a[i] == b[i] <==> ife && bits[i]
    {
      FillBitsDiffer(bits, fc, ife, i);
    }
    assert a == b ==> a[0] == b[0];
    assert a == b ==> forall i: nat :: i < |bits| ==> a[i] == b[i];
  }

  /** Another carry in gives another word, except in an inclusive fill of a word that is all ones. */
  lemma CarryInvisible(w: Word, fc: bool, fc1: bool, ife: bool)
    ensures WordFill(w, fc, ife).0 == WordFill(w, fc1, ife).0 <==> fc == fc1 || (ife && w == 0xFFFF)
  {
    hide WordFill, Fill, ToBits;
    var bits := ToBits(w, 16);
    WordFillIsSerial(w, fc, ife);
    WordFillIsSerial(w, fc1, ife);
    SameNumber(WordFill(w, fc, ife).0, WordFill(w, fc1, ife).0);
    SameNumber(w, 0xFFFF);
    OnesAreFull(16);
    Pow2Values();
    FillsDiffer(bits, fc, ife);
  }

  /** Word `k` as it is stored. */
  function NthWord(s: Setup, p: Pointers, c: Core, reload: bool, k: nat): Word
    requires s.Sized()
  {
    After(s, p, c, reload, k + 1).word
  }

  /** A single word of a sourceless blit is the same with and without the reload, or not, by the registers alone. */
  lemma WordAgreesIff(s: Setup, p: Pointers, c: Core, k: nat)
    requires s.Sized() && !Fetching(s)
    ensures NthWord(s, p, c, false, k) == NthWord(s, p, c, true, k) <==> SameAt(s, c, k)
  {
    hide After, WordFill, RowWord, RowEdges, WordEdges, Slipped, Odd;
    var (j, i) := (k / s.h, k % s.h);
    assert k == FastRefines.WordNo(s, j, i);
    OneWord(s, p, c, false, k);
    OneWord(s, p, c, true, k);
    CarryIs(s, p, c, false, j, i);
    CarryIs(s, p, c, true, j, i);
    FirstRow(s, j, i);
    SlipsOnlyFills(s, c, j);
    CarryInvisible(RowWord(s, c, j == 0, i), After(s, p, c, false, k).core.fc, After(s, p, c, true, k).core.fc, s.ife);
  }

  // ----- all words -----

  /** The reload makes no difference to any word. */
  ghost predicate CarryHarmless(s: Setup, c: Core)
    requires s.Sized()
  {
    || !s.fill || s.v == 1
    || (s.ife && forall i: nat :: i < s.h ==> RowWord(s, c, false, i) == 0xFFFF)
    || (!Odd(RowEdges(s, c, true, s.h)) && (s.v == 2 || !Odd(RowEdges(s, c, false, s.h))))
  }

  /** Without source channels all words agree exactly if the fill never carries from one row into the next, or only
      into rows that are all ones and filled inclusively. */
  lemma WordsAgreeIff(s: Setup, p: Pointers, c: Core)
    requires s.Sized() && !Fetching(s)
    ensures (forall k: nat :: k < s.Words() ==> NthWord(s, p, c, false, k) == NthWord(s, p, c, true, k))
            <==> CarryHarmless(s, c)
  {
    hide NthWord, CarryHarmless, SameWord;
    EveryWord(s, c);
    forall k: nat | k < s.Words()
      ensures NthWord(s, p, c, false, k) == NthWord(s, p, c, true, k) <==> SameAt(s, c, k)
    {
      WordAgreesIff(s, p, c, k);
    }
    if forall j: nat, i: nat :: j < s.v && i < s.h ==> SameWord(s, c, j, i) {
      forall k: nat | k < s.Words()
        ensures SameAt(s, c, k)
      {
        RowOf(s, k);
      }
    } else {
      hide SameAt;
      var j: nat, i: nat :| j < s.v && i < s.h && !SameWord(s, c, j, i);
      var k := PlaceOf(s, c, j, i);
      assert NthWord(s, p, c, false, k) != NthWord(s, p, c, true, k);
    }
  }

  lemma PlaceOf(s: Setup, c: Core, j: nat, i: nat) returns (k: nat)
    requires s.Sized() && j < s.v && i < s.h
    ensures k < s.Words() && SameAt(s, c, k) == SameWord(s, c, j, i)
  {
    hide SameWord;
    k := FastRefines.WordNo(s, j, i);
    InBlit(s, j, i);
    FastRefines.RowCol(s.h, j, i);
  }

  lemma InBlit(s: Setup, j: nat, i: nat)
    requires j < s.v && i < s.h
    ensures FastRefines.WordNo(s, j, i) < s.Words()
  {
    ScaleUp(s.v, j + 1, s.h);
    Distribute(s.h, j, 1);
  }

  lemma Parities()
    ensures !Odd(0) && Odd(1)
  {
  }

  lemma EveryWord(s: Setup, c: Core)
    requires s.Sized()
    ensures (forall j: nat, i: nat :: j < s.v && i < s.h ==> SameWord(s, c, j, i)) <==> CarryHarmless(s, c)
  {
    hide RowWord, RowEdges, Odd;
    Parities();
    if CarryHarmless(s, c) {
      forall j: nat, i: nat | j < s.v && i < s.h
        ensures SameWord(s, c, j, i)
      {
      }
    } else {
      var i: nat := 0;
      if s.ife {
        i :| i < s.h && RowWord(s, c, false, i) != 0xFFFF;
      }
      assert !SameWord(s, c, if Odd(RowEdges(s, c, true, s.h)) then 1 else 2, i);
    }
  }

  // ----- memory -----

  /** Word `k` is still in memory at the end. */
  predicate Survives(s: Setup, p: Pointers, size: nat, k: nat)
    requires s.Sized() && size > 0 && k < s.Words()
  {
    LastTo(s, p, size, s.Words(), Target(s, p, size, k)) == k
  }

  ghost predicate SurvivorsSame(s: Setup, p: Pointers, c: Core)
    requires s.Sized()
  {
    forall k: nat :: k < s.Words() && Survives(s, p, |c.mem|, k) ==> SameAt(s, c, k)
  }

  function Memory(s: Setup, p: Pointers, c: Core, reload: bool): ChipMem
    requires s.Sized()
  {
    Flush(s, p, After(s, p, c, reload, s.Words()), s.Words())
  }

  lemma StoredIs(s: Setup, p: Pointers, c: Core, reload: bool, x: nat)
    requires s.Sized() && s.useD && x < |c.mem|
    ensures |Memory(s, p, c, reload)| == |c.mem|
    ensures var l := LastTo(s, p, |c.mem|, s.Words(), x);
            Memory(s, p, c, reload)[x] == if l >= 0 then NthWord(s, p, c, reload, l) else c.mem[x]
  {
    hide After, Flush, LastTo, Target;
    StoredWords(s, p, c, reload, s.Words(), x);
  }

  lemma SlotAgreesIff(s: Setup, p: Pointers, c: Core, x: nat)
    requires s.Sized() && !Fetching(s) && s.useD && x < |c.mem|
    ensures |Memory(s, p, c, false)| == |Memory(s, p, c, true)| == |c.mem|
    ensures Memory(s, p, c, false)[x] == Memory(s, p, c, true)[x] <==>
            var l := LastTo(s, p, |c.mem|, s.Words(), x);
            l < 0 || SameAt(s, c, l)
  {
    hide NthWord, Memory, SameAt, LastTo, Target;
    StoredIs(s, p, c, false, x);
    StoredIs(s, p, c, true, x);
    var l := LastTo(s, p, |c.mem|, s.Words(), x);
    if l >= 0 {
      WordAgreesIff(s, p, c, l);
    }
  }

  /** Wherever the words go, overlapping one another or not: memory is the same if and only if the words that stay are. */
  lemma MemoryAgreesIff(s: Setup, p: Pointers, c: Core)
    requires s.Sized() && !Fetching(s) && s.useD
    ensures Memory(s, p, c, false) == Memory(s, p, c, true) <==> SurvivorsSame(s, p, c)
  {
    hide After, SameAt, Memory, LastTo, Target;
    SlotAgreesIff(s, p, c, 0);
    if SurvivorsSame(s, p, c) {
      forall x: nat | x < |c.mem|
        ensures Memory(s, p, c, false)[x] == Memory(s, p, c, true)[x]
      {
        SlotAgreesIff(s, p, c, x);
        var l := LastTo(s, p, |c.mem|, s.Words(), x);
        if l >= 0 {
          assert Survives(s, p, |c.mem|, l);
        }
      }
    } else {
      var k: nat :| k < s.Words() && Survives(s, p, |c.mem|, k) && !SameAt(s, c, k);
      SlotAgreesIff(s, p, c, Target(s, p, |c.mem|, k));
    }
  }

  // ----- the zero flag -----

  /** The row fills to all zeros: nothing in it, but for one bit that the carry in cancels in an exclusive fill. */
  ghost predicate RowClear(s: Setup, c: Core, first: bool, carry: bool)
    requires s.Sized()
  {
    && !(carry && s.ife)
    && forall i: nat :: i < s.h ==> RowWord(s, c, first, i) == if i == 0 && carry then 1 else 0
  }

  /** Every word of the blit is zero. */
  ghost predicate AllClear(s: Setup, c: Core, reload: bool)
    requires s.Sized()
  {
    RowClear(s, c, true, s.fill && s.carryIn) && (s.v > 1 ==> RowClear(s, c, false, s.fill && s.carryIn && reload))
  }

  /** The carry word `k` starts with if all words so far were zero. */
  predicate ClearCarry(s: Setup, reload: bool, k: nat)
    requires s.Sized()
  {
    s.fill && s.carryIn && (k == 0 || (reload && k % s.h == 0))
  }

  predicate ClearWord(s: Setup, c: Core, reload: bool, k: nat)
    requires s.Sized()
  {
    var carry := ClearCarry(s, reload, k);
    !(carry && s.ife) && RowWord(s, c, k < s.h, k % s.h) == if carry then 1 else 0
  }

  function Blank(n: nat): (r: seq<bool>)
    ensures |r| == n
  {
    seq(n, _ => false)
  }

  lemma {:induction false} ZeroIsBlank(n: nat)
    ensures ToBits(0, n) == Blank(n)
  {
    if n > 0 {
      ZeroIsBlank(n - 1);
      assert Blank(n) == [false] + Blank(n - 1);
    }
  }

  lemma {:induction false} BlankFill(bits: seq<bool>, ife: bool)
    ensures Fill(bits, false, ife) == Blank(|bits|) <==> bits == Blank(|bits|)
  {
    if bits != [] {
      var (r, rest) := (Fill(bits, false, ife), Fill(bits[1..], bits[0], ife));
      assert r[0] == bits[0] && r[1..] == rest;
      assert Blank(|bits|)[1..] == Blank(|bits| - 1);
      if !bits[0] {
        BlankFill(bits[1..], ife);
        assert r == [false] + rest && bits == [false] + bits[1..] && Blank(|bits|) == [false] + Blank(|bits| - 1);
      }
    }
  }

  /** A set carry in leaves nothing only if an exclusive fill cancels it with the very first bit. */
  lemma CancelledFill(bits: seq<bool>, ife: bool)
    requires bits != []
    ensures Fill(bits, true, ife) == Blank(|bits|) <==> !ife && bits == [true] + Blank(|bits| - 1)
  {
    var (r, rest) := (Fill(bits, true, ife), Fill(bits[1..], !bits[0], ife));
    assert r[0] == FillBit(bits[0], true, ife) && r[1..] == rest;
    assert Blank(|bits|) == [false] + Blank(|bits| - 1);
    assert bits == [bits[0]] + bits[1..];
    if bits[0] && !ife {
      BlankFill(bits[1..], ife);
      assert r == [false] + rest;
    }
  }

  /** Which words fill to zero, and that they leave the carry clear. */
  lemma ZeroWord(w: Word, fc: bool, ife: bool)
    ensures WordFill(w, fc, ife).0 == 0 <==> !(fc && ife) && w == if fc then 1 else 0
    ensures WordFill(w, fc, ife).0 == 0 ==> !WordFill(w, fc, ife).1
  {
    hide WordFill, Fill, Blank, ToBits, WordEdges;
    WordFillIsSerial(w, fc, ife);
    ZeroIsBlank(16);
    SameNumber(WordFill(w, fc, ife).0, 0);
    CarryPast(w, fc, ife);
    SmallWords(w);
    if fc {
      CancelledFill(ToBits(w, 16), ife);
    } else {
      BlankFill(ToBits(w, 16), ife);
    }
  }

  lemma SmallWords(w: Word)
    ensures w == 0 <==> ToBits(w, 16) == Blank(16)
    ensures w == 1 <==> ToBits(w, 16) == [true] + Blank(15)
    ensures !Odd(WordEdges(0)) && Odd(WordEdges(1))
  {
    hide Blank, ToBits, Edges;
    ZeroIsBlank(16);
    ZeroIsBlank(15);
    OneBits(15);
    SameNumber(w, 0);
    SameNumber(w, 1);
    BlankEdges(16);
    BlankEdges(15);
    EdgeFirst(Blank(15));
  }

  lemma EdgeFirst(bits: seq<bool>)
    ensures Edges([true] + bits) == 1 + Edges(bits)
  {
    assert ([true] + bits)[1..] == bits;
  }

  lemma OneBits(n: nat)
    ensures ToBits(1, n + 1) == [true] + ToBits(0, n)
  {
  }

  lemma {:induction false} BlankEdges(n: nat)
    ensures Edges(Blank(n)) == 0
  {
    if n > 0 {
      BlankEdges(n - 1);
      assert Blank(n)[1..] == Blank(n - 1);
    }
  }

  lemma {:induction false} ClearSoFar(s: Setup, p: Pointers, c: Core, reload: bool, k: nat)
    requires s.Sized() && !Fetching(s)
    ensures After(s, p, c, reload, k).core.zero <==> forall t: nat :: t < k ==> ClearWord(s, c, reload, t)
    ensures s.fill && After(s, p, c, reload, k).core.zero ==> After(s, p, c, reload, k).core.fc == ClearCarry(s, reload, k)
  {
    hide RowWord, WordFill, After;
    if k == 0 {
      NothingYet(s, p, c, reload);
    } else {
      ClearSoFar(s, p, c, reload, k - 1);
      ClearStep(s, p, c, reload, k - 1);
    }
  }

  lemma NothingYet(s: Setup, p: Pointers, c: Core, reload: bool)
    requires s.Sized()
    ensures After(s, p, c, reload, 0).core.zero && After(s, p, c, reload, 0).core.fc == s.carryIn
  {
  }

  lemma ClearStep(s: Setup, p: Pointers, c: Core, reload: bool, k: nat)
    requires s.Sized() && !Fetching(s)
    requires s.fill && After(s, p, c, reload, k).core.zero ==> After(s, p, c, reload, k).core.fc == ClearCarry(s, reload, k)
    ensures After(s, p, c, reload, k + 1).core.zero <==> After(s, p, c, reload, k).core.zero && ClearWord(s, c, reload, k)
    ensures s.fill && After(s, p, c, reload, k + 1).core.zero ==>
            After(s, p, c, reload, k + 1).core.fc == ClearCarry(s, reload, k + 1)
  {
    hide RowWord, WordFill, After;
    OneWord(s, p, c, reload, k);
    ZeroWord(RowWord(s, c, k < s.h, k % s.h), After(s, p, c, reload, k).core.fc, s.ife);
  }

  lemma ClearRows(s: Setup, c: Core, reload: bool)
    requires s.Sized()
    ensures (forall t: nat :: t < s.Words() ==> ClearWord(s, c, reload, t)) <==> AllClear(s, c, reload)
  {
    hide RowWord;
    if AllClear(s, c, reload) {
      forall t: nat | t < s.Words()
        ensures ClearWord(s, c, reload, t)
      {
        ClearInside(s, c, reload, t);
      }
    }
    if forall t: nat :: t < s.Words() ==> ClearWord(s, c, reload, t) {
      ClearRow(s, c, reload, 0);
      if s.v > 1 {
        ClearRow(s, c, reload, 1);
      }
    }
  }

  lemma ClearInside(s: Setup, c: Core, reload: bool, t: nat)
    requires s.Sized() && t < s.Words() && AllClear(s, c, reload)
    ensures ClearWord(s, c, reload, t)
  {
    hide RowWord;
    RowOf(s, t);
    FirstRow(s, t / s.h, t % s.h);
    assert t == FastRefines.WordNo(s, t / s.h, t % s.h);
  }

  lemma ClearPlace(s: Setup, c: Core, reload: bool, j: nat, i: nat)
    requires s.Sized() && j < s.v && j <= 1 && i < s.h
    requires forall t: nat :: t < s.Words() ==> ClearWord(s, c, reload, t)
    ensures var carry := s.fill && s.carryIn && (j == 0 || reload);
            !(carry && i == 0 && s.ife) && RowWord(s, c, j == 0, i) == if i == 0 && carry then 1 else 0
  {
    hide RowWord;
    InBlit(s, j, i);
    FastRefines.RowCol(s.h, j, i);
    FirstRow(s, j, i);
    assert ClearWord(s, c, reload, FastRefines.WordNo(s, j, i));
  }

  lemma ClearRow(s: Setup, c: Core, reload: bool, j: nat)
    requires s.Sized() && j < s.v && j <= 1
    requires forall t: nat :: t < s.Words() ==> ClearWord(s, c, reload, t)
    ensures RowClear(s, c, j == 0, s.fill && s.carryIn && (j == 0 || reload))
  {
    hide RowWord, ClearWord;
    var (first, carry) := (j == 0, s.fill && s.carryIn && (j == 0 || reload));
    ClearPlace(s, c, reload, j, 0);
    forall i: nat | i < s.h
      ensures RowWord(s, c, first, i) == if i == 0 && carry then 1 else 0
    {
      ClearPlace(s, c, reload, j, i);
    }
  }

  /** The zero flag of a sourceless blit by the registers alone. */
  lemma ZeroFlagIff(s: Setup, p: Pointers, c: Core, reload: bool)
    requires s.Sized() && !Fetching(s)
    ensures After(s, p, c, reload, s.Words()).core.zero <==> AllClear(s, c, reload)
  {
    hide After, ClearWord, AllClear;
    ClearSoFar(s, p, c, reload, s.Words());
    ClearRows(s, c, reload);
  }

  // ----- what the blit leaves -----

  /** What a caller can check before the blit: every word that stays in memory comes out the same without the reload,
      and so does the zero flag. */
  ghost predicate SameAnyway(s: Setup, p: Pointers, c: Core)
    requires s.Sized()
  {
    SurvivorsSame(s, p, c) && (AllClear(s, c, false) <==> AllClear(s, c, true))
  }

  /** Without source channels the reload of the fill carry is without effect exactly under that condition. */
  lemma ReloadIff(s: Setup, p: Pointers, c: Core)
    requires s.Sized() && !Fetching(s) && s.useD
    ensures Blitted(s, p, c, false) == Blitted(s, p, c, true) <==> SameAnyway(s, p, c)
  {
    hide After, Flush, SurvivorsSame, AllClear;
    MemoryAgreesIff(s, p, c);
    ZeroFlagIff(s, p, c, false);
    ZeroFlagIff(s, p, c, true);
    SourcesKept(s, p, c, false, s.Words());
    SourcesKept(s, p, c, true, s.Words());
  }

  ghost predicate TargetsDistinct(s: Setup, p: Pointers, size: nat)
    requires s.Sized() && size > 0
  {
    forall j: nat, k: nat :: j < k < s.Words() ==> Target(s, p, size, j) != Target(s, p, size, k)
  }

  /** A blit that stores no two words at one place leaves the same if and only if all its words are the same. */
  lemma ReloadIffDistinct(s: Setup, p: Pointers, c: Core)
    requires s.Sized() && !Fetching(s) && s.useD && TargetsDistinct(s, p, |c.mem|)
    ensures Blitted(s, p, c, false) == Blitted(s, p, c, true) <==> CarryHarmless(s, c)
  {
    hide After, SameAt, CarryHarmless, AllClear, Target, Blitted;
    ReloadIff(s, p, c);
    WordsAgreeIff(s, p, c);
    forall k: nat | k < s.Words()
      ensures Survives(s, p, |c.mem|, k)
      ensures NthWord(s, p, c, false, k) == NthWord(s, p, c, true, k) <==> SameAt(s, c, k)
    {
      WordAgreesIff(s, p, c, k);
      var l := LastTo(s, p, |c.mem|, s.Words(), Target(s, p, |c.mem|, k));
      assert l >= k;
    }
    if CarryHarmless(s, c) {
      ZeroAgrees(s, p, c);
    }
  }

  lemma ZeroAgrees(s: Setup, p: Pointers, c: Core)
    requires s.Sized() && !Fetching(s) && CarryHarmless(s, c)
    ensures AllClear(s, c, false) <==> AllClear(s, c, true)
  {
    hide CarryHarmless, AllClear;
    WordsAgreeIff(s, p, c);
    ZeroWords(s, p, c, false);
    ZeroWords(s, p, c, true);
  }

  lemma ZeroWords(s: Setup, p: Pointers, c: Core, reload: bool)
    requires s.Sized() && !Fetching(s)
    ensures AllClear(s, c, reload) <==> forall k: nat :: k < s.Words() ==> NthWord(s, p, c, reload, k) == 0
  {
    hide After, AllClear;
    ZeroFlagIff(s, p, c, reload);
    ZeroFlag(s, p, c, reload, s.Words());
    if AllClear(s, c, reload) {
      forall k: nat | k < s.Words()
        ensures NthWord(s, p, c, reload, k) == 0
      {
        assert After(s, p, c, reload, k + 1).word == 0;
      }
    }
    if forall k: nat :: k < s.Words() ==> NthWord(s, p, c, reload, k) == 0 {
      forall j: nat | 1 <= j <= s.Words()
        ensures After(s, p, c, reload, j).word == 0
      {
        assert NthWord(s, p, c, reload, j - 1) == 0;
      }
    }
  }
}
