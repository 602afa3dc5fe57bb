/** What one block blit computes: registers, memory, and the two machines that carry it out, as functions. */
module BlitterModel {
  import opened Words
  import opened Bits
  import opened AreaFill

  /** Chip memory, addressed modulo its size. */
  type ChipMem = m: seq<Word> | |m| > 0 witness [0]

  function Slot(mem: ChipMem, addr: Long): (i: nat)
    ensures i < |mem|
  {
    addr / 2 % |mem|
  }

  function Read(mem: ChipMem, addr: Long): Word {
    mem[Slot(mem, addr)]
  }

  function Write(mem: ChipMem, addr: Long, w: Word): (r: ChipMem)
    ensures |r| == |mem|
  {
    mem[Slot(mem, addr) := w]
  }

  type Shift = x: nat | x < 16

  /** The registers a blit reads but never changes, decoded. `h` and `v` are the width in words and the height. */
  datatype Setup = Setup(useA: bool, useB: bool, useC: bool, useD: bool, mt: Byte, ashift: Shift, bshift: Shift,
                         desc: bool, carryIn: bool, fill: bool, ife: bool, afwm: Word, alwm: Word,
                         h: nat, v: nat, amod: int, bmod: int, cmod: int, dmod: int)
  {
    function Dir(): int { if desc then -1 else 1 }
    predicate Sized() { h > 0 && v > 0 }
    function Words(): (n: nat)
      ensures Sized() ==> n > 0
    {
      h * v
    }
  }

  /** How the two control registers select all this. Asking for both fill modes gives the exclusive one. */
  function Decode(con0: Word, con1: Word, afwm: Word, alwm: Word, h: nat, v: nat,
                  amod: int, bmod: int, cmod: int, dmod: int): Setup
  {
    Setup(Flag(con0, 0x800), Flag(con0, 0x400), Flag(con0, 0x200), Flag(con0, 0x100), con0 % 0x100,
          con0 / 0x1000, con1 / 0x1000, Flag(con1, 2), Flag(con1, 4), Flag(con1, 8) || Flag(con1, 0x10),
          Flag(con1, 8) && !Flag(con1, 0x10), afwm, alwm, h, v, amod, bmod, cmod, dmod)
  }

  datatype Pointers = Pointers(a: Long, b: Long, c: Long, d: Long)

  /** The data registers and memory that either machine works on. */
  datatype Core = Core(mem: ChipMem, adat: Word, cdat: Word, bhold: Word, preva: Word, prevb: Word, fc: bool, zero: bool)

  // ----- one word -----

  /** `n` bits of the minterm logic: bit i of the result is the bit of `mt` selected by bits i of the three sources. */
  function Minterms(n: nat, a: nat, b: nat, c: nat, mt: Byte): (r: nat)
    ensures r < Pow2(n)
    decreases n
  {
    if n == 0 then 0
    else (if Bit(mt, a % 2 * 4 + b % 2 * 2 + c % 2) then 1 else 0) + 2 * Minterms(n - 1, a / 2, b / 2, c / 2, mt)
  }

  function BlitFunc(a: Word, b: Word, c: Word, mt: Byte): Word {
    Pow2Values();
    Minterms(WORD_BITS, a, b, c, mt)
  }

  /** The barrel shifter: 16 bits out of the previous and the current word. */
  function Shifted(desc: bool, shift: Shift, prev: Word, cur: Word): Word
  {
    if desc then (cur * 0x1_0000 + prev) / Pow2(16 - shift) % 0x1_0000
    else (prev * 0x1_0000 + cur) / Pow2(shift) % 0x1_0000
  }

  function Masked(s: Setup, a: Word, col: nat): Word {
    var first := if col == 0 then And(a, s.afwm) else a;
    if col == s.h - 1 then And(first, s.alwm) else first
  }

  function LoadB(s: Setup, c: Core, dat: Word): Core {
    c.(bhold := Shifted(s.desc, s.bshift, c.prevb, dat), prevb := dat)
  }

  /** Shift, combine, fill, and note a nonzero result. */
  function DoBlit(s: Setup, c: Core, col: nat): (r: (Core, Word))
    ensures r.0 == c.(preva := r.0.preva, fc := r.0.fc, zero := c.zero && r.1 == 0)
  {
    var a := Masked(s, c.adat, col);
    var d := BlitFunc(Shifted(s.desc, s.ashift, c.preva, a), c.bhold, c.cdat, s.mt);
    var (w, fc) := if s.fill then WordFill(d, c.fc, s.ife) else (d, c.fc);
    (c.(preva := a, fc := fc, zero := c.zero && w == 0), w)
  }

  // ----- reference: word k of a blit, with addresses in closed form -----

  /** Where a channel stands after `k` words: two bytes a word, and the modulo once a finished row. */
  function At(s: Setup, base: Long, mod: int, k: nat): Long
    requires s.Sized()
  {
    Wrap(base + s.Dir() * (2 * k + mod * (k / s.h)))
  }

  /** The blit after `k` words: word `k - 1` has been computed but not stored yet. */
  datatype Progress = Progress(core: Core, word: Word)

  function Fetch(s: Setup, p: Pointers, c: Core, k: nat): Core
    requires s.Sized()
  {
    var c1 := if s.useA then c.(adat := Read(c.mem, At(s, p.a, s.amod, k))) else c;
    var c2 := if s.useB then LoadB(s, c1, Read(c.mem, At(s, p.b, s.bmod, k))) else c1;
    if s.useC then c2.(cdat := Read(c.mem, At(s, p.c, s.cmod, k))) else c2
  }

  /** Memory once the pending word has been stored. */
  function Flush(s: Setup, p: Pointers, w: Progress, k: nat): ChipMem
    requires s.Sized()
  {
    if s.useD && k > 0 then Write(w.core.mem, At(s, p.d, s.dmod, k - 1), w.word) else w.core.mem
  }

  /** Ready to compute word `k`: its sources fetched, the word before it stored. */
  function Loaded(s: Setup, p: Pointers, w: Progress, k: nat): Core
    requires s.Sized()
  {
    Fetch(s, p, w.core, k).(mem := Flush(s, p, w, k))
  }

  /** `reload` says whether the fill carry starts afresh on every row. */
  function After(s: Setup, p: Pointers, c: Core, reload: bool, k: nat): Progress
    requires s.Sized()
  {
    if k == 0 then Progress(c.(fc := s.carryIn, preva := 0, prevb := 0, zero := true), 0) else
      var w := After(s, p, c, reload, k - 1);
      var (c1, d) := DoBlit(s, Loaded(s, p, w, k - 1), (k - 1) % s.h);
      Progress(if reload && k % s.h == 0 then c1.(fc := s.carryIn) else c1, d)
  }

  /** What a blit leaves behind. */
  datatype Outcome = Outcome(mem: ChipMem, zero: bool, ptrs: Pointers, adat: Word, bhold: Word, cdat: Word)

  function Finished(s: Setup, p: Pointers): Pointers
    requires s.Sized()
  {
    Pointers(if s.useA then At(s, p.a, s.amod, s.Words()) else p.a,
             if s.useB then At(s, p.b, s.bmod, s.Words()) else p.b,
             if s.useC then At(s, p.c, s.cmod, s.Words()) else p.c,
             if s.useD then At(s, p.d, s.dmod, s.Words()) else p.d)
  }

  function Blitted(s: Setup, p: Pointers, c: Core, reload: bool): Outcome
    requires s.Sized()
  {
    var w := After(s, p, c, reload, s.Words());
    Outcome(Flush(s, p, w, s.Words()), w.core.zero, Finished(s, p), w.core.adat, w.core.bhold, w.core.cdat)
  }

  // ----- the fast machine: nested row and word loops over running pointers, 0 meaning "channel off" -----

  datatype Fast = Fast(core: Core, word: Word, ptrs: Pointers, dst: Long, store: bool)

  function Bump(s: Setup, p: Long, step: int): Long {
    if p != 0 then Wrap(p + s.Dir() * step) else p
  }

  function FastSources(s: Setup, c: Core, q: Pointers): (r: Core)
    ensures r.mem == c.mem
  {
    var c1 := if q.a != 0 then c.(adat := Read(c.mem, q.a)) else c;
    var c2 := if q.b != 0 then LoadB(s, c1, Read(c.mem, q.b)) else c1;
    if q.c != 0 then c2.(cdat := Read(c.mem, q.c)) else c2
  }

  /** Fetch the sources of a word, then store the word before. */
  function FastLoad(s: Setup, f: Fast): Core {
    var c := FastSources(s, f.core, f.ptrs);
    if f.store then c.(mem := Write(c.mem, f.dst, f.word)) else c
  }

  function FastWord(s: Setup, f: Fast, col: nat): Fast {
    var (c, d) := DoBlit(s, FastLoad(s, f), col);
    Fast(c, d, Pointers(Bump(s, f.ptrs.a, 2), Bump(s, f.ptrs.b, 2), Bump(s, f.ptrs.c, 2), Bump(s, f.ptrs.d, 2)),
         if f.ptrs.d != 0 then f.ptrs.d else f.dst, f.store || f.ptrs.d != 0)
  }

  function FastWords(s: Setup, f: Fast, n: nat): Fast {
    if n == 0 then f else FastWord(s, FastWords(s, f, n - 1), n - 1)
  }

  /** A row starts with a fresh fill carry. */
  function RowStart(s: Setup, f: Fast): Fast {
    f.(core := f.core.(fc := s.carryIn))
  }

  function RowEnd(s: Setup, f: Fast): Fast {
    f.(ptrs := Pointers(Bump(s, f.ptrs.a, s.amod), Bump(s, f.ptrs.b, s.bmod),
                        Bump(s, f.ptrs.c, s.cmod), Bump(s, f.ptrs.d, s.dmod)))
  }

  function FastRow(s: Setup, f: Fast): Fast {
    RowEnd(s, FastWords(s, RowStart(s, f), s.h))
  }

  function FastRows(s: Setup, f: Fast, n: nat): Fast {
    if n == 0 then f else FastRow(s, FastRows(s, f, n - 1))
  }

  /** `ddat` is what the D data register happens to hold; it is not stored before it has been computed. */
  function FastStart(s: Setup, p: Pointers, c: Core, ddat: Word): Fast {
    Fast(c.(preva := 0, prevb := 0, zero := true, fc := s.carryIn), ddat,
         Pointers(if s.useA then p.a else 0, if s.useB then p.b else 0,
                  if s.useC then p.c else 0, if s.useD then p.d else 0), 0, false)
  }

  /** The pointer registers are advanced in one go, before the loops. */
  function Advanced(s: Setup, p: Long, mod: int): Long {
    Wrap(p + s.Dir() * ((s.h * 2 + mod) * s.v))
  }

  function FastBlit(s: Setup, p: Pointers, c: Core, ddat: Word): Outcome {
    var f := FastRows(s, FastStart(s, p, c, ddat), s.v);
    Outcome(if f.store then Write(f.core.mem, f.dst, f.word) else f.core.mem, f.core.zero,
            Pointers(if s.useA then Advanced(s, p.a, s.amod) else p.a,
                     if s.useB then Advanced(s, p.b, s.bmod) else p.b,
                     if s.useC then Advanced(s, p.c, s.cmod) else p.c,
                     if s.useD then Advanced(s, p.d, s.dmod) else p.d),
            f.core.adat, f.core.bhold, f.core.cdat)
  }
}

/** The fast machine computes the reference blit whenever no pointer it runs over passes through 0. */
module FastRefines {
  import opened Words
  import opened Arith
  import opened BlitterModel

  /** Number of the word in row `j`, column `i`. */
  function WordNo(s: Setup, j: nat, i: nat): nat {
    j * s.h + i
  }

  /** Pointer of a channel at row `j`, column `i` (`i == h`: past the row, modulo not yet added). */
  function Inside(s: Setup, base: Long, mod: int, j: nat, i: nat): Long {
    Wrap(base + s.Dir() * (2 * WordNo(s, j, i) + mod * j))
  }

  ghost predicate NonZero(s: Setup, base: Long, mod: int) {
    forall j: nat, i: nat :: j < s.v && (i < s.h || (i == s.h && j + 1 < s.v)) ==> Inside(s, base, mod, j, i) != 0
  }

  /** The caller's condition: no enabled pointer is 0 at any word or row end of the blit. */
  ghost predicate NeverZero(s: Setup, p: Pointers) {
    && (s.useA ==> NonZero(s, p.a, s.amod))
    && (s.useB ==> NonZero(s, p.b, s.bmod))
    && (s.useC ==> NonZero(s, p.c, s.cmod))
    && (s.useD ==> NonZero(s, p.d, s.dmod))
  }

  lemma RowCol(h: nat, j: nat, i: nat)
    requires i < h
    ensures (j * h + i) / h == j && (j * h + i) % h == i
  {
    DivModIs(j * h + i, h, j, i);
  }

  /** One channel's running pointer at row `j`, column `i`. */
  ghost predicate Running(s: Setup, use: bool, base: Long, mod: int, j: nat, i: nat, q: Long) {
    q == if use then Inside(s, base, mod, j, i) else 0
  }

  ghost predicate AllRunning(s: Setup, p: Pointers, j: nat, i: nat, q: Pointers) {
    && Running(s, s.useA, p.a, s.amod, j, i, q.a)
    && Running(s, s.useB, p.b, s.bmod, j, i, q.b)
    && Running(s, s.useC, p.c, s.cmod, j, i, q.c)
    && Running(s, s.useD, p.d, s.dmod, j, i, q.d)
  }

  /** The fast machine inside row `j` after `i` words of it. */
  ghost predicate Tracks(s: Setup, p: Pointers, c: Core, f: Fast, j: nat, i: nat)
    requires s.Sized()
  {
    var k := WordNo(s, j, i);
    var w := After(s, p, c, true, k);
    && f.core == w.core.(fc := f.core.fc)
    && (i < s.h ==> f.core.fc == w.core.fc)
    && (k > 0 ==> f.word == w.word)
    && f.store == (s.useD && k > 0)
    && (f.store ==> f.dst == At(s, p.d, s.dmod, k - 1))
    && AllRunning(s, p, j, i, f.ptrs)
  }

  lemma InsideAt(s: Setup, base: Long, mod: int, j: nat, i: nat)
    requires i < s.h && s.Sized()
    ensures Inside(s, base, mod, j, i) == At(s, base, mod, WordNo(s, j, i))
  {
    RowCol(s.h, j, i);
  }

  lemma BumpWord(s: Setup, use: bool, base: Long, mod: int, j: nat, i: nat, q: Long)
    requires s.Sized() && j < s.v && i < s.h && (use ==> NonZero(s, base, mod))
    requires Running(s, use, base, mod, j, i, q)
    ensures use ==> q == At(s, base, mod, WordNo(s, j, i))
    ensures use <==> q != 0
    ensures Running(s, use, base, mod, j, i + 1, Bump(s, q, 2))
  {
    InsideAt(s, base, mod, j, i);
    WrapAdd(base + s.Dir() * (2 * (j * s.h + i) + mod * j), s.Dir() * 2);
  }

  lemma BumpRow(s: Setup, use: bool, base: Long, mod: int, j: nat, q: Long)
    requires s.Sized() && j + 1 < s.v && (use ==> NonZero(s, base, mod))
    requires Running(s, use, base, mod, j, s.h, q)
    ensures Running(s, use, base, mod, j + 1, 0, Bump(s, q, mod))
  {
    hide Wrap;
    var inner := 2 * WordNo(s, j, s.h) + mod * j;
    NextRow(s.h, mod, j);
    assert WordNo(s, j + 1, 0) == (j + 1) * s.h + 0;
    Distribute(s.Dir(), inner, mod);
    WrapAdd(base + s.Dir() * inner, s.Dir() * mod);
    assert base + s.Dir() * inner + s.Dir() * mod == base + s.Dir() * (inner + mod);
  }

  lemma NextRow(h: nat, mod: int, j: nat)
    ensures 2 * ((j + 1) * h + 0) + mod * (j + 1) == 2 * (j * h + h) + mod * j + mod
  {
    Distribute(h, j, 1);
    Distribute(mod, j, 1);
  }

  lemma LoadAgrees(s: Setup, p: Pointers, c: Core, f: Fast, j: nat, i: nat)
    requires s.Sized() && NeverZero(s, p) && j < s.v && i < s.h
    requires Tracks(s, p, c, f, j, i)
    ensures FastLoad(s, f) == Loaded(s, p, After(s, p, c, true, WordNo(s, j, i)), WordNo(s, j, i))
  {
    hide After, Running, Bump, NonZero, Read, Write, Shifted, At;
    BumpWord(s, s.useA, p.a, s.amod, j, i, f.ptrs.a);
    BumpWord(s, s.useB, p.b, s.bmod, j, i, f.ptrs.b);
    BumpWord(s, s.useC, p.c, s.cmod, j, i, f.ptrs.c);
  }

  lemma WordTracks(s: Setup, p: Pointers, c: Core, f: Fast, j: nat, i: nat)
    requires s.Sized() && NeverZero(s, p) && j < s.v && i < s.h
    requires Tracks(s, p, c, f, j, i)
    ensures Tracks(s, p, c, FastWord(s, f, i), j, i + 1)
  {
    hide DoBlit, Running, Bump, NonZero, FastLoad, Loaded, At;
    var k := WordNo(s, j, i);
    RowCol(s.h, j, i);
    BumpWord(s, s.useA, p.a, s.amod, j, i, f.ptrs.a);
    BumpWord(s, s.useB, p.b, s.bmod, j, i, f.ptrs.b);
    BumpWord(s, s.useC, p.c, s.cmod, j, i, f.ptrs.c);
    BumpWord(s, s.useD, p.d, s.dmod, j, i, f.ptrs.d);
    if i + 1 < s.h {
      RowCol(s.h, j, i + 1);
    }
    LoadAgrees(s, p, c, f, j, i);
    assert k + 1 == WordNo(s, j, i + 1);
  }

  lemma {:induction false} RowTracks(s: Setup, p: Pointers, c: Core, f: Fast, j: nat, n: nat)
    requires s.Sized() && NeverZero(s, p) && j < s.v && n <= s.h
    requires Tracks(s, p, c, f, j, 0)
    ensures Tracks(s, p, c, FastWords(s, f, n), j, n)
  {
    hide Tracks, FastWord, NeverZero;
    if n > 0 {
      RowTracks(s, p, c, f, j, n - 1);
      WordTracks(s, p, c, FastWords(s, f, n - 1), j, n - 1);
    }
  }

  lemma FreshRowCarry(s: Setup, p: Pointers, c: Core, j: nat)
    requires s.Sized()
    ensures After(s, p, c, true, WordNo(s, j, 0)).core.fc == s.carryIn
  {
    hide DoBlit, Loaded;
    RowCol(s.h, j, 0);
  }

  lemma RowEndTracks(s: Setup, p: Pointers, c: Core, g: Fast, j: nat)
    requires s.Sized() && NeverZero(s, p) && j + 1 < s.v
    requires Tracks(s, p, c, g, j, s.h)
    ensures Tracks(s, p, c, RowStart(s, RowEnd(s, g)), j + 1, 0)
  {
    hide DoBlit, After, Bump, NonZero, At, Running;
    FreshRowCarry(s, p, c, j + 1);
    BumpRow(s, s.useA, p.a, s.amod, j, g.ptrs.a);
    BumpRow(s, s.useB, p.b, s.bmod, j, g.ptrs.b);
    BumpRow(s, s.useC, p.c, s.cmod, j, g.ptrs.c);
    BumpRow(s, s.useD, p.d, s.dmod, j, g.ptrs.d);
    assert WordNo(s, j + 1, 0) == WordNo(s, j, s.h);
  }

  lemma StartsInside(s: Setup, base: Long, mod: int)
    ensures Inside(s, base, mod, 0, 0) == base
  {
    assert mod * 0 == 0;
    assert s.Dir() * 0 == 0;
  }

  lemma StartTracks(s: Setup, p: Pointers, c: Core, ddat: Word)
    requires s.Sized()
    ensures Tracks(s, p, c, RowStart(s, FastStart(s, p, c, ddat)), 0, 0)
  {
    hide DoBlit, At, Loaded, Inside;
    StartsInside(s, p.a, s.amod);
    StartsInside(s, p.b, s.bmod);
    StartsInside(s, p.c, s.cmod);
    StartsInside(s, p.d, s.dmod);
    assert WordNo(s, 0, 0) == 0;
  }

  lemma {:induction false} RowsTrack(s: Setup, p: Pointers, c: Core, ddat: Word, j: nat)
    requires s.Sized() && NeverZero(s, p) && j < s.v
    ensures Tracks(s, p, c, RowStart(s, FastRows(s, FastStart(s, p, c, ddat), j)), j, 0)
  {
    hide DoBlit, After, NeverZero, Tracks, RowStart, RowEnd, FastWords, FastStart;
    if j == 0 {
      StartTracks(s, p, c, ddat);
    } else {
      RowsTrack(s, p, c, ddat, j - 1);
      var f := RowStart(s, FastRows(s, FastStart(s, p, c, ddat), j - 1));
      RowTracks(s, p, c, f, j - 1, s.h);
      RowEndTracks(s, p, c, FastWords(s, f, s.h), j - 1);
    }
  }

  lemma AdvancedAt(s: Setup, base: Long, mod: int)
    requires s.Sized()
    ensures Advanced(s, base, mod) == At(s, base, mod, s.Words())
  {
    RowCol(s.h, s.v, 0);
    assert s.h * s.v == s.v * s.h + 0;
    assert (s.h * 2 + mod) * s.v == 2 * (s.h * s.v) + mod * s.v;
  }

  /** Main result for the fast machine. */
  lemma FastIsReference(s: Setup, p: Pointers, c: Core, ddat: Word)
    requires s.Sized() && NeverZero(s, p)
    ensures FastBlit(s, p, c, ddat) == Blitted(s, p, c, true)
  {
    hide DoBlit, FastWords, Running, Bump, NonZero, At, Read, Write, Advanced, Masked, Shifted, Inside, FastStart, RowStart, After;
    var j := s.v - 1;
    RowsTrack(s, p, c, ddat, j);
    var f := FastRows(s, FastStart(s, p, c, ddat), j);
    RowTracks(s, p, c, RowStart(s, f), j, s.h);
    assert WordNo(s, j, s.h) == s.Words();
    AdvancedAt(s, p.a, s.amod);
    AdvancedAt(s, p.b, s.bmod);
    AdvancedAt(s, p.c, s.cmod);
    AdvancedAt(s, p.d, s.dmod);
  }
}
