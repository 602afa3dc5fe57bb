/** Line mode: the line drawer's steps, and the line they draw. */
module LineModel {
  import opened Words
  import opened Arith
  import opened Bits
  import opened BlitterModel

  /** What a line reads but never changes. `sud`, `sul`, `aul` select the octant, `sing` one dot per row. */
  datatype LineSetup = LineSetup(useA: bool, useC: bool, mt: Byte, sud: bool, sul: bool, aul: bool, sing: bool,
                                 afwm: Word, blinea: Word, amod: int, bmod: int, cmod: int)

  function DecodeLine(con0: Word, con1: Word, afwm: Word, adat: Word, amod: int, bmod: int, cmod: int): LineSetup {
    LineSetup(Flag(con0, 0x800), Flag(con0, 0x200), con0 % 0x100,
              Flag(con1, 0x10), Flag(con1, 8), Flag(con1, 4), Flag(con1, 2), afwm, adat, amod, bmod, cmod)
  }

  datatype Line = Line(mem: ChipMem, apt: Long, cpt: Long, dpt: Long, cdat: Word, ddat: Word, shift: Shift, sign: bool,
                       dotted: bool, pixel: bool, pattern: Word, zero: bool, used: bool, left: nat)

  // ----- moves of the drawing position -----

  function IncX(l: Line): Line {
    if l.shift == 15 then l.(shift := 0, cpt := Wrap(l.cpt + 2)) else l.(shift := l.shift + 1)
  }

  function DecX(l: Line): Line {
    if l.shift == 0 then l.(shift := 15, cpt := Wrap(l.cpt - 2)) else l.(shift := l.shift - 1)
  }

  function IncY(s: LineSetup, l: Line): Line {
    l.(cpt := Wrap(l.cpt + s.cmod), dotted := false)
  }

  function DecY(s: LineSetup, l: Line): Line {
    l.(cpt := Wrap(l.cpt - s.cmod), dotted := false)
  }

  /** One pixel along x (`alongX`) or y, backwards or forwards. */
  function MoveAlong(s: LineSetup, l: Line, alongX: bool, back: bool): Line {
    if alongX then (if back then DecX(l) else IncX(l)) else if back then DecY(s, l) else IncY(s, l)
  }

  // ----- one pixel: read C, work, write D -----

  function LineRead(s: LineSetup, l: Line): Line {
    if s.useC then l.(cdat := Read(l.mem, l.cpt)) else l
  }

  /** The A data word moved to the pixel's bit. */
  function Pen(s: LineSetup, shift: Shift): Word {
    DivShrinks(And(s.blinea, s.afwm), Pow2(shift));
    And(s.blinea, s.afwm) / Pow2(shift)
  }

  function Texel(pattern: Word): Word {
    if pattern % 2 == 1 then 0xFFFF else 0
  }

  function Rotate(w: Word): Word {
    w * 2 % 0x1_0000 + w / 0x8000
  }

  /** blitter_line: the word to store, and whether this pixel is drawn. */
  function LinePixel(s: LineSetup, l: Line): Line {
    l.(pixel := !s.sing || !l.dotted, ddat := BlitFunc(Pen(s, l.shift), Texel(l.pattern), l.cdat, s.mt), dotted := true)
  }

  function LineError(s: LineSetup, l: Line): Line {
    if s.useA then l.(apt := Wrap(l.apt + if l.sign then s.bmod else s.amod)) else l
  }

  /** blitter_line_proc: the error term, the minor move if it asks for one, the major move. */
  function LineProc(s: LineSetup, l: Line): Line {
    var l1 := LineError(s, l);
    var l2 := if !l.sign then MoveAlong(s, l1, !s.sud, s.sul) else l1;
    var l3 := MoveAlong(s, l2, s.sud, s.aul);
    l3.(sign := Signed16(l1.apt) < 0)
  }

  function LineWork(s: LineSetup, l: Line): Line {
    var l1 := if l.used then l.(dpt := l.cpt) else l.(used := true);
    var l2 := LineProc(s, LinePixel(s, l1));
    l2.(pattern := Rotate(l.pattern), left := if l.left > 0 then l.left - 1 else 0)
  }

  function LineWrite(s: LineSetup, l: Line): Line {
    if !l.pixel then l else
    l.(pixel := false, zero := l.zero && l.ddat == 0, mem := if s.useC then Write(l.mem, l.dpt, l.ddat) else l.mem)
  }

  function LineStep(s: LineSetup, l: Line): Line {
    LineWrite(s, LineWork(s, LineRead(s, l)))
  }

  function LineSteps(s: LineSetup, l: Line, n: nat): Line {
    if n == 0 then l else LineStep(s, LineSteps(s, l, n - 1))
  }

  /** The whole line; afterwards the D pointer has caught up with the C pointer. */
  function DrawLine(s: LineSetup, l: Line): Line {
    var e := LineSteps(s, l, l.left);
    e.(dpt := e.cpt)
  }
}

/** The line drawn is the line of nearest pixels. */
module LineDraw {
  import opened Words
  import opened Arith
  import opened Bits
  import opened BlitterModel
  import opened LineModel

  /** A line as a program asks for it: `dmaj` steps along the major axis go with `dmin` along the minor one. */
  datatype Slope = Slope(dmaj: nat, dmin: nat)
  {
    /** The register values 4*dmin and 4*(dmin - dmaj) are signed 16-bit numbers. */
    predicate Fits() {
      0 < dmaj && dmin <= dmaj && 4 * dmin <= 0x7FFF && 4 * (dmaj - dmin) <= 0x8000
    }

    /** Minor coordinate nearest to `dmin * k / dmaj`, halves rounded up. */
    function Minor(k: nat): nat
      requires dmaj > 0
    {
      MulNat(dmin, k);
      DivShrinks(2 * (dmin * k) + dmaj, 2 * dmaj);
      (2 * (dmin * k) + dmaj) / (2 * dmaj)
    }

    /** Four times the error of step `k`, as the A pointer register holds it. */
    function Error(k: nat): int
      requires dmaj > 0
    {
      4 * (dmin * k - dmaj * Minor(k)) + 4 * dmin - 2 * dmaj
    }
  }

  lemma MinorBounds(t: Slope, k: nat)
    requires t.dmaj > 0
    ensures var e := t.dmin * k - t.dmaj * t.Minor(k);
            -(t.dmaj as int) <= 2 * e < t.dmaj
  {
    MulNat(t.dmin, k);
    var x, d := 2 * (t.dmin * k) + t.dmaj, 2 * t.dmaj;
    assert x == x / d * d + x % d;
    assert t.Minor(k) * d == 2 * (t.dmaj * t.Minor(k));
  }

  /** The drawn minor coordinate is never more than half a pixel off the exact one. */
  lemma NearestPixel(t: Slope, k: nat)
    requires t.dmaj > 0
    ensures var e := t.dmaj * t.Minor(k) - t.dmin * k;
            2 * (if e < 0 then -e else e) <= t.dmaj
  {
    MinorBounds(t, k);
  }

  lemma MinorIs(t: Slope, k: nat, m: nat)
    requires t.dmaj > 0 && -(t.dmaj as int) <= 2 * (t.dmin * k - t.dmaj * m) < t.dmaj
    ensures t.Minor(k) == m
  {
    MulNat(t.dmin, k);
    var x, d := 2 * (t.dmin * k) + t.dmaj, 2 * t.dmaj;
    assert m * d == 2 * (t.dmaj * m);
    DivModIs(x, d, m, x - m * d);
  }

  /** The sign of the error decides whether the next point makes a minor move. */
  lemma MinorStep(t: Slope, k: nat)
    requires t.Fits()
    ensures t.Minor(k + 1) == t.Minor(k) + if t.Error(k) < 0 then 0 else 1
    ensures t.Error(k + 1) == t.Error(k) + if t.Error(k) < 0 then 4 * t.dmin else 4 * (t.dmin - t.dmaj)
    ensures -0x8000 <= t.Error(k) <= 0x7FFF
  {
    hide Slope.Minor;
    var m := t.Minor(k);
    MinorBounds(t, k);
    assert t.dmin * (k + 1) == t.dmin * k + t.dmin;
    assert t.dmaj * (m + 1) == t.dmaj * m + t.dmaj;
    MinorIs(t, k + 1, if t.Error(k) < 0 then m else m + 1);
  }

  // ----- positions -----

  /** Point `k` of the line, relative to the word the line starts in: x counts pixels, y rows of `cmod` bytes. */
  function PointX(s: LineSetup, t: Slope, x0: int, k: nat): int
    requires t.dmaj > 0
  {
    if s.sud then (if s.aul then x0 - k else x0 + k) else if s.sul then x0 - t.Minor(k) else x0 + t.Minor(k)
  }

  function PointY(s: LineSetup, t: Slope, k: nat): int
    requires t.dmaj > 0
  {
    if s.sud then (if s.sul then -(t.Minor(k) as int) else t.Minor(k)) else if s.aul then -(k as int) else k
  }

  /** Address of the word a pixel lies in. */
  function PixelAddr(s: LineSetup, base: Long, x: int, y: int): Long {
    Wrap(base + 2 * (x / 16) + s.cmod * y)
  }

  /** The C pointer and the shift together encode the point. */
  ghost predicate Encodes(s: LineSetup, base: Long, l: Line, x: int, y: int) {
    l.cpt == PixelAddr(s, base, x, y) && l.shift == x % 16
  }

  lemma MoveXEncodes(s: LineSetup, base: Long, l: Line, x: int, y: int, back: bool)
    requires Encodes(s, base, l, x, y)
    ensures Encodes(s, base, MoveAlong(s, l, true, back), if back then x - 1 else x + 1, y)
  {
    hide Wrap;
    var a := base + 2 * (x / 16) + s.cmod * y;
    WrapAdd(a, if back then -2 else 2);
  }

  lemma MoveYEncodes(s: LineSetup, base: Long, l: Line, x: int, y: int, back: bool)
    requires Encodes(s, base, l, x, y)
    ensures Encodes(s, base, MoveAlong(s, l, false, back), x, if back then y - 1 else y + 1)
  {
    hide Wrap;
    var a := base + 2 * (x / 16) + s.cmod * y;
    WrapAdd(a, if back then -s.cmod else s.cmod);
    assert s.cmod * (y + 1) == s.cmod * y + s.cmod;
    assert s.cmod * (y - 1) == s.cmod * y - s.cmod;
  }

  lemma MoveEncodes(s: LineSetup, base: Long, l: Line, x: int, y: int, alongX: bool, back: bool)
    requires Encodes(s, base, l, x, y)
    ensures var d := if back then -1 else 1;
            Encodes(s, base, MoveAlong(s, l, alongX, back), if alongX then x + d else x, if alongX then y else y + d)
  {
    hide Encodes, MoveAlong;
    if alongX {
      MoveXEncodes(s, base, l, x, y, back);
    } else {
      MoveYEncodes(s, base, l, x, y, back);
    }
  }

  lemma WrapSigned(apt: Long, m: int)
    requires -0x8000 <= Signed16(apt) + m <= 0x7FFF
    ensures Signed16(Wrap(apt + m)) == Signed16(apt) + m
  {
    var k := if apt % 0x1_0000 < 0x8000 then apt / 0x1_0000 else apt / 0x1_0000 + 1;
    WrapLow(apt + m);
    SignedIs(apt + m, k, Signed16(apt) + m);
  }

  lemma WrapLow(x: int)
    ensures Wrap(x) % 0x1_0000 == x % 0x1_0000
  {
    var (q, r) := (x / 0x1_0000_0000, Wrap(x));
    assert x == q * 0x1_0000_0000 + r;
    Arith.DivModIs(x, 0x1_0000, q * 0x1_0000 + r / 0x1_0000, r % 0x1_0000);
  }

  lemma SignedIs(x: int, k: int, v: int)
    requires x == k * 0x1_0000 + v && -0x8000 <= v <= 0x7FFF
    ensures Signed16(x) == v
  {
    if v >= 0 {
      Arith.DivModIs(x, 0x1_0000, k, v);
    } else {
      Arith.DivModIs(x, 0x1_0000, k - 1, v + 0x1_0000);
    }
  }

  // ----- the pixel -----

  lemma {:induction false} MintermsBit(n: nat, a: nat, b: nat, c: nat, mt: Byte, i: nat)
    requires i < n
    ensures Bit(Minterms(n, a, b, c, mt), i) ==
            Bit(mt, (if Bit(a, i) then 4 else 0) + (if Bit(b, i) then 2 else 0) + if Bit(c, i) then 1 else 0)
    decreases i
  {
    hide Minterms;
    MintermsStep(n, a, b, c, mt);
    if i > 0 {
      MintermsBit(n - 1, a / 2, b / 2, c / 2, mt, i - 1);
    } else {
      LowBit(a);
      LowBit(b);
      LowBit(c);
    }
  }

  lemma MintermsStep(n: nat, a: nat, b: nat, c: nat, mt: Byte)
    requires n > 0
    ensures var m := Minterms(n, a, b, c, mt);
            m / 2 == Minterms(n - 1, a / 2, b / 2, c / 2, mt) && (m % 2 == 1 <==> Bit(mt, a % 2 * 4 + b % 2 * 2 + c % 2))
  {
    hide Bit;
  }

  lemma LowBit(w: nat)
    ensures Bit(w, 0) == (w % 2 == 1) && (w % 2 == 0 || w % 2 == 1)
  {
  }

  /** Minterm 0xCA takes B where A is set and C elsewhere. */
  lemma CookieCut(i: nat)
    requires i < 8
    ensures Bit(0xCA, i) == if i >= 4 then i >= 6 else i % 2 == 1
  {
    assert !Bit(0xCA, 0) && Bit(0xCA, 1) && !Bit(0xCA, 2) && Bit(0xCA, 3);
    assert !Bit(0xCA, 4) && !Bit(0xCA, 5) && Bit(0xCA, 6) && Bit(0xCA, 7);
  }

  lemma {:induction false} Pow2Bit(i: nat, j: nat)
    ensures Bit(Pow2(i), j) == (i == j)
    decreases i
  {
    if i == 0 && j > 0 {
      ZeroBits(j - 1);
    } else if i > 0 && j > 0 {
      Pow2Bit(i - 1, j - 1);
    }
  }

  lemma {:induction false} OnesBit(n: nat, j: nat)
    ensures Bit(Pow2(n) - 1, j) == (j < n)
  {
    if n == 0 {
      ZeroBits(j);
    } else if j > 0 {
      OnesBit(n - 1, j - 1);
    }
  }

  lemma PenBitwise(i: nat, b: bool, c: Word, j: nat)
    requires i < 16 && j < 16
    ensures Bit(Minterms(16, Pow2(i), if b then 0xFFFF else 0, c, 0xCA), j) == Bit(PutBit(c, i, b), j)
  {
    hide PutBit, Pow2;
    var tex: Word := if b then 0xFFFF else 0;
    MintermsBit(16, Pow2(i), tex, c, 0xCA, j);
    Pow2Bit(i, j);
    TexelBit(b, j);
    PutBitBits(c, i, b, j);
    CookieCut((if Bit(Pow2(i), j) then 4 else 0) + (if Bit(tex, j) then 2 else 0) + if Bit(c, j) then 1 else 0);
  }

  lemma TexelBit(b: bool, j: nat)
    requires j < 16
    ensures Bit(if b then 0xFFFF else 0, j) == b
  {
    Pow2Values();
    OnesBit(16, j);
    ZeroBits(j);
  }

  /** With a one-bit pen, 0xCA puts the texture bit there and leaves the rest of the word alone. */
  lemma PenPutsBit(i: nat, b: bool, c: Word)
    requires i < 16 && Pow2(i) < 0x1_0000
    ensures BlitFunc(Pow2(i), if b then 0xFFFF else 0, c, 0xCA) == PutBit(c, i, b)
  {
    hide PutBit, Bit, Minterms;
    var tex: Word := if b then 0xFFFF else 0;
    Pow2Values();
    PutBitBound(c, i, b, 16);
    forall j: nat | j < 16
      ensures Bit(Minterms(16, Pow2(i), tex, c, 0xCA), j) == Bit(PutBit(c, i, b), j)
    {
      PenBitwise(i, b, c, j);
    }
    SameBits(16, Minterms(16, Pow2(i), tex, c, 0xCA), PutBit(c, i, b));
  }

  lemma {:induction false} PenBit(shift: Shift)
    ensures 0x8000 / Pow2(shift) == Pow2(15 - shift)
  {
    Pow2Product(shift, 15 - shift);
    TopPower();
    ExactQuotient(Pow2(shift), Pow2(15 - shift));
  }

  lemma ExactQuotient(p: nat, q: nat)
    requires p >= 1
    ensures p * q / p == q
  {
    DivModIs(p * q, p, q, 0);
  }

  lemma TopPower()
    ensures Pow2(15) == 0x8000
  {
    Pow2Values();
    assert Pow2(16) == 2 * Pow2(15);
  }

  lemma FullPen()
    ensures And(0x8000, 0xFFFF) == 0x8000
  {
    hide And, Bit, Pow2;
    Pow2Values();
    TopPower();
    forall j: nat | j < 16
      ensures Bit(And(0x8000, 0xFFFF), j) == Bit(0x8000, j)
    {
      AndBits(0x8000, 0xFFFF, j);
      OnesBit(16, j);
    }
    SameBits(16, And(0x8000, 0xFFFF), 0x8000);
  }

  // ----- the whole line -----

  /** A line set up to start at bit `x0` of the word at `base`, with the error term of step 0. */
  ghost predicate Aims(s: LineSetup, t: Slope, l: Line) {
    && s.useA && s.useC && s.mt == 0xCA && s.blinea == 0x8000 && s.afwm == 0xFFFF
    && t.Fits() && s.bmod == 4 * t.dmin && s.amod == 4 * (t.dmin - t.dmaj)
    && Signed16(l.apt) == 4 * t.dmin - 2 * t.dmaj && l.sign == (4 * t.dmin - 2 * t.dmaj < 0)
    && l.dpt == l.cpt && !l.dotted && !l.pixel && !l.used
  }

  function Texture(pattern: Word, k: nat): Word {
    if k == 0 then pattern else Rotate(Texture(pattern, k - 1))
  }

  /** In one-dot mode a point is drawn only if it is the first of its row. */
  predicate Drawn(s: LineSetup, t: Slope, k: nat)
    requires t.dmaj > 0
  {
    !s.sing || k == 0 || PointY(s, t, k) != PointY(s, t, k - 1)
  }

  /** One pixel of memory set to `b`: bit 15 is the leftmost one of a word. */
  function SetPixel(s: LineSetup, mem: ChipMem, base: Long, x: int, y: int, b: bool): (r: ChipMem)
  {
    var a := PixelAddr(s, base, x, y);
    var w := Read(mem, a);
    PutBitBound(w, 15 - x % 16, b, 16);
    Pow2Values();
    Write(mem, a, PutBit(w, 15 - x % 16, b))
  }

  /** Reference: the first `n` nearest points drawn one after the other. */
  function Plot(s: LineSetup, t: Slope, mem: ChipMem, base: Long, x0: int, pattern: Word, n: nat): ChipMem
    requires t.dmaj > 0
  {
    if n == 0 then mem else
      var m := Plot(s, t, mem, base, x0, pattern, n - 1);
      if Drawn(s, t, n - 1)
      then SetPixel(s, m, base, PointX(s, t, x0, n - 1), PointY(s, t, n - 1), Texture(pattern, n - 1) % 2 == 1)
      else m
  }

  /** The line drawer after `k` points. */
  ghost predicate OnLine(s: LineSetup, t: Slope, l0: Line, l: Line, k: nat)
    requires t.dmaj > 0
  {
    var x, y := PointX(s, t, l0.shift, k), PointY(s, t, k);
    && Encodes(s, l0.cpt, l, x, y)
    && Signed16(l.apt) == t.Error(k) && l.sign == (t.Error(k) < 0)
    && l.pattern == Texture(l0.pattern, k)
    && (s.sing ==> l.dotted == !Drawn(s, t, k))
    && (l.used || l.dpt == l.cpt) && !l.pixel
    && l.mem == Plot(s, t, l0.mem, l0.cpt, l0.shift, l0.pattern, k)
  }

  lemma StartsOnLine(s: LineSetup, t: Slope, l: Line)
    requires Aims(s, t, l)
    ensures OnLine(s, t, l, l, 0)
  {
    MinorIs(t, 0, 0);
  }

  /** The word stored is the word read with one pixel set. */
  lemma PenStores(s: LineSetup, t: Slope, l: Line, b: bool)
    requires s.mt == 0xCA && s.blinea == 0x8000 && s.afwm == 0xFFFF
    ensures Pen(s, l.shift) == Pow2(15 - l.shift)
    ensures BlitFunc(Pen(s, l.shift), if b then 0xFFFF else 0, l.cdat, s.mt) == PutBit(l.cdat, 15 - l.shift, b)
  {
    hide BlitFunc, And, Pow2, PutBit;
    FullPen();
    PenBit(l.shift);
    PenPutsBit(15 - l.shift, b, l.cdat);
  }

  /** The minor move, where the error asks for it, reaches the minor coordinate of the next point. */
  lemma MinorMove(s: LineSetup, t: Slope, base: Long, x0: int, l: Line, k: nat)
    requires t.Fits() && Encodes(s, base, l, PointX(s, t, x0, k), PointY(s, t, k)) && l.sign == (t.Error(k) < 0)
    ensures var r := if !l.sign then MoveAlong(s, l, !s.sud, s.sul) else l;
            && Encodes(s, base, r, if s.sud then PointX(s, t, x0, k) else PointX(s, t, x0, k + 1),
                                   if s.sud then PointY(s, t, k + 1) else PointY(s, t, k))
            && r.apt == l.apt && r.dotted == (l.dotted && (s.sud ==> PointY(s, t, k + 1) == PointY(s, t, k)))
  {
    hide Wrap, PixelAddr, Slope.Error, Slope.Minor, Encodes;
    MinorStep(t, k);
    MoveEncodes(s, base, l, PointX(s, t, x0, k), PointY(s, t, k), !s.sud, s.sul);
  }

  lemma MajorMove(s: LineSetup, t: Slope, base: Long, x0: int, l: Line, k: nat)
    requires t.Fits()
    requires Encodes(s, base, l, if s.sud then PointX(s, t, x0, k) else PointX(s, t, x0, k + 1),
                                 if s.sud then PointY(s, t, k + 1) else PointY(s, t, k))
    ensures var r := MoveAlong(s, l, s.sud, s.aul);
            && Encodes(s, base, r, PointX(s, t, x0, k + 1), PointY(s, t, k + 1))
            && r.apt == l.apt && r.dotted == (l.dotted && s.sud)
  {
    hide Wrap, PixelAddr, Slope.Minor, Encodes;
    MoveEncodes(s, base, l, if s.sud then PointX(s, t, x0, k) else PointX(s, t, x0, k + 1),
                if s.sud then PointY(s, t, k + 1) else PointY(s, t, k), s.sud, s.aul);
  }

  /** The two moves of a step lead from point `k` to point `k + 1`, and the dot flag follows the row. */
  lemma ProcMoves(s: LineSetup, t: Slope, base: Long, x0: int, l: Line, k: nat)
    requires t.Fits() && Encodes(s, base, l, PointX(s, t, x0, k), PointY(s, t, k))
    requires s.useA && s.bmod == 4 * t.dmin && s.amod == 4 * (t.dmin - t.dmaj)
    requires Signed16(l.apt) == t.Error(k) && l.sign == (t.Error(k) < 0)
    ensures var r := LineProc(s, l);
            && Encodes(s, base, r, PointX(s, t, x0, k + 1), PointY(s, t, k + 1))
            && Signed16(r.apt) == t.Error(k + 1) && r.sign == (t.Error(k + 1) < 0)
            && r.dotted == (l.dotted && PointY(s, t, k + 1) == PointY(s, t, k))
  {
    hide Wrap, Signed16, PixelAddr, Slope.Error, Slope.Minor, MoveAlong, PointX;
    MinorStep(t, k);
    MinorStep(t, k + 1);
    WrapSigned(l.apt, if l.sign then s.bmod else s.amod);
    var l1 := l.(apt := Wrap(l.apt + if l.sign then s.bmod else s.amod));
    MinorMove(s, t, base, x0, l1, k);
    MajorMove(s, t, base, x0, if !l.sign then MoveAlong(s, l1, !s.sud, s.sul) else l1, k);
  }

  lemma StepStaysOnLine(s: LineSetup, t: Slope, l0: Line, l: Line, k: nat)
    requires Aims(s, t, l0) && OnLine(s, t, l0, l, k)
    ensures OnLine(s, t, l0, LineStep(s, l), k + 1)
  {
    hide Wrap, Signed16, PixelAddr, Slope.Error, Slope.Minor, LineProc, PointX, PointY, BlitFunc, Pen, PutBit, Rotate;
    var x, y := PointX(s, t, l0.shift, k), PointY(s, t, k);
    var r := LineRead(s, l);
    PenStores(s, t, r, r.pattern % 2 == 1);
    var l1 := if r.used then r.(dpt := r.cpt) else r.(used := true);
    var l2 := LinePixel(s, l1);
    ProcMoves(s, t, l0.cpt, l0.shift, l2, k);
    ProcKeeps(s, l2);
    assert l1.dpt == PixelAddr(s, l0.cpt, x, y);
  }

  predicate SameData(l: Line, r: Line) {
    && r.mem == l.mem && r.dpt == l.dpt && r.ddat == l.ddat && r.pixel == l.pixel && r.used == l.used && r.zero == l.zero
    && r.left == l.left
  }

  lemma MoveKeeps(s: LineSetup, l: Line, alongX: bool, back: bool)
    ensures SameData(l, MoveAlong(s, l, alongX, back))
  {
    hide Wrap;
  }

  lemma ProcKeeps(s: LineSetup, l: Line)
    ensures SameData(l, LineProc(s, l))
  {
    hide Wrap, Signed16, MoveAlong;
    var l1 := if s.useA then l.(apt := Wrap(l.apt + if l.sign then s.bmod else s.amod)) else l;
    MoveKeeps(s, l1, !s.sud, s.sul);
    MoveKeeps(s, if !l.sign then MoveAlong(s, l1, !s.sud, s.sul) else l1, s.sud, s.aul);
  }

  lemma {:induction false} StaysOnLine(s: LineSetup, t: Slope, l: Line, n: nat)
    requires Aims(s, t, l)
    ensures OnLine(s, t, l, LineSteps(s, l, n), n)
  {
    hide OnLine, LineStep;
    if n == 0 {
      StartsOnLine(s, t, l);
    } else {
      StaysOnLine(s, t, l, n - 1);
      StepStaysOnLine(s, t, l, LineSteps(s, l, n - 1), n - 1);
    }
  }

  /** Main result of line mode: the memory afterwards is the plot of the nearest points and nothing else, and the
      pointers rest on the point after the last. */
  lemma LineIsNearest(s: LineSetup, t: Slope, l: Line)
    requires Aims(s, t, l)
    ensures var r := DrawLine(s, l);
            && r.mem == Plot(s, t, l.mem, l.cpt, l.shift, l.pattern, l.left)
            && r.cpt == r.dpt == PixelAddr(s, l.cpt, PointX(s, t, l.shift, l.left), PointY(s, t, l.left))
            && r.shift == PointX(s, t, l.shift, l.left) % 16
  {
    hide LineStep, Plot, PixelAddr;
    StaysOnLine(s, t, l, l.left);
  }

  // ----- the zero flag -----

  /** The word that is due at a pixel: the minterms of the pen, the texture bit and what memory (or the C register) holds. */
  function DueWord(s: LineSetup, l: Line): Word {
    BlitFunc(Pen(s, l.shift), Texel(l.pattern), if s.useC then Read(l.mem, l.cpt) else l.cdat, s.mt)
  }

  predicate DueDot(s: LineSetup, l: Line) {
    s.sing ==> !l.dotted
  }

  lemma StepFlag(s: LineSetup, l: Line)
    ensures LineStep(s, l).zero <==> l.zero && (DueDot(s, l) ==> DueWord(s, l) == 0)
  {
    hide BlitFunc, Pen, LineProc, Rotate, Write, Read, Texel;
    var r := LineRead(s, l);
    var r1 := if r.used then r.(dpt := r.cpt) else r.(used := true);
    ProcKeeps(s, LinePixel(s, r1));
  }

  /** The flag was set and none of the first `n` pixels that are drawn was due a word other than zero. */
  ghost predicate Unmarked(s: LineSetup, l: Line, n: nat) {
    l.zero && forall k: nat :: k < n ==> Blank(s, LineSteps(s, l, k))
  }

  predicate Blank(s: LineSetup, l: Line) {
    DueDot(s, l) ==> DueWord(s, l) == 0
  }

  /** A line leaves the zero flag set exactly if it was set and every word due at a pixel that is drawn was zero. */
  lemma {:induction false} LineFlag(s: LineSetup, l: Line, n: nat)
    ensures LineSteps(s, l, n).zero <==> Unmarked(s, l, n)
  {
    hide LineStep, DueWord, DueDot;
    if n > 0 {
      LineFlag(s, l, n - 1);
      StepFlag(s, LineSteps(s, l, n - 1));
    }
  }

  lemma WholeLineFlag(s: LineSetup, l: Line)
    ensures DrawLine(s, l).zero <==> Unmarked(s, l, l.left)
  {
    hide LineStep, Unmarked;
    LineFlag(s, l, l.left);
  }

  /** The word of point `k` once the point is plotted. */
  function PlottedWord(s: LineSetup, t: Slope, l: Line, k: nat): Word
    requires t.dmaj > 0
  {
    Read(Plot(s, t, l.mem, l.cpt, l.shift, l.pattern, k + 1), PixelAddr(s, l.cpt, PointX(s, t, l.shift, k), PointY(s, t, k)))
  }

  lemma WriteThenRead(mem: ChipMem, a: Long, w: Word)
    ensures Read(Write(mem, a, w), a) == w
  {
  }

  lemma DueIsPlotted(s: LineSetup, t: Slope, l0: Line, l: Line, k: nat)
    requires Aims(s, t, l0) && OnLine(s, t, l0, l, k)
    ensures DueDot(s, l) <==> Drawn(s, t, k)
    ensures Drawn(s, t, k) ==> DueWord(s, l) == PlottedWord(s, t, l0, k)
  {
    hide Wrap, Signed16, PixelAddr, Slope.Error, Slope.Minor, PointX, PointY, BlitFunc, Pen, PutBit, Read, Write;
    var r := l.(cdat := Read(l.mem, l.cpt));
    PenStores(s, t, r, r.pattern % 2 == 1);
    if Drawn(s, t, k) {
      WriteThenRead(l.mem, l.cpt, PutBit(Read(l.mem, l.cpt), 15 - l.shift, l.pattern % 2 == 1));
    }
  }

  /** On a line of nearest points: exactly if it was set and the word of every point drawn is zero once it is drawn. */
  lemma LineFlagMeans(s: LineSetup, t: Slope, l: Line)
    requires Aims(s, t, l)
    ensures DrawLine(s, l).zero <==>
            l.zero && forall k: nat :: k < l.left && Drawn(s, t, k) ==> PlottedWord(s, t, l, k) == 0
  {
    hide LineStep, OnLine, DueWord, DueDot, Drawn, PlottedWord, Signed16;
    LineFlag(s, l, l.left);
    forall k: nat | k < l.left
      ensures Blank(s, LineSteps(s, l, k)) <==> (Drawn(s, t, k) ==> PlottedWord(s, t, l, k) == 0)
    {
      StaysOnLine(s, t, l, k);
      DueIsPlotted(s, t, l, LineSteps(s, l, k), k);
    }
    if l.zero && forall k: nat :: k < l.left && Drawn(s, t, k) ==> PlottedWord(s, t, l, k) == 0 {
      forall k: nat | k < l.left
        ensures Blank(s, LineSteps(s, l, k))
      {
      }
    }
  }

  // ----- the texture -----

  lemma RotateParts(w: Word)
    ensures Rotate(w) / 2 == w % 0x8000 && Rotate(w) % 2 == w / 0x8000
  {
  }

  lemma RotateBits(w: Word, i: nat)
    requires i < 16
    ensures Bit(Rotate(w), i) == Bit(w, (i + 15) % 16)
  {
    hide Rotate, Pow2, Bit;
    RotateParts(w);
    if i > 0 {
      TopPower();
      LowBits(w, 15, i - 1);
      UpperBit(Rotate(w), i);
      assert (i + 15) % 16 == i - 1;
    } else {
      HighBit(w);
      LowBit(Rotate(w));
    }
  }

  lemma UpperBit(w: nat, i: nat)
    requires i > 0
    ensures Bit(w, i) == Bit(w / 2, i - 1)
  {
  }

  lemma {:induction false} LowBits(w: nat, n: nat, i: nat)
    requires i < n
    ensures Bit(w % Pow2(n), i) == Bit(w, i)
    decreases i
  {
    var p := Pow2(n - 1);
    var q := w / (2 * p);
    var r := w % (2 * p);
    assert w == q * (2 * p) + r;
    assert q * (2 * p) == 2 * (q * p);
    if i > 0 {
      assert w / 2 == q * p + r / 2;
      DivModIs(w / 2, p, q, r / 2);
      LowBits(w / 2, n - 1, i - 1);
    }
  }

  lemma {:induction false} TopBit(w: nat, n: nat)
    requires w < Pow2(n + 1)
    ensures w / Pow2(n) == if Bit(w, n) then 1 else 0
  {
    var p := Pow2(n);
    if n > 0 {
      TopBit(w / 2, n - 1);
      var h := Pow2(n - 1);
      DivModIs(w, p, if w >= p then 1 else 0, if w >= p then w - p else w);
      DivModIs(w / 2, h, if w >= p then 1 else 0, if w >= p then w / 2 - h else w / 2);
    }
  }

  lemma HighBit(w: Word)
    ensures w / 0x8000 == if Bit(w, 15) then 1 else 0
  {
    Pow2Values();
    assert Pow2(16) == 2 * Pow2(15);
    TopBit(w, 15);
  }

  lemma TurnOnce(i: nat, k: nat)
    requires k > 0
    ensures ((i + 15) % 16 + 15 * (k - 1)) % 16 == (i + 15 * k) % 16
  {
  }

  /** Point `k` takes texture bit 0 of the pattern rotated left `k` times: bit -k of the original, modulo 16. */
  lemma {:induction false} TextureCycles(pattern: Word, k: nat, i: nat)
    requires i < 16
    ensures Bit(Texture(pattern, k), i) == Bit(pattern, (i + 15 * k) % 16)
  {
    hide Bit, Rotate;
    if k > 0 {
      RotateBits(Texture(pattern, k - 1), i);
      TextureCycles(pattern, k - 1, (i + 15) % 16);
      TurnOnce(i, k);
    }
  }
}
