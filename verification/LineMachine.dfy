/** The cycle-exact line drawer, and the line drawer's registers updated in place. */
module LinePipe {
  import opened BlitterModel
  import opened BlitterPipe
  import opened LineModel
  import LineDraw

  /** 0 idle, 3 read C, 5 internal work, 4 write D. */
  const LINE_DIAGRAM := Diagram([0, 3, 5, 4], [0, 3, 5, 4])

  datatype Drawer = Drawer(line: Line, cyc: int, final: bool, wait: bool, done: bool)

  function StartDrawer(l: Line, copper: bool): Drawer {
    Drawer(l, -2, false, copper, false)
  }

  /** One granted cycle. */
  function LineCycle(s: LineSetup, d: Drawer): Drawer {
    var c := ChannelState(LINE_DIAGRAM, d.cyc);
    var q := d.(cyc := d.cyc + 1);
    if c == 3 then q.(line := LineRead(s, d.line))
    else if c == 5 then q.(line := LineWork(s, d.line))
    else if c == 4 then
      var l := LineWrite(s, d.line);
      if l.left == 0 then q.(line := l.(dpt := l.cpt), final := true, cyc := 0) else q.(line := l)
    else q
  }

  function LineTick(s: LineSetup, d: Drawer, slot: BusSlot): Drawer {
    if d.done then d
    else if d.wait then d.(wait := false)
    else if d.final then d.(cyc := d.cyc + 1, done := d.cyc + 1 >= 2)
    else if slot != Free then d
    else LineCycle(s, d)
  }

  function LineRun(s: LineSetup, d: Drawer, slots: seq<BusSlot>): Drawer
    decreases |slots|
  {
    if slots == [] then d else LineRun(s, LineTick(s, d, slots[0]), slots[1..])
  }

  /** The line as it stands in cycle `pos` of its `k`-th pixel. */
  function Partial(s: LineSetup, l: Line, k: nat, pos: nat): Line {
    var m := LineSteps(s, l, k);
    if pos <= 1 then m else if pos == 2 then LineRead(s, m) else LineWork(s, LineRead(s, m))
  }

  datatype LineStage = Warming(left: nat) | Pixel(k: nat, pos: nat) | Closing(cyc: nat) | Drawn

  predicate At(s: LineSetup, l: Line, d: Drawer, st: LineStage) {
    match st
    case Warming(left) => 1 <= left <= 2 && d == StartDrawer(l, d.wait).(cyc := 0 - left as int)
    case Pixel(k, pos) => k < l.left && pos < 4 && d == Drawer(Partial(s, l, k, pos), 4 * k + pos, false, false, false)
    case Closing(cyc) => cyc <= 1 && d == Drawer(DrawLine(s, l), cyc, true, false, false)
    case Drawn => d.done && d.line == DrawLine(s, l)
  }

  function SlotsLeft(l: Line, d: Drawer, st: LineStage): int {
    match st
    case Warming(left) => (if d.wait then 1 else 0) + left + 4 * l.left + 2
    case Pixel(k, pos) => 4 * (l.left - k) - pos + 2
    case Closing(cyc) => 2 - cyc
    case Drawn => 0
  }

  /** Free slots a line still needs, at least: all its cycles but the last two. */
  function SlotsDue(l: Line, st: LineStage): int {
    match st
    case Warming(left) => left + 4 * l.left
    case Pixel(k, pos) => 4 * (l.left - k) - pos
    case Closing(_) => 0
    case Drawn => 0
  }

  lemma StepCountsDown(s: LineSetup, l: Line)
    ensures LineStep(s, l).left == if l.left > 0 then l.left - 1 else 0
  {
    hide LineProc, LinePixel, Rotate, Write, Read;
    var r := LineRead(s, l);
    LineDraw.ProcKeeps(s, LinePixel(s, if r.used then r.(dpt := r.cpt) else r.(used := true)));
    PixelKeepsCount(s, if r.used then r.(dpt := r.cpt) else r.(used := true));
  }

  lemma PixelKeepsCount(s: LineSetup, l: Line)
    ensures LinePixel(s, l).left == l.left
  {
    hide BlitFunc, Pen;
  }

  lemma {:induction false} StepsCountDown(s: LineSetup, l: Line, k: nat)
    requires k <= l.left
    ensures LineSteps(s, l, k).left == l.left - k
  {
    hide LineStep, LineWork, LineRead, LineWrite;
    if k > 0 {
      StepsCountDown(s, l, k - 1);
      StepCountsDown(s, LineSteps(s, l, k - 1));
    }
  }

  lemma LineTickKeeps(s: LineSetup, l: Line, d: Drawer, st: LineStage, slot: BusSlot) returns (st2: LineStage)
    requires l.left > 0 && At(s, l, d, st)
    ensures var q := LineTick(s, d, slot);
            && At(s, l, q, st2) && SlotsLeft(l, q, st2) <= SlotsLeft(l, d, st)
            && (slot == Free ==> SlotsLeft(l, q, st2) < SlotsLeft(l, d, st) || st2 == Drawn)
            && SlotsDue(l, st2) >= SlotsDue(l, st) - (if slot == Free then 1 else 0)
            && SlotsLeft(l, q, st2) >= SlotsLeft(l, d, st) - 1
  {
    hide LineRead, LineWork, LineWrite;
    match st {
      case Warming(left) =>
        st2 := if d.wait || slot != Free then Warming(left) else if left == 2 then Warming(1) else Pixel(0, 0);
      case Pixel(k, pos) =>
        if slot != Free {
          return st;
        }
        assert (4 * k + pos - 4) % 4 == pos;
        if pos < 3 {
          return Pixel(k, pos + 1);
        }
        assert LineWrite(s, d.line) == LineSteps(s, l, k + 1);
        StepsCountDown(s, l, k + 1);
        st2 := if k + 1 == l.left then Closing(0) else Pixel(k + 1, 0);
      case Closing(cyc) =>
        st2 := if cyc == 0 then Closing(1) else Drawn;
      case Drawn => st2 := Drawn;
    }
  }

  lemma {:induction false} LineRunKeeps(s: LineSetup, l: Line, d: Drawer, st: LineStage, slots: seq<BusSlot>)
    returns (st2: LineStage)
    requires l.left > 0 && At(s, l, d, st)
    ensures At(s, l, LineRun(s, d, slots), st2)
    ensures FreeSlots(slots) >= SlotsLeft(l, d, st) ==> st2 == Drawn
    ensures SlotsDue(l, st2) >= SlotsDue(l, st) - FreeSlots(slots)
    ensures SlotsLeft(l, LineRun(s, d, slots), st2) >= SlotsLeft(l, d, st) - |slots|
    decreases |slots|
  {
    hide LineTick, DrawLine, Partial;
    if slots == [] {
      return st;
    }
    var st1 := LineTickKeeps(s, l, d, st, slots[0]);
    st2 := LineRunKeeps(s, l, LineTick(s, d, slots[0]), st1, slots[1..]);
  }

  /** Whatever the bus does, once it has granted enough slots the cycle-exact line is the immediate line; it takes two
      free slots to start and four for every pixel. */
  lemma LineMachinesAgree(s: LineSetup, l: Line, copper: bool, slots: seq<BusSlot>)
    requires l.left > 0
    ensures var d := LineRun(s, StartDrawer(l, copper), slots);
            && (d.done ==> d.line == DrawLine(s, l))
            && (FreeSlots(slots) >= (if copper then 1 else 0) + 4 + 4 * l.left ==> d.done)
            && (d.done ==> FreeSlots(slots) >= 2 + 4 * l.left && |slots| >= (if copper then 1 else 0) + 4 + 4 * l.left)
  {
    hide LineRun, DrawLine, Partial, FreeSlots;
    var st := LineRunKeeps(s, l, StartDrawer(l, copper), Warming(2), slots);
  }
}

/** The line drawer's registers, updated in place. */
module LineBlitter {
  import opened Words
  import opened Bits
  import opened BlitterModel
  import opened BlitterPipe
  import opened LineModel
  import opened LinePipe
  import LineDraw
  import BarrelShifter
  import Arith

  /** bltapt, bltcpt, bltdpt, blinea_shift and blitsign. */
  datatype Cursor = Cursor(apt: Long, cpt: Long, dpt: Long, shift: Shift, sign: bool)

  /** The data registers and the flags about the pixel at hand. */
  datatype PenState = PenState(cdat: Word, ddat: Word, onedot: bool, linepixel: bool, blineb: Word, zero: bool, ddat1use: bool)

  /** Turning a word right by shifting it both ways is what the barrel shifter makes of the word twice. */
  method Turned(b: Word, shift: Shift) returns (w: Word)
    ensures w == Shifted(false, shift, b, b)
  {
    hide Shifted;
    var (p, q) := (Pow2(shift), Pow2(16 - shift));
    BarrelShifter.Halves(shift);
    TwoParts(b, p, q);
    Wrapped(b, p, q);
    BothWays(b, shift);
    w := b / p + b * q % 0x1_0000;
  }

  lemma TwoParts(b: Word, p: nat, q: nat)
    requires p > 0 && q > 0 && p * q == 0x1_0000
    ensures b * q % 0x1_0000 == b % p * q && 0 <= b / p < q
  {
    var (h, r) := (b / p, b % p);
    assert b == h * p + r;
    Arith.Distribute(q, h * p, r);
    Arith.Rearrange(h, p, q);
    BarrelShifter.Below(b, p, q);
    BarrelShifter.DigitBelow(r, p, 0, q);
    Arith.MulNat(r, q);
    Arith.DivModIs(b * q, 0x1_0000, h, r * q);
    Arith.DivShrinks(b, p);
  }

  lemma Wrapped(b: Word, p: nat, q: nat)
    requires p > 0 && q > 0 && p * q == 0x1_0000
    ensures 0 <= b / p + b * q % 0x1_0000 < 0x1_0000
  {
    TwoParts(b, p, q);
    BarrelShifter.DigitBelow(b % p, p, b / p, q);
    Arith.MulNat(b % p, q);
  }

  lemma BothWays(b: Word, shift: Shift)
    ensures Shifted(false, shift, b, b) == b / Pow2(shift) + b * Pow2(16 - shift) % 0x1_0000
  {
    BarrelShifter.Halves(shift);
    TurnedPair(b, Pow2(shift), Pow2(16 - shift));
  }

  lemma TurnedPair(b: Word, p: nat, q: nat)
    requires p > 0 && q > 0 && p * q == 0x1_0000
    ensures (b * 0x1_0000 + b) / p % 0x1_0000 == b / p + b * q % 0x1_0000
  {
    TwoParts(b, p, q);
    BarrelShifter.AscendingDigit(p, q, 0x1_0000, b, b);
    var (h, r) := (b / p, b % p);
    assert b == h * p + r;
    Together(b, h, r, p, q);
  }

  lemma Together(b: nat, h: nat, r: nat, p: nat, q: nat)
    requires p > 0 && p * q == 0x1_0000 && r < p && b == h * p + r
    ensures (r * 0x1_0000 + b) / p == h + r * q
  {
    Arith.Rearrange(r, p, q);
    Arith.Distribute(p, r * q, h);
    assert r * 0x1_0000 + b == (r * q + h) * p + r;
    Arith.DivModIs(r * 0x1_0000 + b, p, r * q + h, r);
  }

  class Chip {
    const mem: array<Word>
    var setup: LineSetup
    var cur: Cursor
    var pen: PenState
    var vblitsize: nat
    var cyc: int
    var final: bool
    var wait: bool
    var done: bool

    ghost function Line(): Line
      reads this, mem
      requires mem.Length > 0
    {
      LineModel.Line(mem[..], cur.apt, cur.cpt, cur.dpt, pen.cdat, pen.ddat, cur.shift, cur.sign,
                     pen.onedot, pen.linepixel, pen.blineb, pen.zero, pen.ddat1use, vblitsize)
    }

    ghost function Drawer(): Drawer
      reads this, mem
      requires mem.Length > 0
    {
      LinePipe.Drawer(Line(), cyc, final, wait, done)
    }

    constructor (words: array<Word>, s: LineSetup, c: Cursor, p: PenState, v: nat)
      requires words.Length > 0
      ensures mem == words && setup == s && cur == c && pen == p && vblitsize == v
    {
      mem := words;
      setup, cur, pen, vblitsize := s, c, p, v;
      cyc, final, wait, done := 0, false, false, true;
    }

    /** blitter_start_init, in line mode: the texture is the B data register turned right by the B shift. */
    method Start(con0: Word, con1: Word, afwm: Word, adat: Word, bdat: Word, amod: int, bmod: int, cmod: int)
      requires mem.Length > 0
      modifies this`setup, this`pen
      ensures setup == DecodeLine(con0, con1, afwm, adat, amod, bmod, cmod)
      ensures Line() == old(Line()).(dotted := false, pixel := false, used := false, zero := true,
                                     pattern := Shifted(false, con1 / 0x1000, bdat, bdat))
    {
      hide Shifted, Pow2;
      setup := DecodeLine(con0, con1, afwm, adat, amod, bmod, cmod);
      var turned := Turned(bdat, con1 / 0x1000);
      pen := pen.(onedot := false, linepixel := false, ddat1use := false, zero := true, blineb := turned);
    }

    method IncX()
      requires mem.Length > 0
      modifies this`cur
      ensures Line() == LineModel.IncX(old(Line()))
    {
      if cur.shift == 15 {
        cur := cur.(shift := 0, cpt := Wrap(cur.cpt + 2));
      } else {
        cur := cur.(shift := cur.shift + 1);
      }
    }

    method DecX()
      requires mem.Length > 0
      modifies this`cur
      ensures Line() == LineModel.DecX(old(Line()))
    {
      if cur.shift == 0 {
        cur := cur.(shift := 15, cpt := Wrap(cur.cpt - 2));
      } else {
        cur := cur.(shift := cur.shift - 1);
      }
    }

    method IncY()
      requires mem.Length > 0
      modifies this`cur, this`pen
      ensures Line() == LineModel.IncY(setup, old(Line()))
    {
      cur := cur.(cpt := Wrap(cur.cpt + setup.cmod));
      pen := pen.(onedot := false);
    }

    method DecY()
      requires mem.Length > 0
      modifies this`cur, this`pen
      ensures Line() == LineModel.DecY(setup, old(Line()))
    {
      cur := cur.(cpt := Wrap(cur.cpt - setup.cmod));
      pen := pen.(onedot := false);
    }

    method Move(alongX: bool, back: bool)
      requires mem.Length > 0
      modifies this`cur, this`pen
      ensures Line() == MoveAlong(setup, old(Line()), alongX, back)
    {
      if alongX {
        if back {
          DecX();
        } else {
          IncX();
        }
      } else if back {
        DecY();
      } else {
        IncY();
      }
    }

    /** blitter_line_proc */
    method Proc()
      requires mem.Length > 0
      modifies this`cur, this`pen
      ensures Line() == LineProc(setup, old(Line()))
    {
      hide MoveAlong, Signed16, LineError;
      var sign := cur.sign;
      AddError();
      ghost var l1 := Line();
      var apt := cur.apt;
      if !sign {
        Move(!setup.sud, setup.sul);
      }
      Move(setup.sud, setup.aul);
      ghost var l3 := Line();
      cur := cur.(sign := Signed16(apt) < 0);
      assert Line() == l3.(sign := Signed16(apt) < 0);
    }

    method AddError()
      requires mem.Length > 0
      modifies this`cur
      ensures Line() == LineError(setup, old(Line())) && cur.sign == old(cur.sign)
    {
      hide Wrap;
      if setup.useA {
        cur := cur.(apt := Wrap(cur.apt + if cur.sign then setup.bmod else setup.amod));
      }
    }

    /** blitter_read */
    method ReadC()
      requires mem.Length > 0
      modifies this`pen
      ensures Line() == LineRead(setup, old(Line()))
    {
      if setup.useC {
        pen := pen.(cdat := mem[cur.cpt / 2 % mem.Length]);
      }
    }

    /** blitter_line, blitter_line_proc and blitter_nxline */
    method Work()
      requires mem.Length > 0
      modifies this`cur, this`pen, this`vblitsize
      ensures Line() == LineWork(setup, old(Line()))
    {
      hide LineProc, LinePixel, Rotate;
      var b := pen.blineb;
      NextPixel();
      Proc();
      pen := pen.(blineb := Rotate(b));
      vblitsize := if vblitsize > 0 then vblitsize - 1 else 0;
    }

    /** The D pointer follows the C pointer, one pixel late; blitter_line computes the word. */
    method NextPixel()
      requires mem.Length > 0
      modifies this`cur, this`pen
      ensures var l := old(Line());
              Line() == LinePixel(setup, if l.used then l.(dpt := l.cpt) else l.(used := true))
    {
      hide BlitFunc, Pen;
      if pen.ddat1use {
        cur := cur.(dpt := cur.cpt);
      }
      pen := pen.(ddat1use := true, linepixel := !setup.sing || !pen.onedot, onedot := true,
                  ddat := BlitFunc(Pen(setup, cur.shift), Texel(pen.blineb), pen.cdat, setup.mt));
    }

    /** blitter_write, skipped when no pixel is due */
    method WriteD()
      requires mem.Length > 0
      modifies this`pen, mem
      ensures Line() == LineWrite(setup, old(Line()))
    {
      if pen.linepixel {
        if setup.useC {
          mem[cur.dpt / 2 % mem.Length] := pen.ddat;
        }
        pen := pen.(linepixel := false, zero := pen.zero && pen.ddat == 0);
      }
    }

    /** actually_do_blit in line mode: pixel after pixel until the count is used up. */
    method ActuallyDoLine()
      requires mem.Length > 0 && vblitsize > 0
      modifies this`cur, this`pen, this`vblitsize, mem
      ensures Line() == DrawLine(setup, old(Line()))
      ensures forall t: LineDraw.Slope | LineDraw.Aims(setup, t, old(Line())) ::
                mem[..] == LineDraw.Plot(setup, t, old(mem[..]), old(cur.cpt), old(cur.shift), old(pen.blineb), old(vblitsize))
      ensures pen.zero <==> LineDraw.Unmarked(setup, old(Line()), old(vblitsize))
    {
      hide LineRead, LineWork, LineWrite, LineDraw.Plot, LineDraw.Unmarked;
      ghost var l, s := Line(), setup;
      ghost var n := 0;
      while true
        invariant setup == s && n < l.left && vblitsize == l.left - n
        invariant Line() == LineSteps(s, l, n)
        decreases vblitsize
      {
        StepCountsDown(s, Line());
        ReadC();
        Work();
        WriteD();
        n := n + 1;
        assert Line() == LineSteps(s, l, n);
        if vblitsize == 0 {
          break;
        }
      }
      cur := cur.(dpt := cur.cpt);
      forall t: LineDraw.Slope | LineDraw.Aims(s, t, l) {
        LineDraw.LineIsNearest(s, t, l);
      }
      LineDraw.WholeLineFlag(s, l);
    }

    /** decide_blitter_line: one bus slot. */
    method OneSlot(slot: BusSlot)
      requires mem.Length > 0
      modifies this`cur, this`pen, this`vblitsize, this`cyc, this`final, this`wait, this`done, mem
      ensures Drawer() == LineTick(setup, old(Drawer()), slot)
    {
      hide LineRead, LineWork, LineWrite;
      if done {
        return;
      }
      if wait {
        wait := false;
      } else if final {
        cyc := cyc + 1;
        if cyc >= 2 {
          done := true;
        }
      } else if slot == Free {
        var c := ChannelState(LINE_DIAGRAM, cyc);
        cyc := cyc + 1;
        if c == 3 {
          ReadC();
        } else if c == 5 {
          Work();
        } else if c == 4 {
          WriteD();
          if vblitsize == 0 {
            cur := cur.(dpt := cur.cpt);
            final := true;
            cyc := 0;
          }
        }
      }
    }

    method DecideLine(slots: seq<BusSlot>)
      requires mem.Length > 0
      modifies this`cur, this`pen, this`vblitsize, this`cyc, this`final, this`wait, this`done, mem
      ensures Drawer() == LineRun(setup, old(Drawer()), slots)
    {
      hide LineTick;
      var i := 0;
      while i < |slots|
        invariant 0 <= i <= |slots| && setup == old(setup)
        invariant LineRun(setup, Drawer(), slots[i..]) == LineRun(setup, old(Drawer()), slots)
      {
        assert slots[i..][0] == slots[i] && slots[i..][1..] == slots[i + 1..];
        OneSlot(slots[i]);
        i := i + 1;
      }
    }

    /** The cycle-exact line over the given slots. */
    method ExactLine(copper: bool, slots: seq<BusSlot>)
      requires mem.Length > 0 && vblitsize > 0
      modifies this`cur, this`pen, this`vblitsize, this`cyc, this`final, this`wait, this`done, mem
      ensures done ==> Line() == DrawLine(setup, old(Line())) && (pen.zero <==> LineDraw.Unmarked(setup, old(Line()), old(vblitsize)))
      ensures FreeSlots(slots) >= (if copper then 1 else 0) + 4 + 4 * old(vblitsize) ==> done
      ensures done ==> FreeSlots(slots) >= 2 + 4 * old(vblitsize)
    {
      hide LineRun, DrawLine, FreeSlots, LineDraw.Unmarked;
      cyc, final, wait, done := -2, false, copper, false;
      ghost var l, s := Line(), setup;
      DecideLine(slots);
      LineMachinesAgree(s, l, copper, slots);
      LineDraw.WholeLineFlag(s, l);
    }
  }
}
