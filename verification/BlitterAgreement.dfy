/** The two blitters agree, and exactly where they do not. */
module BlitterAgreement {
  import opened Words
  import opened Arith
  import opened Bits
  import opened BlitterModel
  import opened BlitterPipe
  import opened PipeRefines
  import opened PipeRuns
  import opened SourcelessBlits
  import FastRefines
  import LineDraw

  /** Free slots that suffice: start-up, every cycle of every pass, the last store. */
  function Budget(s: Setup, copper: bool): nat {
    (if copper then 1 else 0) + 2 + Rate(s) * s.Words() + 2
  }

  /** Safety and progress of the cycle-exact machine under every bus schedule: what it leaves when done, that the interrupt
      has been raised by then, how many free slots are enough, and that it takes one for each of its channel cycles and
      two to start. A blit that stores takes no fewer slots in all than suffice if they are free. */
  lemma ExactComputesReference(s: Setup, p0: Pointers, c0: Core, copper: bool, stale: Leftover, slots: seq<BusSlot>)
    requires s.Sized() && HasChannels(s)
    ensures var p := Run(s, StartPipe(s, p0, c0, copper, stale), slots);
            && (p.done ==> Result(p) == Blitted(s, p0, c0, Fetching(s)) && p.fetched == 0 && p.irq)
            && (p.done ==> FreeSlots(slots) >= 2 + Cycles(s) * s.Words())
            && (p.done && s.useD ==> |slots| >= Budget(s, copper))
            && (FreeSlots(slots) >= Budget(s, copper) ==> p.done)
  {
    hide Blitted, Result, Tick, Ready, InPass, Solo, BlitDiagram;
    var start := StartPipe(s, p0, c0, copper, stale);
    assert In(s, p0, c0, start, Warm(2));
    var st := RunKeeps(s, p0, c0, start, Warm(2), slots);
    var p := Run(s, start, slots);
    if st != Ended {
      DoneOnlyAtEnd(s, p0, c0, p, st);
    }
  }

  lemma DoneOnlyAtEnd(s: Setup, p0: Pointers, c0: Core, p: Pipe, st: Stage)
    requires s.Sized() && HasChannels(s) && In(s, p0, c0, p, st) && st != Ended
    ensures !p.done
  {
    hide InPass, Solo, BlitDiagram;
    if st.Pass? {
      PassCounts(s, p0, c0, p, st.k, st.pos);
    }
  }

  /** A copper start costs exactly one slot, of whatever kind, before the blit begins. */
  lemma CopperWaits(s: Setup, p0: Pointers, c0: Core, stale: Leftover, slots: seq<BusSlot>)
    requires s.Sized() && slots != []
    ensures Run(s, StartPipe(s, p0, c0, true, stale), slots) == Run(s, StartPipe(s, p0, c0, false, stale), slots[1..])
  {
    hide BlitDiagram, FetchCount, Stalls;
    DiagramCounts(s);
    var p := StartPipe(s, p0, c0, true, stale);
    assert ChannelPos(BlitDiagram(s), p.cyc - 1) == 0;
    assert Tick(s, p, slots[0]) == StartPipe(s, p0, c0, false, stale);
  }

  /** The interrupt means that at most the very last store is still to come. */
  lemma InterruptMeans(s: Setup, p0: Pointers, c0: Core, copper: bool, stale: Leftover, slots: seq<BusSlot>)
    requires s.Sized() && HasChannels(s)
    ensures var p := Run(s, StartPipe(s, p0, c0, copper, stale), slots);
            p.irq ==> Result(if p.done then p else DoDDma(s, p)) == Blitted(s, p0, c0, Fetching(s))
  {
    hide Blitted, Result, Tick, Ready, InPass, Solo, BlitDiagram, DoDDma;
    var start := StartPipe(s, p0, c0, copper, stale);
    assert In(s, p0, c0, start, Warm(2));
    var st := RunKeeps(s, p0, c0, start, Warm(2), slots);
    var p := Run(s, start, slots);
    if st.Tail? {
      StoreControl(s, p);
      if Fetching(s) {
        EndsWithStore(s, p0, c0, p.(final := false));
        FinalIgnored(DoDDma(s, p), 0);
      } else {
        SoloStores(s, p0, c0, p, LastWord(s));
        SoloEnds(s, p0, c0, DoDDma(s, p));
      }
    }
  }

  /** Reloading the fill carry on each row changes nothing without fill, or with a single row. */
  lemma CarryReloadIrrelevant(s: Setup, p: Pointers, c: Core)
    requires s.Sized() && (!s.fill || s.v == 1)
    ensures Blitted(s, p, c, false) == Blitted(s, p, c, true)
  {
    hide After, At, Write;
    if s.fill {
      SameWithinRow(s, p, c, s.Words());
    } else {
      SameWithoutFill(s, p, c, s.Words());
    }
  }

  lemma {:induction false} SameWithoutFill(s: Setup, p: Pointers, c: Core, k: nat)
    requires s.Sized() && !s.fill
    ensures After(s, p, c, false, k) == After(s, p, c, true, k)
    ensures After(s, p, c, true, k).core.fc == s.carryIn
  {
    hide BlitFunc, Shifted, Masked, Flush, At, Read;
    if k > 0 {
      SameWithoutFill(s, p, c, k - 1);
    }
  }

  lemma {:induction false} SameWithinRow(s: Setup, p: Pointers, c: Core, k: nat)
    requires s.Sized() && s.v == 1 && k <= s.Words()
    ensures var a, b := After(s, p, c, false, k), After(s, p, c, true, k);
            a.word == b.word && a.core == b.core.(fc := a.core.fc) && (k < s.Words() ==> a == b)
  {
    hide DoBlit, Loaded;
    if k > 0 {
      SameWithinRow(s, p, c, k - 1);
      if k < s.h {
        DivModIs(k, s.h, 0, k);
      }
    }
  }

  /** The condition under which the two machines agree, from the registers, the pointers and the size of memory alone:
      the blit fetches something, or what its fill carries from row to row does not show in what it leaves. */
  ghost predicate Agreeable(s: Setup, p0: Pointers, c0: Core)
    requires s.Sized()
  {
    Fetching(s) || SameAnyway(s, p0, c0)
  }

  lemma AgreeableIff(s: Setup, p0: Pointers, c0: Core)
    requires s.Sized() && HasChannels(s)
    ensures Blitted(s, p0, c0, Fetching(s)) == Blitted(s, p0, c0, true) <==> Agreeable(s, p0, c0)
  {
    hide Blitted, SameAnyway;
    if !Fetching(s) {
      ReloadIff(s, p0, c0);
    }
  }

  /** Main theorem. Whatever the bus does, once it has granted enough free slots the cycle-exact blit is over. It has
      left the memory, pointers, zero flag and data registers the fast blit leaves, overlapping areas included, if and
      only if the condition holds. */
  lemma MachinesAgree(s: Setup, p0: Pointers, c0: Core, ddat: Word, copper: bool, stale: Leftover, slots: seq<BusSlot>)
    requires s.Sized() && HasChannels(s) && FastRefines.NeverZero(s, p0)
    requires FreeSlots(slots) >= Budget(s, copper)
    ensures var p := Run(s, StartPipe(s, p0, c0, copper, stale), slots);
            p.done && (Result(p) == FastBlit(s, p0, c0, ddat) <==> Agreeable(s, p0, c0))
  {
    hide Blitted, Result, Run, FastBlit, Budget, FreeSlots, StartPipe, FastRefines.NeverZero, Agreeable;
    ExactComputesReference(s, p0, c0, copper, stale, slots);
    FastRefines.FastIsReference(s, p0, c0, ddat);
    AgreeableIff(s, p0, c0);
  }

  /** The cases a caller sees at once: source channels, no fill, a single row, or, where no two words share a place,
      rows the fill leaves with the carry it started with. */
  lemma AgreeableCases(s: Setup, p0: Pointers, c0: Core)
    requires s.Sized() && HasChannels(s)
    ensures Fetching(s) || !s.fill || s.v == 1 ==> Agreeable(s, p0, c0)
    ensures !Fetching(s) && TargetsDistinct(s, p0, |c0.mem|) ==> (Agreeable(s, p0, c0) <==> CarryHarmless(s, c0))
  {
    hide Blitted, SameAnyway, CarryHarmless, TargetsDistinct;
    AgreeableIff(s, p0, c0);
    if !Fetching(s) {
      if !s.fill || s.v == 1 {
        CarryReloadIrrelevant(s, p0, c0);
      }
      if TargetsDistinct(s, p0, |c0.mem|) {
        ReloadIffDistinct(s, p0, c0);
      }
    }
  }

  // ----- schedules without end -----

  function Prefix(sched: nat -> BusSlot, n: nat): seq<BusSlot> {
    seq(n, i requires 0 <= i => sched(i))
  }

  ghost predicate FreeAgain(sched: nat -> BusSlot, n: nat) {
    exists m: nat :: m >= n && sched(m) == Free
  }

  /** The bus is free infinitely often. */
  ghost predicate Fair(sched: nat -> BusSlot) {
    forall n: nat :: FreeAgain(sched, n)
  }

  lemma {:induction false} FreeSlotsAppend(a: seq<BusSlot>, b: seq<BusSlot>)
    ensures FreeSlots(a + b) == FreeSlots(a) + FreeSlots(b)
  {
    if a == [] {
      assert a + b == b;
    } else {
      assert (a + b)[1..] == a[1..] + b;
      FreeSlotsAppend(a[1..], b);
    }
  }

  lemma PrefixOne(sched: nat -> BusSlot, n: nat)
    ensures FreeSlots(Prefix(sched, n + 1)) == FreeSlots(Prefix(sched, n)) + if sched(n) == Free then 1 else 0
  {
    assert Prefix(sched, n + 1) == Prefix(sched, n) + [sched(n)];
    FreeSlotsAppend(Prefix(sched, n), [sched(n)]);
    assert [sched(n)][1..] == [];
  }

  lemma {:induction false} PrefixGrows(sched: nat -> BusSlot, m: nat, n: nat)
    requires m <= n
    ensures FreeSlots(Prefix(sched, m)) <= FreeSlots(Prefix(sched, n))
    decreases n
  {
    hide Prefix, FreeSlots;
    if m < n {
      PrefixGrows(sched, m, n - 1);
      PrefixOne(sched, n - 1);
    }
  }

  lemma {:induction false} FairReaches(sched: nat -> BusSlot, want: nat) returns (n: nat)
    requires Fair(sched)
    ensures FreeSlots(Prefix(sched, n)) >= want
  {
    hide Prefix, FreeSlots;
    if want == 0 {
      return 0;
    }
    var m := FairReaches(sched, want - 1);
    assert FreeAgain(sched, m);
    var t: nat :| t >= m && sched(t) == Free;
    PrefixGrows(sched, m, t);
    PrefixOne(sched, t);
    n := t + 1;
  }

  /** On a bus that is free again and again, forever, every blit comes to its end, and agrees with the
      fast one exactly under the same condition. */
  lemma FairBlitsAgree(s: Setup, p0: Pointers, c0: Core, ddat: Word, copper: bool, stale: Leftover, sched: nat -> BusSlot)
    returns (n: nat)
    requires s.Sized() && HasChannels(s) && FastRefines.NeverZero(s, p0) && Fair(sched)
    ensures var p := Run(s, StartPipe(s, p0, c0, copper, stale), Prefix(sched, n));
            p.done && (Result(p) == FastBlit(s, p0, c0, ddat) <==> Agreeable(s, p0, c0))
  {
    hide Run, FastBlit, Result, FastRefines.NeverZero, Prefix, Agreeable;
    n := FairReaches(sched, Budget(s, copper));
    MachinesAgree(s, p0, c0, ddat, copper, stale, Prefix(sched, n));
  }

  // ----- blits without channels -----

  predicate Untouched(s: Setup, p0: Pointers, c0: Core, p: Pipe) {
    p.core == StartPipe(s, p0, c0, false, Leftover(false, 0, 0)).core && p.ptrs == p0 && p.v1 == 0 && p.h1 == 0 && (p.cyc < 0 ==> !p.done)
  }

  function IdleLeft(s: Setup, p: Pipe): int {
    if p.done then 0 else
    (if p.wait then 1 else 0) + s.Words() + 2 - p.cyc + if p.final && p.cyc >= 0 then 0 else 2
  }

  ghost predicate Idling(s: Setup, p0: Pointers, c0: Core, p: Pipe) {
    && Untouched(s, p0, c0, p)
    && (p.done || p.cyc <= s.Words() + 1)
    && (p.cyc >= 2 ==> p.final || s.v > 1 || s.h > 1)
  }

  lemma AlwaysIdle(s: Setup, p: Pipe)
    requires !HasChannels(s)
    ensures NextChannel(s, p) == 0 && Channels(s) == 0
  {
    assert BlitDiagram(s) == Diagram([0, 0], [0, 0]);
    assert FinalDiagram(s) == Diagram([0, 0], [0, 0]);
    assert p.cyc >= 2 ==> (p.cyc - 2) % 2 < 2;
  }

  lemma IdlePos(s: Setup, cyc: int)
    requires !HasChannels(s)
    ensures Rate(s) == 2 && (cyc == 1 ==> ChannelPos(BlitDiagram(s), cyc) == 1)
  {
    assert BlitDiagram(s) == Diagram([0, 0], [0, 0]);
  }

  lemma IdleTick(s: Setup, p0: Pointers, c0: Core, p: Pipe, slot: BusSlot)
    requires s.Sized() && !HasChannels(s) && Idling(s, p0, c0, p)
    ensures var q := Tick(s, p, slot);
            Idling(s, p0, c0, q) && IdleLeft(s, q) <= IdleLeft(s, p) && (slot == Free ==> q.done || IdleLeft(s, q) < IdleLeft(s, p))
    ensures IdleLeft(s, p) >= 0
  {
    hide StartPipe, DmaCycle, FetchCount, BlitDiagram, FinalDiagram, ChannelState, ChannelPos;
    DiagramCounts(s);
    AlwaysIdle(s, p);
    IdlePos(s, p.cyc);
  }

  lemma {:induction false} IdleRun(s: Setup, p0: Pointers, c0: Core, p: Pipe, slots: seq<BusSlot>)
    requires s.Sized() && !HasChannels(s) && Idling(s, p0, c0, p)
    ensures Untouched(s, p0, c0, Run(s, p, slots))
    ensures FreeSlots(slots) >= IdleLeft(s, p) ==> Run(s, p, slots).done
    decreases |slots|
  {
    hide Tick, StartPipe;
    if slots != [] {
      IdleTick(s, p0, c0, p, slots[0]);
      IdleRun(s, p0, c0, Tick(s, p, slots[0]), slots[1..]);
    } else if !p.done {
      IdleTick(s, p0, c0, p, Off);
    }
  }

  /** With every channel off nothing is stored by either machine, but the cycle-exact one never computes a word: they
      agree if and only if every word, filled as the registers say, is zero. */
  lemma NoChannelBlit(s: Setup, p0: Pointers, c0: Core, ddat: Word, copper: bool, stale: Leftover, slots: seq<BusSlot>)
    requires s.Sized() && !HasChannels(s)
    requires FreeSlots(slots) >= s.Words() + 7
    ensures var p := Run(s, StartPipe(s, p0, c0, copper, stale), slots);
            && p.done && Result(p) == FastBlit(s, p0, c0, ddat).(zero := true)
            && (Result(p) == FastBlit(s, p0, c0, ddat) <==> AllClear(s, c0, true))
  {
    hide Run, FastBlit, AllClear;
    IdleRun(s, p0, c0, StartPipe(s, p0, c0, copper, stale), slots);
    FastRefines.FastIsReference(s, p0, c0, ddat);
    SourcesKept(s, p0, c0, true, s.Words());
    ZeroFlagIff(s, p0, c0, true);
  }

  // ----- blits on which the machines disagree -----

  lemma OddRowsOfC(i: nat)
    requires i < 8
    ensures Bit(0xAA, i) == (i % 2 == 1)
  {
    assert !Bit(0xAA, 0) && Bit(0xAA, 1) && !Bit(0xAA, 2) && Bit(0xAA, 3);
    assert !Bit(0xAA, 4) && Bit(0xAA, 5) && !Bit(0xAA, 6) && Bit(0xAA, 7);
  }

  lemma {:induction false} MintermC(n: nat, a: nat, b: nat, c: nat)
    requires c < Pow2(n)
    ensures Minterms(n, a, b, c, 0xAA) == c
  {
    if n > 0 {
      hide Bit, Minterms;
      OddRowsOfC(a % 2 * 4 + b % 2 * 2 + c % 2);
      MintermC(n - 1, a / 2, b / 2, c / 2);
      LineDraw.MintermsStep(n, a, b, c, 0xAA);
    }
  }

  lemma BlitFuncC(a: Word, b: Word, c: Word)
    ensures BlitFunc(a, b, c, 0xAA) == c
  {
    Pow2Values();
    MintermC(WORD_BITS, a, b, c);
  }

  /** One column of `rows` words, each a copy of the C data register. */
  function CopyC(useC: bool, useD: bool, fill: bool, rows: nat): Setup {
    Setup(false, false, useC, useD, 0xAA, 0, 0, false, false, fill, fill, 0, 0, 1, rows, 0, 0, 0, 0)
  }

  lemma CopyCWord(s: Setup, c: Core, first: bool)
    requires s.Sized() && s.mt == 0xAA
    ensures RowWord(s, c, first, 0) == c.cdat
  {
    hide BlitFunc, Shifted, Masked;
    var prev := if first then 0 else Masked(s, c.adat, s.h - 1);
    BlitFuncC(Shifted(s.desc, s.ashift, prev, Masked(s, c.adat, 0)), c.bhold, c.cdat);
  }

  lemma OneEdge()
    ensures Odd(WordEdges(2))
  {
    ZeroIsBlank(14);
    BlankEdges(14);
    var n := 14;
    assert ToBits(2, n + 2)[1..] == ToBits(1, n + 1);
    assert ToBits(1, n + 1)[1..] == ToBits(0, n);
  }

  lemma OneWordRow(s: Setup, c: Core, first: bool)
    requires s.h == 1 && s.Sized()
    ensures RowEdges(s, c, first, 1) == WordEdges(RowWord(s, c, first, 0))
  {
    hide RowWord, WordEdges;
    assert RowEdges(s, c, first, 0) == 0;
  }

  const TWO_ROWS: Setup := CopyC(false, true, true, 2)
  const TWO_ROWS_AT: Pointers := Pointers(0, 0, 0, 2)
  const ONE_EDGE: Core := Core([0, 0, 0, 0], 0, 2, 0, 0, 0, false, true)

  lemma TwoRowsPointer(j: nat, i: nat)
    requires j < 2 && i <= 1
    ensures FastRefines.Inside(TWO_ROWS, 2, 0, j, i) == 2 + 2 * (j + i)
  {
    assert FastRefines.WordNo(TWO_ROWS, j, i) == j + i;
  }

  lemma TwoRowsPlaced()
    ensures FastRefines.NeverZero(TWO_ROWS, TWO_ROWS_AT) && TargetsDistinct(TWO_ROWS, TWO_ROWS_AT, 4)
  {
    hide FastRefines.Inside, At;
    forall j: nat, i: nat | j < 2 && i <= 1
      ensures FastRefines.Inside(TWO_ROWS, 2, 0, j, i) != 0
    {
      TwoRowsPointer(j, i);
    }
    TwoRowsAt(0);
    TwoRowsAt(1);
  }

  lemma TwoRowsAt(k: nat)
    requires k < 2
    ensures At(TWO_ROWS, 2, 0, k) == 2 + 2 * k
  {
    assert k / TWO_ROWS.h == k;
  }

  lemma TwoRowsSlip()
    ensures !CarryHarmless(TWO_ROWS, ONE_EDGE)
  {
    hide RowWord, RowEdges, WordEdges, Odd;
    CopyCWord(TWO_ROWS, ONE_EDGE, true);
    CopyCWord(TWO_ROWS, ONE_EDGE, false);
    OneWordRow(TWO_ROWS, ONE_EDGE, true);
    OneEdge();
  }

  /** A D-only inclusive fill of two one-word rows, each with a single edge in it: the fast blit starts the second row
      with a clear carry, the cycle-exact one with the carry the first row left. Whatever the bus does, the two blits
      leave different results. */
  lemma DOnlyFillDisagrees(ddat: Word, copper: bool, stale: Leftover, slots: seq<BusSlot>)
    requires FreeSlots(slots) >= 11
    ensures var p := Run(TWO_ROWS, StartPipe(TWO_ROWS, TWO_ROWS_AT, ONE_EDGE, copper, stale), slots);
            p.done && Result(p) != FastBlit(TWO_ROWS, TWO_ROWS_AT, ONE_EDGE, ddat)
  {
    hide Run, FastBlit, Agreeable, FreeSlots, CarryHarmless, FastRefines.NeverZero, TargetsDistinct;
    TwoRowsPlaced();
    TwoRowsSlip();
    AgreeableCases(TWO_ROWS, TWO_ROWS_AT, ONE_EDGE);
    MachinesAgree(TWO_ROWS, TWO_ROWS_AT, ONE_EDGE, ddat, copper, stale, slots);
  }

  /** A blit without channels whose minterms are all ones in C: the fast machine clears the zero flag, the cycle-exact
      one keeps it. */
  lemma NoChannelDisagrees(ddat: Word, copper: bool, stale: Leftover, slots: seq<BusSlot>)
    requires FreeSlots(slots) >= 8
    ensures var (s, p0) := (CopyC(false, false, false, 1), Pointers(0, 0, 0, 0));
            var c0 := Core([0], 0, 1, 0, 0, 0, false, true);
            var p := Run(s, StartPipe(s, p0, c0, copper, stale), slots);
            p.done && Result(p).zero && !FastBlit(s, p0, c0, ddat).zero
  {
    hide Run, FastBlit, RowWord, FreeSlots;
    var (s, p0) := (CopyC(false, false, false, 1), Pointers(0, 0, 0, 0));
    var c0 := Core([0], 0, 1, 0, 0, 0, false, true);
    CopyCWord(s, c0, true);
    assert !AllClear(s, c0, true);
    NoChannelBlit(s, p0, c0, ddat, copper, stale, slots);
  }

  const ONE_WORD: Setup := CopyC(true, true, false, 1)
  const FROM_ZERO: Pointers := Pointers(0, 0, 0, 2)
  const STALE_C: Core := Core([5, 0], 0, 1, 0, 0, 0, false, true)

  lemma CopyFast(ddat: Word)
    ensures FastBlit(ONE_WORD, FROM_ZERO, STALE_C, ddat).mem == [5, 1]
  {
    hide BlitFunc, Shifted, Masked;
    var (s, p0, c0) := (ONE_WORD, FROM_ZERO, STALE_C);
    var f0 := FastStart(s, p0, c0, ddat);
    var f1 := RowStart(s, FastRows(s, f0, 0));
    var f2 := FastWords(s, f1, 1);
    assert FastWords(s, f1, 0) == f1;
    assert f1.ptrs.c == 0 && f1.core.cdat == 1;
    var prev := Shifted(s.desc, s.ashift, f1.core.preva, Masked(s, f1.core.adat, 0));
    BlitFuncC(prev, f1.core.bhold, 1);
    assert f2.word == 1 && f2.dst == 2 && f2.store && f2.core.mem == [5, 0];
    assert FastRows(s, f0, 1) == RowEnd(s, f2);
  }

  lemma CopyExact()
    ensures Blitted(ONE_WORD, FROM_ZERO, STALE_C, true).mem == [5, 5]
  {
    hide BlitFunc, Shifted, Masked;
    var (s, p0, c0) := (ONE_WORD, FROM_ZERO, STALE_C);
    var w0 := After(s, p0, c0, true, 0);
    var l := Loaded(s, p0, w0, 0);
    assert At(s, p0.c, 0, 0) == 0 && At(s, p0.d, 0, 0) == 2;
    assert l.cdat == 5 && l.mem == [5, 0];
    var prev := Shifted(s.desc, s.ashift, l.preva, Masked(s, l.adat, 0));
    BlitFuncC(prev, l.bhold, 5);
    var w1 := After(s, p0, c0, true, 1);
    assert w1.word == 5 && w1.core.mem == [5, 0];
  }

  /** A copy from address 0: the fast machine takes the pointer for a channel that is off and stores the stale C word,
      the cycle-exact one fetches. */
  lemma ZeroPointerDisagrees(ddat: Word, copper: bool, stale: Leftover, slots: seq<BusSlot>)
    requires FreeSlots(slots) >= 8
    ensures var p := Run(ONE_WORD, StartPipe(ONE_WORD, FROM_ZERO, STALE_C, copper, stale), slots);
            p.done && Result(p).mem == [5, 5] && FastBlit(ONE_WORD, FROM_ZERO, STALE_C, ddat).mem == [5, 1]
  {
    hide Run, FastBlit, Blitted, FreeSlots;
    ExactComputesReference(ONE_WORD, FROM_ZERO, STALE_C, copper, stale, slots);
    CopyExact();
    CopyFast(ddat);
  }
}
