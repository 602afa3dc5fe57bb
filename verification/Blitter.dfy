/** The blitter itself: its registers, the fast word loops, and the cycle-exact steps, in place. */
module Blitter {
  import opened Words
  import opened AreaFill
  import opened BlitterModel
  import opened BlitterPipe
  import FastRefines
  import PipeRefines
  import PipeRuns
  import BusSlots
  import BlitterAgreement

  /** The data registers of struct bltinfo. */
  datatype BltInfo = BltInfo(bltadat: Word, bltcdat: Word, bltddat: Word, bltbhold: Word, blitzero: bool)

  /** The words before in the shifters, and the fill carry. */
  datatype Hold = Hold(preva: Word, prevb: Word, blitfc: bool)

  /** Counters and flags of the cycle-exact machine. */
  datatype Sequencer = Sequencer(ddat1: Word, ddat2: Word, ddat1use: bool, ddat2use: bool, hcounter1: nat, hcounter2: nat,
                                 vcounter1: nat, vcounter2: nat, cyc: int, cyclecounter: nat,
                                 final: bool, wait: bool, done: bool, irq: bool)

  function CoreOf(m: ChipMem, i: BltInfo, h: Hold): Core {
    Core(m, i.bltadat, i.bltcdat, i.bltbhold, h.preva, h.prevb, h.blitfc, i.blitzero)
  }

  class Chip {
    const mem: array<Word>
    const filltable: array2<Entry>
    var setup: Setup
    var info: BltInfo
    var pt: Pointers
    var hold: Hold
    var sq: Sequencer
    var dmacount2: nat
    var nod: bool

    ghost predicate Valid()
      reads this, mem, filltable
    {
      mem.Length > 0 && IsFillTable(filltable)
    }

    /** Valid, and the derived registers match the setup. */
    ghost predicate Ready()
      reads this, mem, filltable
    {
      Valid() && setup.Sized() && dmacount2 == FetchCount(setup) && nod == !setup.useD
    }

    ghost function Core(): Core
      reads this, mem
      requires mem.Length > 0
    {
      CoreOf(mem[..], info, hold)
    }

    ghost function State(): Pipe
      reads this, mem
      requires mem.Length > 0
    {
      Pipe(Core(), pt, sq.ddat1, sq.ddat2, sq.ddat1use, sq.ddat2use, sq.hcounter1, sq.hcounter2,
           sq.vcounter1, sq.vcounter2, sq.cyc, sq.cyclecounter, sq.final, sq.wait, sq.done, sq.irq)
    }

    /** What a blit leaves behind. */
    ghost function Left(): Outcome
      reads this, mem
      requires mem.Length > 0
    {
      Outcome(mem[..], info.blitzero, pt, info.bltadat, info.bltbhold, info.bltcdat)
    }

    constructor (words: array<Word>, s: Setup, i: BltInfo, p: Pointers)
      requires words.Length > 0
      ensures Valid() && mem == words && setup == s && info == i && pt == p && fresh(filltable)
      ensures sq.cyclecounter == 0 && !sq.final
    {
      mem := words;
      setup, info, pt := s, i, p;
      hold := Hold(0, 0, false);
      sq := Sequencer(0, 0, false, false, 0, 0, 0, 0, 0, 0, false, false, true, false);
      dmacount2, nod := 0, true;
      var t := new Entry[256, 4];
      filltable := t;
      new;
      BuildFillTable(t);
    }

    /** blit_bltset: decode the control registers, count the source channels of the diagram and look for the D one. */
    method BltSet(con0: Word, con1: Word, afwm: Word, alwm: Word, h: nat, v: nat, amod: int, bmod: int, cmod: int, dmod: int)
      requires Valid() && h > 0 && v > 0
      modifies this`setup, this`dmacount2, this`nod
      ensures Ready() && setup == Decode(con0, con1, afwm, alwm, h, v, amod, bmod, cmod, dmod)
    {
      setup := Decode(con0, con1, afwm, alwm, h, v, amod, bmod, cmod, dmod);
      ghost var s := setup;
      var main := BlitDiagram(setup).main;
      dmacount2 := 0;
      nod := true;
      for i := 0 to |main|
        invariant setup == s
        invariant dmacount2 == Fetches(main, i)
        invariant nod == !PipeRefines.Among(main, i, 4)
      {
        if 0 < main[i] < 4 {
          dmacount2 := dmacount2 + 1;
        }
        if main[i] == 4 {
          nod := false;
        }
      }
      PipeRefines.DiagramCounts(setup);
    }

    /** blitter_start_init and the cycle-exact part of do_blitter2. */
    method StartInit(copper: bool)
      requires Ready()
      modifies this`info, this`hold, this`sq
      ensures Ready() && info == old(info).(blitzero := true)
      ensures var stale := Leftover(old(sq.final), old(sq.ddat1), old(sq.ddat2));
              State() == StartPipe(setup, old(pt), old(Core()), copper, stale).(fetched := old(sq.cyclecounter))
    {
      info := info.(blitzero := true);
      hold := Hold(0, 0, setup.carryIn);
      sq := sq.(ddat1use := false, ddat2use := false, irq := false, done := false,
                hcounter1 := 0, hcounter2 := 0, vcounter1 := 0, vcounter2 := if nod then setup.v else 0,
                cyc := -2, wait := copper);
    }

    // ----- shared by both machines -----

    /** The fill of one word by two table lookups. */
    method FillWord(d: Word, fc: bool) returns (w: Word, fcOut: bool)
      requires Valid()
      ensures (w, fcOut) == WordFill(d, fc, setup.ife)
    {
      var lo := filltable[d % 256, Column(fc, setup.ife)];
      var hi := filltable[d / 256, Column(lo.carry, setup.ife)];
      w := lo.data + hi.data * 256;
      fcOut := hi.carry;
    }

    method Doblit(col: nat) returns (d: Word)
      requires Valid()
      modifies this`info, this`hold
      ensures Valid() && info == old(info).(blitzero := info.blitzero)
      ensures (Core(), d) == DoBlit(setup, old(Core()), col)
    {
      hide BlitFunc, Shifted, Masked, WordFill;
      var a := Masked(setup, info.bltadat, col);
      d := BlitFunc(Shifted(setup.desc, setup.ashift, hold.preva, a), info.bltbhold, info.bltcdat, setup.mt);
      var fc := hold.blitfc;
      if setup.fill {
        d, fc := FillWord(d, fc);
      }
      hold := hold.(preva := a, blitfc := fc);
      if d != 0 {
        info := info.(blitzero := false);
      }
    }

    method Put(addr: Long, w: Word)
      requires Valid()
      modifies mem
      ensures Valid() && mem[..] == Write(old(mem[..]), addr, w)
    {
      mem[addr / 2 % mem.Length] := w;
    }

    /** A fetched B word is shifted at once. */
    method LoadB(dat: Word)
      requires Valid()
      modifies this`info, this`hold
      ensures Valid() && info == old(info).(bltbhold := info.bltbhold)
      ensures Core() == BlitterModel.LoadB(setup, old(Core()), dat)
    {
      hide Shifted;
      info := info.(bltbhold := Shifted(setup.desc, setup.bshift, hold.prevb, dat));
      hold := hold.(prevb := dat);
    }

    // ----- the cycle-exact machine -----

    method Latch()
      requires Ready()
      modifies this`info, this`hold, this`sq
      ensures Ready() && State() == BlitterPipe.Latch(setup, old(State()))
    {
      hide DoBlit, FetchCount, IsFillTable;
      var d := Doblit(sq.hcounter1);
      sq := sq.(ddat2 := sq.ddat1, ddat2use := sq.ddat1use, ddat1 := d, ddat1use := setup.useD, cyclecounter := 0);
    }

    /** blitter_dodma: fetch one word; the last fetch of a word computes it and moves the counters on. */
    method DoDma(ch: nat)
      requires Ready() && 1 <= ch <= 3
      modifies this`info, this`hold, this`sq, this`pt
      ensures Ready() && State() == BlitterPipe.DoDma(setup, old(State()), ch)
    {
      hide DoBlit, FetchCount, IsFillTable, BlitterPipe.Load, BlitterPipe.Latch, BlitterPipe.NextColumn;
      LoadChannel(ch);
      if sq.cyclecounter + 1 < dmacount2 {
        sq := sq.(cyclecounter := sq.cyclecounter + 1);
      } else {
        Latch();
        NextColumn();
      }
    }

    method LoadChannel(ch: nat)
      requires Ready() && 1 <= ch <= 3
      modifies this`info, this`hold, this`pt
      ensures Ready() && State() == BlitterPipe.Load(setup, old(State()), ch) && State().fetched == old(State()).fetched
    {
      hide DoBlit, FetchCount, IsFillTable, BlitterModel.LoadB, Step;
      if ch == 1 {
        info := info.(bltadat := mem[pt.a / 2 % mem.Length]);
        pt := pt.(a := Step(setup, pt.a, 2));
      } else if ch == 2 {
        LoadB(mem[pt.b / 2 % mem.Length]);
        pt := pt.(b := Step(setup, pt.b, 2));
      } else {
        info := info.(bltcdat := mem[pt.c / 2 % mem.Length]);
        pt := pt.(c := Step(setup, pt.c, 2));
      }
    }

    method NextColumn()
      requires Ready()
      modifies this`hold, this`sq, this`pt
      ensures Ready() && State() == BlitterPipe.NextColumn(setup, old(State()))
    {
      hide FetchCount, IsFillTable, AddModulos;
      if sq.hcounter1 + 1 == setup.h {
        sq := sq.(hcounter1 := 0, vcounter1 := sq.vcounter1 + 1);
        hold := hold.(blitfc := setup.carryIn);
        pt := AddModulos(setup, pt);
      } else {
        sq := sq.(hcounter1 := sq.hcounter1 + 1);
      }
    }

    /** blitter_doddma: store the word that is due. */
    method DoDDma()
      requires Ready()
      modifies this`info, this`hold, this`sq, this`pt, mem
      ensures Ready() && State() == BlitterPipe.DoDDma(setup, old(State()))
    {
      hide FetchCount, IsFillTable, TakeWord, BlitterPipe.Put;
      if dmacount2 > 0 && !sq.ddat2use && !sq.ddat1use {
        return;
      }
      var d := TakeDat();
      Store(d);
      if Channels(setup) == 1 {
        sq := sq.(hcounter1 := sq.hcounter2);
      }
    }

    method TakeDat() returns (d: Word)
      requires Ready()
      modifies this`info, this`hold, this`sq
      ensures Ready() && (State(), d) == TakeWord(setup, old(State()))
    {
      hide DoBlit, FetchCount, IsFillTable;
      if dmacount2 == 0 {
        d := Doblit(sq.hcounter1);
      } else if sq.ddat2use {
        d := sq.ddat2;
        sq := sq.(ddat2use := false);
      } else {
        d := sq.ddat1;
        sq := sq.(ddat1use := false);
      }
    }

    method Store(d: Word)
      requires Ready()
      modifies this`sq, this`pt, mem
      ensures Ready() && State() == BlitterPipe.Put(setup, old(State()), d)
    {
      hide FetchCount, IsFillTable, Write, Step;
      Put(pt.d, d);
      var p := Step(setup, pt.d, 2);
      if sq.hcounter2 + 1 == setup.h {
        p := Step(setup, p, setup.dmod);
        var v1, v2 := sq.vcounter1, sq.vcounter2 + 1;
        if dmacount2 == 0 {
          v1 := v1 + 1;
        }
        if v2 > v1 {
          v1 := v2;
        }
        sq := sq.(hcounter2 := 0, vcounter2 := v2, vcounter1 := v1);
      } else {
        sq := sq.(hcounter2 := sq.hcounter2 + 1);
      }
      pt := pt.(d := p);
    }

    /** A cycle that goes ahead. */
    method Cycle(c: nat)
      requires Ready() && c == NextChannel(setup, State())
      modifies this`info, this`hold, this`sq, this`pt, mem
      ensures Ready() && State() == Advance(setup, old(State()))
    {
      hide FetchCount, IsFillTable, BlitterPipe.IdleCycle, BlitterPipe.DmaCycle, NextChannel;
      if c == 0 {
        IdleCycle();
      } else {
        DmaCycle(c);
      }
    }

    method IdleCycle()
      requires Ready()
      modifies this`sq
      ensures Ready() && State() == BlitterPipe.IdleCycle(setup, old(State()))
    {
      hide FetchCount, IsFillTable, Over, Channels;
      sq := sq.(cyc := sq.cyc + 1, final := sq.final && sq.cyc + 1 != 0);
      if Channels(setup) == 0 && sq.cyc >= setup.Words() + 2 {
        BlitterDone();
      }
    }

    method DmaCycle(c: nat)
      requires Ready() && c == NextChannel(setup, State()) && c > 0
      modifies this`info, this`hold, this`sq, this`pt, mem
      ensures Ready() && State() == BlitterPipe.DmaCycle(setup, old(State()), c)
    {
      hide FetchCount, IsFillTable, BlitterPipe.DoDma, BlitterPipe.DoDDma, NextChannel, EndIfDone;
      Dma(c);
      NextCycle();
      CheckDone();
    }

    method NextCycle()
      requires Ready()
      modifies this`sq
      ensures Ready() && State() == old(State()).(cyc := old(State()).cyc + 1)
    {
      hide FetchCount, IsFillTable;
      sq := sq.(cyc := sq.cyc + 1);
    }

    method CheckDone()
      requires Ready()
      modifies this`sq
      ensures Ready() && State() == EndIfDone(setup, old(State()))
    {
      hide FetchCount, IsFillTable, Over;
      if sq.vcounter1 >= setup.v && sq.vcounter2 >= setup.v && !sq.ddat1use && !sq.ddat2use {
        BlitterDone();
      }
    }

    method Dma(c: nat)
      requires Ready() && c == NextChannel(setup, State()) && c > 0
      modifies this`info, this`hold, this`sq, this`pt, mem
      ensures Ready()
      ensures var p := old(State());
              State() == if c == 4 then BlitterPipe.DoDDma(setup, p) else if p.v1 < setup.v then BlitterPipe.DoDma(setup, p, c) else p
      ensures PipeRuns.SameControl(old(State()), State())
    {
      hide FetchCount, IsFillTable, BlitterPipe.DoDma, BlitterPipe.DoDDma, NextChannel;
      ghost var was := State();
      PipeRuns.NextChannelRange(setup, was);
      PipeRuns.StoreControl(setup, was);
      PipeRuns.DmaControl(setup, was, c);
      if c == 4 {
        DoDDma();
      } else if sq.vcounter1 < setup.v {
        DoDma(c);
      }
    }

    method BlitterDone()
      requires Ready()
      modifies this`sq
      ensures Ready() && State() == Over(old(State()))
    {
      sq := sq.(ddat1use := false, ddat2use := false, done := true, irq := true);
    }

    /** decide_blitter: one bus slot after the other until the blit is over. */
    method DecideBlitter(slots: seq<BusSlot>)
      requires Ready()
      modifies this`info, this`hold, this`sq, this`pt, mem
      ensures Ready() && State() == Run(setup, old(State()), slots)
      ensures FreeSlots(slots) == 0 ==> Core() == old(Core()) && pt == old(pt)
    {
      hide IsFillTable, Tick, FetchCount;
      BusSlots.MovesAreGranted(setup, State(), slots);
      var i := 0;
      while i < |slots|
        invariant 0 <= i <= |slots| && Ready() && setup == old(setup)
        invariant Run(setup, State(), slots[i..]) == Run(setup, old(State()), slots)
      {
        assert slots[i..][0] == slots[i] && slots[i..][1..] == slots[i + 1..];
        OneSlot(slots[i]);
        i := i + 1;
      }
    }

    method OneSlot(slot: BusSlot)
      requires Ready()
      modifies this`info, this`hold, this`sq, this`pt, mem
      ensures Ready() && State() == Tick(setup, old(State()), slot)
    {
      hide IsFillTable, FetchCount, Advance, BlitDiagram, FinalDiagram, MainOver, ChannelState, Channels;
      if sq.done {
        return;
      }
      var diag := if sq.final then FinalDiagram(setup) else BlitDiagram(setup);
      var c := ChannelState(diag, sq.cyc);
      if sq.wait {
        sq := sq.(wait := false);
      } else if ((c == 0 && slot == Busy) || slot == Off)
                && (sq.cyc < 0 || !sq.final || (setup.fill && ExtraFillCycle(Channels(setup)))) {
        // idle cycles need a free bus too, except for the very last one
      } else if c != 0 && slot != Free {
        // the bus is not ours
      } else {
        Cycle(c);
      }
      if !sq.done && slot != Off {
        CheckMainOver();
      }
    }

    method CheckMainOver()
      requires Ready()
      modifies this`sq
      ensures Ready()
      ensures var p := old(State()); State() == if MainOver(setup, p) then p.(irq := true, cyc := 0, final := true) else p
    {
      hide IsFillTable, FetchCount, BlitDiagram, ChannelPos;
      if !sq.final
         && (sq.vcounter1 == setup.v || (sq.vcounter1 + 1 == setup.v && sq.hcounter1 + 1 == setup.h && dmacount2 == 0))
         && ChannelPos(BlitDiagram(setup), sq.cyc - 1) == |BlitDiagram(setup).main| - 1 {
        sq := sq.(irq := true, cyc := 0, final := true);
      }
    }

    // ----- the fast machine -----

    ghost function FastState(p: Pointers, dst: Long, store: bool): Fast
      reads this, mem
      requires mem.Length > 0
    {
      Fast(Core(), info.bltddat, p, dst, store)
    }

    /** Fetch the sources of a word over running pointers (0: channel off), then store the word before. */
    method FastFetch(p: Pointers, dst: Long, store: bool)
      requires Ready()
      modifies this`info, this`hold, mem
      ensures Ready() && info.bltddat == old(info.bltddat)
      ensures Core() == FastLoad(setup, old(FastState(p, dst, store)))
    {
      hide FetchCount, IsFillTable, FastSources, Write;
      FetchSources(p);
      if store {
        Put(dst, info.bltddat);
      }
    }

    method FetchSources(p: Pointers)
      requires Ready()
      modifies this`info, this`hold
      ensures Ready() && info.bltddat == old(info.bltddat)
      ensures Core() == FastSources(setup, old(Core()), p)
    {
      hide FetchCount, IsFillTable, BlitterModel.LoadB;
      if p.a != 0 {
        info := info.(bltadat := mem[p.a / 2 % mem.Length]);
      }
      if p.b != 0 {
        LoadB(mem[p.b / 2 % mem.Length]);
      }
      if p.c != 0 {
        info := info.(bltcdat := mem[p.c / 2 % mem.Length]);
      }
    }

    /** The body of the word loop. */
    method FastOneWord(i: nat, p: Pointers, dst: Long, store: bool) returns (p2: Pointers, dst2: Long, store2: bool)
      requires Ready()
      modifies this`info, this`hold, mem
      ensures Ready() && FastState(p2, dst2, store2) == FastWord(setup, old(FastState(p, dst, store)), i)
    {
      hide FetchCount, IsFillTable, DoBlit, FastLoad, Bump;
      FastFetch(p, dst, store);
      var d := Doblit(i);
      info := info.(bltddat := d);
      dst2, store2 := dst, store;
      if p.d != 0 {
        dst2, store2 := p.d, true;
      }
      p2 := Pointers(Bump(setup, p.a, 2), Bump(setup, p.b, 2), Bump(setup, p.c, 2), Bump(setup, p.d, 2));
    }

    /** blitter_dofast and blitter_dofast_desc. */
    method DoFast()
      requires Ready() && info.blitzero && hold.blitfc == setup.carryIn
      modifies this`info, this`hold, this`pt, mem
      ensures Ready() && Left() == FastBlit(setup, old(pt), old(Core()), old(info.bltddat))
    {
      hide FetchCount, IsFillTable, FastWord, Bump, Advanced, Write;
      ghost var start := FastStart(setup, pt, Core(), info.bltddat);
      ghost var s := setup;
      var p := Pointers(if setup.useA then pt.a else 0, if setup.useB then pt.b else 0,
                        if setup.useC then pt.c else 0, if setup.useD then pt.d else 0);
      pt := Pointers(if setup.useA then Advanced(setup, pt.a, setup.amod) else pt.a,
                     if setup.useB then Advanced(setup, pt.b, setup.bmod) else pt.b,
                     if setup.useC then Advanced(setup, pt.c, setup.cmod) else pt.c,
                     if setup.useD then Advanced(setup, pt.d, setup.dmod) else pt.d);
      ghost var pt1 := pt;
      hold := hold.(preva := 0, prevb := 0);
      var dst: Long, store := 0, false;
      for j := 0 to setup.v
        invariant Ready() && setup == s && pt == pt1
        invariant FastState(p, dst, store) == FastRows(s, start, j)
      {
        hold := hold.(blitfc := setup.carryIn);
        ghost var row := RowStart(s, FastRows(s, start, j));
        assert FastState(p, dst, store) == row;
        for i := 0 to setup.h
          invariant Ready() && setup == s && pt == pt1
          invariant FastState(p, dst, store) == FastWords(s, row, i)
        {
          p, dst, store := FastOneWord(i, p, dst, store);
        }
        p := Pointers(Bump(setup, p.a, setup.amod), Bump(setup, p.b, setup.bmod),
                      Bump(setup, p.c, setup.cmod), Bump(setup, p.d, setup.dmod));
      }
      if store {
        Put(dst, info.bltddat);
      }
    }

    // ----- whole blits -----

    /** The immediate blit. Where the pointers avoid 0 it is the reference. */
    method ImmediateBlit()
      requires Ready()
      modifies this`info, this`hold, this`sq, this`pt, mem
      ensures Ready() && sq.cyclecounter == old(sq.cyclecounter)
      ensures Left() == FastBlit(setup, old(pt), old(Core()), old(info.bltddat))
      ensures FastRefines.NeverZero(setup, old(pt)) ==> Left() == Blitted(setup, old(pt), old(Core()), true)
    {
      hide FetchCount, IsFillTable, FastBlit, Blitted, FastRefines.NeverZero;
      ghost var s, p0, c0, ddat := setup, pt, Core(), info.bltddat;
      StartInit(false);
      StartForgets(s, p0, c0, Core(), ddat);
      DoFast();
      if FastRefines.NeverZero(s, p0) {
        FastRefines.FastIsReference(s, p0, c0, ddat);
      }
    }

    /** The cycle-exact blit over the given bus slots: with enough free ones it ends, and leaves what the fast
        one would exactly under the stated condition. */
    method ExactBlit(copper: bool, slots: seq<BusSlot>)
      requires Ready() && sq.cyclecounter == 0 && PipeRuns.HasChannels(setup)
      modifies this`info, this`hold, this`sq, this`pt, mem
      ensures Ready()
      ensures sq.done ==> sq.cyclecounter == 0 && sq.irq && FreeSlots(slots) >= 2 + PipeRuns.Cycles(setup) * setup.Words()
      ensures sq.done ==> Left() == Blitted(setup, old(pt), old(Core()), PipeRefines.Fetching(setup))
      ensures FreeSlots(slots) >= BlitterAgreement.Budget(setup, copper) ==> sq.done
      ensures sq.done && FastRefines.NeverZero(setup, old(pt)) ==>
              (Left() == FastBlit(setup, old(pt), old(Core()), old(info.bltddat)) <==>
               BlitterAgreement.Agreeable(setup, old(pt), old(Core())))
    {
      hide FetchCount, IsFillTable, FastBlit, Blitted, FastRefines.NeverZero, Run, PipeRuns.HasChannels, FreeSlots;
      ghost var s, p0, c0, ddat := setup, pt, Core(), info.bltddat;
      ghost var stale := Leftover(sq.final, sq.ddat1, sq.ddat2);
      StartInit(copper);
      DecideBlitter(slots);
      BlitterAgreement.ExactComputesReference(s, p0, c0, copper, stale, slots);
      if sq.done && FastRefines.NeverZero(s, p0) {
        FastRefines.FastIsReference(s, p0, c0, ddat);
        BlitterAgreement.AgreeableIff(s, p0, c0);
      }
    }
  }

  /** The fast blit starts its shifters, carry and zero flag afresh. */
  lemma StartForgets(s: Setup, p: Pointers, c: Core, c1: Core, ddat: Word)
    requires c1 == c.(zero := true, preva := 0, prevb := 0, fc := s.carryIn)
    ensures FastBlit(s, p, c1, ddat) == FastBlit(s, p, c, ddat)
  {
  }
}
