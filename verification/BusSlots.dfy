/** Who has the bus: what either machine may do in a slot that is not granted to it, and what that makes of whole runs. */
module BusSlots {
  import opened BlitterModel
  import opened BlitterPipe
  import opened PipeRefines
  import opened PipeRuns
  import opened LineModel
  import opened LinePipe

  /** Everything a blit computes with stays as it was; only the sequencing may differ. */
  predicate Still(p: Pipe, q: Pipe) {
    && q.core == p.core && q.ptrs == p.ptrs && q.ddat1 == p.ddat1 && q.ddat2 == p.ddat2 && q.fetched == p.fetched
    && q.h1 == p.h1 && q.h2 == p.h2 && q.v1 == p.v1 && q.v2 == p.v2
  }

  /** Still, but that the delay after a copper start is over and perhaps the end of the main cycles has been noticed. */
  predicate OnlyNoticed(p: Pipe, q: Pipe) {
    q == p.(wait := false) || q == p.(wait := false, irq := true, cyc := 0, final := true)
  }

  lemma ChannelsOn(s: Setup)
    ensures HasChannels(s) <==> Channels(s) != 0
  {
  }

  lemma IdleStill(s: Setup, p: Pipe)
    ensures var q := IdleCycle(s, p);
            Still(p, q) && q.wait == p.wait && (q.done == p.done || Channels(s) == 0) && (q.irq == p.irq || Channels(s) == 0)
    ensures Channels(s) != 0 ==> IdleCycle(s, p).use1 == p.use1 && IdleCycle(s, p).use2 == p.use2
  {
    hide Channels;
  }

  /** Without a grant the machine moves on in one case only: an idle cycle of the last two. */
  lemma Ungranted(s: Setup, p: Pipe, slot: BusSlot)
    requires slot != Free && !p.done && !p.wait
    ensures Stalls(s, p, slot) || (p.final && p.cyc >= 0 && Advance(s, p) == IdleCycle(s, p))
  {
    hide Channels, ChannelState, IdleCycle, DmaCycle, BlitDiagram, FinalDiagram;
  }

  /** A slot that is not free: no word is fetched, computed or stored and no pointer moves. Before the last two cycles
      nothing at all happens, but for the notice that they are due, which takes blitter DMA to be on. A blit with channels
      does not end. */
  lemma TakenSlot(s: Setup, p: Pipe, slot: BusSlot)
    requires slot != Free
    ensures var q := Tick(s, p, slot);
            && Still(p, q)
            && (!p.done && (!p.final || p.cyc < 0 || p.wait) ==> OnlyNoticed(p, q) && (slot == Off ==> q == p.(wait := false)))
            && (HasChannels(s) ==> q.done == p.done && q.use1 == p.use1 && q.use2 == p.use2 && (slot == Off ==> q.irq == p.irq))
  {
    hide Stalls, Advance, IdleCycle, MainOver;
    ChannelsOn(s);
    if !p.done && !p.wait {
      Ungranted(s, p, slot);
      IdleStill(s, p);
    }
  }

  /** The first of the last two cycles, which is idle, needs no grant, except in those fills that have an idle cycle of
      their own: the ones that store but do not read C. */
  lemma LastIdle(s: Setup, p: Pipe, slot: BusSlot)
    requires slot != Free && !p.done && !p.wait && p.final && p.cyc == 0 && HasChannels(s)
    ensures Tick(s, p, slot) == if s.fill && s.useD && !s.useC then p else p.(cyc := 1)
  {
    ChannelsOn(s);
    StoresWithoutC(s);
    assert NextChannel(s, p) == 0;
  }

  lemma StoresWithoutC(s: Setup)
    ensures ExtraFillCycle(Channels(s)) <==> s.useD && !s.useC
  {
  }

  /** All sixteen diagrams at once, and the four longer ones for fills: a cycle for A, idle if it is off; one for B and one
      for C if they are on; one for D, which stands in for the missing C cycle if that is off; and one more idle cycle in a
      fill that stores without C. The first pass has nothing to store yet. */
  lemma DiagramShape(s: Setup)
    ensures var (m, f) := (BlitDiagram(s).main, BlitDiagram(s).first);
            && m == [if s.useA then 1 else 0] + (if s.useB then [2] else [])
                    + (if s.useC then (if s.useD then [3, 4] else [3]) else [if s.useD then 4 else 0])
                    + (if s.fill && s.useD && !s.useC then [0] else [])
            && |f| == |m| && forall i: nat :: i < |m| ==> f[i] == if m[i] == 4 then 0 else m[i]
  {
  }

  /** How often a run changes what the blit computes with. */
  function Moves(s: Setup, p: Pipe, slots: seq<BusSlot>): nat
    decreases |slots|
  {
    if slots == [] then 0 else
      var q := Tick(s, p, slots[0]);
      (if Still(p, q) then 0 else 1) + Moves(s, q, slots[1..])
  }

  /** No schedule makes the blitter take more than the slots it grants. */
  lemma {:induction false} MovesAreGranted(s: Setup, p: Pipe, slots: seq<BusSlot>)
    ensures Moves(s, p, slots) <= FreeSlots(slots)
    ensures Moves(s, p, slots) == 0 ==> Still(p, Run(s, p, slots))
    decreases |slots|
  {
    hide Tick;
    if slots != [] {
      if slots[0] != Free {
        TakenSlot(s, p, slots[0]);
      }
      MovesAreGranted(s, Tick(s, p, slots[0]), slots[1..]);
    }
  }

  /** On a bus that is never free a blit with channels changes nothing and does not end. */
  lemma {:induction false} NeverFree(s: Setup, p: Pipe, slots: seq<BusSlot>)
    requires FreeSlots(slots) == 0 && HasChannels(s)
    ensures Still(p, Run(s, p, slots)) && Run(s, p, slots).done == p.done
    decreases |slots|
  {
    hide Tick;
    if slots != [] {
      TakenSlot(s, p, slots[0]);
      NeverFree(s, Tick(s, p, slots[0]), slots[1..]);
    }
  }

  /** It does not even begin: all that happens is that a copper start has been waited for. */
  lemma {:induction false} NeverBegins(s: Setup, p: Pipe, slots: seq<BusSlot>)
    requires FreeSlots(slots) == 0 && slots != [] && !p.done && !p.final && p.cyc == -2
    ensures Run(s, p, slots) == p.(wait := false)
    decreases |slots|
  {
    hide Tick;
    TakenSlot(s, p, slots[0]);
    TooEarly(s, p, slots[0]);
    assert slots[1..] != [] ==> Run(s, p.(wait := false), slots[1..]) == p.(wait := false) by {
      if slots[1..] != [] {
        NeverBegins(s, p.(wait := false), slots[1..]);
      }
    }
  }

  lemma TooEarly(s: Setup, p: Pipe, slot: BusSlot)
    requires slot != Free && !p.done && !p.final && p.cyc == -2
    ensures Tick(s, p, slot) == p.(wait := false)
  {
    hide BlitDiagram, Advance, FetchCount;
    DiagramCounts(s);
    assert ChannelPos(BlitDiagram(s), p.cyc - 1) == 0;
  }

  // ----- lines -----

  /** The same for a line: no grant, no read, no step, no write. */
  lemma LineTakenSlot(s: LineSetup, d: Drawer, slot: BusSlot)
    requires slot != Free
    ensures var q := LineTick(s, d, slot);
            q.line == d.line && q.final == d.final && (!d.final ==> q == if d.done then d else d.(wait := false))
  {
    hide LineCycle;
  }

  lemma {:induction false} LineNeverFree(s: LineSetup, d: Drawer, slots: seq<BusSlot>)
    requires FreeSlots(slots) == 0
    ensures var q := LineRun(s, d, slots);
            q.line == d.line && (!d.final ==> q.done == d.done && q.cyc == d.cyc)
    decreases |slots|
  {
    hide LineTick;
    if slots != [] {
      LineTakenSlot(s, d, slots[0]);
      LineNeverFree(s, LineTick(s, d, slots[0]), slots[1..]);
    }
  }
}
