/** The cycle-exact blitter as a function of bus slots. */
module BlitterPipe {
  import opened Words
  import opened BlitterModel

  /** What the bus offers in one slot: free, taken by somebody else, or blitter DMA switched off. */
  datatype BusSlot = Free | Busy | Off

  /** Channel order of the first pass and of every later one: 0 idle, 1 A, 2 B, 3 C, 4 D. */
  datatype Diagram = Diagram(first: seq<nat>, main: seq<nat>)

  function Channels(s: Setup): nat {
    (if s.useA then 8 else 0) + (if s.useB then 4 else 0) + (if s.useC then 2 else 0) + (if s.useD then 1 else 0)
  }

  function PlainDiagram(ch: nat): Diagram {
    match ch
    case 1 => Diagram([0, 0], [0, 4])
    case 2 => Diagram([0, 3], [0, 3])
    case 3 => Diagram([0, 3, 0], [0, 3, 4])
    case 4 => Diagram([0, 2, 0], [0, 2, 0])
    case 5 => Diagram([0, 2, 0], [0, 2, 4])
    case 6 => Diagram([0, 2, 3], [0, 2, 3])
    case 7 => Diagram([0, 2, 3, 0], [0, 2, 3, 4])
    case 8 => Diagram([1, 0], [1, 0])
    case 9 => Diagram([1, 0], [1, 4])
    case 10 => Diagram([1, 3], [1, 3])
    case 11 => Diagram([1, 3, 0], [1, 3, 4])
    case 12 => Diagram([1, 2, 0], [1, 2, 0])
    case 13 => Diagram([1, 2, 0], [1, 2, 4])
    case 14 => Diagram([1, 2, 3], [1, 2, 3])
    case 15 => Diagram([1, 2, 3, 0], [1, 2, 3, 4])
    case _ => Diagram([0, 0], [0, 0])
  }

  /** Four channel combinations take one more idle cycle when filling. */
  predicate ExtraFillCycle(ch: nat) {
    ch == 1 || ch == 5 || ch == 9 || ch == 13
  }

  function FillDiagram(ch: nat): Diagram {
    match ch
    case 1 => Diagram([0, 0, 0], [0, 4, 0])
    case 5 => Diagram([0, 2, 0, 0], [0, 2, 4, 0])
    case 9 => Diagram([1, 0, 0], [1, 4, 0])
    case 13 => Diagram([1, 2, 0, 0], [1, 2, 4, 0])
    case _ => PlainDiagram(ch)
  }

  function BlitDiagram(s: Setup): (d: Diagram)
    ensures |d.first| == |d.main| > 0
  {
    if s.fill && ExtraFillCycle(Channels(s)) then FillDiagram(Channels(s)) else PlainDiagram(Channels(s))
  }

  /** The two cycles that end a blit: the last D write, if there is one. */
  function FinalDiagram(s: Setup): (d: Diagram)
    ensures |d.first| == |d.main| == 2
  {
    if s.useD then Diagram([0, 4], [0, 4]) else Diagram([0, 0], [0, 0])
  }

  /** Number of A, B and C fetches among the first `n` cycles of a pass. */
  function Fetches(main: seq<nat>, n: nat): nat
    requires n <= |main|
  {
    if n == 0 then 0 else Fetches(main, n - 1) + if 0 < main[n - 1] < 4 then 1 else 0
  }

  function FetchCount(s: Setup): nat {
    Fetches(BlitDiagram(s).main, |BlitDiagram(s).main|)
  }

  function ChannelPos(d: Diagram, cyc: int): nat
    requires |d.main| > 0
  {
    if cyc < 0 then 0 else if cyc < |d.main| then cyc else (cyc - |d.main|) % |d.main|
  }

  function ChannelState(d: Diagram, cyc: int): nat
    requires |d.first| == |d.main| > 0
  {
    if cyc < 0 then 0 else if cyc < |d.main| then d.first[cyc] else d.main[(cyc - |d.main|) % |d.main|]
  }

  datatype Pipe = Pipe(core: Core, ptrs: Pointers, ddat1: Word, ddat2: Word, use1: bool, use2: bool,
                       h1: nat, h2: nat, v1: nat, v2: nat, cyc: int, fetched: nat,
                       final: bool, wait: bool, done: bool, irq: bool)

  /** What the blit before may have left in registers that a new one does not clear. */
  datatype Leftover = Leftover(final: bool, ddat1: Word, ddat2: Word)

  /** The state a blit starts in. */
  function StartPipe(s: Setup, p: Pointers, c: Core, copper: bool, stale: Leftover): Pipe {
    Pipe(c.(zero := true, preva := 0, prevb := 0, fc := s.carryIn), p, stale.ddat1, stale.ddat2, false, false,
         0, 0, 0, if s.useD then 0 else s.v, -2, 0, stale.final, copper, false, false)
  }

  function Step(s: Setup, p: Long, step: int): Long {
    Wrap(p + s.Dir() * step)
  }

  /** All fetches of a word are in: compute it and queue it behind the one before. */
  function Latch(s: Setup, p: Pipe): Pipe {
    var (c, d) := DoBlit(s, p.core, p.h1);
    p.(core := c, ddat2 := p.ddat1, use2 := p.use1, ddat1 := d, use1 := s.useD, fetched := 0)
  }

  /** The source modulos at the end of a row. */
  function AddModulos(s: Setup, q: Pointers): Pointers {
    Pointers(if s.useA then Step(s, q.a, s.amod) else q.a,
             if s.useB then Step(s, q.b, s.bmod) else q.b,
             if s.useC then Step(s, q.c, s.cmod) else q.c, q.d)
  }

  /** Count the word; a row that ends adds the modulos and refreshes the fill carry. */
  function NextColumn(s: Setup, p: Pipe): Pipe {
    if p.h1 + 1 == s.h then
      p.(h1 := 0, v1 := p.v1 + 1, core := p.core.(fc := s.carryIn), ptrs := AddModulos(s, p.ptrs))
    else p.(h1 := p.h1 + 1)
  }

  function Compute(s: Setup, p: Pipe): Pipe {
    NextColumn(s, Latch(s, p))
  }

  /** The word of channel `ch`, in its data register. */
  function LoadData(s: Setup, c: Core, q: Pointers, ch: nat): Core {
    if ch == 1 then c.(adat := Read(c.mem, q.a))
    else if ch == 2 then LoadB(s, c, Read(c.mem, q.b))
    else c.(cdat := Read(c.mem, q.c))
  }

  function StepSource(s: Setup, q: Pointers, ch: nat): Pointers {
    if ch == 1 then q.(a := Step(s, q.a, 2)) else if ch == 2 then q.(b := Step(s, q.b, 2)) else q.(c := Step(s, q.c, 2))
  }

  function Load(s: Setup, p: Pipe, ch: nat): Pipe {
    p.(core := LoadData(s, p.core, p.ptrs, ch), ptrs := StepSource(s, p.ptrs, ch))
  }

  function DoDma(s: Setup, p: Pipe, ch: nat): Pipe {
    var q := Load(s, p, ch);
    if p.fetched + 1 >= FetchCount(s) then Compute(s, q) else q.(fetched := p.fetched + 1)
  }

  /** The word a D cycle stores: a D-only blit computes it on the spot, otherwise the oldest one waiting. */
  function TakeWord(s: Setup, p: Pipe): (Pipe, Word) {
    if FetchCount(s) == 0 then
      var (c, d) := DoBlit(s, p.core, p.h1);
      (p.(core := c), d)
    else if p.use2 then (p.(use2 := false), p.ddat2)
    else (p.(use1 := false), p.ddat1)
  }

  /** The first row counter once a row has been stored: a D-only blit counts here, and it never lags behind. */
  function RowsDone(s: Setup, v1: nat, v2: nat): nat {
    var n := if FetchCount(s) == 0 then v1 + 1 else v1;
    if v2 + 1 > n then v2 + 1 else n
  }

  /** Store a word, move the D pointer, count the word; a row that ends adds the modulo. */
  function Put(s: Setup, p: Pipe, d: Word): Pipe {
    var last := p.h2 + 1 == s.h;
    var next := Step(s, p.ptrs.d, 2);
    p.(core := p.core.(mem := Write(p.core.mem, p.ptrs.d, d)),
       ptrs := p.ptrs.(d := if last then Step(s, next, s.dmod) else next),
       h2 := if last then 0 else p.h2 + 1,
       v2 := if last then p.v2 + 1 else p.v2,
       v1 := if last then RowsDone(s, p.v1, p.v2) else p.v1)
  }

  function DoDDma(s: Setup, p: Pipe): Pipe {
    if FetchCount(s) > 0 && !p.use2 && !p.use1 then p else
    var t := TakeWord(s, p);
    var r := Put(s, t.0, t.1);
    if Channels(s) == 1 then r.(h1 := r.h2) else r
  }

  /** The channel the next cycle belongs to. */
  function NextChannel(s: Setup, p: Pipe): nat {
    ChannelState(if p.final then FinalDiagram(s) else BlitDiagram(s), p.cyc)
  }

  /** Does the machine make no move at all in this slot? */
  predicate Stalls(s: Setup, p: Pipe, slot: BusSlot) {
    var c := NextChannel(s, p);
    if (c == 0 && slot == Busy) || slot == Off
    then p.cyc < 0 || !p.final || (s.fill && ExtraFillCycle(Channels(s))) || c != 0
    else c != 0 && slot != Free
  }

  function IdleCycle(s: Setup, p: Pipe): Pipe {
    var q := p.(cyc := p.cyc + 1, final := p.final && p.cyc + 1 != 0);
    if Channels(s) == 0 && q.cyc >= s.Words() + 2 then Over(q) else q
  }

  function DmaCycle(s: Setup, p: Pipe, c: nat): Pipe {
    var q := if c == 4 then DoDDma(s, p) else if p.v1 < s.v then DoDma(s, p, c) else p;
    EndIfDone(s, q.(cyc := p.cyc + 1))
  }

  function EndIfDone(s: Setup, p: Pipe): Pipe {
    if p.v1 >= s.v && p.v2 >= s.v && !p.use1 && !p.use2 then Over(p) else p
  }

  /** One cycle that does go ahead. */
  function Advance(s: Setup, p: Pipe): Pipe {
    var c := NextChannel(s, p);
    if c == 0 then IdleCycle(s, p) else DmaCycle(s, p, c)
  }

  function Over(p: Pipe): Pipe {
    p.(done := true, irq := true, use1 := false, use2 := false)
  }

  /** The last main cycle has passed: raise the interrupt and enter the final two. */
  predicate MainOver(s: Setup, p: Pipe) {
    && !p.final
    && (p.v1 == s.v || (p.v1 + 1 == s.v && p.h1 + 1 == s.h && FetchCount(s) == 0))
    && ChannelPos(BlitDiagram(s), p.cyc - 1) == |BlitDiagram(s).main| - 1
  }

  function Tick(s: Setup, p: Pipe, slot: BusSlot): Pipe {
    if p.done then p else
    var q := if p.wait then p.(wait := false) else if Stalls(s, p, slot) then p else Advance(s, p);
    if !q.done && slot != Off && MainOver(s, q) then q.(irq := true, cyc := 0, final := true) else q
  }

  function Run(s: Setup, p: Pipe, slots: seq<BusSlot>): Pipe
    decreases |slots|
  {
    if slots == [] then p else Run(s, Tick(s, p, slots[0]), slots[1..])
  }

  function FreeSlots(slots: seq<BusSlot>): nat {
    if slots == [] then 0 else (if slots[0] == Free then 1 else 0) + FreeSlots(slots[1..])
  }

  function Result(p: Pipe): Outcome {
    Outcome(p.core.mem, p.core.zero, p.ptrs, p.core.adat, p.core.bhold, p.core.cdat)
  }
}
