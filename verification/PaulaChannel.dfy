/** One channel of Paula's sound DMA, without attached channels and without the workarounds for fast processors. */
module PaulaModel {
  import opened Words
  import opened Wrappers

  /** A byte handed to the converter, and when. */
  datatype Sample = Sample(at: nat, value: Byte)

  /** What the processor has set up: DMA on or off, pointer, length, period. */
  datatype Regs = Regs(ena: bool, lc: Long, len: Word, per: nat)

  /** The request lines to the DMA slots, and the counters they work with. */
  datatype Dma = Dma(dr: bool, dsr: bool, wlen: Word, pt: Long)

  /** The state machine proper; `evtime` is the time left to the end of the period, if one is running. */
  datatype Play = Play(state: nat, evtime: Option<nat>, pbufldl: bool, intreq2: bool, dat: Word, dat2: Word,
                       datWritten: bool)

  /** What has come out: the samples, the interrupts by the number of samples before them, and whether one is pending. */
  datatype Out = Out(samples: seq<Sample>, irqs: seq<nat>, irq: bool)

  datatype Channel = Channel(regs: Regs, dma: Dma, play: Play, out: Out)

  function Zeroed(c: Channel): Channel {
    c.(play := c.play.(state := 0, evtime := None, intreq2 := false))
  }

  function Interrupted(c: Channel): Channel {
    c.(out := c.out.(irqs := c.out.irqs + [|c.out.samples|], irq := true))
  }

  /** A request for a word; after the last word of a block it also asks for the pointer to be reloaded. */
  function Requested(c: Channel): Channel {
    c.(dma := c.dma.(dr := true, dsr := c.dma.dsr || c.dma.wlen == 1))
  }

  function Dropped(w: Word): Word {
    (w - 1) % 0x1_0000
  }

  /** A byte goes out, and a period begins. */
  function Sounded(c: Channel, now: nat, value: Byte): Channel {
    c.(play := c.play.(evtime := Some(c.regs.per), pbufldl := false),
       out := c.out.(samples := c.out.samples + [Sample(now, value)]))
  }

  function Loaded(c: Channel): Channel {
    c.(play := c.play.(dat2 := c.play.dat))
  }

  /** The high byte of the word in hand, if it is still to come. */
  function High(c: Channel, now: nat): Channel {
    if c.play.pbufldl then Sounded(c, now, c.play.dat2 / 0x100) else c
  }

  function Low(c: Channel, now: nat): Channel {
    if c.play.pbufldl then Sounded(c, now, c.play.dat2 % 0x100) else c
  }

  function Entered(c: Channel, state: nat): Channel {
    c.(play := c.play.(state := state, pbufldl := true))
  }

  /** audio_state_channel2 */
  function Stepped(c: Channel, now: nat, perfin: bool): Channel {
    var stopped := c.(play := c.play.(evtime := None));
    match c.play.state
    case 0 =>
      if c.regs.ena then
        c.(play := c.play.(state := 1, evtime := None), dma := c.dma.(dr := true, dsr := true, wlen := c.regs.len))
      else if c.play.datWritten && !c.out.irq then High(Entered(Loaded(Interrupted(c)), 2), now)
      else Zeroed(c)
    case 1 =>
      if !c.regs.ena then Zeroed(c)
      else if !c.play.datWritten then stopped
      else
        var d := Requested(Interrupted(stopped));
        d.(play := d.play.(state := 5),
           dma := d.dma.(wlen := if d.dma.wlen != 1 then Dropped(d.dma.wlen) else 1))
    case 5 =>
      if !c.regs.ena then Zeroed(c)
      else if !c.play.datWritten then stopped
      else
        var d := Entered(Requested(Loaded(c)), 2);
        High(d.(play := d.play.(intreq2 := false)), now)
    case 2 =>
      var d := High(c, now);
      if !perfin then d else Low(Entered(d, 3), now)
    case 3 =>
      var d := Low(c, now);
      if !perfin then d
      else if !c.regs.ena && c.out.irq then Zeroed(d)
      else
        var e := Loaded(d);
        var f := if c.regs.ena then Requested(if e.play.intreq2 then Interrupted(e) else e) else Interrupted(e);
        var g := Entered(f, 2);
        High(g.(play := g.play.(intreq2 := false)), now)
    case _ => c
  }

  /** audio_state_channel: a written word counts only for the step it caused. */
  function Advanced(c: Channel, now: nat, perfin: bool): Channel {
    var d := Stepped(c, now, perfin);
    d.(play := d.play.(datWritten := false))
  }

  /** AUDxDAT: a word arrives, from memory or from the processor. */
  function Written(c: Channel, now: nat, v: Word): Channel {
    var d := c.(play := c.play.(dat := v, datWritten := true));
    if c.play.state == 2 || c.play.state == 3 then
      var e := d.(play := d.play.(datWritten := false));
      if !c.regs.ena then e
      else if c.dma.wlen == 1 then e.(dma := e.dma.(wlen := c.regs.len), play := e.play.(intreq2 := true))
      else e.(dma := e.dma.(wlen := Dropped(c.dma.wlen)))
    else Advanced(d, now, false)
  }

  /** audio_getpt */
  function Fetched(c: Channel, reset: bool): Channel {
    c.(dma := c.dma.(pt := if reset then c.regs.lc else Wrap(c.dma.pt + 2)))
  }
}

/** What a channel plays when its registers stay put and every fetch is served in time. */
module PaulaPlays {
  import opened Words
  import opened Wrappers
  import opened PaulaModel
  import Arith

  /** A channel with its memory, the fetch under way (with or without a pointer reload), and the time. */
  datatype Run = Run(c: Channel, slot: Option<bool>, now: nat)

  /** Time passes, up to the end of the period; the request lines are sampled; the slot that was granted comes; the state
      machine is run for some other reason. */
  datatype Event = Pass(n: nat) | Collect | Slot | Nudge

  function Next(mem: Long -> Word, r: Run, e: Event): Run {
    var c := r.c;
    match e
    case Pass(n) =>
      if c.play.evtime.None? then r.(now := r.now + n)
      else if n < c.play.evtime.value then
        r.(c := c.(play := c.play.(evtime := Some(c.play.evtime.value - n))), now := r.now + n)
      else
        Run(Advanced(c.(play := c.play.(evtime := Some(0))), r.now + n, true), r.slot, r.now + n)
    case Collect =>
      Run(c.(dma := c.dma.(dr := false, dsr := false)), if c.dma.dr || c.dma.dsr then Some(c.dma.dsr) else None, r.now)
    case Slot =>
      if r.slot.None? then r else
        Run(Written(Fetched(c, r.slot.value), r.now, mem(c.dma.pt)), None, r.now)
    case Nudge =>
      r.(c := Advanced(c, r.now, false))
  }

  /** No event is skipped, a granted slot comes before the lines are sampled again, and the next word has arrived when
      the one before it ends. */
  predicate InTime(r: Run, e: Event) {
    match e
    case Pass(n) =>
      && (r.c.play.evtime.Some? ==> n <= r.c.play.evtime.value)
      && (r.c.play.state == 3 && r.c.play.evtime == Some(n) ==> !r.c.dma.dr && r.slot.None?)
    case Collect => r.slot.None?
    case Slot => true
    case Nudge => true
  }

  function After(mem: Long -> Word, r: Run, h: seq<Event>): Run {
    if h == [] then r else Next(mem, After(mem, r, h[..|h| - 1]), h[|h| - 1])
  }

  ghost predicate Served(mem: Long -> Word, r: Run, h: seq<Event>) {
    h == [] || (Served(mem, r, h[..|h| - 1]) && InTime(After(mem, r, h[..|h| - 1]), h[|h| - 1]))
  }

  /** A length register of 0 stands for 65536 words. */
  function BlockWords(len: Word): (n: nat)
    ensures 1 <= n <= 0x1_0000 && n % 0x1_0000 == len
  {
    if len == 0 then 0x1_0000 else len
  }

  /** Address of the `k`-th word played. */
  function Address(g: Regs, k: nat): Long {
    Wrap(g.lc + 2 * (k % BlockWords(g.len)))
  }

  /** The word counter while word `j` plays and the next one has not arrived. */
  function Left(g: Regs, j: nat): (w: nat)
    ensures 1 <= w <= BlockWords(g.len)
  {
    BlockWords(g.len) - (j + 1) % BlockWords(g.len)
  }

  lemma LeftNext(g: Regs, j: nat)
    ensures Left(g, j + 1) == if Left(g, j) == 1 then BlockWords(g.len) else Left(g, j) - 1
    ensures Left(g, j) == 1 <==> (j + 2) % BlockWords(g.len) == 0
    ensures Left(g, j) == 1 <==> (j + 1) % BlockWords(g.len) == BlockWords(g.len) - 1
    ensures Left(g, j) != 1 ==> (j + 2) % BlockWords(g.len) == (j + 1) % BlockWords(g.len) + 1
  {
    var n := BlockWords(g.len);
    Successor(j + 1, n);
  }

  lemma Successor(k: nat, n: nat)
    requires n >= 1
    ensures (k + 1) % n == if k % n == n - 1 then 0 else k % n + 1
  {
    var q, r := k / n, k % n;
    assert k == q * n + r;
    if r == n - 1 {
      Arith.Distribute(n, q, 1);
      Arith.DivModIs(k + 1, n, q + 1, 0);
    } else {
      Arith.DivModIs(k + 1, n, q, r + 1);
    }
  }

  lemma AddressNext(g: Regs, j: nat)
    ensures Address(g, j + 2) == if Left(g, j) == 1 then g.lc else Wrap(Address(g, j + 1) + 2)
    ensures Address(g, 0) == g.lc
  {
    hide Wrap, Left, BlockWords;
    LeftNext(g, j);
    var n := BlockWords(g.len);
    WrapAdd(g.lc + 2 * ((j + 1) % n), 2);
    StartAddress(g);
  }

  lemma StartAddress(g: Regs)
    ensures Address(g, 0) == g.lc && Wrap(g.lc + 2 * 0) == g.lc
  {
    OneOf(BlockWords(g.len));
  }

  /** The counter and the pointer after the word that is fetched and thrown away at the start. */
  lemma FirstWord(g: Regs)
    ensures Left(g, 0) % 0x1_0000 == if g.len == 1 then 1 else Dropped(g.len)
    ensures Left(g, 0) == 1 <==> BlockWords(g.len) <= 2
    ensures BlockWords(g.len) == 1 <==> g.len == 1
    ensures Address(g, 0) == g.lc && Address(g, 1) == if g.len == 1 then g.lc else Wrap(g.lc + 2)
    ensures Interrupts(g, 0) == [0]
  {
    OneOf(BlockWords(g.len));
    hide BlockWords;
    var one := (0 + 1) % BlockWords(g.len);
    assert one == if BlockWords(g.len) == 1 then 0 else 1;
  }

  lemma OneOf(n: nat)
    requires n >= 1
    ensures 0 % n == 0 && 1 % n == (0 + 1) % n == if n == 1 then 0 else 1
  {
    Arith.DivModIs(0, n, 0, 0);
    if n > 1 {
      Arith.DivModIs(1, n, 0, 1);
    }
  }

  lemma CounterWord(g: Regs, j: nat)
    ensures Left(g, j) % 0x1_0000 == 1 <==> Left(g, j) == 1
    ensures Dropped(Left(g, j) % 0x1_0000) == (Left(g, j) - 1) % 0x1_0000
  {
  }

  /** The byte of sample number `i`: high and low byte of each word in turn. */
  function ByteOf(mem: Long -> Word, g: Regs, i: nat): Byte {
    if i % 2 == 0 then mem(Address(g, i / 2)) / 0x100 else mem(Address(g, i / 2)) % 0x100
  }

  /** The interrupts up to word `j`: one for the start, and one at the last word of each block. */
  function Interrupts(g: Regs, j: nat): seq<nat> {
    if j == 0 then [0]
    else Interrupts(g, j - 1) + if j % BlockWords(g.len) == BlockWords(g.len) - 1 then [2 * j] else []
  }

  /** The samples so far are the words of the block over and over, a period apart. */
  ghost predicate Plays(mem: Long -> Word, g: Regs, s: seq<Sample>) {
    forall i: nat :: i < |s| ==> s[i].value == ByteOf(mem, g, i) && s[i].at == s[0].at + i * g.per
  }

  /** The fetch of word `k`, which is the last of its block if `reload`: asked for, granted, or not pending. */
  predicate Awaits(c: Channel, slot: Option<bool>, reload: bool) {
    (c.dma.dr && c.dma.dsr == reload && slot == None) || (!c.dma.dr && !c.dma.dsr && slot == Some(reload))
  }

  predicate Quiet(c: Channel, slot: Option<bool>) {
    !c.dma.dr && !c.dma.dsr && slot == None
  }

  /** Word `j` is in hand, and the next is still to come. */
  ghost predicate Waiting(g: Regs, c: Channel, slot: Option<bool>, j: nat) {
    && Awaits(c, slot, Left(g, j) == 1)
    && c.dma.wlen == Left(g, j) % 0x1_0000 && c.dma.pt == Address(g, j + 1) && !c.play.intreq2
  }

  /** The next word has come. */
  ghost predicate Ready(mem: Long -> Word, g: Regs, c: Channel, slot: Option<bool>, j: nat) {
    && Quiet(c, slot)
    && c.dma.wlen == Left(g, j + 1) % 0x1_0000 && c.dma.pt == Address(g, j + 2)
    && c.play.intreq2 == (Left(g, j) == 1) && c.play.dat == mem(Address(g, j + 1))
  }

  /** What every event keeps. */
  ghost predicate Inv(mem: Long -> Word, g: Regs, r: Run) {
    var (c, p, o) := (r.c, r.c.play, r.c.out);
    && c.regs == g && !p.datWritten && !p.pbufldl
    && (p.state == 1 || p.state == 5 || p.state == 2 || p.state == 3)
    && (p.state == 1 ==>
          p.evtime == None && o.samples == [] && o.irqs == [] && c.dma.wlen == g.len && Awaits(c, r.slot, true))
    && (p.state == 5 ==>
          && p.evtime == None && o.samples == [] && o.irqs == [0]
          && c.dma.wlen == Left(g, 0) % 0x1_0000 && c.dma.pt == g.lc && Awaits(c, r.slot, BlockWords(g.len) == 1))
    && (p.state == 2 || p.state == 3 ==>
          var n := |o.samples|;
          && n >= 1 && (n % 2 == 1 <==> p.state == 2)
          && var j := (n - 1) / 2;
             && p.dat2 == mem(Address(g, j))
             && (Waiting(g, c, r.slot, j) || Ready(mem, g, c, r.slot, j))
             && o.irqs == Interrupts(g, j)
             && p.evtime.Some? && 1 <= p.evtime.value <= g.per
             && r.now + p.evtime.value == o.samples[0].at + n * g.per)
    && Plays(mem, g, o.samples)
  }

  /** A channel switched on while idle. */
  lemma Started(mem: Long -> Word, c: Channel, now: nat)
    requires c.play.state == 0 && c.regs.ena && !c.play.pbufldl && c.out == Out([], [], c.out.irq)
    ensures Inv(mem, c.regs, Run(Advanced(c, now, false), None, now))
  {
  }

  lemma PassKeeps(mem: Long -> Word, g: Regs, r: Run, n: nat)
    requires g.ena && g.per >= 1 && Inv(mem, g, r) && InTime(r, Pass(n))
    ensures Inv(mem, g, Next(mem, r, Pass(n)))
  {
    hide Plays, Interrupts, Address, Left;
    var p := r.c.play;
    if p.evtime.Some? && n == p.evtime.value {
      if p.state == 2 {
        LowNext(mem, g, r, n);
      } else {
        WordNext(mem, g, r, n);
      }
    }
  }

  /** The high byte's period ends: the low byte follows. */
  lemma LowNext(mem: Long -> Word, g: Regs, r: Run, n: nat)
    requires g.ena && g.per >= 1 && Inv(mem, g, r) && r.c.play.state == 2 && r.c.play.evtime == Some(n)
    ensures Inv(mem, g, Next(mem, r, Pass(n)))
  {
    hide Interrupts, Address, Left, Plays;
    var s := r.c.out.samples;
    PlaysOn(mem, g, s, r.now + n);
  }

  lemma PlaysOn(mem: Long -> Word, g: Regs, s: seq<Sample>, at: nat)
    requires Plays(mem, g, s) && (s != [] ==> at == s[0].at + |s| * g.per)
    ensures Plays(mem, g, s + [Sample(at, ByteOf(mem, g, |s|))])
  {
    hide ByteOf;
  }

  /** The low byte's period ends: the next word follows, with an interrupt if it is the last of its block. */
  lemma WordNext(mem: Long -> Word, g: Regs, r: Run, n: nat)
    requires g.ena && g.per >= 1 && Inv(mem, g, r) && r.c.play.state == 3 && r.c.play.evtime == Some(n) && InTime(r, Pass(n))
    ensures Inv(mem, g, Next(mem, r, Pass(n)))
  {
    hide Address, Left, Plays, Interrupts;
    var s := r.c.out.samples;
    var j := (|s| - 1) / 2;
    assert |s| == 2 * j + 2;
    assert Ready(mem, g, r.c, r.slot, j);
    LeftNext(g, j);
    CounterWord(g, j + 1);
    PlaysOn(mem, g, s, r.now + n);
    Arith.Distribute(g.per, |s|, 1);
    InterruptsNext(g, j);
    var t := Next(mem, r, Pass(n));
    assert t.c.out.irqs == Interrupts(g, j + 1);
    assert Waiting(g, t.c, t.slot, j + 1);
    assert t.c.out.samples == s + [Sample(r.now + n, ByteOf(mem, g, |s|))];
    assert (|t.c.out.samples| - 1) / 2 == j + 1;
  }

  lemma InterruptsNext(g: Regs, j: nat)
    ensures Interrupts(g, j + 1) ==
            Interrupts(g, j) + if (j + 1) % BlockWords(g.len) == BlockWords(g.len) - 1 then [2 * j + 2] else []
  {
  }

  lemma CollectKeeps(mem: Long -> Word, g: Regs, r: Run)
    requires Inv(mem, g, r) && InTime(r, Collect)
    ensures Inv(mem, g, Next(mem, r, Collect))
  {
    hide Plays, Interrupts, Address, Left;
  }

  lemma SlotKeeps(mem: Long -> Word, g: Regs, r: Run)
    requires g.ena && g.per >= 1 && Inv(mem, g, r)
    ensures Inv(mem, g, Next(mem, r, Slot))
  {
    hide Plays, Interrupts, Address, Left;
    var (c, s) := (r.c, r.c.out.samples);
    if r.slot.Some? {
      FirstWord(g);
      CounterWord(g, 0);
      if c.play.state == 5 {
        PlaysOn(mem, g, s, r.now);
      } else if c.play.state != 1 {
        var j := (|s| - 1) / 2;
        LeftNext(g, j);
        CounterWord(g, j);
        AddressNext(g, j);
      }
    }
  }

  lemma NudgeKeeps(mem: Long -> Word, g: Regs, r: Run)
    requires g.ena && Inv(mem, g, r)
    ensures Inv(mem, g, Next(mem, r, Nudge))
  {
    hide Plays, Interrupts, Address, Left;
  }

  lemma {:induction false} InvHolds(mem: Long -> Word, g: Regs, r: Run, h: seq<Event>)
    requires g.ena && g.per >= 1 && Inv(mem, g, r) && Served(mem, r, h)
    ensures Inv(mem, g, After(mem, r, h))
  {
    hide Inv, Next, InTime;
    if h != [] {
      var (k, e) := (|h| - 1, h[|h| - 1]);
      var s := After(mem, r, h[..k]);
      InvHolds(mem, g, r, h[..k]);
      match e
      case Pass(n) => PassKeeps(mem, g, s, n);
      case Collect => CollectKeeps(mem, g, s);
      case Slot => SlotKeeps(mem, g, s);
      case Nudge => NudgeKeeps(mem, g, s);
    }
  }

  /** Over every run that serves the fetches in time: sample number i is a byte of word (i / 2) mod L, high before low;
      each is held for exactly one period; and beside the one at the start the interrupts come once per L words, with
      the last word of the block. */
  lemma PlaysMemory(mem: Long -> Word, c: Channel, now: nat, h: seq<Event>)
    requires c.play.state == 0 && c.regs.ena && !c.play.pbufldl && c.out == Out([], [], c.out.irq) && c.regs.per >= 1
    requires Served(mem, Run(Advanced(c, now, false), None, now), h)
    ensures var r := After(mem, Run(Advanced(c, now, false), None, now), h);
            var s := r.c.out.samples;
            && Plays(mem, c.regs, s)
            && (s != [] ==>
                  && s[0].at + (|s| - 1) * c.regs.per <= r.now < s[0].at + |s| * c.regs.per
                  && r.c.out.irqs == Interrupts(c.regs, (|s| - 1) / 2))
  {
    hide Plays, After, Interrupts, Advanced, Waiting, Ready;
    Started(mem, c, now);
    var r0 := Run(Advanced(c, now, false), None, now);
    InvHolds(mem, c.regs, r0, h);
    var r := After(mem, r0, h);
    var s := r.c.out.samples;
    if s != [] {
      Arith.Distribute(c.regs.per, |s|, -1);
    }
  }

  /** Interrupts, counted: words 1 to j bring one for every full block, reckoned up to the last word of each. */
  lemma {:induction false} InterruptCount(g: Regs, j: nat)
    ensures |Interrupts(g, j)| == 1 + (if BlockWords(g.len) == 1 then j else (j + 1) / BlockWords(g.len))
  {
    hide BlockWords;
    var n := BlockWords(g.len);
    if j == 0 {
      if n > 1 {
        Arith.DivModIs(1, n, 0, 1);
      }
    } else {
      InterruptCount(g, j - 1);
      Successor(j, n);
      Quotient(j, n);
    }
  }

  lemma Quotient(k: nat, n: nat)
    requires n >= 1
    ensures (k + 1) / n == k / n + if k % n == n - 1 then 1 else 0
  {
    var q, r := k / n, k % n;
    assert k == q * n + r;
    if r == n - 1 {
      Arith.Distribute(n, q, 1);
      Arith.DivModIs(k + 1, n, q + 1, 0);
    } else {
      Arith.DivModIs(k + 1, n, q, r + 1);
    }
  }

  /** With DMA off the processor feeds the channel: a word written while idle plays both its bytes, a period each, behind
      one interrupt. If nobody acknowledges that interrupt the channel falls silent; if somebody does, the last word
      written is played, again with one interrupt. */
  lemma ProcessorWord(c: Channel, now: nat, v: Word, w: Word)
    requires c.play.state == 0 && !c.regs.ena && !c.out.irq
    ensures var (per, s) := (c.regs.per, c.out.samples);
            var high := Written(c, now, v);
            var low := Advanced(high, now + per, true);
            var silent := Advanced(low, now + 2 * per, true);
            var fed := Written(low.(out := low.out.(irq := false)), now + per, w);
            var next := Advanced(fed, now + 2 * per, true);
            && high.out.samples == s + [Sample(now, v / 0x100)] && high.play.evtime == Some(per)
            && low.out.samples == s + [Sample(now, v / 0x100), Sample(now + per, v % 0x100)] && low.play.evtime == Some(per)
            && low.out.irqs == c.out.irqs + [|s|]
            && silent.play.state == 0 && silent.play.evtime == None && silent.out == low.out
            && next.out.samples == low.out.samples + [Sample(now + 2 * per, w / 0x100)]
            && next.out.irqs == low.out.irqs + [|s| + 2]
  {
  }

  /** While the channel plays a word from the processor waits for its turn; until then it replaces the one before it and
      changes nothing else. */
  lemma WordWaits(c: Channel, now: nat, v: Word)
    requires (c.play.state == 2 || c.play.state == 3) && !c.regs.ena && !c.play.datWritten
    ensures Written(c, now, v) == c.(play := c.play.(dat := v))
  {
  }

  /** The channel with its DMA switched off. */
  function Off(c: Channel): Channel {
    c.(regs := c.regs.(ena := false))
  }

  /** Nothing more comes out, and nothing more is asked for. */
  predicate Silent(c: Channel, d: Channel) {
    && d.play.state == 0 && d.play.evtime == None && !d.play.intreq2 && !d.play.datWritten && d.out == c.out
    && d.dma == c.dma && d.regs == c.regs
  }

  /** With nothing to play an idle channel stays idle. */
  lemma IdleStays(c: Channel, now: nat, perfin: bool)
    requires c.play.state == 0 && !c.regs.ena && (!c.play.datWritten || c.out.irq)
    ensures Silent(c, Advanced(c, now, perfin))
  {
  }

  /** A channel switched off before its first byte falls silent at the next step of the machine, whether a word has come
      or not. One switched off while it plays goes on to the end of its word, as if nothing had happened, and is silent
      from then on if an interrupt is pending, as it is unless somebody has acknowledged the last one. */
  lemma SwitchedOff(mem: Long -> Word, g: Regs, r: Run, perfin: bool, written: bool)
    requires g.per >= 1 && Inv(mem, g, r)
    ensures var c := Off(r.c.(play := r.c.play.(datWritten := written)));
            r.c.play.state == 1 || r.c.play.state == 5 ==> Silent(c, Advanced(c, r.now, perfin))
    ensures r.c.play.state == 2 ==>
              var c := Off(r.c);
              var low := Next(mem, Run(c, r.slot, r.now), Pass(r.c.play.evtime.value));
              var end := Next(mem, low, Pass(g.per));
              && Advanced(c, r.now, false) == c
              && low.c.out.samples == c.out.samples + [Sample(r.now + r.c.play.evtime.value, ByteOf(mem, g, |c.out.samples|))]
              && low.c.play.state == 3 && low.c.play.evtime == Some(g.per) && low.c.out.irqs == c.out.irqs
              && low.c.dma == c.dma && (c.out.irq ==> Silent(low.c, end.c))
    ensures r.c.play.state == 3 ==>
              var c := Off(r.c);
              var end := Next(mem, Run(c, r.slot, r.now), Pass(r.c.play.evtime.value));
              Advanced(c, r.now, false) == c && (c.out.irq ==> Silent(c, end.c))
  {
    hide Plays, Interrupts, Address, Left;
  }
}
