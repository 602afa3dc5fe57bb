/** What update_audio does to one channel among all: it plays on, byte by byte, as if it were alone. */
module AudioPlays {
  import opened Words
  import opened Wrappers
  import opened PaulaModel
  import opened PaulaPlays
  import opened AudioEvents

  /** One of the states the machine can be in, and a period that takes time. */
  predicate Regular(c: Channel) {
    (c.play.state == 0 || c.play.state == 1 || c.play.state == 2 || c.play.state == 3 || c.play.state == 5) && c.regs.per >= 1
  }

  // ----- one round -----

  lemma HalvesRegular(c: Channel, now: nat)
    ensures var (h, l) := (High(c, now), Low(c, now));
            && h.regs == l.regs == c.regs && h.play.state == l.play.state == c.play.state
            && h.play.evtime == l.play.evtime == if c.play.pbufldl then Some(c.regs.per) else c.play.evtime
  {
  }

  /** A step of the machine leaves a new period, or the one that runs, or none, but never one of no length. */
  lemma StepsRegularly(c: Channel, now: nat, perfin: bool)
    requires Regular(c)
    ensures var d := Advanced(c, now, perfin);
            && Regular(d) && d.regs == c.regs
            && (perfin ==> d.play.evtime != Some(0))
            && (Ahead(c) ==> Ahead(d))
  {
    hide High, Low;
    match c.play.state {
      case 0 => HalvesRegular(Entered(Loaded(Interrupted(c)), 2), now);
      case 5 =>
        var d := Entered(Requested(Loaded(c)), 2);
        HalvesRegular(d.(play := d.play.(intreq2 := false)), now);
      case 2 =>
        HalvesRegular(c, now);
        HalvesRegular(Entered(High(c, now), 3), now);
      case 3 =>
        HalvesRegular(c, now);
        var e := Loaded(Low(c, now));
        var f := if c.regs.ena then Requested(if e.play.intreq2 then Interrupted(e) else e) else Interrupted(e);
        var g := Entered(f, 2);
        HalvesRegular(g.(play := g.play.(intreq2 := false)), now);
      case _ =>
    }
  }

  /** For a channel a round is time passing, up to the end of its period and through it. */
  lemma RoundIsPass(mem: Long -> Word, c: Channel, slot: Option<bool>, now: nat, b: nat)
    requires Regular(c) && Ahead(c) && (c.play.evtime.Some? ==> b <= c.play.evtime.value)
    ensures Run(Fired(Waited(c, b), now + b), slot, now + b) == Next(mem, Run(c, slot, now), Pass(b))
    ensures Regular(Fired(Waited(c, b), now + b))
  {
    hide Advanced;
    if c.play.evtime == Some(b) {
      StepsRegularly(c.(play := c.play.(evtime := Some(0))), now + b, true);
    }
  }

  // ----- histories put together -----

  lemma {:induction false} AfterAppend(mem: Long -> Word, r: Run, g: seq<Event>, h: seq<Event>)
    ensures After(mem, r, g + h) == After(mem, After(mem, r, g), h)
  {
    hide Next;
    if h == [] {
      assert g + h == g;
    } else {
      var k := |h| - 1;
      assert (g + h)[..|g + h| - 1] == g + h[..k];
      AfterAppend(mem, r, g, h[..k]);
    }
  }

  lemma {:induction false} ServedAppend(mem: Long -> Word, r: Run, g: seq<Event>, h: seq<Event>)
    ensures Served(mem, r, g + h) <==> Served(mem, r, g) && Served(mem, After(mem, r, g), h)
  {
    hide Next, InTime;
    if h == [] {
      assert g + h == g;
    } else {
      var k := |h| - 1;
      assert (g + h)[..|g + h| - 1] == g + h[..k];
      ServedAppend(mem, r, g, h[..k]);
      AfterAppend(mem, r, g, h[..k]);
    }
  }

  lemma OneEvent(mem: Long -> Word, r: Run, e: Event)
    ensures After(mem, r, [e]) == Next(mem, r, e) && (Served(mem, r, [e]) <==> InTime(r, e))
  {
    hide Next, InTime;
    assert [e][..0] == [];
    assert After(mem, r, []) == r;
  }

  // ----- one call of update_audio -----

  /** How long its rounds are. */
  function Rounds(p: Clocking, a: Audio, n: nat): seq<nat>
    requires Valid(p, a)
    decreases n
  {
    if n == 0 then [] else
      BestIsPositive(p, a, n);
      RoundKeeps(p, a, n);
      var b := Best(p, a, n);
      [b] + Rounds(p, Round(p, a, b), n - b)
  }

  function Passes(ns: seq<nat>): (h: seq<Event>)
    ensures |h| == |ns|
  {
    if ns == [] then [] else [Pass(ns[0])] + Passes(ns[1..])
  }

  lemma FirstRound(p: Clocking, a: Audio, n: nat, i: nat)
    requires Valid(p, a) && n > 0 && i < |a.chans|
    ensures var b := Best(p, a, n);
            && |Round(p, a, b).chans| == |a.chans| && Round(p, a, b).now == a.now + b
            && Round(p, a, b).chans[i] == Fired(Waited(a.chans[i], b), a.now + b)
            && (a.chans[i].play.evtime.Some? ==> b <= a.chans[i].play.evtime.value)
  {
    hide Advanced, Rounded, Heard;
  }

  /** Whatever the other channels and the sample clock do, after the call a channel is where a run of its own would be
      after the same time. */
  lemma {:induction false} PumpIsPasses(p: Clocking, mem: Long -> Word, a: Audio, n: nat, i: nat, slot: Option<bool>)
    requires Valid(p, a) && i < |a.chans| && Regular(a.chans[i])
    ensures var (r, h) := (Pump(p, a, n), Passes(Rounds(p, a, n)));
            && |r.chans| == |a.chans| && Regular(r.chans[i])
            && After(mem, Run(a.chans[i], slot, a.now), h) == Run(r.chans[i], slot, a.now + n)
            && Total(Rounds(p, a, n)) == n
    decreases n
  {
    hide Round, Best, Next, Fired, Regular, Valid;
    if n > 0 {
      var b := Best(p, a, n);
      BestIsPositive(p, a, n);
      RoundKeeps(p, a, n);
      var q := Round(p, a, b);
      FirstRound(p, a, n, i);
      IsAhead(p, a, i);
      RoundIsPass(mem, a.chans[i], slot, a.now, b);
      PumpIsPasses(p, mem, q, n - b, i, slot);
      var (r0, rest) := (Run(a.chans[i], slot, a.now), Passes(Rounds(p, q, n - b)));
      OneEvent(mem, r0, Pass(b));
      AfterAppend(mem, r0, [Pass(b)], rest);
      PassesFirst(b, Rounds(p, q, n - b));
    }
  }

  lemma IsAhead(p: Clocking, a: Audio, i: nat)
    requires Valid(p, a) && i < |a.chans|
    ensures Ahead(a.chans[i])
  {
  }

  lemma PassesFirst(b: nat, ns: seq<nat>)
    ensures Passes([b] + ns) == [Pass(b)] + Passes(ns) && Total([b] + ns) == b + Total(ns)
  {
    assert ([b] + ns)[1..] == ns;
  }

  // ----- how much time there is -----

  /** Time until the channel needs a word it has not got: to the end of the word that plays, and of the next if that has
      come. */
  function Slack(c: Channel, slot: Option<bool>): nat
    requires c.play.evtime.Some?
  {
    c.play.evtime.value + (if c.play.state == 2 then c.regs.per else 0) + if Quiet(c, slot) then 2 * c.regs.per else 0
  }

  /** A single stretch of time, from an event to the next, and what it leaves of the slack. */
  lemma PassSlack(mem: Long -> Word, g: Regs, r: Run, b: nat)
    requires g.ena && g.per >= 1 && Inv(mem, g, r) && r.c.play.evtime.Some? && 1 <= b <= r.c.play.evtime.value
    ensures InTime(r, Pass(b)) <==> b < Slack(r.c, r.slot)
    ensures InTime(r, Pass(b)) ==>
              var q := Next(mem, r, Pass(b));
              Inv(mem, g, q) && q.c.play.evtime.Some? && Slack(q.c, q.slot) == Slack(r.c, r.slot) - b
  {
    hide Plays, Interrupts, Address, Left;
    if InTime(r, Pass(b)) {
      PassKeeps(mem, g, r, b);
    }
  }

  /** Rounds of at least a cycle that skip no event. */
  ghost predicate Stepwise(mem: Long -> Word, r: Run, ns: seq<nat>)
    decreases |ns|
  {
    ns == [] ||
    (ns[0] >= 1 && (r.c.play.evtime.Some? ==> ns[0] <= r.c.play.evtime.value) && Stepwise(mem, Next(mem, r, Pass(ns[0])), ns[1..]))
  }

  /** As long as nothing is fetched, a channel plays on without a gap exactly as long as its slack lasts. */
  lemma {:induction false} ServedIff(mem: Long -> Word, g: Regs, r: Run, ns: seq<nat>)
    requires g.ena && g.per >= 1 && Inv(mem, g, r) && Stepwise(mem, r, ns)
    ensures Served(mem, r, Passes(ns)) <==> r.c.play.evtime.None? || Total(ns) < Slack(r.c, r.slot)
    decreases |ns|
  {
    hide Inv, Next, InTime, Slack;
    if ns == [] {
      SomeSlack(mem, g, r);
    } else {
      var (b, e) := (ns[0], Pass(ns[0]));
      OneEvent(mem, r, e);
      PassesFirst(b, ns[1..]);
      assert [b] + ns[1..] == ns;
      ServedAppend(mem, r, [e], Passes(ns[1..]));
      if r.c.play.evtime.Some? {
        PassSlack(mem, g, r, b);
        if InTime(r, e) {
          ServedIff(mem, g, Next(mem, r, e), ns[1..]);
        }
      } else {
        NoPeriod(mem, g, r, b);
        ServedIff(mem, g, Next(mem, r, e), ns[1..]);
      }
    }
  }

  lemma SomeSlack(mem: Long -> Word, g: Regs, r: Run)
    requires Inv(mem, g, r)
    ensures r.c.play.evtime.Some? ==> Slack(r.c, r.slot) > 0
  {
    hide Plays, Interrupts, Address, Left;
  }

  lemma NoPeriod(mem: Long -> Word, g: Regs, r: Run, b: nat)
    requires Inv(mem, g, r) && r.c.play.evtime.None?
    ensures InTime(r, Pass(b)) && Inv(mem, g, Next(mem, r, Pass(b))) && Next(mem, r, Pass(b)).c == r.c
  {
    hide Plays, Interrupts, Address, Left;
  }

  lemma {:induction false} RoundsStepwise(p: Clocking, mem: Long -> Word, a: Audio, n: nat, i: nat, slot: Option<bool>)
    requires Valid(p, a) && i < |a.chans| && Regular(a.chans[i])
    ensures Stepwise(mem, Run(a.chans[i], slot, a.now), Rounds(p, a, n))
    decreases n
  {
    hide Round, Best, Next, Fired, Regular, Valid;
    if n > 0 {
      var b := Best(p, a, n);
      BestIsPositive(p, a, n);
      RoundKeeps(p, a, n);
      var q := Round(p, a, b);
      FirstRound(p, a, n, i);
      IsAhead(p, a, i);
      RoundIsPass(mem, a.chans[i], slot, a.now, b);
      RoundsStepwise(p, mem, q, n - b, i, slot);
      assert ([b] + Rounds(p, q, n - b))[1..] == Rounds(p, q, n - b);
    }
  }

  lemma InvRegular(mem: Long -> Word, g: Regs, r: Run)
    requires Inv(mem, g, r) && g.per >= 1
    ensures Regular(r.c)
  {
    hide Plays, Interrupts, Address, Left;
  }

  /** A channel in the midst of playing its block plays on through update_audio, byte for byte and period for period, as
      long as the time given does not reach the end of the last word it has been given. */
  lemma PumpPlaysOn(p: Clocking, mem: Long -> Word, a: Audio, n: nat, i: nat, slot: Option<bool>, g: Regs)
    requires Valid(p, a) && i < |a.chans| && g.ena && g.per >= 1 && Inv(mem, g, Run(a.chans[i], slot, a.now))
    ensures var (c, r) := (a.chans[i], Pump(p, a, n));
            |r.chans| == |a.chans|
            && (c.play.evtime.None? || n < Slack(c, slot) ==>
                  Inv(mem, g, Run(r.chans[i], slot, a.now + n)) && Plays(mem, g, r.chans[i].out.samples))
  {
    hide Inv, Pump, Rounds, After, Served, Regular, Slack, Plays;
    var r0 := Run(a.chans[i], slot, a.now);
    InvRegular(mem, g, r0);
    PumpIsPasses(p, mem, a, n, i, slot);
    RoundsStepwise(p, mem, a, n, i, slot);
    ServedIff(mem, g, r0, Rounds(p, a, n));
    if a.chans[i].play.evtime.None? || n < Slack(a.chans[i], slot) {
      InvHolds(mem, g, r0, Passes(Rounds(p, a, n)));
      InvPlays(mem, g, Run(Pump(p, a, n).chans[i], slot, a.now + n));
    }
  }

  lemma InvPlays(mem: Long -> Word, g: Regs, r: Run)
    requires Inv(mem, g, r)
    ensures Plays(mem, g, r.c.out.samples)
  {
  }

  // ----- any mixture of calls -----

  /** A call of update_audio, or something that happens to one channel between two of them. */
  datatype Call = Update(n: nat) | On(i: nat, e: Event)

  /** All channels with the slots they have been granted. */
  datatype Machine = Machine(audio: Audio, slots: seq<Option<bool>>)

  ghost predicate Sound(p: Clocking, m: Machine) {
    Valid(p, m.audio) && |m.slots| == |m.audio.chans| && forall i: nat :: i < |m.slots| ==> Regular(m.audio.chans[i])
  }

  predicate Fitting(m: Machine, call: Call) {
    call.Update? || (call.i < |m.audio.chans| && call.i < |m.slots| && !call.e.Pass?)
  }

  function Called(p: Clocking, mem: Long -> Word, m: Machine, call: Call): Machine
    requires Sound(p, m) && Fitting(m, call)
  {
    match call
    case Update(n) => m.(audio := Pump(p, m.audio, n))
    case On(i, e) =>
      var r := Next(mem, Run(m.audio.chans[i], m.slots[i], m.audio.now), e);
      Machine(m.audio.(chans := m.audio.chans[i := r.c]), m.slots[i := r.slot])
  }

  /** What channel `i` sees of a call. */
  function Seen(p: Clocking, m: Machine, call: Call, i: nat): seq<Event>
    requires Sound(p, m)
  {
    match call
    case Update(n) => Passes(Rounds(p, m.audio, n))
    case On(j, e) => if i == j then [e] else []
  }

  function ChannelRun(m: Machine, i: nat): Run
    requires i < |m.audio.chans| && i < |m.slots|
  {
    Run(m.audio.chans[i], m.slots[i], m.audio.now)
  }

  lemma EventRegular(mem: Long -> Word, r: Run, e: Event)
    requires Regular(r.c) && Ahead(r.c) && !e.Pass?
    ensures var q := Next(mem, r, e);
            Regular(q.c) && Ahead(q.c) && q.now == r.now
  {
    hide Advanced;
    var c := r.c;
    match e {
      case Slot =>
        if r.slot.Some? {
          var v := mem(c.dma.pt);
          var f := Fetched(c, r.slot.value);
          StepsRegularly(f.(play := f.play.(dat := v, datWritten := true)), r.now, false);
        }
      case Nudge => StepsRegularly(c, r.now, false);
      case _ =>
    }
  }

  lemma CalledSound(p: Clocking, mem: Long -> Word, m: Machine, call: Call)
    requires Sound(p, m) && Fitting(m, call)
    ensures Sound(p, Called(p, mem, m, call)) && |Called(p, mem, m, call).slots| == |m.slots|
  {
    hide Pump, Next, Regular, Rounds, After;
    match call {
      case Update(n) =>
        PumpTime(p, m.audio, n);
        forall i: nat | i < |m.slots|
          ensures Regular(Pump(p, m.audio, n).chans[i])
        {
          PumpIsPasses(p, mem, m.audio, n, i, m.slots[i]);
        }
      case On(i, e) =>
        EventRegular(mem, ChannelRun(m, i), e);
    }
  }

  /** A call is, to each channel, what it sees of it. */
  lemma CalledIsSeen(p: Clocking, mem: Long -> Word, m: Machine, call: Call, i: nat)
    requires Sound(p, m) && Fitting(m, call) && i < |m.slots|
    ensures Sound(p, Called(p, mem, m, call)) && |Called(p, mem, m, call).slots| == |m.slots|
    ensures ChannelRun(Called(p, mem, m, call), i) == After(mem, ChannelRun(m, i), Seen(p, m, call, i))
  {
    hide Pump, Next, Regular, Rounds, Valid;
    CalledSound(p, mem, m, call);
    match call {
      case Update(n) =>
        PumpIsPasses(p, mem, m.audio, n, i, m.slots[i]);
        PumpTime(p, m.audio, n);
      case On(j, e) =>
        OneEvent(mem, ChannelRun(m, i), e);
        KeepsTime(mem, ChannelRun(m, j), e);
    }
  }

  lemma KeepsTime(mem: Long -> Word, r: Run, e: Event)
    requires !e.Pass?
    ensures Next(mem, r, e).now == r.now
  {
  }

  ghost predicate AllFitting(p: Clocking, mem: Long -> Word, m: Machine, calls: seq<Call>)
    requires Sound(p, m)
    decreases |calls|
  {
    calls == [] ||
    (Fitting(m, calls[0]) && (CalledSound(p, mem, m, calls[0]); AllFitting(p, mem, Called(p, mem, m, calls[0]), calls[1..])))
  }

  ghost function CalledAll(p: Clocking, mem: Long -> Word, m: Machine, calls: seq<Call>): Machine
    requires Sound(p, m) && AllFitting(p, mem, m, calls)
    decreases |calls|
  {
    if calls == [] then m else
      CalledSound(p, mem, m, calls[0]);
      CalledAll(p, mem, Called(p, mem, m, calls[0]), calls[1..])
  }

  /** The history of one channel over a whole run of calls. */
  ghost function History(p: Clocking, mem: Long -> Word, m: Machine, calls: seq<Call>, i: nat): seq<Event>
    requires Sound(p, m) && AllFitting(p, mem, m, calls)
    decreases |calls|
  {
    if calls == [] then [] else
      CalledSound(p, mem, m, calls[0]);
      Seen(p, m, calls[0], i) + History(p, mem, Called(p, mem, m, calls[0]), calls[1..], i)
  }

  /** Over any run of calls each channel goes through its own history, whatever the others do. */
  lemma {:induction false} ChannelsAreAlone(p: Clocking, mem: Long -> Word, m: Machine, calls: seq<Call>, i: nat)
    requires Sound(p, m) && AllFitting(p, mem, m, calls) && i < |m.slots|
    ensures var r := CalledAll(p, mem, m, calls);
            && i < |r.audio.chans| && i < |r.slots|
            && ChannelRun(r, i) == After(mem, ChannelRun(m, i), History(p, mem, m, calls, i))
    decreases |calls|
  {
    hide Called, Seen, Sound, ChannelRun;
    SoundSizes(p, m, i, |m.slots|);
    if calls != [] {
      CalledIsSeen(p, mem, m, calls[0], i);
      var q := Called(p, mem, m, calls[0]);
      ChannelsAreAlone(p, mem, q, calls[1..], i);
      AfterAppend(mem, ChannelRun(m, i), Seen(p, m, calls[0], i), History(p, mem, q, calls[1..], i));
    }
  }

  lemma SoundSizes(p: Clocking, m: Machine, i: nat, n: nat)
    ensures Sound(p, m) && |m.slots| == n && i < n ==> i < |m.audio.chans| && i < |m.slots|
  {
  }

  /** Main result for the mixer: over every run of calls that serves the fetches of a channel in time, a channel that has
      just been switched on plays its block of memory, each byte for exactly one period, with an interrupt at the start
      and one with the last word of each block. */
  lemma MixerPlaysMemory(p: Clocking, mem: Long -> Word, m: Machine, calls: seq<Call>, i: nat, c: Channel)
    requires Sound(p, m) && AllFitting(p, mem, m, calls) && i < |m.slots|
    requires c.play.state == 0 && c.regs.ena && !c.play.pbufldl && c.out == Out([], [], c.out.irq) && c.regs.per >= 1
    requires m.audio.chans[i] == Advanced(c, m.audio.now, false) && m.slots[i] == None
    requires Served(mem, ChannelRun(m, i), History(p, mem, m, calls, i))
    ensures var r := CalledAll(p, mem, m, calls);
            && i < |r.audio.chans|
            && var (s, now) := (r.audio.chans[i].out.samples, r.audio.now);
               && Plays(mem, c.regs, s)
               && (s != [] ==>
                     && s[0].at + (|s| - 1) * c.regs.per <= now < s[0].at + |s| * c.regs.per
                     && r.audio.chans[i].out.irqs == Interrupts(c.regs, (|s| - 1) / 2))
  {
    hide Plays, After, Interrupts, Advanced, Served, CalledAll, History, Sound, AllFitting;
    SoundSizes(p, m, i, |m.slots|);
    ChannelsAreAlone(p, mem, m, calls, i);
    PlaysMemory(mem, c, m.audio.now, History(p, mem, m, calls, i));
  }

  // ----- what comes out -----

  /** The byte that sounds just before time `t`. */
  function Sounding(s: seq<Sample>, t: nat): Byte {
    if s == [] then 0 else if s[|s| - 1].at < t then s[|s| - 1].value else Sounding(s[..|s| - 1], t)
  }

  ghost predicate Past(s: seq<Sample>, now: nat) {
    forall k: nat :: k < |s| ==> s[k].at <= now
  }

  /** `s` goes on as `r`, with nothing before time `t`. */
  ghost predicate GoesOn(s: seq<Sample>, r: seq<Sample>, t: nat) {
    |s| <= |r| && r[..|s|] == s && forall k: nat :: |s| <= k < |r| ==> r[k].at >= t
  }

  /** `r` is `s` and perhaps some samples of time `t`. */
  ghost predicate Adds(s: seq<Sample>, r: seq<Sample>, t: nat) {
    |s| <= |r| && r[..|s|] == s && forall k: nat :: |s| <= k < |r| ==> r[k].at == t
  }

  lemma AddsTwice(s: seq<Sample>, r: seq<Sample>, q: seq<Sample>, t: nat)
    requires Adds(s, r, t) && Adds(r, q, t)
    ensures Adds(s, q, t)
  {
    assert q[..|s|] == q[..|r|][..|s|];
    forall k: nat | |s| <= k < |q|
      ensures q[k].at == t
    {
      if k < |r| {
        assert q[k] == q[..|r|][k] == r[k];
      }
    }
  }

  lemma HalvesAdd(c: Channel, now: nat)
    ensures Adds(c.out.samples, High(c, now).out.samples, now) && Adds(c.out.samples, Low(c, now).out.samples, now)
  {
  }

  lemma AdvancedSamples(c: Channel, now: nat, perfin: bool)
    ensures Adds(c.out.samples, Advanced(c, now, perfin).out.samples, now)
  {
    hide High, Low, Adds;
    var stopped := c.(play := c.play.(evtime := None));
    SameAdds(c.out.samples, now);
    match c.play.state {
      case 0 => HalvesAdd(Entered(Loaded(Interrupted(c)), 2), now);
      case 5 =>
        var d := Entered(Requested(Loaded(c)), 2);
        HalvesAdd(d.(play := d.play.(intreq2 := false)), now);
      case 2 =>
        var d := High(c, now);
        HalvesAdd(c, now);
        HalvesAdd(Entered(d, 3), now);
        AddsTwice(c.out.samples, d.out.samples, Low(Entered(d, 3), now).out.samples, now);
      case 3 =>
        var d := Low(c, now);
        HalvesAdd(c, now);
        var e := Loaded(d);
        var f := if c.regs.ena then Requested(if e.play.intreq2 then Interrupted(e) else e) else Interrupted(e);
        var g := Entered(f, 2);
        var h := g.(play := g.play.(intreq2 := false));
        HalvesAdd(h, now);
        AddsTwice(c.out.samples, d.out.samples, High(h, now).out.samples, now);
      case _ =>
    }
  }

  lemma SameAdds(s: seq<Sample>, t: nat)
    ensures Adds(s, s, t)
  {
  }

  lemma {:induction false} SoundingSame(s: seq<Sample>, r: seq<Sample>, t: nat)
    requires GoesOn(s, r, t)
    ensures Sounding(r, t) == Sounding(s, t)
    decreases |r|
  {
    if |r| > |s| {
      var k := |r| - 1;
      assert r[k].at >= t;
      assert r[..k][..|s|] == r[..|s|];
      SoundingSame(s, r[..k], t);
    } else {
      assert r == s;
    }
  }

  lemma GoesOnTwice(s: seq<Sample>, r: seq<Sample>, q: seq<Sample>, t: nat, u: nat)
    requires GoesOn(s, r, t) && GoesOn(r, q, u) && t <= u
    ensures GoesOn(s, q, t)
  {
    assert q[..|s|] == q[..|r|][..|s|];
    forall k: nat | |s| <= k < |q|
      ensures q[k].at >= t
    {
      if k < |r| {
        assert q[k] == q[..|r|][k] == r[k];
      }
    }
  }

  lemma RoundSamples(c: Channel, now: nat, b: nat)
    requires Past(c.out.samples, now)
    ensures var r := Fired(Waited(c, b), now + b).out.samples;
            GoesOn(c.out.samples, r, now + b) && Past(r, now + b)
  {
    hide Advanced;
    AdvancedSamples(Waited(c, b), now + b, true);
    var (s, r) := (c.out.samples, Fired(Waited(c, b), now + b).out.samples);
    assert Adds(s, r, now + b);
    forall k: nat | k < |r|
      ensures r[k].at <= now + b
    {
      if k < |s| {
        assert r[k] == r[..|s|][k];
      }
    }
  }

  ghost predicate AllPast(a: Audio) {
    forall i: nat :: i < |a.chans| ==> Past(a.chans[i].out.samples, a.now)
  }

  /** What each channel sounded at an output sample, told from the samples in the end. */
  ghost predicate Hears(o: Output, chans: seq<Channel>) {
    |o.heard| == |chans| && forall i: nat :: i < |chans| ==> o.heard[i] == Sounding(chans[i].out.samples, o.at)
  }

  ghost predicate AllGoOn(a: seq<Channel>, r: seq<Channel>, t: nat) {
    |r| == |a| && forall i: nat :: i < |a| ==> GoesOn(a[i].out.samples, r[i].out.samples, t)
  }

  lemma HearsLater(o: Output, a: seq<Channel>, r: seq<Channel>, t: nat)
    requires Hears(o, a) && AllGoOn(a, r, t) && o.at <= t
    ensures Hears(o, r)
  {
    hide Sounding;
    forall i: nat | i < |r|
      ensures o.heard[i] == Sounding(r[i].out.samples, o.at)
    {
      SoundingSame(a[i].out.samples, r[i].out.samples, o.at);
    }
  }

  lemma RoundHears(p: Clocking, a: Audio, b: nat)
    requires AllPast(a) && b >= 1
    ensures var q := Round(p, a, b);
            && AllPast(q) && AllGoOn(a.chans, q.chans, a.now + b)
            && |a.outputs| <= |q.outputs| <= |a.outputs| + 1 && q.outputs[..|a.outputs|] == a.outputs
            && (|q.outputs| > |a.outputs| ==>
                  q.outputs[|a.outputs|].at == a.now + b && Hears(q.outputs[|a.outputs|], q.chans))
  {
    hide Advanced, Rounded, Fired, Past, GoesOn, Sounding;
    var q := Round(p, a, b);
    forall i: nat | i < |a.chans|
      ensures q.chans[i] == Fired(Waited(a.chans[i], b), a.now + b)
      ensures GoesOn(a.chans[i].out.samples, q.chans[i].out.samples, a.now + b) && Past(q.chans[i].out.samples, a.now + b)
      ensures Sounding(q.chans[i].out.samples, a.now + b) == Current(Waited(a.chans[i], b))
    {
      RoundSamples(a.chans[i], a.now, b);
      SoundingSame(a.chans[i].out.samples, q.chans[i].out.samples, a.now + b);
      CurrentSounds(a.chans[i], a.now, a.now + b, b);
    }
  }

  lemma CurrentSounds(c: Channel, now: nat, t: nat, b: nat)
    requires Past(c.out.samples, now) && now < t
    ensures Sounding(c.out.samples, t) == Current(Waited(c, b))
  {
  }

  /** Every output sample holds the byte each channel was sounding when it was taken. */
  lemma {:induction false} OutputsHear(p: Clocking, a: Audio, n: nat)
    requires Valid(p, a) && AllPast(a)
    ensures var r := Pump(p, a, n);
            && AllPast(r) && AllGoOn(a.chans, r.chans, a.now)
            && |r.outputs| >= |a.outputs| && r.outputs[..|a.outputs|] == a.outputs
            && forall k: nat :: |a.outputs| <= k < |r.outputs| ==> r.outputs[k].at >= a.now && Hears(r.outputs[k], r.chans)
    decreases n
  {
    hide Round, Best, Valid, Hears, Past, GoesOn;
    if n == 0 {
      NothingNew(a.chans, a.now);
    } else {
      var b := Best(p, a, n);
      BestIsPositive(p, a, n);
      RoundKeeps(p, a, n);
      var q := Round(p, a, b);
      RoundHears(p, a, b);
      RoundTime(p, a, b);
      OutputsHear(p, q, n - b);
      var r := Pump(p, a, n);
      AllGoOnTwice(a.chans, q.chans, r.chans, a.now, a.now + b);
      var l := |a.outputs|;
      assert r.outputs[..l] == r.outputs[..|q.outputs|][..l];
      if |q.outputs| > l {
        assert r.outputs[l] == r.outputs[..|q.outputs|][l] == q.outputs[l];
        HearsLater(q.outputs[l], q.chans, r.chans, q.now);
      }
    }
  }

  lemma RoundTime(p: Clocking, a: Audio, b: nat)
    ensures Round(p, a, b).now == a.now + b
  {
    hide FiredAll, WaitedAll, Heard, Due;
  }

  lemma NothingNew(cs: seq<Channel>, t: nat)
    ensures AllGoOn(cs, cs, t)
  {
  }

  lemma AllGoOnTwice(a: seq<Channel>, q: seq<Channel>, r: seq<Channel>, t: nat, u: nat)
    requires AllGoOn(a, q, u) && AllGoOn(q, r, u) && t <= u
    ensures AllGoOn(a, r, t)
  {
    hide GoesOn;
    forall i: nat | i < |a|
      ensures GoesOn(a[i].out.samples, r[i].out.samples, t)
    {
      GoesOnTwice(a[i].out.samples, q[i].out.samples, r[i].out.samples, u, u);
      GoesOnEarlier(a[i].out.samples, r[i].out.samples, t, u);
    }
  }

  lemma GoesOnEarlier(s: seq<Sample>, r: seq<Sample>, t: nat, u: nat)
    requires GoesOn(s, r, u) && t <= u
    ensures GoesOn(s, r, t)
  {
  }
}
