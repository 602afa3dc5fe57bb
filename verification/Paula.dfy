/** Paula's channels as objects, and the loop that drives them. */
module Paula {
  import opened Words
  import opened Wrappers
  import opened PaulaModel
  import opened AudioEvents

  class AudioChannel {
    var regs: Regs
    var dma: Dma
    var play: Play
    var out: Out

    function State(): Channel
      reads this
    {
      Channel(regs, dma, play, out)
    }

    /** audio_reset */
    constructor (r: Regs)
      ensures State() == Channel(r, Dma(false, false, 0, 0), Play(0, None, false, false, 0, 0, false), Out([], [], false))
    {
      regs := r;
      dma := Dma(false, false, 0, 0);
      play := Play(0, None, false, false, 0, 0, false);
      out := Out([], [], false);
    }

    method ZeroState()
      modifies this`play
      ensures State() == Zeroed(old(State()))
    {
      play := play.(state := 0, evtime := None, intreq2 := false);
    }

    method SetIrq()
      modifies this`out
      ensures State() == Interrupted(old(State()))
    {
      out := out.(irqs := out.irqs + [|out.samples|], irq := true);
    }

    method SetDr()
      modifies this`dma
      ensures State() == Requested(old(State()))
    {
      dma := dma.(dr := true);
      if dma.wlen == 1 {
        dma := dma.(dsr := true);
      }
    }

    method LoadDat()
      modifies this`play
      ensures State() == Loaded(old(State()))
    {
      play := play.(dat2 := play.dat);
    }

    /** newsample and loadper, and the buffer has been used. */
    method NewSample(now: nat, value: Byte)
      modifies this`play, this`out
      ensures State() == Sounded(old(State()), now, value)
    {
      out := out.(samples := out.samples + [Sample(now, value)]);
      play := play.(evtime := Some(regs.per));
      play := play.(pbufldl := false);
    }

    /** audio_state_channel2 */
    method StateMachine(now: nat, perfin: bool)
      modifies this`dma, this`play, this`out
      ensures State() == Stepped(old(State()), now, perfin)
      decreases if (play.state == 2 || play.state == 3) && !perfin then 0 else 1
    {
      match play.state
      case 0 =>
        if regs.ena {
          play := play.(evtime := None, state := 1);
          dma := dma.(dr := true, wlen := regs.len, dsr := true);
        } else if play.datWritten && !out.irq {
          play := play.(state := 2);
          SetIrq();
          LoadDat();
          play := play.(pbufldl := true);
          StateMachine(now, false);
        } else {
          ZeroState();
        }
      case 1 =>
        play := play.(evtime := None);
        if !regs.ena {
          ZeroState();
          return;
        }
        if !play.datWritten {
          return;
        }
        SetIrq();
        SetDr();
        if dma.wlen != 1 {
          dma := dma.(wlen := (dma.wlen - 1) % 0x1_0000);
        }
        play := play.(state := 5);
      case 5 =>
        play := play.(evtime := None);
        if !regs.ena {
          ZeroState();
          return;
        }
        if !play.datWritten {
          return;
        }
        LoadDat();
        SetDr();
        play := play.(state := 2, evtime := Some(regs.per), pbufldl := true, intreq2 := false);
        StateMachine(now, false);
      case 2 => HighByte(now, perfin);
      case 3 => LowByte(now, perfin);
      case _ =>
    }

    method HighByte(now: nat, perfin: bool)
      requires play.state == 2
      modifies this`dma, this`play, this`out
      ensures State() == Stepped(old(State()), now, perfin)
      decreases if perfin then 1 else 0, 0
    {
      if play.pbufldl {
        NewSample(now, play.dat2 / 0x100);
      }
      if !perfin {
        return;
      }
      play := play.(pbufldl := true, state := 3);
      LowByte(now, false);
    }

    method LowByte(now: nat, perfin: bool)
      requires play.state == 3
      modifies this`dma, this`play, this`out
      ensures State() == Stepped(old(State()), now, perfin)
      decreases if perfin then 1 else 0, 0
    {
      if play.pbufldl {
        NewSample(now, play.dat2 % 0x100);
      }
      if !perfin {
        return;
      }
      if regs.ena {
        LoadDat();
        if play.intreq2 {
          SetIrq();
        }
        SetDr();
      } else {
        if out.irq {
          ZeroState();
          return;
        }
        LoadDat();
        SetIrq();
      }
      play := play.(intreq2 := false, pbufldl := true, state := 2);
      HighByte(now, false);
    }

    /** audio_state_channel */
    method Advance(now: nat, perfin: bool)
      modifies this`dma, this`play, this`out
      ensures State() == Advanced(old(State()), now, perfin)
    {
      StateMachine(now, perfin);
      play := play.(datWritten := false);
    }

    /** AUDxDAT */
    method WriteDat(now: nat, v: Word)
      modifies this`dma, this`play, this`out
      ensures State() == Written(old(State()), now, v)
    {
      hide Stepped;
      play := play.(dat := v, datWritten := true);
      if play.state == 2 || play.state == 3 {
        if regs.ena {
          if dma.wlen == 1 {
            dma := dma.(wlen := regs.len);
            play := play.(intreq2 := true);
          } else {
            dma := dma.(wlen := (dma.wlen - 1) % 0x1_0000);
          }
        }
      } else {
        Advance(now, false);
      }
      play := play.(datWritten := false);
    }

    /** audio_getpt */
    method GetPt(reset: bool) returns (p: Long)
      modifies this`dma
      ensures p == old(dma.pt) && State() == Fetched(old(State()), reset)
    {
      p := dma.pt;
      dma := dma.(pt := Wrap(dma.pt + 2));
      if reset {
        dma := dma.(pt := regs.lc);
      }
    }

    /** The channel's part of audio_dmal: the slot it gets, if any, and whether that reloads the pointer. */
    method TakeRequest() returns (slot: Option<bool>)
      modifies this`dma
      ensures slot == if old(dma.dr) || old(dma.dsr) then Some(old(dma.dsr)) else None
      ensures State() == old(State()).(dma := old(dma).(dr := false, dsr := false))
    {
      slot := if dma.dr || dma.dsr then Some(dma.dsr) else None;
      dma := dma.(dr := false, dsr := false);
    }

    method Wait(b: nat)
      requires play.evtime.Some? ==> play.evtime.value >= b
      modifies this`play
      ensures State() == Waited(old(State()), b)
    {
      if play.evtime.Some? {
        play := play.(evtime := Some(play.evtime.value - b));
      }
    }

    /** The end of a round for one channel. */
    method Fire(now: nat)
      modifies this`dma, this`play, this`out
      ensures State() == Fired(old(State()), now)
    {
      hide Advanced;
      if play.evtime == Some(0) {
        Advance(now, true);
        if play.evtime == Some(0) {
          play := play.(evtime := None);
        }
      }
    }
  }

  function States(cs: seq<AudioChannel>): (r: seq<Channel>)
    reads cs
    ensures |r| == |cs| && forall i: nat :: i < |cs| ==> r[i] == cs[i].State()
  {
    if cs == [] then [] else States(cs[..|cs| - 1]) + [cs[|cs| - 1].State()]
  }

  class Mixer {
    const channels: seq<AudioChannel>
    const clocking: Clocking
    var nextSample: real
    var now: nat
    var outputs: seq<AudioEvents.Output>

    ghost predicate Valid() {
      forall i: nat, j: nat :: i < j < |channels| ==> channels[i] != channels[j]
    }

    function State(): Audio
      reads this, channels
    {
      Audio(States(channels), nextSample, now, outputs)
    }

    constructor (cs: seq<AudioChannel>, c: Clocking)
      requires forall i: nat, j: nat :: i < j < |cs| ==> cs[i] != cs[j]
      ensures Valid() && channels == cs && State() == Audio(States(cs), c.period, 0, []) && clocking == c
    {
      channels, clocking := cs, c;
      nextSample, now, outputs := c.period, 0, [];
    }

    /** update_audio, `cycles` after the last call. */
    method UpdateAudio(cycles: nat)
      requires Valid() && AudioEvents.Valid(clocking, State())
      modifies this, channels
      ensures State() == Pump(clocking, old(State()), cycles)
    {
      hide Pump, Round, Best;
      var left := cycles;
      PumpStep(clocking, State(), left);
      while left > 0
        invariant AudioEvents.Valid(clocking, State())
        invariant Pump(clocking, State(), left) == Pump(clocking, old(State()), cycles)
        invariant left == 0 ==> Pump(clocking, State(), left) == State()
        decreases left
      {
        PumpStep(clocking, State(), left);
        var b := NextEvent(left);
        BestIsFirst(clocking, State(), left);
        assert forall i: nat :: i < |channels| ==> States(channels)[i] == channels[i].State();
        Take(b);
        left := left - b;
        PumpStep(clocking, State(), left);
      }
    }

    static lemma PumpStep(p: Clocking, a: Audio, n: nat)
      requires AudioEvents.Valid(p, a)
      ensures n == 0 ==> Pump(p, a, n) == a
      ensures n > 0 ==> 1 <= Best(p, a, n) <= n && AudioEvents.Valid(p, Round(p, a, Best(p, a, n))) &&
                        Pump(p, a, n) == Pump(p, Round(p, a, Best(p, a, n)), n - Best(p, a, n))
    {
      hide Round, Best;
      if n > 0 {
        BestIsPositive(p, a, n);
        RoundKeeps(p, a, n);
      }
    }

    static lemma BestIsFirst(p: Clocking, a: Audio, n: nat)
      ensures forall i: nat :: i < |a.chans| && a.chans[i].play.evtime.Some? ==> Best(p, a, n) <= a.chans[i].play.evtime.value
    {
    }

    /** The time to the next event, or what is left if that is less. */
    method NextEvent(left: nat) returns (best: nat)
      requires AudioEvents.Valid(clocking, State()) && left > 0
      ensures best == Best(clocking, State(), left)
    {
      best := left + 1;
      for i := 0 to |channels|
        invariant best == Soonest(States(channels)[..i], left + 1)
      {
        assert States(channels)[..i + 1][..i] == States(channels)[..i];
        if channels[i].play.evtime.Some? && best > channels[i].play.evtime.value {
          best := channels[i].play.evtime.value;
        }
      }
      assert States(channels)[..|channels|] == States(channels);
      FirstOf(clocking, State(), left);
      var rounded := RoundedTime();
      if clocking.sounding && best > rounded {
        best := rounded;
      }
      if best > left {
        best := left;
      }
    }

    static lemma FirstOf(p: Clocking, a: Audio, n: nat)
      requires AudioEvents.Valid(p, a) && n > 0
      ensures p.sounding ==> Rounded(a.clock) >= 1
      ensures var m := Soonest(a.chans, n + 1);
              var m1 := if p.sounding && m > Rounded(a.clock) then Rounded(a.clock) else m;
              Best(p, a, n) == if m1 > n then n else m1
    {
      hide Soonest;
      SoonestCap(a.chans, Cap(p, a.clock, n), n + 1);
    }

    method RoundedTime() returns (rounded: int)
      ensures rounded == Rounded(nextSample)
    {
      rounded := nextSample.Floor;
      if nextSample - rounded as real >= 0.5 {
        rounded := rounded + 1;
      }
    }

    /** One round. */
    method Take(b: nat)
      requires Valid() && (forall i: nat :: i < |channels| && channels[i].play.evtime.Some? ==> channels[i].play.evtime.value >= b)
      modifies this, channels
      ensures State() == Round(clocking, old(State()), b)
    {
      hide Rounded, Fired, Waited, Advanced, WaitedAll, FiredAll, Heard, Ahead, States, AudioChannel.State, Round;
      ghost var was := State();
      RoundIs(clocking, was, b);
      var rounded := RoundedTime();
      PassTime(b);
      OutputIf(clocking.sounding && rounded == b);
      FireAll();
    }

    static lemma RoundIs(p: Clocking, a: Audio, b: nat)
      ensures var cs := WaitedAll(a.chans, b);
              var due := p.sounding && Rounded(a.clock) == b;
              Round(p, a, b) ==
              Audio(FiredAll(cs, a.now + b), a.clock - b as real + (if due then p.period else 0.0), a.now + b,
                    a.outputs + if due then [AudioEvents.Output(a.now + b, Heard(cs))] else [])
    {
      hide Rounded, WaitedAll, FiredAll, Heard;
    }

    method PassTime(b: nat)
      requires Valid() && (forall i: nat :: i < |channels| && channels[i].play.evtime.Some? ==> channels[i].play.evtime.value >= b)
      modifies this`nextSample, this`now, channels
      ensures nextSample == old(nextSample) - b as real && now == old(now) + b
      ensures States(channels) == WaitedAll(old(States(channels)), b)
    {
      hide WaitedAll, Waited;
      nextSample := nextSample - b as real;
      now := now + b;
      WaitAll(b);
    }

    method OutputIf(due: bool)
      modifies this`nextSample, this`outputs
      ensures States(channels) == old(States(channels))
      ensures nextSample == old(nextSample) + if due then clocking.period else 0.0
      ensures outputs == old(outputs) + if due then [AudioEvents.Output(now, Heard(States(channels)))] else []
    {
      hide States, Heard;
      if due {
        Output();
      }
    }

    /** An output sample, and the time to the next. */
    method Output()
      modifies this`nextSample, this`outputs
      ensures nextSample == old(nextSample) + clocking.period && States(channels) == old(States(channels))
      ensures outputs == old(outputs) + [AudioEvents.Output(now, Heard(States(channels)))]
    {
      nextSample := nextSample + clocking.period;
      outputs := outputs + [AudioEvents.Output(now, Heard(States(channels)))];
    }

    method WaitAll(b: nat)
      requires Valid() && (forall i: nat :: i < |channels| && channels[i].play.evtime.Some? ==> channels[i].play.evtime.value >= b)
      modifies channels
      ensures States(channels) == WaitedAll(old(States(channels)), b)
    {
      hide Waited;
      ghost var was := States(channels);
      for i := 0 to |channels|
        invariant forall k: nat :: k < |channels| ==> channels[k].State() == if k < i then Waited(was[k], b) else was[k]
      {
        assert channels[i].State() == was[i];
        channels[i].Wait(b);
      }
    }

    method FireAll()
      requires Valid()
      modifies channels
      ensures States(channels) == AudioEvents.FiredAll(old(States(channels)), now)
    {
      hide Fired;
      ghost var was := States(channels);
      for i := 0 to |channels|
        invariant forall k: nat :: k < |channels| ==> channels[k].State() == if k < i then Fired(was[k], now) else was[k]
      {
        channels[i].Fire(now);
      }
    }
  }
}
