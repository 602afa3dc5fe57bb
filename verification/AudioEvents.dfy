/** update_audio: how the channels and the sample clock share one stretch of time. */
module AudioEvents {
  import opened Words
  import opened Wrappers
  import opened PaulaModel

  /** Whether sound is produced, and the time from one output sample to the next. */
  datatype Clocking = Clocking(sounding: bool, period: real)

  /** An output sample: when, and what the channels sounded then. */
  datatype Output = Output(at: nat, heard: seq<Byte>)

  datatype Audio = Audio(chans: seq<Channel>, clock: real, now: nat, outputs: seq<Output>)

  /** To the nearest integer, halves upwards. */
  function Rounded(x: real): int {
    (x + 0.5).Floor
  }

  lemma RoundedShift(x: real, k: nat)
    ensures Rounded(x - k as real) == Rounded(x) - k
  {
  }

  ghost predicate Ahead(c: Channel) {
    c.play.evtime.Some? ==> c.play.evtime.value >= 1
  }

  ghost predicate Valid(p: Clocking, a: Audio) {
    && (forall i: nat :: i < |a.chans| ==> Ahead(a.chans[i]))
    && p.period >= 1.0 && (p.sounding ==> a.clock >= 0.5)
  }

  /** The first of the channels' events, and of `cap`. */
  function Soonest(cs: seq<Channel>, cap: nat): (m: nat)
    ensures m <= cap
    ensures forall i: nat :: i < |cs| && cs[i].play.evtime.Some? ==> m <= cs[i].play.evtime.value
    ensures cap >= 1 && (forall i: nat :: i < |cs| ==> Ahead(cs[i])) ==> m >= 1
  {
    if cs == [] then cap else
      var m := Soonest(cs[..|cs| - 1], cap);
      var e := cs[|cs| - 1].play.evtime;
      if e.Some? && e.value < m then e.value else m
  }

  lemma {:induction false} SoonestCap(cs: seq<Channel>, c: nat, d: nat)
    requires c <= d
    ensures Soonest(cs, c) == if Soonest(cs, d) < c then Soonest(cs, d) else c
  {
    if cs != [] {
      SoonestCap(cs[..|cs| - 1], c, d);
    }
  }

  function Waited(c: Channel, b: nat): Channel {
    if c.play.evtime.Some? && c.play.evtime.value >= b then
      c.(play := c.play.(evtime := Some(c.play.evtime.value - b)))
    else c
  }

  function WaitedAll(cs: seq<Channel>, b: nat): (r: seq<Channel>)
    ensures |r| == |cs|
  {
    seq(|cs|, i requires 0 <= i < |cs| => Waited(cs[i], b))
  }

  lemma {:induction false} SoonestShift(cs: seq<Channel>, cap: nat, x: nat)
    requires x <= Soonest(cs, cap)
    ensures Soonest(WaitedAll(cs, x), cap - x) == Soonest(cs, cap) - x
  {
    if cs != [] {
      var n := |cs| - 1;
      SoonestShift(cs[..n], cap, x);
      assert WaitedAll(cs, x)[..n] == WaitedAll(cs[..n], x);
    }
  }

  /** A channel whose period has ended is advanced; one that leaves no time to wait is switched off. */
  function Fired(c: Channel, now: nat): Channel {
    if c.play.evtime != Some(0) then c else
      var d := Advanced(c, now, true);
      if d.play.evtime == Some(0) then d.(play := d.play.(evtime := None)) else d
  }

  function FiredAll(cs: seq<Channel>, now: nat): (r: seq<Channel>)
    ensures |r| == |cs|
  {
    seq(|cs|, i requires 0 <= i < |cs| => Fired(cs[i], now))
  }

  function Current(c: Channel): Byte {
    if c.out.samples == [] then 0 else c.out.samples[|c.out.samples| - 1].value
  }

  function Heard(cs: seq<Channel>): seq<Byte> {
    seq(|cs|, i requires 0 <= i < |cs| => Current(cs[i]))
  }

  /** The next output sample, if it is due within `n` cycles. */
  function Cap(p: Clocking, clock: real, n: nat): (c: nat)
    ensures c <= n
  {
    if p.sounding && 0 <= Rounded(clock) < n then Rounded(clock) else n
  }

  /** How far one round goes. */
  function Best(p: Clocking, a: Audio, n: nat): (b: nat)
    ensures b <= n
  {
    Soonest(a.chans, Cap(p, a.clock, n))
  }

  predicate Due(p: Clocking, a: Audio, b: nat) {
    p.sounding && Rounded(a.clock) == b
  }

  /** One round: time passes, an output sample is taken if it is due, and the channels whose time has come advance. */
  function Round(p: Clocking, a: Audio, b: nat): Audio {
    var (now, cs) := (a.now + b, WaitedAll(a.chans, b));
    Audio(FiredAll(cs, now),
          a.clock - b as real + (if Due(p, a, b) then p.period else 0.0),
          now,
          a.outputs + if Due(p, a, b) then [Output(now, Heard(cs))] else [])
  }

  lemma BestIsPositive(p: Clocking, a: Audio, n: nat)
    requires Valid(p, a) && n > 0
    ensures 1 <= Best(p, a, n) <= n && (p.sounding ==> Best(p, a, n) <= Rounded(a.clock))
  {
  }

  lemma RoundKeeps(p: Clocking, a: Audio, n: nat)
    requires Valid(p, a) && n > 0
    ensures Valid(p, Round(p, a, Best(p, a, n)))
  {
    hide Advanced;
    var b := Best(p, a, n);
    BestIsPositive(p, a, n);
    var r := Round(p, a, b);
    forall i: nat | i < |r.chans|
      ensures Ahead(r.chans[i])
    {
      assert r.chans[i] == Fired(Waited(a.chans[i], b), a.now + b);
    }
  }

  /** A call of update_audio after `n` cycles. */
  function Pump(p: Clocking, a: Audio, n: nat): (r: Audio)
    requires Valid(p, a)
    ensures Valid(p, r)
    decreases n
  {
    if n == 0 then a else
      BestIsPositive(p, a, n);
      RoundKeeps(p, a, n);
      Pump(p, Round(p, a, Best(p, a, n)), n - Best(p, a, n))
  }

  /** Nothing happens in a round that ends before the next event. */
  lemma QuietRound(p: Clocking, a: Audio, x: nat, y: nat)
    requires Valid(p, a) && 0 < x < Best(p, a, x + y)
    ensures Best(p, a, x) == x
    ensures Round(p, a, x) == Audio(WaitedAll(a.chans, x), a.clock - x as real, a.now + x, a.outputs)
  {
    hide Advanced;
    var b := Best(p, a, x + y);
    BestIsPositive(p, a, x + y);
    SoonestCap(a.chans, x, Cap(p, a.clock, x + y));
    var (cs, r) := (WaitedAll(a.chans, x), Round(p, a, x));
    forall i: nat | i < |cs|
      ensures Fired(cs[i], a.now + x) == cs[i]
    {
      assert cs[i] == Waited(a.chans[i], x);
      assert a.chans[i].play.evtime.Some? ==> b <= a.chans[i].play.evtime.value;
    }
    assert FiredAll(cs, a.now + x) == cs;
  }

  lemma BestLeft(p: Clocking, a: Audio, w: Audio, x: nat, y: nat)
    requires x < Best(p, a, x + y) && w.chans == WaitedAll(a.chans, x) && w.clock == a.clock - x as real
    ensures Best(p, w, y) == Best(p, a, x + y) - x
  {
    hide Rounded, WaitedAll;
    RoundedShift(a.clock, x);
    SoonestShift(a.chans, Cap(p, a.clock, x + y), x);
  }

  /** A round taken in two parts is the round taken at once. */
  lemma RoundInTwo(p: Clocking, a: Audio, x: nat, y: nat)
    requires Valid(p, a) && 0 < x < Best(p, a, x + y)
    ensures var (b, w) := (Best(p, a, x + y), Round(p, a, x));
            Best(p, w, y) == b - x && Round(p, w, b - x) == Round(p, a, b)
  {
    hide Rounded, Round, WaitedAll, Cap;
    var (b, w) := (Best(p, a, x + y), Round(p, a, x));
    QuietRound(p, a, x, y);
    RoundedShift(a.clock, x);
    BestLeft(p, a, w, x, y);
    WaitedTwice(a.chans, x, b);
    SecondPart(p, a, w, x, b);
  }

  lemma SecondPart(p: Clocking, a: Audio, w: Audio, x: nat, b: nat)
    requires x <= b && w == Audio(WaitedAll(a.chans, x), a.clock - x as real, a.now + x, a.outputs)
    requires WaitedAll(WaitedAll(a.chans, x), b - x) == WaitedAll(a.chans, b) && Rounded(w.clock) == Rounded(a.clock) - x
    ensures Round(p, w, b - x) == Round(p, a, b)
  {
    hide Rounded, FiredAll, WaitedAll, Heard;
    assert a.clock - x as real - (b - x) as real == a.clock - b as real;
  }

  lemma WaitedTwice(cs: seq<Channel>, x: nat, b: nat)
    requires x <= b && forall i: nat :: i < |cs| && cs[i].play.evtime.Some? ==> b <= cs[i].play.evtime.value
    ensures WaitedAll(WaitedAll(cs, x), b - x) == WaitedAll(cs, b)
  {
  }

  /** How elapsed time is chopped up makes no difference. */
  lemma {:induction false} SplitOnce(p: Clocking, a: Audio, x: nat, y: nat)
    requires Valid(p, a)
    ensures Pump(p, a, x + y) == Pump(p, Pump(p, a, x), y)
    decreases x
  {
    hide Round, Best, Valid;
    if x > 0 && y > 0 {
      var b := Best(p, a, x + y);
      BestIsPositive(p, a, x + y);
      if b <= x {
        SameBest(p, a, x, y);
        RoundKeeps(p, a, x);
        SplitOnce(p, Round(p, a, b), x - b, y);
      } else {
        QuietRound(p, a, x, y);
        RoundInTwo(p, a, x, y);
      }
    }
  }

  lemma SameBest(p: Clocking, a: Audio, x: nat, y: nat)
    requires Best(p, a, x + y) <= x
    ensures Best(p, a, x) == Best(p, a, x + y)
  {
    var cap := Cap(p, a.clock, x + y);
    var cap1 := Cap(p, a.clock, x);
    SoonestCap(a.chans, cap1, cap);
  }

  function Total(ns: seq<nat>): nat {
    if ns == [] then 0 else ns[0] + Total(ns[1..])
  }

  function PumpAll(p: Clocking, a: Audio, ns: seq<nat>): (r: Audio)
    requires Valid(p, a)
    decreases |ns|
  {
    if ns == [] then a else PumpAll(p, Pump(p, a, ns[0]), ns[1..])
  }

  /** Any sequence of calls leaves the same channels, samples, interrupts and output instants as one call. */
  lemma {:induction false} SplitAnyhow(p: Clocking, a: Audio, ns: seq<nat>)
    requires Valid(p, a)
    ensures PumpAll(p, a, ns) == Pump(p, a, Total(ns))
    decreases |ns|
  {
    hide Pump;
    if ns == [] {
      PumpNone(p, a);
    } else {
      SplitAnyhow(p, Pump(p, a, ns[0]), ns[1..]);
      SplitOnce(p, a, ns[0], Total(ns[1..]));
    }
  }

  lemma PumpNone(p: Clocking, a: Audio)
    requires Valid(p, a)
    ensures Pump(p, a, 0) == a
  {
  }

  /** `k` periods of the sample clock. */
  function Ticks(period: real, k: int): real {
    period * k as real
  }

  lemma TicksAdd(period: real, k: int)
    ensures Ticks(period, k + 1) == Ticks(period, k) + period
    ensures Ticks(period, 0) == 0.0
  {
    assert (k + 1) as real == k as real + 1.0;
  }

  /** Time moves on by exactly the cycles given, and the output clock stays within a period of it. */
  lemma {:induction false} PumpTime(p: Clocking, a: Audio, n: nat)
    requires Valid(p, a)
    ensures var r := Pump(p, a, n);
            && r.now == a.now + n
            && |r.chans| == |a.chans|
            && r.clock + r.now as real == a.clock + a.now as real + Ticks(p.period, |r.outputs| - |a.outputs|)
    decreases n
  {
    hide Best, Valid, FiredAll, WaitedAll, Rounded, Ticks, Due, Heard;
    TicksAdd(p.period, 0);
    if n > 0 {
      var b := Best(p, a, n);
      BestIsPositive(p, a, n);
      RoundKeeps(p, a, n);
      PumpTime(p, Round(p, a, b), n - b);
      TicksAdd(p.period, |Pump(p, a, n).outputs| - |a.outputs| - 1);
    }
  }

  /** With the sound off no sample is output, and the clock runs on. */
  lemma {:induction false} NoOutput(p: Clocking, a: Audio, n: nat)
    requires Valid(p, a) && !p.sounding
    ensures var r := Pump(p, a, n);
            r.outputs == a.outputs && r.clock == a.clock - n as real
    decreases n
  {
    hide Valid, FiredAll, WaitedAll, Rounded, Heard, Soonest;
    if n > 0 {
      var b := Best(p, a, n);
      BestIsPositive(p, a, n);
      RoundKeeps(p, a, n);
      NoOutput(p, Round(p, a, b), n - b);
    }
  }

  /** When output sample number `i` is due, counted from the samples there were. */
  function DueAt(p: Clocking, a: Audio, i: int): int {
    Rounded(a.clock + a.now as real + Ticks(p.period, i - |a.outputs|))
  }

  /** Samples are output at the integers nearest to the ticks of a clock of exactly the given period, none is left out,
      and none comes early. */
  lemma {:induction false} OutputInstants(p: Clocking, a: Audio, n: nat)
    requires Valid(p, a) && p.sounding
    ensures var r := Pump(p, a, n);
            && |r.outputs| >= |a.outputs|
            && (forall i: nat :: i < |a.outputs| ==> r.outputs[i] == a.outputs[i])
            && (forall i: nat :: |a.outputs| <= i < |r.outputs| ==> r.outputs[i].at == DueAt(p, a, i))
            && DueAt(p, a, |r.outputs|) > r.now
    decreases n
  {
    hide Best, Valid, FiredAll, WaitedAll, Rounded, Heard;
    if n == 0 {
      NextIsLater(p, a);
    } else {
      var b := Best(p, a, n);
      BestIsPositive(p, a, n);
      RoundKeeps(p, a, n);
      var q := Round(p, a, b);
      OutputInstants(p, q, n - b);
      SameTicks(p, a, b);
      RoundedAdd(a.clock, a.now);
    }
  }

  lemma NextIsLater(p: Clocking, a: Audio)
    requires Valid(p, a) && p.sounding
    ensures DueAt(p, a, |a.outputs|) > a.now
  {
    hide Ticks;
    TicksAdd(p.period, 0);
  }

  lemma SameTicks(p: Clocking, a: Audio, b: nat)
    ensures var q := Round(p, a, b);
            forall i: int :: DueAt(p, q, i) == DueAt(p, a, i)
    ensures DueAt(p, a, |a.outputs|) == Rounded(a.clock + a.now as real)
  {
    hide Round, Rounded, DueAt;
    forall i: int
      ensures DueAt(p, Round(p, a, b), i) == DueAt(p, a, i)
    {
      SameTick(p, a, b, i);
    }
    FirstTick(p, a);
  }

  lemma FirstTick(p: Clocking, a: Audio)
    ensures DueAt(p, a, |a.outputs|) == Rounded(a.clock + a.now as real)
  {
    hide Rounded, Ticks;
    TicksAdd(p.period, 0);
  }

  lemma SameTick(p: Clocking, a: Audio, b: nat, i: int)
    ensures DueAt(p, Round(p, a, b), i) == DueAt(p, a, i)
  {
    hide FiredAll, WaitedAll, Rounded, Heard, Due, Ticks;
    var q := Round(p, a, b);
    assert q.now as real == a.now as real + b as real;
    TicksAdd(p.period, i - |a.outputs| - 1);
    assert q.clock + q.now as real + Ticks(p.period, i - |q.outputs|) == a.clock + a.now as real + Ticks(p.period, i - |a.outputs|);
  }

  lemma RoundedAdd(x: real, k: nat)
    ensures Rounded(x + k as real) == Rounded(x) + k
  {
  }
}
