/** Runs of the cycle-exact machine over arbitrary bus schedules. */
module PipeRuns {
  import opened Words
  import opened Arith
  import opened BlitterModel
  import opened BlitterPipe
  import opened PipeRefines

  predicate SameControl(p: Pipe, q: Pipe) {
    p.cyc == q.cyc && p.final == q.final && p.wait == q.wait && p.done == q.done && p.irq == q.irq
  }

  /** Fetching and computing leave the sequencing alone. */
  lemma DmaControl(s: Setup, p: Pipe, ch: nat)
    ensures SameControl(p, DoDma(s, p, ch))
  {
    hide FetchCount, Load, Compute;
    LoadControl(s, p, ch);
    LatchControl(s, Load(s, p, ch));
  }

  lemma LoadControl(s: Setup, p: Pipe, ch: nat)
    ensures SameControl(p, Load(s, p, ch))
  {
    hide LoadData, StepSource;
  }

  lemma LatchControl(s: Setup, p: Pipe)
    ensures SameControl(p, Compute(s, p))
  {
    hide Step, DoBlit;
    assert SameControl(p, Latch(s, p));
  }

  lemma TakeControl(s: Setup, p: Pipe)
    ensures SameControl(p, TakeWord(s, p).0)
    ensures TakeWord(s, p.(final := false)) == (TakeWord(s, p).0.(final := false), TakeWord(s, p).1)
  {
    hide DoBlit, FetchCount;
  }

  lemma PutControl(s: Setup, p: Pipe, d: Word)
    ensures SameControl(p, Put(s, p, d))
    ensures Put(s, p.(final := false), d) == Put(s, p, d).(final := false)
  {
    hide Step, RowsDone, Write;
  }

  lemma StoreFinal(s: Setup, p: Pipe, r: Pipe)
    requires r == Put(s, TakeWord(s, p).0, TakeWord(s, p).1)
    requires TakeWord(s, p.(final := false)) == (TakeWord(s, p).0.(final := false), TakeWord(s, p).1)
    requires Put(s, TakeWord(s, p).0.(final := false), TakeWord(s, p).1) == r.(final := false)
    ensures DoDDma(s, p.(final := false)) == DoDDma(s, p).(final := false)
  {
    hide FetchCount, Channels, TakeWord, Put, DoDDma;
    StoreIs(s, p);
    StoreIs(s, p.(final := false));
  }

  lemma StoreIs(s: Setup, p: Pipe)
    ensures DoDDma(s, p) ==
            if FetchCount(s) > 0 && !p.use2 && !p.use1 then p else
              var r := Put(s, TakeWord(s, p).0, TakeWord(s, p).1);
              if Channels(s) == 1 then r.(h1 := r.h2) else r
  {
    hide FetchCount, Channels, TakeWord, Put;
  }

  /** Storing leaves the sequencing alone and does not look at it. */
  lemma StoreControl(s: Setup, p: Pipe)
    ensures SameControl(p, DoDDma(s, p))
    ensures DoDDma(s, p.(final := false)) == DoDDma(s, p).(final := false)
  {
    hide SameControl, DoDDma;
    StoreSame(s, p);
    StoreBlind(s, p);
  }

  lemma StoreSame(s: Setup, p: Pipe)
    ensures SameControl(p, DoDDma(s, p))
  {
    hide FetchCount, Channels, TakeWord, Put, DoDDma;
    StoreIs(s, p);
    TakeControl(s, p);
    PutControl(s, TakeWord(s, p).0, TakeWord(s, p).1);
  }

  lemma StoreBlind(s: Setup, p: Pipe)
    ensures DoDDma(s, p.(final := false)) == DoDDma(s, p).(final := false)
  {
    hide SameControl, FetchCount, Channels, TakeWord, Put, DoDDma;
    TakeControl(s, p);
    PutControl(s, TakeWord(s, p).0, TakeWord(s, p).1);
    StoreFinal(s, p, Put(s, TakeWord(s, p).0, TakeWord(s, p).1));
  }

  lemma PosAt(d: Diagram, k: nat, pos: nat)
    requires |d.first| == |d.main| && pos < |d.main|
    ensures ChannelPos(d, k * |d.main| + pos) == pos
    ensures ChannelState(d, k * |d.main| + pos) == if k == 0 then d.first[pos] else d.main[pos]
  {
    var n := |d.main|;
    if k > 0 {
      assert k * n + pos - n == (k - 1) * n + pos;
      assert (k - 1) * n >= 0;
      DivModIs(k * n + pos - n, n, k - 1, pos);
    }
  }

  function LastWord(s: Setup): (k: nat)
    requires s.Sized()
    ensures k + 1 == s.Words()
  {
    s.Words() - 1
  }

  lemma NextChannelRange(s: Setup, p: Pipe)
    ensures NextChannel(s, p) <= 4
  {
  }

  /** Where a blit stands: warming up, in cycle `pos` of pass `k`, in the final two cycles, or over. */
  datatype Stage = Warm(left: nat) | Pass(k: nat, pos: nat) | Tail(cyc: nat) | Ended

  predicate HasChannels(s: Setup) {
    Fetching(s) || s.useD
  }

  predicate Ready(s: Setup, p0: Pointers, c0: Core, p: Pipe, k: nat, pos: nat)
    requires s.Sized() && pos <= Rate(s)
  {
    if Fetching(s) then
      InPass(s, p0, c0, p, k, pos, AllIn(s, pos)) && (!s.useD && k + 1 == s.Words() ==> !AllIn(s, pos))
    else Live(p) && Solo(s, p0, c0, p, Stored(s, k, pos))
  }

  predicate In(s: Setup, p0: Pointers, c0: Core, p: Pipe, st: Stage)
    requires s.Sized()
  {
    match st
    case Warm(left) =>
      1 <= left <= 2 && p == StartPipe(s, p0, c0, p.wait, Leftover(p.final, p.ddat1, p.ddat2)).(cyc := 0 - left as int)
    case Pass(k, pos) =>
      k < s.Words() && pos < Rate(s) && p.cyc == k * Rate(s) + pos && Ready(s, p0, c0, p, k, pos) && !p.irq
    case Tail(cyc) =>
      && cyc <= 1 && s.useD && p.cyc == cyc && p.final && !p.wait && !p.done && p.irq
      && if Fetching(s) then InPass(s, p0, c0, p.(final := false), s.Words(), 0, false)
         else Solo(s, p0, c0, p, LastWord(s))
    case Ended =>
      p.done && p.irq && p.fetched == 0 && Result(p) == Blitted(s, p0, c0, Fetching(s))
  }

  /** Free slots still needed, at most. */
  function Left(s: Setup, p: Pipe, st: Stage): int {
    match st
    case Warm(left) => (if p.wait then 1 else 0) + left + Rate(s) * s.Words() + 2
    case Pass(k, pos) => Rate(s) * (s.Words() - k) - pos + 2
    case Tail(cyc) => 2 - cyc
    case Ended => 0
  }

  /** Channel cycles of one word. */
  function Cycles(s: Setup): nat {
    FetchCount(s) + if s.useD then 1 else 0
  }

  /** Channel cycles still to come from cycle `pos` of pass `k` on. */
  function DuePass(s: Setup, k: nat, pos: nat): int
    requires pos <= Rate(s)
  {
    FetchCount(s) * (s.Words() - k) - Fetches(BlitDiagram(s).main, pos) + if s.useD then s.Words() - Stored(s, k, pos) else 0
  }

  /** Free slots still needed, at least: the start-up cycles and every channel cycle take one of their own. */
  function Due(s: Setup, st: Stage): int {
    match st
    case Warm(left) => left + Cycles(s) * s.Words()
    case Pass(k, pos) => if pos <= Rate(s) then DuePass(s, k, pos) else 0
    case Tail(_) => 1
    case Ended => 0
  }

  lemma DueNext(s: Setup, k: nat, pos: nat)
    requires pos < Rate(s)
    ensures DuePass(s, k, pos) - 1 <= DuePass(s, k, pos + 1) <= DuePass(s, k, pos)
  {
    hide BlitDiagram, FetchCount, Seen;
    DiagramFacts(s, pos);
    SeenNext(s, pos);
    NextFetch(BlitDiagram(s).main, pos);
  }

  lemma NextFetch(main: seq<nat>, n: nat)
    requires n < |main|
    ensures Fetches(main, n + 1) == Fetches(main, n) + if 0 < main[n] < 4 then 1 else 0
  {
  }

  lemma DueWraps(s: Setup, k: nat)
    requires s.Sized() && k < s.Words()
    ensures DuePass(s, k, Rate(s)) == DuePass(s, k + 1, 0)
    ensures k + 1 == s.Words() && s.useD ==> DuePass(s, k, Rate(s)) == 1
    ensures DuePass(s, 0, 0) == Cycles(s) * s.Words()
  {
    hide BlitDiagram, Seen;
    DiagramCounts(s);
    Distribute(FetchCount(s), s.Words() - k - 1, 1);
    Distribute(s.Words(), FetchCount(s), 1);
    NoneYet(s);
  }

  lemma NoneYet(s: Setup)
    ensures Fetches(BlitDiagram(s).main, 0) == 0 && forall ch: nat :: !Seen(s, 0, ch)
  {
    hide BlitDiagram;
  }

  lemma Counts(s: Setup, p0: Pointers, c0: Core, p: Pipe, k: nat, pos: nat, all: bool)
    requires s.Sized() && pos <= Rate(s) && InPass(s, p0, c0, p, k, pos, all)
    ensures Live(p) && Counters(s, p, Computed(k, all), Stored(s, k, pos))
    ensures !s.useD ==> !p.use1 && !p.use2
  {
    hide BlitDiagram, After, Mixed, Ptrs;
  }

  /** Not every source is in before a fetch is due, and none is due once all are. */
  lemma AllInSteps(s: Setup, pos: nat)
    requires pos < Rate(s) && !(0 < BlitDiagram(s).main[pos] < 4)
    ensures AllIn(s, pos + 1) == AllIn(s, pos)
  {
    hide BlitDiagram;
  }

  lemma CycIgnored(s: Setup, p0: Pointers, c0: Core, p: Pipe, cyc: int, k: nat, pos: nat, all: bool)
    requires s.Sized() && pos <= Rate(s)
    ensures InPass(s, p0, c0, p.(cyc := cyc), k, pos, all) == InPass(s, p0, c0, p, k, pos, all)
  {
    hide BlitDiagram, After, Mixed, Ptrs;
  }

  lemma OverKeepsResult(p: Pipe)
    ensures Result(Over(p)) == Result(p) && Over(p).done && Over(p).fetched == p.fetched
  {
  }

  ghost predicate Advanced(s: Setup, p0: Pointers, c0: Core, p: Pipe, q: Pipe, k: nat, pos: nat)
    requires s.Sized() && pos < Rate(s)
  {
    || (In(s, p0, c0, q, Ended) && DuePass(s, k, pos) <= 1 && !s.useD)
    || (q.cyc == p.cyc + 1 && !q.irq && Ready(s, p0, c0, q, k, pos + 1))
  }

  lemma FetchAdvances(s: Setup, p0: Pointers, c0: Core, p: Pipe, k: nat, pos: nat)
    requires s.Sized() && Fetching(s) && In(s, p0, c0, p, Pass(k, pos))
    requires 0 < BlitDiagram(s).main[pos] < 4 && NextChannel(s, p) == BlitDiagram(s).main[pos]
    ensures Advanced(s, p0, c0, p, Advance(s, p), k, pos)
  {
    hide InPass, BlitDiagram, DoDma, DoDDma, Blitted, Result, NextChannel, After, DuePass;
    var c := BlitDiagram(s).main[pos];
    var q := DoDma(s, p, c);
    DmaControl(s, p, c);
    FetchKeeps(s, p0, c0, p, k, pos);
    Counts(s, p0, c0, p, k, pos, false);
    Counts(s, p0, c0, q, k, pos + 1, AllIn(s, pos + 1));
    CycIgnored(s, p0, c0, q, p.cyc + 1, k, pos + 1, AllIn(s, pos + 1));
    RowOf(s, k);
    RowOf(s, k + 1);
    RowOf(s, Stored(s, k, pos + 1));
    OverKeepsResult(q.(cyc := p.cyc + 1));
    CountedOut(s, k);
    if !s.useD && k + 1 == s.Words() && AllIn(s, pos + 1) {
      LastFetch(s, k, pos);
      EndsWithoutStore(s, p0, c0, q, k, pos + 1);
      ResultIgnoresCyc(q, p.cyc + 1);
    }
  }

  lemma LastFetch(s: Setup, k: nat, pos: nat)
    requires pos < Rate(s) && !s.useD && k + 1 == s.Words() && AllIn(s, pos + 1)
    ensures DuePass(s, k, pos) <= 1
  {
    hide BlitDiagram, FetchCount;
    DiagramFacts(s, pos);
    NextFetch(BlitDiagram(s).main, pos);
  }

  lemma ResultIgnoresCyc(p: Pipe, cyc: int)
    ensures Result(p.(cyc := cyc)) == Result(p)
  {
  }

  /** Only the last word fills the last row. */
  lemma CountedOut(s: Setup, k: nat)
    requires s.Sized() && k < s.Words()
    ensures (k + 1) / s.h >= s.v ==> k + 1 == s.Words()
  {
    if k + 1 < s.Words() {
      RowOf(s, k + 1);
    }
  }

  lemma IdleAdvances(s: Setup, p0: Pointers, c0: Core, p: Pipe, k: nat, pos: nat)
    requires s.Sized() && HasChannels(s) && In(s, p0, c0, p, Pass(k, pos))
    requires NextChannel(s, p) == 0 && Ready(s, p0, c0, p, k, pos + 1)
    ensures Advanced(s, p0, c0, p, Advance(s, p), k, pos)
  {
    hide InPass, Solo, BlitDiagram, NextChannel, After, DuePass;
    CycIgnored(s, p0, c0, p, p.cyc + 1, k, pos + 1, AllIn(s, pos + 1));
    SoloIgnoresControl(s, p0, c0, p, p.cyc + 1, p.final, Stored(s, k, pos + 1));
    if Fetching(s) {
      Counts(s, p0, c0, p, k, pos, AllIn(s, pos));
    }
    assert Rate(s) > 0;
  }

  lemma SoloIgnoresControl(s: Setup, p0: Pointers, c0: Core, p: Pipe, cyc: int, final: bool, n: nat)
    requires s.Sized()
    ensures Solo(s, p0, c0, p.(cyc := cyc, final := final), n) == Solo(s, p0, c0, p, n)
  {
    hide After, Flush, At;
  }

  lemma StoreAdvances(s: Setup, p0: Pointers, c0: Core, p: Pipe, k: nat, pos: nat)
    requires s.Sized() && Fetching(s) && In(s, p0, c0, p, Pass(k, pos))
    requires BlitDiagram(s).main[pos] == 4 && k > 0 && NextChannel(s, p) == 4
    ensures Advanced(s, p0, c0, p, Advance(s, p), k, pos)
  {
    hide InPass, BlitDiagram, DoDma, DoDDma, NextChannel, After, DuePass;
    var q := DoDDma(s, p);
    DiagramFacts(s, pos);
    StoreControl(s, p);
    StoreKeeps(s, p0, c0, p, k, pos);
    AllInSteps(s, pos);
    Counts(s, p0, c0, q, k, pos + 1, true);
    CycIgnored(s, p0, c0, q, p.cyc + 1, k, pos + 1, true);
    RowOf(s, k);
  }

  /** With source channels: after its cycle `pos` a pass is at `pos + 1`, or the blit is over. */
  lemma FetchingAdvances(s: Setup, p0: Pointers, c0: Core, p: Pipe, k: nat, pos: nat)
    requires s.Sized() && Fetching(s) && In(s, p0, c0, p, Pass(k, pos))
    ensures Advanced(s, p0, c0, p, Advance(s, p), k, pos)
  {
    hide InPass, BlitDiagram, Advance, Advanced, FetchCount;
    var d := BlitDiagram(s);
    var c := d.main[pos];
    PosAt(d, k, pos);
    DiagramFacts(s, pos);
    Counts(s, p0, c0, p, k, pos, AllIn(s, pos));
    if 0 < c < 4 {
      FetchAdvances(s, p0, c0, p, k, pos);
    } else {
      AllInSteps(s, pos);
      if c == 4 && k > 0 {
        StoreAdvances(s, p0, c0, p, k, pos);
      } else {
        IdleKeeps(s, p0, c0, p, k, pos, AllIn(s, pos));
        IdleAdvances(s, p0, c0, p, k, pos);
      }
    }
  }

  /** The same for a blit that only stores. */
  lemma SoloAdvances(s: Setup, p0: Pointers, c0: Core, p: Pipe, k: nat, pos: nat)
    requires s.Sized() && !Fetching(s) && s.useD && In(s, p0, c0, p, Pass(k, pos))
    ensures Advanced(s, p0, c0, p, Advance(s, p), k, pos)
  {
    hide Solo, BlitDiagram, After, Advance, Advanced, DoDDma, AllIn;
    var d := BlitDiagram(s);
    PosAt(d, k, pos);
    DiagramFacts(s, pos);
    if d.main[pos] == 4 && k > 0 {
      SoloStoreAdvances(s, p0, c0, p, k, pos);
    } else {
      IdleAdvances(s, p0, c0, p, k, pos);
    }
  }

  lemma SoloStoreAdvances(s: Setup, p0: Pointers, c0: Core, p: Pipe, k: nat, pos: nat)
    requires s.Sized() && !Fetching(s) && s.useD && In(s, p0, c0, p, Pass(k, pos))
    requires BlitDiagram(s).main[pos] == 4 && k > 0 && NextChannel(s, p) == 4
    ensures Advanced(s, p0, c0, p, Advance(s, p), k, pos)
  {
    hide Solo, BlitDiagram, DoDDma, After, NextChannel, DuePass;
    DiagramFacts(s, pos);
    var q := DoDDma(s, p);
    StoreControl(s, p);
    SoloStores(s, p0, c0, p, k - 1);
    SoloCounts(s, p0, c0, q, k);
    RowOf(s, k);
    SoloIgnoresControl(s, p0, c0, q, p.cyc + 1, p.final, k);
  }

  lemma SoloCounts(s: Setup, p0: Pointers, c0: Core, p: Pipe, n: nat)
    requires s.Sized() && Solo(s, p0, c0, p, n)
    ensures p.h1 == n % s.h && p.v1 == p.v2 == n / s.h && !p.use1 && !p.use2
  {
    hide After, Flush, At;
  }

  // ----- one slot -----

  lemma PassCounts(s: Setup, p0: Pointers, c0: Core, p: Pipe, k: nat, pos: nat)
    requires s.Sized() && HasChannels(s) && pos <= Rate(s) && k < s.Words() && Ready(s, p0, c0, p, k, pos)
    ensures Live(p)
    ensures (p.v1 == s.v || (p.v1 + 1 == s.v && p.h1 + 1 == s.h && FetchCount(s) == 0)) ==> k + 1 == s.Words()
    ensures pos == Rate(s) && k + 1 == s.Words() ==>
            s.useD && (p.v1 == s.v || (p.v1 + 1 == s.v && p.h1 + 1 == s.h && FetchCount(s) == 0))
    ensures pos == 0 && k > 0 ==> !(p.v1 == s.v || (p.v1 + 1 == s.v && p.h1 + 1 == s.h && FetchCount(s) == 0))
  {
    hide InPass, Solo, BlitDiagram, FetchCount;
    DiagramCounts(s);
    CountedOut(s, k);
    RowOf(s, k);
    RowOf(s, k + 1);
    if Fetching(s) {
      Counts(s, p0, c0, p, k, pos, AllIn(s, pos));
    } else {
      var n := Stored(s, k, pos);
      SoloCounts(s, p0, c0, p, n);
      RowOf(s, n);
      NextCount(s.h, k);
      LastWordCounts(s);
    }
  }

  lemma LastWordCounts(s: Setup)
    requires s.Sized()
    ensures LastWord(s) / s.h + 1 == s.v && LastWord(s) % s.h + 1 == s.h
  {
    Distribute(s.h, s.v - 1, 1);
    DivModIs(LastWord(s), s.h, s.v - 1, s.h - 1);
  }

  /** The interrupt check fires exactly when the last pass has run its last cycle. */
  lemma MainOverAt(s: Setup, p0: Pointers, c0: Core, p: Pipe, k: nat, pos: nat)
    requires s.Sized() && HasChannels(s) && pos <= Rate(s) && k < s.Words() && Ready(s, p0, c0, p, k, pos)
    requires p.cyc == k * Rate(s) + pos
    ensures MainOver(s, p) <==> pos == Rate(s) && k + 1 == s.Words()
  {
    hide Ready, BlitDiagram, FetchCount;
    DiagramCounts(s);
    PassCounts(s, p0, c0, p, k, pos);
    var d := BlitDiagram(s);
    if pos > 0 {
      PosAt(d, k, pos - 1);
    } else if k > 0 {
      PosAt(d, k - 1, Rate(s) - 1);
      Distribute(Rate(s), k - 1, 1);
    }
  }

  lemma NothingInYet(s: Setup)
    requires Fetching(s)
    ensures !AllIn(s, 0)
  {
    hide BlitDiagram;
  }

  lemma ControlIgnored(s: Setup, p0: Pointers, c0: Core, p: Pipe, irq: bool, cyc: int, final: bool, k: nat, n: nat)
    requires s.Sized()
    ensures InPass(s, p0, c0, p.(irq := irq, cyc := cyc), k, 0, false) == InPass(s, p0, c0, p, k, 0, false)
    ensures Solo(s, p0, c0, p.(irq := irq, cyc := cyc, final := final), n) == Solo(s, p0, c0, p, n)
  {
    hide BlitDiagram, After, Mixed, Ptrs, Flush, At;
  }

  /** Where a pass stands once the interrupt check has been made. */
  lemma Settles(s: Setup, p0: Pointers, c0: Core, p: Pipe, k: nat, pos: nat) returns (st: Stage)
    requires s.Sized() && HasChannels(s) && 0 < pos <= Rate(s) && k < s.Words() && Ready(s, p0, c0, p, k, pos)
    requires p.cyc == k * Rate(s) + pos && !p.irq
    ensures var q := if MainOver(s, p) then p.(irq := true, cyc := 0, final := true) else p;
            && In(s, p0, c0, q, st) && Left(s, q, st) == Rate(s) * (s.Words() - k) - pos + 2
            && Due(s, st) == DuePass(s, k, pos)
  {
    hide InPass, Solo, BlitDiagram, FetchCount, MainOver, DuePass;
    DueWraps(s, k);
    MainOverAt(s, p0, c0, p, k, pos);
    PassCounts(s, p0, c0, p, k, pos);
    DiagramCounts(s);
    Distribute(Rate(s), k, 1);
    Distribute(Rate(s), s.Words() - k - 1, 1);
    if pos < Rate(s) {
      return Pass(k, pos);
    }
    if Fetching(s) {
      PassEnds(s, p0, c0, p, k);
      NothingInYet(s);
    }
    if k + 1 < s.Words() {
      return Pass(k + 1, 0);
    }
    ControlIgnored(s, p0, c0, p, true, 0, true, k + 1, k);
    ControlIgnored(s, p0, c0, p.(final := false), true, 0, true, k + 1, k);
    assert p.(final := false) == p;
    return Tail(0);
  }

  /** The slot brought the blit to `st2` or left it in `st`; a free one always brings it on. */
  ghost predicate Moved(s: Setup, p0: Pointers, c0: Core, p: Pipe, st: Stage, slot: BusSlot, q: Pipe, st2: Stage)
    requires s.Sized()
  {
    && In(s, p0, c0, q, st2)
    && Left(s, q, st2) <= Left(s, p, st)
    && (slot == Free ==> Left(s, q, st2) < Left(s, p, st) || st2 == Ended)
    && Due(s, st2) >= Due(s, st) - (if slot == Free then 1 else 0)
    && (s.useD ==> Left(s, q, st2) >= Left(s, p, st) - 1)
  }

  lemma LeftPositive(s: Setup, p0: Pointers, c0: Core, p: Pipe, st: Stage)
    requires s.Sized() && In(s, p0, c0, p, st)
    ensures Left(s, p, st) >= 0 && (st != Ended ==> Left(s, p, st) > 0)
  {
    hide Ready, BlitDiagram, Result, Blitted, InPass, Solo, StartPipe;
    if st.Pass? {
      Distribute(Rate(s), s.Words() - st.k - 1, 1);
      assert Rate(s) * (s.Words() - st.k - 1) >= 0;
    }
  }

  lemma PassTick(s: Setup, p0: Pointers, c0: Core, p: Pipe, k: nat, pos: nat, slot: BusSlot) returns (st2: Stage)
    requires s.Sized() && HasChannels(s) && In(s, p0, c0, p, Pass(k, pos))
    ensures Moved(s, p0, c0, p, Pass(k, pos), slot, Tick(s, p, slot), st2)
  {
    hide Ready, BlitDiagram, Result, Blitted, Advance, FetchCount, MainOver, FinalDiagram, DuePass;
    DueNext(s, k, pos);
    PassCounts(s, p0, c0, p, k, pos);
    MainOverAt(s, p0, c0, p, k, pos);
    if Stalls(s, p, slot) {
      return Pass(k, pos);
    }
    var q := Advance(s, p);
    if Fetching(s) {
      FetchingAdvances(s, p0, c0, p, k, pos);
    } else {
      SoloAdvances(s, p0, c0, p, k, pos);
    }
    Distribute(Rate(s), s.Words() - k - 1, 1);
    assert Rate(s) * (s.Words() - k - 1) >= 0;
    if In(s, p0, c0, q, Ended) {
      return Ended;
    }
    PassCounts(s, p0, c0, q, k, pos + 1);
    st2 := Settles(s, p0, c0, q, k, pos + 1);
    assert slot == Off ==> Stalls(s, p, slot);
  }

  lemma AtFirst(s: Setup, base: Long, mod: int)
    requires s.Sized()
    ensures At(s, base, mod, 0) == base
  {
    DivModIs(0, s.h, 0, 0);
    assert mod * 0 == 0 && s.Dir() * 0 == 0;
  }

  lemma StartsReady(s: Setup, p0: Pointers, c0: Core, copper: bool, stale: Leftover)
    requires s.Sized() && HasChannels(s)
    ensures Ready(s, p0, c0, StartPipe(s, p0, c0, copper, stale).(cyc := 0, wait := false, final := false), 0, 0)
  {
    hide BlitDiagram, At, Step, FetchCount, InPass, Solo;
    AtFirst(s, p0.a, s.amod);
    AtFirst(s, p0.b, s.bmod);
    AtFirst(s, p0.c, s.cmod);
    AtFirst(s, p0.d, s.dmod);
    DivModIs(0, s.h, 0, 0);
    if Fetching(s) {
      NothingInYet(s);
      StartsInPass(s, p0, c0, copper, stale);
    } else {
      StartsSolo(s, p0, c0, copper, stale);
    }
  }

  lemma StartsInPass(s: Setup, p0: Pointers, c0: Core, copper: bool, stale: Leftover)
    requires s.Sized() && At(s, p0.a, s.amod, 0) == p0.a && At(s, p0.b, s.bmod, 0) == p0.b
    requires At(s, p0.c, s.cmod, 0) == p0.c && At(s, p0.d, s.dmod, 0) == p0.d && 0 / s.h == 0 && 0 % s.h == 0
    ensures InPass(s, p0, c0, StartPipe(s, p0, c0, copper, stale).(cyc := 0, wait := false, final := false), 0, 0, false)
  {
    hide BlitDiagram, At, Step, FetchCount, DoBlit, Loaded;
  }

  lemma StartsSolo(s: Setup, p0: Pointers, c0: Core, copper: bool, stale: Leftover)
    requires s.Sized() && s.useD && At(s, p0.d, s.dmod, 0) == p0.d && 0 / s.h == 0 && 0 % s.h == 0
    ensures Solo(s, p0, c0, StartPipe(s, p0, c0, copper, stale).(cyc := 0, wait := false, final := false), 0)
  {
    hide At, DoBlit, Loaded;
  }

  lemma WarmTick(s: Setup, p0: Pointers, c0: Core, p: Pipe, left: nat, slot: BusSlot) returns (st2: Stage)
    requires s.Sized() && HasChannels(s) && In(s, p0, c0, p, Warm(left))
    ensures Moved(s, p0, c0, p, Warm(left), slot, Tick(s, p, slot), st2)
  {
    hide Ready, BlitDiagram, Result, Blitted, FetchCount, FinalDiagram;
    DiagramCounts(s);
    assert NextChannel(s, p) == 0;
    assert !MainOver(s, p) && !MainOver(s, p.(wait := false));
    if p.wait {
      return Warm(left);
    }
    if slot != Free {
      assert Stalls(s, p, slot);
      return Warm(left);
    }
    var q := Advance(s, p);
    assert !q.done && !MainOver(s, q);
    if left == 2 {
      return Warm(1);
    }
    StartsReady(s, p0, c0, p.wait, Leftover(p.final, p.ddat1, p.ddat2));
    return Pass(0, 0);
  }

  lemma TailTick(s: Setup, p0: Pointers, c0: Core, p: Pipe, cyc: nat, slot: BusSlot) returns (st2: Stage)
    requires s.Sized() && HasChannels(s) && In(s, p0, c0, p, Tail(cyc))
    ensures Moved(s, p0, c0, p, Tail(cyc), slot, Tick(s, p, slot), st2)
  {
    hide InPass, Solo, BlitDiagram, Result, Blitted, FetchCount, DoDDma, ChannelPos;
    if Stalls(s, p, slot) {
      return Tail(cyc);
    }
    if cyc == 0 {
      CycIgnored(s, p0, c0, p.(final := false), 1, s.Words(), 0, false);
      SoloIgnoresControl(s, p0, c0, p, 1, true, LastWord(s));
      return Tail(1);
    }
    var q := DoDDma(s, p);
    StoreControl(s, p);
    if Fetching(s) {
      EndsWithStore(s, p0, c0, p.(final := false));
    } else {
      SoloStores(s, p0, c0, p, LastWord(s));
      SoloEnds(s, p0, c0, q);
    }
    FinalIgnored(q, p.cyc + 1);
    return Ended;
  }

  lemma FinalIgnored(p: Pipe, cyc: int)
    ensures Result(Over(p.(cyc := cyc))) == Result(p) == Result(p.(final := false)) && Over(p.(cyc := cyc)).fetched == p.fetched
  {
  }

  lemma TickKeeps(s: Setup, p0: Pointers, c0: Core, p: Pipe, st: Stage, slot: BusSlot) returns (st2: Stage)
    requires s.Sized() && HasChannels(s) && In(s, p0, c0, p, st)
    ensures Moved(s, p0, c0, p, st, slot, Tick(s, p, slot), st2)
  {
    hide Ready, InPass, Solo, StartPipe, Blitted, Result, BlitDiagram;
    match st {
      case Warm(left) => st2 := WarmTick(s, p0, c0, p, left, slot);
      case Pass(k, pos) => st2 := PassTick(s, p0, c0, p, k, pos, slot);
      case Tail(cyc) => st2 := TailTick(s, p0, c0, p, cyc, slot);
      case Ended => st2 := Ended;
    }
  }

  /** Over any schedule the machine stays on the reference's track, and every free slot brings the end nearer. */
  lemma {:induction false} RunKeeps(s: Setup, p0: Pointers, c0: Core, p: Pipe, st: Stage, slots: seq<BusSlot>) returns (st2: Stage)
    requires s.Sized() && HasChannels(s) && In(s, p0, c0, p, st)
    ensures In(s, p0, c0, Run(s, p, slots), st2)
    ensures FreeSlots(slots) >= Left(s, p, st) ==> st2 == Ended
    ensures Due(s, st2) >= Due(s, st) - FreeSlots(slots)
    ensures s.useD ==> Left(s, Run(s, p, slots), st2) >= Left(s, p, st) - |slots|
    decreases |slots|
  {
    hide In, Left, Tick;
    if slots == [] {
      LeftPositive(s, p0, c0, p, st);
      return st;
    }
    var q := Tick(s, p, slots[0]);
    var st1 := TickKeeps(s, p0, c0, p, st, slots[0]);
    st2 := RunKeeps(s, p0, c0, q, st1, slots[1..]);
    LeftPositive(s, p0, c0, q, st1);
    EndedHasNothingLeft(s, q);
  }

  lemma EndedHasNothingLeft(s: Setup, p: Pipe)
    ensures Left(s, p, Ended) == 0
  {
  }
}
