/** The cycle-exact machine computes the reference blit, whatever the bus does. */
module PipeRefines {
  import opened Words
  import opened Arith
  import opened BlitterModel
  import opened BlitterPipe
  import opened AreaFill

  function Rate(s: Setup): nat {
    |BlitDiagram(s).main|
  }

  /** Channel `ch` has a cycle among the first `pos` of a pass. */
  predicate Among(main: seq<nat>, pos: nat, ch: nat)
    requires pos <= |main|
  {
    pos > 0 && (main[pos - 1] == ch || Among(main, pos - 1, ch))
  }

  predicate Seen(s: Setup, pos: nat, ch: nat)
    requires pos <= Rate(s)
  {
    Among(BlitDiagram(s).main, pos, ch)
  }

  /** Every enabled source channel has had its cycle in this pass. */
  predicate AllIn(s: Setup, pos: nat)
    requires pos <= Rate(s)
  {
    (s.useA ==> Seen(s, pos, 1)) && (s.useB ==> Seen(s, pos, 2)) && (s.useC ==> Seen(s, pos, 3))
  }

  predicate Enabled(s: Setup, ch: nat) {
    (ch == 1 && s.useA) || (ch == 2 && s.useB) || (ch == 3 && s.useC) || (ch == 4 && s.useD)
  }

  predicate Fetching(s: Setup) {
    s.useA || s.useB || s.useC
  }

  /** What the diagrams have in common. */
  ghost predicate WellOrdered(s: Setup, pos: nat)
    requires pos < Rate(s)
  {
    var d := BlitDiagram(s);
    && d.first[pos] == (if d.main[pos] == 4 then 0 else d.main[pos])
    && (d.main[pos] == 0 || Enabled(s, d.main[pos]))
    && (d.main[pos] > 0 ==> !Seen(s, pos, d.main[pos]))
    && (d.main[pos] == 4 || Seen(s, pos, 4) ==> AllIn(s, pos))
    && (Seen(s, pos + 1, 1) ==> s.useA) && (Seen(s, pos + 1, 2) ==> s.useB) && (Seen(s, pos + 1, 3) ==> s.useC)
    && (AllIn(s, pos) <==> Fetches(d.main, pos) == FetchCount(s))
    && (AllIn(s, pos + 1) <==> Fetches(d.main, pos + 1) == FetchCount(s))
    && Fetches(d.main, pos) <= FetchCount(s)
  }

  /** Unrolls the two recursive scans of a pass, which is at most four cycles long. */
  lemma Unrolled(m: seq<nat>)
    requires 2 <= |m| <= 4
    ensures Fetches(m, 0) == 0 && forall ch: nat :: !Among(m, 0, ch)
    ensures Fetches(m, 1) == if 0 < m[0] < 4 then 1 else 0
    ensures Fetches(m, 2) == Fetches(m, 1) + if 0 < m[1] < 4 then 1 else 0
    ensures |m| > 2 ==> Fetches(m, 3) == Fetches(m, 2) + if 0 < m[2] < 4 then 1 else 0
    ensures |m| > 3 ==> Fetches(m, 4) == Fetches(m, 3) + if 0 < m[3] < 4 then 1 else 0
    ensures forall ch: nat :: Among(m, 1, ch) == (m[0] == ch)
    ensures forall ch: nat :: Among(m, 2, ch) == (m[1] == ch || m[0] == ch)
    ensures |m| > 2 ==> forall ch: nat :: Among(m, 3, ch) == (m[2] == ch || m[1] == ch || m[0] == ch)
    ensures |m| > 3 ==> forall ch: nat :: Among(m, 4, ch) == (m[3] == ch || m[2] == ch || m[1] == ch || m[0] == ch)
  {
    assert Fetches(m, 0) == 0;
    assert forall ch: nat :: !Among(m, 0, ch);
    assert forall ch: nat :: Among(m, 1, ch) == (m[0] == ch);
    assert forall ch: nat :: Among(m, 2, ch) == (m[1] == ch || Among(m, 1, ch));
    assert |m| > 2 ==> forall ch: nat :: Among(m, 3, ch) == (m[2] == ch || Among(m, 2, ch));
    assert |m| > 3 ==> forall ch: nat :: Among(m, 4, ch) == (m[3] == ch || Among(m, 3, ch));
  }

  lemma DiagramCounts(s: Setup)
    ensures 2 <= Rate(s) <= 4
    ensures FetchCount(s) == (if s.useA then 1 else 0) + (if s.useB then 1 else 0) + (if s.useC then 1 else 0)
    ensures AllIn(s, Rate(s)) && Seen(s, Rate(s), 4) == s.useD
  {
    hide Fetches, Among;
    Unrolled(BlitDiagram(s).main);
  }

  lemma DiagramFacts(s: Setup, pos: nat)
    requires pos < Rate(s)
    ensures WellOrdered(s, pos)
  {
    hide Fetches, Among, FetchCount;
    DiagramCounts(s);
    Unrolled(BlitDiagram(s).main);
  }

  // ----- facts about one word -----

  lemma DoBlitIgnoresMemory(s: Setup, c: Core, col: nat, m: ChipMem)
    ensures DoBlit(s, c.(mem := m), col) == (DoBlit(s, c, col).0.(mem := m), DoBlit(s, c, col).1)
  {
    hide BlitFunc, Shifted, Masked, WordFill;
  }

  /** Word `k` of the reference, seen from the sources it fetches. */
  lemma NextWord(s: Setup, p: Pointers, c: Core, reload: bool, k: nat)
    requires s.Sized()
    ensures var w, w1 := After(s, p, c, reload, k), After(s, p, c, reload, k + 1);
            var f := Fetch(s, p, w.core, k);
            var r := DoBlit(s, f, k % s.h);
            && w1.word == r.1
            && w1.core == r.0.(mem := Flush(s, p, w, k), fc := if reload && (k + 1) % s.h == 0 then s.carryIn else r.0.fc)
  {
    hide DoBlit, Fetch, Flush;
    var w := After(s, p, c, reload, k);
    DoBlitIgnoresMemory(s, Fetch(s, p, w.core, k), k % s.h, Flush(s, p, w, k));
  }

  /** The registers word `k` leaves, one by one. */
  lemma FetchedFields(s: Setup, p: Pointers, c: Core, k: nat)
    requires s.Sized()
    ensures var w, w1 := After(s, p, c, true, k).core, After(s, p, c, true, k + 1).core;
            && w1.adat == (if s.useA then Read(w.mem, At(s, p.a, s.amod, k)) else w.adat)
            && w1.cdat == (if s.useC then Read(w.mem, At(s, p.c, s.cmod, k)) else w.cdat)
            && w1.prevb == (if s.useB then Read(w.mem, At(s, p.b, s.bmod, k)) else w.prevb)
            && w1.bhold == (if s.useB then Shifted(s.desc, s.bshift, w.prevb, w1.prevb) else w.bhold)
            && w1.mem == Flush(s, p, After(s, p, c, true, k), k)
  {
    hide DoBlit, Flush, Read, At, Shifted, After;
    NextWord(s, p, c, true, k);
  }

  lemma NextCount(h: nat, k: nat)
    requires h > 0
    ensures if k % h + 1 == h then (k + 1) % h == 0 && (k + 1) / h == k / h + 1
            else (k + 1) % h == k % h + 1 && (k + 1) / h == k / h
  {
    assert k == k / h * h + k % h;
    if k % h + 1 == h {
      assert k + 1 == (k / h + 1) * h + 0;
      DivModIs(k + 1, h, k / h + 1, 0);
    } else {
      DivModIs(k + 1, h, k / h, k % h + 1);
    }
  }

  lemma AtNext(s: Setup, base: Long, mod: int, k: nat)
    requires s.Sized()
    ensures At(s, base, mod, k + 1) ==
            if k % s.h + 1 == s.h then Step(s, Step(s, At(s, base, mod, k), 2), mod) else Step(s, At(s, base, mod, k), 2)
  {
    hide Wrap;
    NextCount(s.h, k);
    var d, r := s.Dir(), k / s.h;
    WrapAdd(base + d * (2 * k + mod * r), d * 2);
    WrapAdd(base + d * (2 * k + mod * r) + d * 2, d * mod);
    Distribute(d, 2 * k + mod * r, 2);
    Distribute(d, 2 * k + 2 + mod * r, mod);
    Distribute(mod, r, 1);
  }

  lemma RowOf(s: Setup, k: nat)
    requires s.Sized()
    ensures k < s.Words() ==> k / s.h < s.v
    ensures k == s.Words() ==> k / s.h == s.v && k % s.h == 0
    ensures k < s.Words() && k / s.h + 1 == s.v && k % s.h + 1 == s.h ==> k + 1 == s.Words()
  {
    var r, c := k / s.h, k % s.h;
    assert k == r * s.h + c;
    if r >= s.v {
      ScaleUp(r, s.v, s.h);
    }
    if k == s.Words() {
      DivModIs(k, s.h, s.v, 0);
    }
    if r + 1 == s.v {
      Distribute(s.h, r, 1);
    }
  }

  // ----- the simulation: what the pipe holds in cycle `pos` of pass `k` -----

  /** Registers between two words: fetched ones are new, the rest change once all fetches are in. */
  function Mixed(s: Setup, w: Core, w1: Core, pos: nat, all: bool): Core
    requires pos <= Rate(s)
  {
    Core(if Seen(s, pos, 4) then w1.mem else w.mem,
         if Seen(s, pos, 1) then w1.adat else w.adat,
         if Seen(s, pos, 3) then w1.cdat else w.cdat,
         if Seen(s, pos, 2) then w1.bhold else w.bhold,
         if all then w1.preva else w.preva,
         if Seen(s, pos, 2) then w1.prevb else w.prevb,
         if all then w1.fc else w.fc,
         if all then w1.zero else w.zero)
  }

  function Source(s: Setup, use: bool, base: Long, mod: int, k: nat, seen: bool, all: bool): Long
    requires s.Sized()
  {
    if !use then base else if all then At(s, base, mod, k + 1)
    else if seen then Step(s, At(s, base, mod, k), 2) else At(s, base, mod, k)
  }

  /** How many words have been computed, and how many stored. */
  function Computed(k: nat, all: bool): nat {
    if all then k + 1 else k
  }

  function Stored(s: Setup, k: nat, pos: nat): nat
    requires pos <= Rate(s)
  {
    if Seen(s, pos, 4) then k else if k > 0 then k - 1 else 0
  }

  function Ptrs(s: Setup, p0: Pointers, k: nat, pos: nat, all: bool): Pointers
    requires s.Sized() && pos <= Rate(s)
  {
    Pointers(Source(s, s.useA, p0.a, s.amod, k, Seen(s, pos, 1), all),
             Source(s, s.useB, p0.b, s.bmod, k, Seen(s, pos, 2), all),
             Source(s, s.useC, p0.c, s.cmod, k, Seen(s, pos, 3), all),
             if s.useD then At(s, p0.d, s.dmod, Stored(s, k, pos)) else p0.d)
  }

  predicate Counters(s: Setup, p: Pipe, computed: nat, stored: nat)
    requires s.Sized()
  {
    && p.h1 == computed % s.h && p.v1 == computed / s.h
    && if s.useD then p.h2 == stored % s.h && p.v2 == stored / s.h else p.v2 == s.v
  }

  /** The words on their way to memory. */
  predicate Waiting(s: Setup, p: Pipe, w: Progress, w1: Progress, k: nat, pos: nat, all: bool)
    requires pos <= Rate(s)
  {
    && p.use1 == (s.useD && Computed(k, all) > 0)
    && (p.use1 ==> p.ddat1 == if all then w1.word else w.word)
    && p.use2 == (s.useD && all && !Seen(s, pos, 4) && k > 0)
    && (p.use2 ==> p.ddat2 == w.word)
  }

  predicate Live(p: Pipe) {
    !p.final && !p.wait && !p.done
  }

  /** A blit with source channels, in cycle `pos` of pass `k`; `all`: word `k` has been computed. */
  predicate InPass(s: Setup, p0: Pointers, c0: Core, p: Pipe, k: nat, pos: nat, all: bool)
    requires s.Sized() && pos <= Rate(s)
  {
    var w, w1 := After(s, p0, c0, true, k), After(s, p0, c0, true, k + 1);
    && Live(p)
    && p.core == Mixed(s, w.core, w1.core, pos, all)
    && p.ptrs == Ptrs(s, p0, k, pos, all)
    && p.fetched == (if all then 0 else Fetches(BlitDiagram(s).main, pos))
    && Counters(s, p, Computed(k, all), Stored(s, k, pos))
    && Waiting(s, p, w, w1, k, pos, all)
  }

  // ----- single cycles of a pass -----

  lemma LoadKeeps(s: Setup, p0: Pointers, c0: Core, p: Pipe, k: nat, pos: nat)
    requires s.Sized() && pos < Rate(s)
    requires InPass(s, p0, c0, p, k, pos, false) && !AllIn(s, pos)
    requires 0 < BlitDiagram(s).main[pos] < 4
    ensures var q := Load(s, p, BlitDiagram(s).main[pos]);
            InPass(s, p0, c0, q.(fetched := p.fetched + 1), k, pos + 1, false)
  {
    hide BlitDiagram, After, AllIn, FetchCount, LoadData, StepSource, Mixed, Ptrs, Seen, Stored, Waiting;
    DiagramFacts(s, pos);
    var q := Load(s, p, BlitDiagram(s).main[pos]);
    DataLoaded(s, p0, c0, p.core, p.ptrs, k, pos);
    SourceStepped(s, p0, p.ptrs, k, pos);
    SeenNext(s, pos);
    StoredNext(s, k, pos);
    WaitingNext(s, p, q.(fetched := p.fetched + 1), After(s, p0, c0, true, k), After(s, p0, c0, true, k + 1), k, pos);
  }

  lemma SeenNext(s: Setup, pos: nat)
    requires pos < Rate(s)
    ensures forall ch: nat :: Seen(s, pos + 1, ch) == (Seen(s, pos, ch) || BlitDiagram(s).main[pos] == ch)
  {
    hide BlitDiagram;
    forall ch: nat
      ensures Seen(s, pos + 1, ch) == (Seen(s, pos, ch) || BlitDiagram(s).main[pos] == ch)
    {
      SeenOne(BlitDiagram(s).main, pos, ch);
    }
  }

  lemma SeenOne(main: seq<nat>, pos: nat, ch: nat)
    requires pos < |main|
    ensures Among(main, pos + 1, ch) == (Among(main, pos, ch) || main[pos] == ch)
  {
  }

  lemma StoredNext(s: Setup, k: nat, pos: nat)
    requires pos < Rate(s) && BlitDiagram(s).main[pos] != 4
    ensures Stored(s, k, pos + 1) == Stored(s, k, pos)
  {
    hide BlitDiagram, Seen;
    SeenNext(s, pos);
  }

  lemma WaitingNext(s: Setup, p: Pipe, q: Pipe, w: Progress, w1: Progress, k: nat, pos: nat)
    requires pos < Rate(s) && BlitDiagram(s).main[pos] != 4 && Waiting(s, p, w, w1, k, pos, false)
    requires q.use1 == p.use1 && q.use2 == p.use2 && q.ddat1 == p.ddat1 && q.ddat2 == p.ddat2
    ensures Waiting(s, q, w, w1, k, pos + 1, false)
  {
    hide BlitDiagram, Seen;
    SeenNext(s, pos);
  }

  lemma DataLoaded(s: Setup, p0: Pointers, c0: Core, c: Core, q: Pointers, k: nat, pos: nat)
    requires s.Sized() && pos < Rate(s) && !Seen(s, pos, 4) && 0 < BlitDiagram(s).main[pos] < 4
    requires !Seen(s, pos, BlitDiagram(s).main[pos]) && Enabled(s, BlitDiagram(s).main[pos])
    requires c == Mixed(s, After(s, p0, c0, true, k).core, After(s, p0, c0, true, k + 1).core, pos, false)
    requires q == Ptrs(s, p0, k, pos, false)
    ensures LoadData(s, c, q, BlitDiagram(s).main[pos]) ==
            Mixed(s, After(s, p0, c0, true, k).core, After(s, p0, c0, true, k + 1).core, pos + 1, false)
  {
    hide At, Read, Shifted, BlitDiagram, After, Flush, Step, Seen;
    FetchedFields(s, p0, c0, k);
    SeenNext(s, pos);
  }

  lemma SourceStepped(s: Setup, p0: Pointers, q: Pointers, k: nat, pos: nat)
    requires s.Sized() && pos < Rate(s) && 0 < BlitDiagram(s).main[pos] < 4
    requires !Seen(s, pos, BlitDiagram(s).main[pos]) && Enabled(s, BlitDiagram(s).main[pos])
    requires q == Ptrs(s, p0, k, pos, false)
    ensures StepSource(s, q, BlitDiagram(s).main[pos]) == Ptrs(s, p0, k, pos + 1, false)
  {
    hide At, BlitDiagram, Step, Seen, Stored;
    SeenNext(s, pos);
    StoredNext(s, k, pos);
  }

  /** With every fetch in and nothing stored, the registers are the sources of word `k`. */
  lemma MixedIsFetch(s: Setup, p0: Pointers, c0: Core, k: nat, pos: nat)
    requires s.Sized() && pos <= Rate(s) && AllIn(s, pos) && !Seen(s, pos, 4)
    requires (!s.useA ==> !Seen(s, pos, 1)) && (!s.useB ==> !Seen(s, pos, 2)) && (!s.useC ==> !Seen(s, pos, 3))
    ensures var w, w1 := After(s, p0, c0, true, k).core, After(s, p0, c0, true, k + 1).core;
            Mixed(s, w, w1, pos, false) == Fetch(s, p0, w, k)
  {
    hide DoBlit, At, Read, Shifted, BlitDiagram, After, Flush, Seen;
    FetchedFields(s, p0, c0, k);
  }

  lemma MixedDone(s: Setup, w: Core, w1: Core, pos: nat)
    requires pos <= Rate(s)
    ensures Mixed(s, w, w1, pos, true) == Mixed(s, w, w1, pos, false).(preva := w1.preva, fc := w1.fc, zero := w1.zero)
  {
    hide Seen;
  }

  lemma ComputeCore(s: Setup, p0: Pointers, c0: Core, p: Pipe, k: nat, pos: nat)
    requires s.Sized() && pos <= Rate(s) && !Seen(s, pos, 4)
    requires p.core == Fetch(s, p0, After(s, p0, c0, true, k).core, k)
    requires p.core == Mixed(s, After(s, p0, c0, true, k).core, After(s, p0, c0, true, k + 1).core, pos, false)
    requires p.h1 == k % s.h
    ensures var w, w1 := After(s, p0, c0, true, k), After(s, p0, c0, true, k + 1);
            && Compute(s, p).core == Mixed(s, w.core, w1.core, pos, true)
            && Compute(s, p).ddat1 == w1.word
  {
    hide DoBlit, BlitDiagram, After, Fetch, Flush, Seen, Step, FetchCount, Mixed, Compute;
    NextWord(s, p0, c0, true, k);
    NextCount(s.h, k);
    MixedDone(s, After(s, p0, c0, true, k).core, After(s, p0, c0, true, k + 1).core, pos);
    ComputeIs(s, p);
  }

  lemma ComputeIs(s: Setup, p: Pipe)
    requires s.Sized()
    ensures var r := DoBlit(s, p.core, p.h1);
            Compute(s, p).core == r.0.(fc := if p.h1 + 1 == s.h then s.carryIn else r.0.fc) && Compute(s, p).ddat1 == r.1
  {
    hide DoBlit, AddModulos, Latch;
    LatchIs(s, p);
  }

  lemma LatchIs(s: Setup, p: Pipe)
    ensures var (r, l) := (DoBlit(s, p.core, p.h1), Latch(s, p));
            l.core == r.0 && l.ddat1 == r.1 && l.h1 == p.h1
  {
    hide DoBlit;
  }

  lemma ComputeKeeps(s: Setup, p0: Pointers, c0: Core, p: Pipe, k: nat, pos: nat)
    requires s.Sized() && pos <= Rate(s)
    requires InPass(s, p0, c0, p, k, pos, false) && AllIn(s, pos) && !Seen(s, pos, 4)
    requires (!s.useA ==> !Seen(s, pos, 1)) && (!s.useB ==> !Seen(s, pos, 2)) && (!s.useC ==> !Seen(s, pos, 3))
    ensures InPass(s, p0, c0, Compute(s, p), k, pos, true)
  {
    hide DoBlit, At, BlitDiagram, After, Fetch, Mixed, Seen, Step;
    MixedIsFetch(s, p0, c0, k, pos);
    ComputeCore(s, p0, c0, p, k, pos);
    NextCount(s.h, k);
    AtNext(s, p0.a, s.amod, k);
    AtNext(s, p0.b, s.bmod, k);
    AtNext(s, p0.c, s.cmod, k);
  }

  lemma StoreKeeps(s: Setup, p0: Pointers, c0: Core, p: Pipe, k: nat, pos: nat)
    requires s.Sized() && Fetching(s) && pos < Rate(s) && k > 0
    requires InPass(s, p0, c0, p, k, pos, true) && BlitDiagram(s).main[pos] == 4
    ensures InPass(s, p0, c0, DoDDma(s, p), k, pos + 1, true)
  {
    hide DoBlit, At, Read, Write, Shifted, BlitDiagram, After, Fetch, Step, FetchCount;
    DiagramCounts(s);
    DiagramFacts(s, pos);
    assert AllIn(s, pos) && !Seen(s, pos, 4);
    FetchedFields(s, p0, c0, k);
    NextCount(s.h, k - 1);
    NextCount(s.h, k);
    AtNext(s, p0.d, s.dmod, k - 1);
  }

  lemma IdleKeeps(s: Setup, p0: Pointers, c0: Core, p: Pipe, k: nat, pos: nat, all: bool)
    requires s.Sized() && pos < Rate(s)
    requires InPass(s, p0, c0, p, k, pos, all)
    requires BlitDiagram(s).main[pos] == 0 || (BlitDiagram(s).main[pos] == 4 && k == 0 && all)
    ensures InPass(s, p0, c0, p, k, pos + 1, all)
  {
    hide BlitDiagram, After, At, Step;
    FetchedFields(s, p0, c0, k);
  }

  lemma PassEnds(s: Setup, p0: Pointers, c0: Core, p: Pipe, k: nat)
    requires s.Sized() && InPass(s, p0, c0, p, k, Rate(s), true)
    ensures InPass(s, p0, c0, p, k + 1, 0, false)
  {
    hide BlitDiagram, After, At, Step, FetchCount;
    FetchedFields(s, p0, c0, k);
    DiagramCounts(s);
  }

  lemma ComputeForgetsCount(s: Setup, p: Pipe, n: nat)
    ensures Compute(s, p.(fetched := n)) == Compute(s, p)
  {
    hide DoBlit, Step;
  }

  lemma FetchedSoFar(s: Setup, p0: Pointers, c0: Core, p: Pipe, k: nat, pos: nat)
    requires s.Sized() && pos < Rate(s) && !AllIn(s, pos)
    requires InPass(s, p0, c0, p, k, pos, false)
    ensures p.fetched == Fetches(BlitDiagram(s).main, pos)
  {
    hide BlitDiagram, After, Mixed, Ptrs;
  }

  /** The fetch that is due goes ahead; the last one of a word also computes it. */
  lemma FetchKeeps(s: Setup, p0: Pointers, c0: Core, p: Pipe, k: nat, pos: nat)
    requires s.Sized() && pos < Rate(s)
    requires InPass(s, p0, c0, p, k, pos, AllIn(s, pos)) && 0 < BlitDiagram(s).main[pos] < 4
    ensures !AllIn(s, pos)
    ensures InPass(s, p0, c0, DoDma(s, p, BlitDiagram(s).main[pos]), k, pos + 1, AllIn(s, pos + 1))
  {
    hide BlitDiagram, InPass, Load, Compute;
    DiagramFacts(s, pos);
    DiagramCounts(s);
    FetchedSoFar(s, p0, c0, p, k, pos);
    LoadKeeps(s, p0, c0, p, k, pos);
    if AllIn(s, pos + 1) {
      var q := Load(s, p, BlitDiagram(s).main[pos]);
      ComputeKeeps(s, p0, c0, q.(fetched := p.fetched + 1), k, pos + 1);
      ComputeForgetsCount(s, q, p.fetched + 1);
    }
  }

  /** Either way a blit without stores can end: its last word computed. */
  lemma EndsWithoutStore(s: Setup, p0: Pointers, c0: Core, p: Pipe, k: nat, pos: nat)
    requires s.Sized() && pos <= Rate(s) && k + 1 == s.Words() && !s.useD && AllIn(s, pos)
    requires InPass(s, p0, c0, p, k, pos, true)
    ensures Result(p) == Blitted(s, p0, c0, true) && p.fetched == 0
  {
    hide BlitDiagram, After, At, Step;
    FetchedFields(s, p0, c0, k);
  }

  /** The last word goes to memory in the final cycles. */
  lemma EndsWithStore(s: Setup, p0: Pointers, c0: Core, p: Pipe)
    requires s.Sized() && s.useD && Fetching(s)
    requires InPass(s, p0, c0, p, s.Words(), 0, false)
    ensures var q := DoDDma(s, p);
            && Result(q) == Blitted(s, p0, c0, true) && q.fetched == 0
            && q.v1 >= s.v && q.v2 >= s.v && !q.use1 && !q.use2
  {
    hide BlitDiagram, After, At, Step, Write, FetchCount;
    var k := s.Words() - 1;
    DiagramCounts(s);
    RowOf(s, k + 1);
    NextCount(s.h, k);
    AtNext(s, p0.d, s.dmod, k);
  }

  // ----- a blit that only stores -----

  /** `n` words computed and stored. */
  predicate Solo(s: Setup, p0: Pointers, c0: Core, p: Pipe, n: nat)
    requires s.Sized()
  {
    var w := After(s, p0, c0, false, n);
    && p.core == w.core.(mem := Flush(s, p0, w, n))
    && p.ptrs == p0.(d := At(s, p0.d, s.dmod, n))
    && p.h1 == p.h2 == n % s.h && p.v1 == p.v2 == n / s.h
    && !p.use1 && !p.use2 && p.fetched == 0
  }

  lemma SoloStores(s: Setup, p0: Pointers, c0: Core, p: Pipe, n: nat)
    requires s.Sized() && s.useD && !Fetching(s) && Solo(s, p0, c0, p, n)
    ensures Solo(s, p0, c0, DoDDma(s, p), n + 1)
  {
    hide DoBlit, BlitDiagram, At, Step, Write, FetchCount;
    DiagramCounts(s);
    NextCount(s.h, n);
    AtNext(s, p0.d, s.dmod, n);
  }

  lemma SoloEnds(s: Setup, p0: Pointers, c0: Core, p: Pipe)
    requires s.Sized() && s.useD && !Fetching(s) && Solo(s, p0, c0, p, s.Words())
    ensures Result(p) == Blitted(s, p0, c0, false) && p.fetched == 0 && p.v1 >= s.v && p.v2 >= s.v && !p.use1 && !p.use2
  {
    hide DoBlit, BlitDiagram, At, Step, Write, FetchCount;
    RowOf(s, s.Words());
    SourcesKept(s, p0, c0, false, s.Words());
  }

  lemma {:induction false} SourcesKept(s: Setup, p0: Pointers, c0: Core, reload: bool, k: nat)
    requires s.Sized() && !Fetching(s)
    ensures var w := After(s, p0, c0, reload, k).core;
            w.adat == c0.adat && w.bhold == c0.bhold && w.cdat == c0.cdat && (!s.useD ==> w.mem == c0.mem)
  {
    hide DoBlit, Write;
    if k > 0 {
      SourcesKept(s, p0, c0, reload, k - 1);
    }
  }
}
