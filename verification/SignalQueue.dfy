/** What happens to one base over a whole run of requests, cancellations and handler runs. */
module SignalHistory {

  /** A 32-bit signal mask, as the set of its bit numbers. */
  type Signals = set<nat>

  /** The flag (0 idle, 1 to be signalled, 2 cancelled) and the bits collected so far. */
  datatype Slot = Slot(flag: int, bits: Signals)

  const IDLE := Slot(0, {})

  function Requested(s: Slot, mask: Signals): Slot {
    Slot(1, s.bits + mask)
  }

  function Cancelled(s: Slot): Slot {
    if s.flag == 0 then s else s.(flag := 2)
  }

  /** A handler run takes the bits only of a base it signals. */
  function Handled(s: Slot): Slot {
    Slot(0, if s.flag == 1 then {} else s.bits)
  }

  datatype Event = Request(mask: Signals) | Cancel | Run

  function Step(s: Slot, e: Event): Slot {
    match e
    case Request(mask) => Requested(s, mask)
    case Cancel => Cancelled(s)
    case Run => Handled(s)
  }

  function After(h: seq<Event>): Slot {
    if h == [] then IDLE else Step(After(h[..|h| - 1]), h[|h| - 1])
  }

  /** A request nobody has cancelled or handled since. */
  ghost predicate Outstanding(h: seq<Event>, i: nat) {
    i < |h| && h[i].Request? && forall j: nat :: i < j < |h| ==> h[j].Request?
  }

  /** The next run signals the base if and only if a request is outstanding. */
  lemma {:induction false} SignalledIff(h: seq<Event>)
    ensures After(h).flag == 1 <==> exists i: nat :: Outstanding(h, i)
  {
    if h != [] {
      var n := |h| - 1;
      SignalledIff(h[..n]);
      if h[n].Request? {
        assert Outstanding(h, n);
      } else {
        assert forall i: nat :: Outstanding(h, i) ==> i == n || h[n].Request?;
        assert After(h).flag != 1;
      }
    }
  }

  /** Every request since the last run is still there in full, cancelled or not. */
  lemma {:induction false} RequestsCollected(h: seq<Event>, i: nat)
    requires i < |h| && h[i].Request? && (forall j: nat :: i < j < |h| ==> h[j] != Run)
    ensures h[i].mask <= After(h).bits
    decreases |h|
  {
    var n := |h| - 1;
    if i < n {
      RequestsCollected(h[..n], i);
    }
  }

  /** So an outstanding request is delivered by the next run with all its bits. */
  lemma OutstandingDelivered(h: seq<Event>, i: nat)
    requires Outstanding(h, i)
    ensures After(h).flag == 1 && h[i].mask <= After(h).bits
    ensures After(h + [Run]) == IDLE
  {
    SignalledIff(h);
    RequestsCollected(h, i);
    assert (h + [Run])[..|h|] == h;
  }

  function MaskOf(e: Event): Signals {
    if e.Request? then e.mask else {}
  }

  function AllMasks(h: seq<Event>): Signals {
    if h == [] then {} else AllMasks(h[..|h| - 1]) + MaskOf(h[|h| - 1])
  }

  /** What the bits are made of: the requests since the last run, and whatever that run left behind. */
  lemma {:induction false} BitsSinceRun(h: seq<Event>, tail: seq<Event>)
    requires Run !in tail
    ensures After(h + [Run] + tail).bits == Handled(After(h)).bits + AllMasks(tail)
    decreases |tail|
  {
    var all := h + [Run] + tail;
    if tail == [] {
      assert all[..|h|] == h;
    } else {
      var n := |tail| - 1;
      BitsSinceRun(h, tail[..n]);
      assert all[..|all| - 1] == h + [Run] + tail[..n];
    }
  }

  /** A cancelled request is not forgotten: a run that skips it leaves its bits, and the next signal carries them. */
  lemma CancelledBitsLinger(m1: Signals, m2: Signals)
    ensures After([Request(m1), Cancel, Run, Request(m2)]) == Slot(1, m1 + m2)
  {
    Appended([], Request(m1));
    Appended([Request(m1)], Cancel);
    Appended([Request(m1), Cancel], Run);
    Appended([Request(m1), Cancel, Run], Request(m2));
    assert After([]) == IDLE;
    assert [] + [Request(m1)] == [Request(m1)];
    assert [Request(m1)] + [Cancel] == [Request(m1), Cancel];
    assert [Request(m1), Cancel] + [Run] == [Request(m1), Cancel, Run];
    assert [Request(m1), Cancel, Run] + [Request(m2)] == [Request(m1), Cancel, Run, Request(m2)];
  }

  lemma Appended(h: seq<Event>, e: Event)
    ensures After(h + [e]) == Step(After(h), e)
  {
    assert (h + [e])[..|h|] == h;
  }

  /** The next signal carries nothing but the requests made since the last run, whatever they are, exactly when that run
      left no bits behind. */
  lemma OnlyFreshBits(h: seq<Event>)
    ensures (forall tail: seq<Event> :: Run !in tail ==> After(h + [Run] + tail).bits == AllMasks(tail)) <==>
            (After(h).flag == 1 || After(h).bits == {})
  {
    if After(h).flag == 1 || After(h).bits == {} {
      forall tail: seq<Event> | Run !in tail
        ensures After(h + [Run] + tail).bits == AllMasks(tail)
      {
        BitsSinceRun(h, tail);
      }
    } else {
      BitsSinceRun(h, []);
      assert Run !in [];
    }
  }
}

/** The socket library's signal queue: an intrusive list of the bases with something to signal. */
module SignalQueue {
  import opened SignalHistory

  /** What one base looks like to the queue: the flag (0 idle, 1 to be signalled, 2 cancelled) and the bits collected. */
  class SocketBase {
    const eventsigs: Signals
    const signal: nat
    var nextsig: SocketBase?
    var dosignal: int
    var sigstosend: Signals

    function Slot(): Slot
      reads this`dosignal, this`sigstosend
    {
      SignalHistory.Slot(dosignal, sigstosend)
    }

    constructor (e: Signals, s: nat)
      ensures eventsigs == e && signal == s && dosignal == 0 && sigstosend == {}
    {
      eventsigs, signal := e, s;
      nextsig, dosignal, sigstosend := null, 0, {};
    }
  }

  /** A signal sent to the owner of a base. */
  datatype Sent = Sent(base: SocketBase, bits: Signals)

  /** The signals a run sends when the queue holds `q` and the bases stand as in `was`. */
  ghost function Deliveries(was: map<SocketBase, Slot>, q: seq<SocketBase>): seq<Sent>
    requires forall b <- q :: b in was
  {
    if q == [] then [] else
      var n := |q| - 1;
      var s := was[q[n]];
      Deliveries(was, q[..n]) + if s.flag == 1 then [Sent(q[n], s.bits)] else []
  }

  /** Each queued base with flag 1 is signalled once, with all its bits; nobody else is. */
  lemma {:induction false} DeliveriesMean(was: map<SocketBase, Slot>, q: seq<SocketBase>)
    requires (forall b <- q :: b in was) && forall i: nat, j: nat :: i < j < |q| ==> q[i] != q[j]
    ensures var d := Deliveries(was, q);
            && (forall i: nat, j: nat :: i < j < |d| ==> d[i].base != d[j].base)
            && (forall i: nat :: i < |d| ==> d[i].base in q && was[d[i].base] == SignalHistory.Slot(1, d[i].bits))
            && (forall b <- q :: was[b].flag == 1 ==> Sent(b, was[b].bits) in d)
  {
    if q != [] {
      var n := |q| - 1;
      DeliveriesMean(was, q[..n]);
      assert q == q[..n] + [q[n]];
      var d0, d := Deliveries(was, q[..n]), Deliveries(was, q);
      assert d0 <= d;
      assert q[n] !in q[..n];
      assert forall i: nat :: i < |d0| ==> d0[i].base in q[..n];
      assert was[q[n]].flag == 1 ==> d[|d0|] == Sent(q[n], was[q[n]].bits);
      assert forall b <- q[..n] :: was[b].flag == 1 ==> Sent(b, was[b].bits) in d0;
    }
  }

  lemma DeliveriesNone(was: map<SocketBase, Slot>)
    ensures Deliveries(was, []) == []
  {
  }

  lemma DeliveriesAppend(was: map<SocketBase, Slot>, q: seq<SocketBase>, b: SocketBase)
    requires b in was && forall c <- q :: c in was
    ensures Deliveries(was, q + [b]) ==
            Deliveries(was, q) + if was[b].flag == 1 then [Sent(b, was[b].bits)] else []
  {
    assert (q + [b])[..|q|] == q;
  }

  class Queue {
    var sbsigqueue: SocketBase?
    var intRequested: bool
    /** The queued bases from the head on, and all bases there are. */
    ghost var queued: seq<SocketBase>
    ghost var bases: set<SocketBase>

    /** Acyclic, free of duplicates, and holding exactly the bases whose flag is nonzero. */
    ghost predicate Valid()
      reads this, bases
    {
      && (forall b <- queued :: b in bases)
      && (forall i: nat, j: nat :: i < j < |queued| ==> queued[i] != queued[j])
      && sbsigqueue == (if queued == [] then null else queued[0])
      && (forall i: nat {:trigger queued[i].nextsig} :: i < |queued| ==> queued[i].nextsig == if i + 1 < |queued| then queued[i + 1] else null)
      && (forall b <- bases :: b.dosignal == 0 || b.dosignal == 1 || b.dosignal == 2)
      && (forall b <- bases :: b.dosignal != 0 <==> b in queued)
    }

    constructor (all: set<SocketBase>)
      requires forall b <- all :: b.dosignal == 0
      ensures Valid() && bases == all && queued == []
    {
      sbsigqueue, intRequested := null, false;
      queued, bases := [], all;
    }

    /** addtosigqueue: collect the bits, and link the base in unless it is linked already. */
    method Add(sb: SocketBase, events: bool)
      requires Valid() && sb in bases
      modifies this`sbsigqueue, this`intRequested, this`queued, sb
      ensures Valid() && intRequested
      ensures sb.Slot() == Requested(old(sb.Slot()), if events then sb.eventsigs else {sb.signal})
      ensures queued == if old(sb.dosignal) == 0 then [sb] + old(queued) else old(queued)
    {
      sb.sigstosend := sb.sigstosend + (if events then sb.eventsigs else {sb.signal});
      if sb.dosignal == 0 {
        sb.nextsig := sbsigqueue;
        sbsigqueue := sb;
        queued := [sb] + queued;
      }
      sb.dosignal := 1;
      intRequested := true;
    }

    /** The flag change in cancelsig: a queued base stays linked but will not be signalled. */
    method Cancel(sb: SocketBase)
      requires Valid() && sb in bases
      modifies sb`dosignal
      ensures Valid() && sb.Slot() == Cancelled(old(sb.Slot()))
    {
      if sb.dosignal != 0 {
        sb.dosignal := 2;
      }
    }

    /** bsdsock_fake_int_handler: signal every queued base that was not cancelled, and empty the queue. */
    method Handler() returns (sent: seq<Sent>)
      requires Valid()
      modifies this`sbsigqueue, this`intRequested, this`queued, bases
      ensures Valid() && queued == [] && !intRequested
      ensures forall b <- bases :: b.Slot() == Handled(old(b.Slot()))
      // each base once, with all the bits collected, exactly if it was to be signalled
      ensures forall i: nat, j: nat :: i < j < |sent| ==> sent[i].base != sent[j].base
      ensures forall i: nat :: i < |sent| ==> sent[i].base in bases
      ensures forall b <- bases, bits: Signals :: Sent(b, bits) in sent <==> old(b.Slot()) == SignalHistory.Slot(1, bits)
    {
      intRequested := false;
      ghost var was := map b | b in bases :: b.Slot();
      sent := Drain(was, queued);
      DeliveriesMean(was, queued);
      queued := [];
      sbsigqueue := null;
    }

    /** Walk the list, one base after the other. */
    method Drain(ghost was: map<SocketBase, Slot>, ghost q: seq<SocketBase>) returns (sent: seq<Sent>)
      requires forall b <- q :: b in bases
      requires forall i: nat, j: nat :: i < j < |q| ==> q[i] != q[j]
      requires sbsigqueue == if q == [] then null else q[0]
      requires forall i: nat {:trigger q[i].nextsig} :: i < |q| ==> q[i].nextsig == if i + 1 < |q| then q[i + 1] else null
      requires was.Keys == bases && forall b <- bases :: b.Slot() == was[b]
      modifies bases
      ensures sent == Deliveries(was, q)
      ensures forall b <- bases :: b.Slot() == if b in q then Handled(was[b]) else was[b]
    {
      hide Deliveries;
      sent := [];
      var sb := sbsigqueue;
      ghost var n := 0;
      DeliveriesNone(was);
      assert q[..0] == [];
      while sb != null
        invariant 0 <= n <= |q| && sb == if n < |q| then q[n] else null
        invariant forall i: nat {:trigger q[i].nextsig} :: i < |q| ==> q[i].nextsig == if i + 1 < |q| then q[i + 1] else null
        invariant forall b <- bases :: b.Slot() == if b in q[..n] then Handled(was[b]) else was[b]
        invariant sent == Deliveries(was, q[..n])
        decreases |q| - n
      {
        assert sb == q[n] && sb !in q[..n];
        assert q[..n + 1] == q[..n] + [sb];
        DeliveriesAppend(was, q[..n], sb);
        var out := Take(sb);
        sent := sent + out;
        sb := sb.nextsig;
        n := n + 1;
      }
      assert q[..n] == q;
    }

    /** One base of a run. */
    static method Take(sb: SocketBase) returns (out: seq<Sent>)
      modifies sb`dosignal, sb`sigstosend
      ensures sb.Slot() == Handled(old(sb.Slot()))
      ensures out == if old(sb.dosignal) == 1 then [Sent(sb, old(sb.sigstosend))] else []
    {
      out := [];
      if sb.dosignal == 1 {
        out := [Sent(sb, sb.sigstosend)];
        sb.sigstosend := {};
      }
      sb.dosignal := 0;
    }
  }
}
