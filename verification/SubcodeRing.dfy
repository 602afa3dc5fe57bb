/** Akiko's CD subcode buffer: a ring of 36 packets filled by the player and emptied by the horizontal sync handler. */
module SubcodeRing {
  import opened Words

  const SLOTS: nat := 36
  const PACKET: nat := 96

  type Packet = p: seq<Byte> | |p| == PACKET witness seq(PACKET, _ => 0)

  /** What the ring stands for: packets waiting, oldest first. */
  datatype Fifo = Fifo(waiting: seq<Packet>, enabled: bool, offset: Byte)

  /** The player hands over some packets: a full ring is emptied and takes nothing, others take what fits. */
  function Produced(f: Fifo, data: seq<Packet>): Fifo {
    if !f.enabled then f
    else if |f.waiting| >= SLOTS then f.(waiting := [])
    else f.(waiting := f.waiting + data[..Fits(f, data)])
  }

  function Fits(f: Fifo, data: seq<Packet>): (n: nat)
    ensures n <= |data|
  {
    if |f.waiting| > SLOTS then 0 else if |f.waiting| + |data| <= SLOTS then |data| else SLOTS - |f.waiting|
  }

  predicate Delivers(f: Fifo, playing: bool) {
    f.enabled && playing && 0 < |f.waiting| < SLOTS
  }

  /** The two halves of the subcode page take turns. */
  function OtherHalf(offset: Byte): Byte {
    if offset >= 128 then 0 else 128
  }

  function Delivered(f: Fifo, playing: bool): Fifo {
    if Delivers(f, playing) then f.(waiting := f.waiting[1..], offset := OtherHalf(f.offset) + 100) else f
  }

  /** Switching subcodes on drops whatever was waiting. */
  function Switched(f: Fifo, on: bool): Fifo {
    if on && !f.enabled then f.(waiting := [], enabled := true) else f.(enabled := on)
  }

  /** A call of the player loses nothing exactly when the ring was not full and everything fits. */
  lemma LosesNothing(f: Fifo, data: seq<Packet>)
    requires f.enabled && |f.waiting| <= SLOTS
    ensures Produced(f, data).waiting == f.waiting + data <==> |f.waiting| < SLOTS && |f.waiting| + |data| <= SLOTS
  {
    var n := Fits(f, data);
    if |f.waiting| < SLOTS && n < |data| {
      assert |f.waiting + data[..n]| != |f.waiting + data|;
    } else {
      assert data[..|data|] == data;
      assert |f.waiting| == SLOTS ==> |f.waiting + data| > 0;
    }
  }

  datatype Event = Produce(data: seq<Packet>) | Sync(playing: bool) | Switch(on: bool)

  /** A run: the ring, and what it accepted and delivered since it was last emptied at once. */
  datatype Run = Run(fifo: Fifo, accepted: seq<Packet>, delivered: seq<Packet>)

  predicate Empties(f: Fifo, e: Event) {
    match e
    case Produce(_) => f.enabled && |f.waiting| >= SLOTS
    case Switch(on) => on && !f.enabled
    case Sync(_) => false
  }

  function Step(r: Run, e: Event): Run {
    var f := match e
      case Produce(data) => Produced(r.fifo, data)
      case Sync(playing) => Delivered(r.fifo, playing)
      case Switch(on) => Switched(r.fifo, on);
    if Empties(r.fifo, e) then Run(f, [], []) else
      Run(f,
          if e.Produce? && r.fifo.enabled then r.accepted + e.data[..Fits(r.fifo, e.data)] else r.accepted,
          if e.Sync? && Delivers(r.fifo, e.playing) then r.delivered + [r.fifo.waiting[0]] else r.delivered)
  }

  function After(f: Fifo, h: seq<Event>): Run {
    if h == [] then Run(f, f.waiting, []) else Step(After(f, h[..|h| - 1]), h[|h| - 1])
  }

  /** Over every run packets come out in the order they went in: none twice, none skipped, and never more than fit. */
  lemma {:induction false} InOrder(f: Fifo, h: seq<Event>)
    requires |f.waiting| <= SLOTS
    ensures var r := After(f, h);
            r.delivered + r.fifo.waiting == r.accepted && |r.fifo.waiting| <= SLOTS
  {
    hide Step;
    if h != [] {
      var n := |h| - 1;
      InOrder(f, h[..n]);
      StepInOrder(After(f, h[..n]), h[n]);
    }
  }

  lemma StepInOrder(r: Run, e: Event)
    requires r.delivered + r.fifo.waiting == r.accepted && |r.fifo.waiting| <= SLOTS
    ensures var t := Step(r, e);
            t.delivered + t.fifo.waiting == t.accepted && |t.fifo.waiting| <= SLOTS
  {
    if e.Sync? && Delivers(r.fifo, e.playing) {
      assert r.fifo.waiting == [r.fifo.waiting[0]] + r.fifo.waiting[1..];
    }
  }

  /** Of a call that brings more than there is room for the ring takes the leading packets, until it is full. */
  lemma TakesWhatFits(f: Fifo, data: seq<Packet>)
    requires f.enabled && |f.waiting| < 36 < |f.waiting| + |data|
    ensures var w := Produced(f, data).waiting;
            |w| == 36 && w == f.waiting + data[..36 - |f.waiting|]
  {
  }

  function Syncs(n: nat): (h: seq<Event>)
    ensures |h| == n && forall k: nat :: k < n ==> h[k] == Sync(true)
  {
    seq(n, _ => Sync(true))
  }

  /** A ring that is neither empty nor full is delivered one packet at a time, oldest first, for as long as the disc
      plays; nothing goes out while it does not, or while subcodes are off. */
  lemma {:induction false} EveryPacketComes(f: Fifo, n: nat)
    requires f.enabled && n <= |f.waiting| < 36
    ensures After(f, Syncs(n)).delivered == f.waiting[..n] && After(f, Syncs(n)).fifo.waiting == f.waiting[n..]
    ensures After(f, Syncs(n)).fifo.enabled
    ensures Delivered(f, false) == f && Delivered(f.(enabled := false), true) == f.(enabled := false)
  {
    if n > 0 {
      assert Syncs(n)[..n - 1] == Syncs(n - 1);
      EveryPacketComes(f, n - 1);
      assert f.waiting[..n] == f.waiting[..n - 1] + [f.waiting[n - 1]];
    }
  }

  /** Full reads as empty: once 36 packets wait, nothing is delivered until the player calls again or the subcodes are
      switched on afresh. */
  lemma {:induction false} FullIsStuck(f: Fifo, h: seq<Event>)
    requires |f.waiting| == SLOTS
    requires forall e <- h :: !e.Produce? && !(e.Switch? && e.on)
    ensures After(f, h).delivered == [] && After(f, h).fifo.waiting == f.waiting
  {
    if h != [] {
      var n := |h| - 1;
      FullIsStuck(f, h[..n]);
    }
  }

  /** ... and the packets then waiting are lost. */
  lemma FullLosesAll(f: Fifo, data: seq<Packet>)
    requires f.enabled && |f.waiting| == SLOTS
    ensures After(f, [Produce(data)]) == Run(f.(waiting := []), [], [])
  {
    assert [Produce(data)][..0] == [];
  }

  /** Two packets in a row never share a byte of the page. */
  lemma HalvesAlternate(f: Fifo, g: Fifo, p1: bool, p2: bool)
    requires Delivers(f, p1) && g.offset == Delivered(f, p1).offset && Delivers(g, p2)
    ensures var a, b := OtherHalf(f.offset), OtherHalf(g.offset);
            ((a == 0 && b == 128) || (a == 128 && b == 0)) && a + 100 <= 228 && b + 100 <= 228
  {
  }

  /** Slot of the `k`-th packet of a ring read from `rd`. */
  function Slot(rd: nat, k: nat): (i: nat)
    requires rd < SLOTS && k <= SLOTS
    ensures i < SLOTS
  {
    if rd + k >= SLOTS then rd + k - SLOTS else rd + k
  }

  /** The long of ones that follows a packet. */
  const ONES: seq<Byte> := [0xff, 0xff, 0xff, 0xff]

  /** `s` with `b` in place of what was at `at`. */
  function Splice(s: seq<Byte>, at: nat, b: seq<Byte>): (r: seq<Byte>)
    requires at + |b| <= |s|
    ensures |r| == |s|
  {
    s[..at] + b + s[at + |b|..]
  }

  lemma SpliceNone(s: seq<Byte>, at: nat)
    requires at <= |s|
    ensures Splice(s, at, []) == s
  {
  }

  lemma SpliceOne(s: seq<Byte>, at: nat, b: seq<Byte>, x: Byte)
    requires at + |b| < |s|
    ensures Splice(s, at, b + [x]) == Splice(s, at, b)[at + |b| := x]
  {
  }

  class Subcode {
    const slots: array<Packet>
    const inuse: array<bool>
    /** The 256 bytes of memory at subcode_address. */
    const page: array<Byte>
    var rd: nat
    var wr: nat
    var enabled: bool
    var offset: Byte
    var counter: int
    var intreq: bool
    ghost var waiting: seq<Packet>

    /** The slots in use are exactly the cyclic interval from read to write index, and hold the waiting packets. */
    ghost predicate Valid()
      reads this, slots, inuse
    {
      && slots.Length == SLOTS && inuse.Length == SLOTS && page.Length == 256
      && rd < SLOTS && |waiting| <= SLOTS && wr == Slot(rd, |waiting|)
      && (forall k: nat :: k < SLOTS ==> inuse[Slot(rd, k)] == (k < |waiting|))
      && (forall k: nat :: k < |waiting| ==> slots[Slot(rd, k)] == waiting[k])
    }

    ghost function Contents(): Fifo
      reads this`waiting, this`enabled, this`offset
    {
      Fifo(waiting, enabled, offset)
    }

    constructor ()
      ensures Valid() && fresh(slots) && fresh(inuse) && fresh(page) && Contents() == Fifo([], false, 0)
    {
      slots := new Packet[SLOTS](_ => seq(PACKET, _ => 0));
      inuse := new bool[SLOTS](_ => false);
      page := new Byte[256](_ => 0);
      rd, wr, enabled, offset, counter, intreq := 0, 0, false, 0, 0, false;
      waiting := [];
    }

    method Clear()
      requires slots.Length == SLOTS && inuse.Length == SLOTS && page.Length == 256
      modifies this`rd, this`wr, this`waiting, inuse
      ensures Valid() && waiting == []
    {
      for i := 0 to SLOTS
        invariant forall k: nat :: k < i ==> !inuse[k]
      {
        inuse[i] := false;
      }
      rd, wr, waiting := 0, 0, [];
    }

    /** subfunc */
    method Subfunc(data: seq<Packet>)
      requires Valid()
      modifies this`rd, this`wr, this`waiting, inuse, slots
      ensures Valid() && Contents() == Produced(old(Contents()), data)
    {
      if !enabled {
        return;
      }
      if inuse[wr] {
        SlotUsed();
        Clear();
        return;
      }
      SlotUsed();
      ghost var was := Contents();
      var i := 0;
      while i < |data|
        invariant i <= Fits(was, data)
        invariant Valid() && Contents() == was.(waiting := was.waiting + data[..i])
        decreases |data| - i
      {
        SlotUsed();
        if inuse[wr] {
          break;
        }
        Store(data[i]);
        assert data[..i + 1] == data[..i] + [data[i]];
        i := i + 1;
      }
      assert i == Fits(was, data);
    }

    lemma SlotUsed()
      requires Valid()
      ensures inuse[wr] <==> |waiting| == SLOTS
    {
      if |waiting| == SLOTS {
        assert Slot(rd, 0) == wr;
      }
    }

    /** One packet goes into the next slot, which is free. */
    method Store(p: Packet)
      requires Valid() && !inuse[wr]
      modifies this`wr, this`waiting, inuse, slots
      ensures Valid() && waiting == old(waiting) + [p]
    {
      SlotUsed();
      ghost var n := |waiting|;
      inuse[wr] := true;
      slots[wr] := p;
      waiting := waiting + [p];
      wr := wr + 1;
      if wr >= SLOTS {
        wr := 0;
      }
      assert forall k: nat :: k < SLOTS ==> (Slot(rd, k) == Slot(rd, n) <==> k == n);
    }

    /** The subcode part of AKIKO_hsync_handler; `period` lines pass between two deliveries. */
    method HsyncHandler(playing: bool, period: int) returns (delivered: bool)
      requires Valid()
      modifies this`rd, this`offset, this`counter, this`intreq, this`waiting, inuse, page
      ensures Valid()
      ensures counter == if old(counter) <= 1 then period else old(counter) - 1
      ensures delivered == (old(counter) <= 1 && Delivers(old(Contents()), playing))
      ensures Contents() == if old(counter) <= 1 then Delivered(old(Contents()), playing) else old(Contents())
      ensures intreq == (old(intreq) || delivered)
      // a packet delivered is the oldest, on its half of the page, and the other bytes of the page stay
      ensures delivered ==>
        page[..] == Splice(old(page[..]), OtherHalf(old(offset)), old(waiting)[0] + ONES)
      ensures !delivered ==> page[..] == old(page[..])
    {
      delivered := false;
      counter := counter - 1;
      if counter <= 0 {
        SlotUsed();
        if enabled && playing && rd != wr {
          assert Slot(rd, 0) == rd;
          if inuse[rd] {
            offset := OtherHalf(offset);
            CopyOut(waiting[0]);
            offset := offset + 100;
            FreeOldest();
            intreq := true;
            delivered := true;
          }
        }
        counter := period;
      }
    }

    /** The oldest packet to the page at `offset`, followed by a long of ones. */
    method CopyOut(ghost p: Packet)
      requires Valid() && p == slots[rd] && offset <= 128
      modifies page
      ensures page[..] == Splice(old(page[..]), offset, p + ONES)
    {
      hide Splice;
      ghost var was := page[..];
      SpliceNone(was, offset);
      for i := 0 to PACKET
        invariant page[..] == Splice(was, offset, p[..i])
      {
        SpliceOne(was, offset, p[..i], p[i]);
        assert p[..i + 1] == p[..i] + [p[i]];
        page[offset + i] := slots[rd][i];
      }
      assert p[..PACKET] == p;
      PutLong(offset + PACKET, was, p);
    }

    method PutLong(at: nat, ghost was: seq<Byte>, ghost p: Packet)
      requires page.Length == |was| == 256 && 96 <= at <= 252 && page[..] == Splice(was, at - PACKET, p)
      modifies page
      ensures page[..] == Splice(was, at - PACKET, p + ONES)
    {
      hide Splice;
      ghost var s := at - PACKET;
      SpliceOne(was, s, p, 0xff);
      page[at] := 0xff;
      SpliceOne(was, s, p + [0xff], 0xff);
      page[at + 1] := 0xff;
      SpliceOne(was, s, p + [0xff] + [0xff], 0xff);
      page[at + 2] := 0xff;
      SpliceOne(was, s, p + [0xff] + [0xff] + [0xff], 0xff);
      page[at + 3] := 0xff;
      assert p + [0xff] + [0xff] + [0xff] + [0xff] == p + ONES;
    }

    method FreeOldest()
      requires Valid() && |waiting| > 0
      modifies this`rd, this`waiting, inuse
      ensures Valid() && waiting == old(waiting)[1..]
    {
      ghost var r, n := rd, |waiting|;
      assert Slot(r, 0) == r;
      inuse[rd] := false;
      rd := rd + 1;
      if rd >= SLOTS {
        rd := rd - SLOTS;
      }
      waiting := waiting[1..];
      assert forall k: nat :: k + 1 < SLOTS ==> Slot(rd, k) == Slot(r, k + 1);
      assert Slot(rd, SLOTS - 1) == r;
    }

    /** The subcode bit of a write to the flag register. */
    method SetFlag(on: bool)
      requires Valid()
      modifies this`rd, this`wr, this`enabled, this`waiting, inuse
      ensures Valid() && Contents() == Switched(old(Contents()), on)
    {
      var was := enabled;
      enabled := on;
      if enabled && !was {
        Clear();
      }
    }
  }
}
