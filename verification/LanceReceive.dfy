/** A2065 receive: a frame is scattered over the buffers of the receive ring, one descriptor after the other. */
module LanceReceive {
  import opened Words
  import opened BigEndian
  import opened Bits
  import opened DescriptorRing

  const MAX_FRAME: nat := 4000

  datatype Outcome = Done | Missed | Overrun

  /** Memory and ring position afterwards, and how many descriptors were filled. */
  datatype Received = Received(ram: Ram, off: nat, outcome: Outcome, used: nat)

  /** How much of `n` bytes goes into one buffer. */
  function Share(d: Desc, n: nat): (c: nat)
    ensures c <= n && (c < n ==> c == d.Size())
  {
    if d.Size() < n then d.Size() else n
  }

  /** A descriptor handed back: no longer owned, marked as the first or the last of the frame if it is. */
  function Filled(d: Desc, first: bool, last: bool, total: Word): (e: Desc)
    ensures !e.Own() && (last || d.Enp() <==> e.Enp()) && (first || Bit(d.w1, STP) <==> Bit(e.w1, STP))
    ensures e.w0 == d.w0 && e.w2 == d.w2 && e.w3 == (if last then total else d.w3)
  {
    var w := With(d.w1, OWN, false);
    var x := if first then With(w, STP, true) else w;
    var y := if last then With(x, ENP, true) else x;
    Desc(d.w0, y, d.w2, if last then total else d.w3)
  }

  lemma SamePlace(d: Desc, e: Desc)
    requires e.w0 == d.w0 && e.w2 == d.w2
    ensures e.Addr() == d.Addr() && e.Size() == d.Size()
  {
  }

  function Round(ram: Ram, ring: Ring, k: nat, rest: seq<Byte>, total: Word, first: bool): Ram
    requires ring.Valid() && k < ring.length && |rest| <= MAX_FRAME
  {
    var d := DescAt(ram, ring, k);
    var c := Share(d, |rest|);
    var e := Filled(d, first, c == |rest|, total);
    PutBack(Copied(ram, d.Addr(), rest[..c]), ring, k, e.w1, e.w3)
  }

  function Receive(ram: Ram, ring: Ring, off: nat, rest: seq<Byte>, total: Word, first: bool): Received
    requires ring.Valid() && 0 < |rest| <= MAX_FRAME
    decreases |rest|
  {
    var k := ring.Index(off, 0);
    var d := DescAt(ram, ring, k);
    if !d.Own() then
      if first then Received(ram, k, Missed, 0)
      else Received(PutBack(ram, ring, k, With(With(d.w1, BUFF, true), OFLO, true), d.w3), k, Overrun, 0)
    else
      var next := Round(ram, ring, k, rest, total, first);
      var c := Share(d, |rest|);
      if c == |rest| then Received(next, k + 1, Done, 1)
      else
        var r := Receive(next, ring, k + 1, rest[c..], total, false);
        r.(used := r.used + 1)
  }

  /** Address `a` is among the first `n` bytes of buffer `k`. */
  predicate InBuffer(ram: Ram, ring: Ring, k: nat, n: nat, a: nat)
    requires ring.Valid() && k < ring.length && a < RAM
  {
    var d := DescAt(ram, ring, k);
    Dist(d.Addr(), a) < Share(d, n)
  }

  predicate Owned(ram: Ram, ring: Ring, k: nat)
    requires ring.Valid() && k < ring.length
  {
    DescAt(ram, ring, k).Own()
  }

  /** What the driver has to see to: the buffers it hands over are disjoint from each other and from the ring. */
  ghost predicate Apart(ram: Ram, ring: Ring, n: nat)
    requires ring.Valid()
  {
    && (forall j: nat, k: nat, a: nat ::
          (j < ring.length && k < ring.length && j != k && a < RAM && Owned(ram, ring, j) && Owned(ram, ring, k) &&
           InBuffer(ram, ring, j, n, a)) ==> !InBuffer(ram, ring, k, n, a))
    && OffRing(ram, ring, n)
  }

  ghost predicate OffRing(ram: Ram, ring: Ring, n: nat)
    requires ring.Valid()
  {
    forall j: nat, k: nat, a: nat ::
      (j < ring.length && k < ring.length && a < RAM && Owned(ram, ring, j) && InBuffer(ram, ring, j, n, a)) ==>
        !InDesc(ring, k, a)
  }

  /** One round: its descriptor and its buffer, and nothing else. */
  lemma RoundMeans(ram: Ram, ring: Ring, k: nat, rest: seq<Byte>, total: Word, first: bool)
    requires ring.Valid() && k < ring.length && 0 < |rest| <= MAX_FRAME
    requires Owned(ram, ring, k) && Apart(ram, ring, |rest|)
    ensures var (r, d) := (Round(ram, ring, k, rest, total, first), DescAt(ram, ring, k));
            var c := Share(d, |rest|);
            && DescAt(r, ring, k) == Filled(d, first, c == |rest|, total)
            && (forall j: nat :: j < ring.length && j != k ==> DescAt(r, ring, j) == DescAt(ram, ring, j))
            && (forall a: nat :: a < RAM && InBuffer(ram, ring, k, |rest|, a) ==> r[a] == rest[Dist(d.Addr(), a)])
            && (forall a: nat :: a < RAM && !InBuffer(ram, ring, k, |rest|, a) && !InDesc(ring, k, a) ==> r[a] == ram[a])
            && Apart(r, ring, |rest| - c)
  {
    hide Filled, PutBack, Copied;
    var d := DescAt(ram, ring, k);
    var c := Share(d, |rest|);
    var m := Copied(ram, d.Addr(), rest[..c]);
    var e := Filled(d, first, c == |rest|, total);
    forall j: nat | j < ring.length
      ensures DescAt(m, ring, j) == DescAt(ram, ring, j)
    {
      forall a: nat | a < RAM && InDesc(ring, j, a)
        ensures m[a] == ram[a]
      {
        assert !InBuffer(ram, ring, k, |rest|, a);
      }
      SameDesc(ram, m, ring, j);
    }
    PutBackMeans(m, ring, k, e.w1, e.w3);
    var r := Round(ram, ring, k, rest, total, first);
    assert r == PutBack(m, ring, k, e.w1, e.w3);
    StillApart(ram, r, ring, k, |rest|, |rest| - c);
  }

  lemma StillApart(ram: Ram, r: Ram, ring: Ring, k: nat, n: nat, m: nat)
    requires ring.Valid() && k < ring.length && Apart(ram, ring, n) && m <= n
    requires forall j: nat :: j < ring.length && j != k ==> DescAt(r, ring, j) == DescAt(ram, ring, j)
    requires !Owned(r, ring, k)
    ensures Apart(r, ring, m)
  {
    forall j: nat | j < ring.length && Owned(r, ring, j)
      ensures Owned(ram, ring, j)
      ensures forall a: nat :: a < RAM && InBuffer(r, ring, j, m, a) ==> InBuffer(ram, ring, j, n, a)
    {
      assert DescAt(r, ring, j) == DescAt(ram, ring, j);
    }
  }

  /** The bytes in the buffers of `n` descriptors, `len` in all. */
  function Collected(ram: Ram, ring: Ring, off: nat, n: nat, len: nat): seq<Byte>
    requires ring.Valid()
    decreases n
  {
    if n == 0 then [] else
      var d := DescAt(ram, ring, ring.Index(off, 0));
      ReadAt(ram, d.Addr(), Share(d, len)) + Collected(ram, ring, off + 1, n - 1, len - Share(d, len))
  }

  /** Address `a` is in one of the `n` descriptors from `off` or in the part of its buffer that the frame takes. */
  ghost predicate Touched(ram: Ram, ring: Ring, off: nat, n: nat, len: nat, a: nat)
    requires ring.Valid() && a < RAM
  {
    exists i: nat :: i < n && (InBuffer(ram, ring, ring.Index(off, i), len, a) || InDesc(ring, ring.Index(off, i), a))
  }

  /** Everything a successful receive promises: a segment of descriptors handed back, the frame in their buffers, and
      nothing else written. */
  ghost predicate Scattered(ram: Ram, r: Ram, ring: Ring, off: nat, n: nat, rest: seq<Byte>, total: Word, first: bool)
    requires ring.Valid() && |rest| <= MAX_FRAME
  {
    && HandedBack(ram, r, ring, off, n, total, first)
    && Collected(r, ring, off, n, |rest|) == rest
    && Confined(ram, r, ring, off, n, |rest|)
  }

  /** A contiguous segment of the ring, every descriptor once; first and last are marked, and the last has the length. */
  ghost predicate HandedBack(ram: Ram, r: Ram, ring: Ring, off: nat, n: nat, total: Word, first: bool)
    requires ring.Valid()
  {
    && 1 <= n <= ring.length
    && (forall i: nat :: i < n ==> Owned(ram, ring, ring.Index(off, i)))
    && (forall i: nat :: i < n ==>
          DescAt(r, ring, ring.Index(off, i)) ==
          Filled(DescAt(ram, ring, ring.Index(off, i)), first && i == 0, i == n - 1, total))
    && (forall k: nat :: k < ring.length && !InSegment(ring, off, n, k) ==> DescAt(r, ring, k) == DescAt(ram, ring, k))
  }

  ghost predicate Confined(ram: Ram, r: Ram, ring: Ring, off: nat, n: nat, len: nat)
    requires ring.Valid()
  {
    forall a: nat :: a < RAM && !Touched(ram, ring, off, n, len, a) ==> r[a] == ram[a]
  }

  ghost predicate InSegment(ring: Ring, off: nat, n: nat, k: nat)
    requires ring.Valid()
  {
    exists i: nat :: i < n && ring.Index(off, i) == k
  }

  /** The descriptors of a segment differ. */
  ghost predicate Distinct(ring: Ring, off: nat, n: nat)
    requires ring.Valid()
  {
    forall i: nat :: 0 < i < n ==> ring.Index(off, i) != ring.Index(off, 0)
  }

  lemma DistinctIsShort(ring: Ring, off: nat, n: nat)
    requires ring.Valid() && Distinct(ring, off, n)
    ensures n <= ring.length
  {
    if n > ring.length {
      ring.Wraps(off);
    }
  }

  lemma ReceiveStep(ram: Ram, ring: Ring, off: nat, rest: seq<Byte>, total: Word, first: bool)
    requires ring.Valid() && 0 < |rest| <= MAX_FRAME
    ensures var (k, r) := (ring.Index(off, 0), Receive(ram, ring, off, rest, total, first));
            var d := DescAt(ram, ring, k);
            var c := Share(d, |rest|);
            if !Owned(ram, ring, k) then
              if first then r == Received(ram, k, Missed, 0)
              else r == Received(PutBack(ram, ring, k, With(With(d.w1, BUFF, true), OFLO, true), d.w3), k, Overrun, 0)
            else if c == |rest| then r == Received(Round(ram, ring, k, rest, total, first), k + 1, Done, 1)
            else
              var r1 := Receive(Round(ram, ring, k, rest, total, first), ring, k + 1, rest[c..], total, false);
              r == r1.(used := r1.used + 1)
  {
    hide Round, DescAt, Bit, Desc.Size, PutBack, With;
  }

  lemma RoundLeaves(ram: Ram, ring: Ring, k: nat, rest: seq<Byte>, total: Word, first: bool)
    requires ring.Valid() && k < ring.length && 0 < |rest| <= MAX_FRAME
    requires Owned(ram, ring, k) && Apart(ram, ring, |rest|)
    ensures var r := Round(ram, ring, k, rest, total, first);
            && !Owned(r, ring, k) && Apart(r, ring, |rest| - Share(DescAt(ram, ring, k), |rest|))
            && forall j: nat :: j < ring.length && j != k ==> DescAt(r, ring, j) == DescAt(ram, ring, j)
  {
    hide Apart, Round, DescAt, Bit;
    RoundMeans(ram, ring, k, rest, total, first);
  }

  lemma {:induction false} ReceiveMeans(ram: Ram, ring: Ring, off: nat, rest: seq<Byte>, total: Word, first: bool)
    requires ring.Valid() && 0 < |rest| <= MAX_FRAME && Apart(ram, ring, |rest|)
    ensures var r := Receive(ram, ring, off, rest, total, first);
            r.outcome.Done? ==> Scattered(ram, r.ram, ring, off, r.used, rest, total, first)
    decreases |rest|
  {
    hide Scattered, Apart, Round, DescAt, Receive, Bit, Ring.Index;
    ReceiveStep(ram, ring, off, rest, total, first);
    var k := ring.Index(off, 0);
    var d := DescAt(ram, ring, k);
    if Owned(ram, ring, k) {
      var next := Round(ram, ring, k, rest, total, first);
      var c := Share(d, |rest|);
      if c == |rest| {
        LastScattered(ram, ring, off, rest, total, first);
      } else {
        RoundLeaves(ram, ring, k, rest, total, first);
        ReceiveMeans(next, ring, k + 1, rest[c..], total, false);
        var r := Receive(next, ring, k + 1, rest[c..], total, false);
        if r.outcome.Done? {
          OneMore(ram, ring, off, rest, total, first, r.ram, r.used);
        }
      }
    }
  }

  lemma LastScattered(ram: Ram, ring: Ring, off: nat, rest: seq<Byte>, total: Word, first: bool)
    requires ring.Valid() && 0 < |rest| <= MAX_FRAME && Apart(ram, ring, |rest|)
    requires var k := ring.Index(off, 0);
             Owned(ram, ring, k) && Share(DescAt(ram, ring, k), |rest|) == |rest|
    ensures Scattered(ram, Round(ram, ring, ring.Index(off, 0), rest, total, first), ring, off, 1, rest, total, first)
  {
    hide Apart, Round, Filled, DescAt, InBuffer, InDesc, Collected, Owned;
    var k := ring.Index(off, 0);
    var (d, r) := (DescAt(ram, ring, k), Round(ram, ring, k, rest, total, first));
    RoundMeans(ram, ring, k, rest, total, first);
    BufferRead(ram, ring, k, rest, total, first, r);
    SamePlace(d, DescAt(r, ring, k));
    CollectedOne(r, ring, off, 0, |rest|);
    CollectedNone(r, ring, k + 1, 0);
    assert rest[..|rest|] == rest;
    forall j: nat | j < ring.length && !InSegment(ring, off, 1, j)
      ensures DescAt(r, ring, j) == DescAt(ram, ring, j)
    {
      assert ring.Index(off, 0) != j;
    }
    forall a: nat | a < RAM && !Touched(ram, ring, off, 1, |rest|, a)
      ensures r[a] == ram[a]
    {
      assert !InBuffer(ram, ring, ring.Index(off, 0), |rest|, a) && !InDesc(ring, ring.Index(off, 0), a);
    }
  }

  lemma CollectedNone(r: Ram, ring: Ring, off: nat, len: nat)
    requires ring.Valid()
    ensures Collected(r, ring, off, 0, len) == []
  {
  }

  /** What is in a buffer as long as nothing has touched it since its round. */
  lemma BufferRead(ram: Ram, ring: Ring, k: nat, rest: seq<Byte>, total: Word, first: bool, r: Ram)
    requires ring.Valid() && k < ring.length && 0 < |rest| <= MAX_FRAME
    requires var d := DescAt(ram, ring, k);
             && DescAt(r, ring, k) == Filled(d, first, Share(d, |rest|) == |rest|, total)
             && (forall a: nat :: a < RAM && InBuffer(ram, ring, k, |rest|, a) ==> r[a] == rest[Dist(d.Addr(), a)])
    ensures var e := DescAt(r, ring, k);
            ReadAt(r, e.Addr(), Share(e, |rest|)) == rest[..Share(DescAt(ram, ring, k), |rest|)]
  {
    hide Filled, DescAt;
    var (d, e) := (DescAt(ram, ring, k), DescAt(r, ring, k));
    SamePlace(d, e);
    var c := Share(d, |rest|);
    forall j: nat | j < c
      ensures ReadAt(r, e.Addr(), c)[j] == rest[j]
    {
      DistOf(d.Addr(), j);
      assert InBuffer(ram, ring, k, |rest|, (d.Addr() + j) % RAM);
    }
  }

  /** A segment found from the second descriptor on, with the first one put before it. */
  lemma OneMore(ram: Ram, ring: Ring, off: nat, rest: seq<Byte>, total: Word, first: bool, r: Ram, n: nat)
    requires ring.Valid() && 0 < |rest| <= MAX_FRAME && Apart(ram, ring, |rest|)
    requires var k := ring.Index(off, 0);
             var (d, next) := (DescAt(ram, ring, k), Round(ram, ring, k, rest, total, first));
             var c := Share(d, |rest|);
             && d.Own() && c < |rest|
             && Scattered(next, r, ring, k + 1, n, rest[c..], total, false)
    ensures Scattered(ram, r, ring, off, n + 1, rest, total, first)
  {
    hide HandedBack, Confined, Collected, Apart, Round, Filled, DescAt;
    var k := ring.Index(off, 0);
    var next := Round(ram, ring, k, rest, total, first);
    var (d, e) := (DescAt(ram, ring, k), DescAt(r, ring, k));
    var c := Share(d, |rest|);
    RoundMeans(ram, ring, k, rest, total, first);
    SegmentGrows(ram, next, r, ring, off, k + 1, n, total, first);
    BufferKept(ram, next, r, ring, off, k + 1, n, |rest|, |rest| - c, total);
    ConfinedGrows(ram, next, r, ring, off, k + 1, n, |rest|, |rest| - c, total);
    BufferRead(ram, ring, k, rest, total, first, r);
    SamePlace(d, e);
    CollectedOne(r, ring, off, n, |rest|);
    assert rest[..c] + rest[c..] == rest;
  }

  lemma SegmentGrows(ram: Ram, next: Ram, r: Ram, ring: Ring, off: nat, o: nat, n: nat, total: Word, first: bool)
    requires ring.Valid() && o == ring.Index(off, 0) + 1
    requires var k := ring.Index(off, 0);
             && HandedBack(next, r, ring, o, n, total, false)
             && Owned(ram, ring, k) && DescAt(next, ring, k) == Filled(DescAt(ram, ring, k), first, false, total)
             && forall j: nat :: j < ring.length && j != k ==> DescAt(next, ring, j) == DescAt(ram, ring, j)
    ensures HandedBack(ram, r, ring, off, n + 1, total, first)
    ensures DescAt(r, ring, ring.Index(off, 0)) == DescAt(next, ring, ring.Index(off, 0))
  {
    hide Filled, DescAt;
    var k := ring.Index(off, 0);
    Later(next, ring, off, o, n);
    DistinctIsShort(ring, off, n + 1);
    assert !InSegment(ring, o, n, k);
    assert DescAt(r, ring, k) == DescAt(next, ring, k);
    forall i: nat | i < n + 1
      ensures Owned(ram, ring, ring.Index(off, i))
      ensures DescAt(r, ring, ring.Index(off, i)) ==
              Filled(DescAt(ram, ring, ring.Index(off, i)), first && i == 0, i == n, total)
    {
      if i > 0 {
        assert ring.Index(o, i - 1) == ring.Index(off, i) != k;
        assert DescAt(next, ring, ring.Index(off, i)) == DescAt(ram, ring, ring.Index(off, i));
      }
    }
    forall j: nat | j < ring.length && !InSegment(ring, off, n + 1, j)
      ensures DescAt(r, ring, j) == DescAt(ram, ring, j)
    {
      assert ring.Index(off, 0) != j;
      forall i: nat | i < n
        ensures ring.Index(o, i) != j
      {
        assert ring.Index(off, i + 1) != j;
      }
    }
  }

  /** The later descriptors of a segment: their places, and that the first is none of them once it is released. */
  lemma Later(next: Ram, ring: Ring, off: nat, o: nat, n: nat)
    requires ring.Valid() && o == ring.Index(off, 0) + 1 && !Owned(next, ring, ring.Index(off, 0))
    requires forall i: nat :: i < n ==> Owned(next, ring, ring.Index(o, i))
    ensures forall i: nat :: i < n ==> ring.Index(o, i) == ring.Index(off, i + 1) != ring.Index(off, 0)
    ensures Distinct(ring, off, n + 1)
  {
    hide Owned;
    var k := ring.Index(off, 0);
    forall i: nat | i < n
      ensures ring.Index(o, i) == ring.Index(off, i + 1) != k
    {
      ring.Shift(off, i);
    }
    forall i: nat | 0 < i < n + 1
      ensures ring.Index(off, i) != ring.Index(off, 0)
    {
      assert ring.Index(o, i - 1) == ring.Index(off, i);
    }
  }

  /** What the rounds after the first have to do with an address is what the whole receive has to do with it. */
  lemma LaterRound(ram: Ram, next: Ram, r: Ram, ring: Ring, off: nat, o: nat, n: nat, len: nat, left: nat, total: Word, i: nat)
    requires ring.Valid() && o == ring.Index(off, 0) + 1 && left <= len && i < n
    requires var k := ring.Index(off, 0);
             && HandedBack(next, r, ring, o, n, total, false) && !Owned(next, ring, k)
             && forall j: nat :: j < ring.length && j != k ==> DescAt(next, ring, j) == DescAt(ram, ring, j)
    ensures var k := ring.Index(off, 0);
            var j := ring.Index(o, i);
            && j == ring.Index(off, i + 1) && j != k && Owned(ram, ring, j)
            && forall a: nat :: a < RAM && InBuffer(next, ring, j, left, a) ==> InBuffer(ram, ring, j, len, a)
  {
    hide Filled, DescAt;
    Later(next, ring, off, o, n);
  }

  lemma BufferKept(ram: Ram, next: Ram, r: Ram, ring: Ring, off: nat, o: nat, n: nat, len: nat, left: nat, total: Word)
    requires ring.Valid() && o == ring.Index(off, 0) + 1 && left <= len && Apart(ram, ring, len)
    requires var k := ring.Index(off, 0);
             && HandedBack(next, r, ring, o, n, total, false) && !Owned(next, ring, k) && Owned(ram, ring, k)
             && Confined(next, r, ring, o, n, left)
             && forall j: nat :: j < ring.length && j != k ==> DescAt(next, ring, j) == DescAt(ram, ring, j)
    ensures forall a: nat :: a < RAM && InBuffer(ram, ring, ring.Index(off, 0), len, a) ==> r[a] == next[a]
  {
    hide HandedBack, InBuffer, InDesc, Owned, DescAt;
    var k := ring.Index(off, 0);
    forall a: nat | a < RAM && InBuffer(ram, ring, k, len, a)
      ensures r[a] == next[a]
    {
      forall i: nat | i < n
        ensures !InBuffer(next, ring, ring.Index(o, i), left, a) && !InDesc(ring, ring.Index(o, i), a)
      {
        LaterRound(ram, next, r, ring, off, o, n, len, left, total, i);
      }
      assert !Touched(next, ring, o, n, left, a);
    }
  }

  lemma ConfinedGrows(ram: Ram, next: Ram, r: Ram, ring: Ring, off: nat, o: nat, n: nat, len: nat, left: nat, total: Word)
    requires ring.Valid() && o == ring.Index(off, 0) + 1 && left <= len
    requires var k := ring.Index(off, 0);
             && HandedBack(next, r, ring, o, n, total, false) && !Owned(next, ring, k)
             && Confined(next, r, ring, o, n, left)
             && (forall j: nat :: j < ring.length && j != k ==> DescAt(next, ring, j) == DescAt(ram, ring, j))
             && forall a: nat :: a < RAM && !InBuffer(ram, ring, k, len, a) && !InDesc(ring, k, a) ==> next[a] == ram[a]
    ensures Confined(ram, r, ring, off, n + 1, len)
  {
    hide HandedBack, InBuffer, InDesc, Owned, DescAt;
    var k := ring.Index(off, 0);
    forall a: nat | a < RAM && !Touched(ram, ring, off, n + 1, len, a)
      ensures r[a] == ram[a]
    {
      assert !InBuffer(ram, ring, ring.Index(off, 0), len, a) && !InDesc(ring, ring.Index(off, 0), a);
      forall i: nat | i < n
        ensures !InBuffer(next, ring, ring.Index(o, i), left, a) && !InDesc(ring, ring.Index(o, i), a)
      {
        LaterRound(ram, next, r, ring, off, o, n, len, left, total, i);
        var j := ring.Index(off, i + 1);
        assert !InBuffer(ram, ring, j, len, a) && !InDesc(ring, j, a);
      }
      assert !Touched(next, ring, o, n, left, a);
    }
  }

  lemma CollectedOne(r: Ram, ring: Ring, off: nat, n: nat, len: nat)
    requires ring.Valid()
    ensures var k := ring.Index(off, 0);
            var d := DescAt(r, ring, k);
            Collected(r, ring, off, n + 1, len) ==
            ReadAt(r, d.Addr(), Share(d, len)) + Collected(r, ring, k + 1, n, len - Share(d, len))
  {
    var k := ring.Index(off, 0);
    ring.Shift(off, 0);
    var d := DescAt(r, ring, k);
    CollectedSame(r, ring, off + 1, k + 1, n, len - Share(d, len));
  }

  lemma {:induction false} CollectedSame(r: Ram, ring: Ring, o1: nat, o2: nat, n: nat, len: nat)
    requires ring.Valid() && ring.Index(o1, 0) == ring.Index(o2, 0)
    ensures Collected(r, ring, o1, n, len) == Collected(r, ring, o2, n, len)
    decreases n
  {
    hide DescAt;
    if n > 0 {
      ring.Shift(o1, 0);
      ring.Shift(o2, 0);
      var d := DescAt(r, ring, ring.Index(o1, 0));
      CollectedSame(r, ring, o1 + 1, o2 + 1, n - 1, len - Share(d, len));
    }
  }

  // ---- where it stops ----

  /** Descriptor `j` once the `n` descriptors from `off` on have been filled, none of them with the end of the frame. */
  ghost function FilledAt(ram: Ram, ring: Ring, off: nat, n: nat, first: bool, total: Word, j: nat): Desc
    requires ring.Valid() && j < ring.length
  {
    var d := DescAt(ram, ring, j);
    if InSegment(ring, off, n, j) then Filled(d, first && j == ring.Index(off, 0), false, total) else d
  }

  /** `e` is `d` with the buffer and overflow errors of its second word set. */
  ghost predicate OverflowMarked(d: Desc, e: Desc) {
    && e == d.(w1 := e.w1)
    && forall b: nat :: b < 16 ==> (Bit(e.w1, b) <==> b == 10 || b == 12 || Bit(d.w1, b))
  }

  /** A frame for which the buffers did not suffice: `n` descriptors filled, and the next one, which the chip does not own,
      marked. */
  ghost predicate Overruns(ram: Ram, ring: Ring, off: nat, total: Word, first: bool, r: Received)
    requires ring.Valid()
  {
    && r.used <= ring.length && r.off == ring.Index(off, r.used)
    && (forall i: nat :: i < r.used ==> Owned(ram, ring, ring.Index(off, i)))
    && !FilledAt(ram, ring, off, r.used, first, total, r.off).Own()
    && StopMarks(ram, r.ram, ring, off, r.used, first, total, r.off)
  }

  ghost predicate StopMarks(ram: Ram, r: Ram, ring: Ring, off: nat, n: nat, first: bool, total: Word, last: nat)
    requires ring.Valid() && last < ring.length
  {
    && (forall j: nat :: j < ring.length && j != last ==> DescAt(r, ring, j) == FilledAt(ram, ring, off, n, first, total, j))
    && OverflowMarked(FilledAt(ram, ring, off, n, first, total, last), DescAt(r, ring, last))
  }

  lemma OverrunsAtOnce(ram: Ram, ring: Ring, off: nat, total: Word)
    requires ring.Valid() && !Owned(ram, ring, ring.Index(off, 0))
    ensures var k := ring.Index(off, 0);
            var d := DescAt(ram, ring, k);
            Overruns(ram, ring, off, total, false,
                     Received(PutBack(ram, ring, k, With(With(d.w1, BUFF, true), OFLO, true), d.w3), k, Overrun, 0))
  {
    hide DescAt, PutBack, Bit;
    var k := ring.Index(off, 0);
    var d := DescAt(ram, ring, k);
    PutBackMeans(ram, ring, k, With(With(d.w1, BUFF, true), OFLO, true), d.w3);
  }

  lemma FilledStep(ram: Ram, next: Ram, ring: Ring, off: nat, o: nat, n: nat, first: bool, total: Word, j: nat)
    requires ring.Valid() && o == ring.Index(off, 0) + 1 && j < ring.length
    requires DescAt(next, ring, ring.Index(off, 0)) == Filled(DescAt(ram, ring, ring.Index(off, 0)), first, false, total)
    requires forall i: nat :: i < ring.length && i != ring.Index(off, 0) ==> DescAt(next, ring, i) == DescAt(ram, ring, i)
    requires forall i: nat :: i < n ==> ring.Index(o, i) == ring.Index(off, i + 1) != ring.Index(off, 0)
    ensures FilledAt(next, ring, o, n, false, total, j) == FilledAt(ram, ring, off, n + 1, first, total, j)
  {
    hide DescAt, Bit, Ring.Index, Filled;
    var k := ring.Index(off, 0);
    if j == k {
      assert InSegment(ring, off, n + 1, k);
      assert !InSegment(ring, o, n, k);
    } else {
      if InSegment(ring, o, n, j) {
        var i: nat :| i < n && ring.Index(o, i) == j;
        assert ring.Index(off, i + 1) == j;
      }
      if InSegment(ring, off, n + 1, j) {
        var i: nat :| i < n + 1 && ring.Index(off, i) == j;
        assert ring.Index(o, i - 1) == j;
      }
    }
  }

  lemma OverrunsLater(ram: Ram, next: Ram, ring: Ring, off: nat, total: Word, first: bool, r: Received)
    requires ring.Valid()
    requires var k := ring.Index(off, 0);
             && Owned(ram, ring, k) && DescAt(next, ring, k) == Filled(DescAt(ram, ring, k), first, false, total)
             && (forall i: nat :: i < ring.length && i != k ==> DescAt(next, ring, i) == DescAt(ram, ring, i))
             && Overruns(next, ring, k + 1, total, false, r)
    ensures Overruns(ram, ring, off, total, first, r.(used := r.used + 1))
  {
    hide DescAt, Bit, OverflowMarked, FilledAt, Ring.Index, Owned, Filled, StopMarks;
    var (k, n) := (ring.Index(off, 0), r.used);
    NotOwnedAnyMore(ram, next, ring, k, first, total);
    Later(next, ring, off, k + 1, n);
    DistinctIsShort(ring, off, n + 1);
    ring.Shift(off, n);
    FilledStep(ram, next, ring, off, k + 1, n, first, total, r.off);
    MarksLater(ram, next, r.ram, ring, off, k + 1, n, first, total, r.off);
    forall i: nat | i < n + 1
      ensures Owned(ram, ring, ring.Index(off, i))
    {
      if i > 0 {
        assert ring.Index(k + 1, i - 1) == ring.Index(off, i) != k;
        SameOwner(ram, next, ring, ring.Index(off, i));
      }
    }
  }

  lemma MarksLater(ram: Ram, next: Ram, r: Ram, ring: Ring, off: nat, o: nat, n: nat, first: bool, total: Word, last: nat)
    requires ring.Valid() && o == ring.Index(off, 0) + 1 && last < ring.length
    requires DescAt(next, ring, ring.Index(off, 0)) == Filled(DescAt(ram, ring, ring.Index(off, 0)), first, false, total)
    requires forall i: nat :: i < ring.length && i != ring.Index(off, 0) ==> DescAt(next, ring, i) == DescAt(ram, ring, i)
    requires forall i: nat :: i < n ==> ring.Index(o, i) == ring.Index(off, i + 1) != ring.Index(off, 0)
    requires StopMarks(next, r, ring, o, n, false, total, last)
    ensures StopMarks(ram, r, ring, off, n + 1, first, total, last)
  {
    hide DescAt, Bit, OverflowMarked, FilledAt, Ring.Index, Filled;
    var m := n + 1;
    forall j: nat | j < ring.length
      ensures FilledAt(next, ring, o, n, false, total, j) == FilledAt(ram, ring, off, m, first, total, j)
    {
      FilledStep(ram, next, ring, off, o, n, first, total, j);
    }
  }

  lemma NotOwnedAnyMore(ram: Ram, next: Ram, ring: Ring, k: nat, first: bool, total: Word)
    requires ring.Valid() && k < ring.length && DescAt(next, ring, k) == Filled(DescAt(ram, ring, k), first, false, total)
    ensures !Owned(next, ring, k)
  {
    hide DescAt, Bit;
  }

  lemma SameOwner(ram: Ram, next: Ram, ring: Ring, j: nat)
    requires ring.Valid() && j < ring.length && DescAt(next, ring, j) == DescAt(ram, ring, j)
    ensures Owned(next, ring, j) == Owned(ram, ring, j)
  {
  }

  /** Where the chip stands after a frame: past the last descriptor it filled, at the one it missed, or, if the buffers did
      not suffice, at the one where it stopped, which is then marked. */
  lemma {:induction false} StopsAt(ram: Ram, ring: Ring, off: nat, rest: seq<Byte>, total: Word, first: bool)
    requires ring.Valid() && 0 < |rest| <= MAX_FRAME && Apart(ram, ring, |rest|)
    ensures var r := Receive(ram, ring, off, rest, total, first);
            && (r.outcome.Done? ==> r.used > 0 && r.off == ring.Index(off, r.used - 1) + 1)
            && (r.outcome.Missed? ==> first && r.off == ring.Index(off, 0))
            && (r.outcome.Overrun? ==> Overruns(ram, ring, off, total, first, r))
    decreases |rest|
  {
    hide Apart, Round, DescAt, Receive, Bit, Ring.Index, Overruns, Owned, Filled;
    var k := ring.Index(off, 0);
    var c := Share(DescAt(ram, ring, k), |rest|);
    ReceiveStep(ram, ring, off, rest, total, first);
    if !Owned(ram, ring, k) {
      OverrunsAtOnce(ram, ring, off, total);
    } else if c < |rest| {
      var next := Round(ram, ring, k, rest, total, first);
      RoundLeaves(ram, ring, k, rest, total, first);
      RoundFills(ram, ring, k, rest, total, first);
      StopsAt(next, ring, k + 1, rest[c..], total, false);
      var r := Receive(next, ring, k + 1, rest[c..], total, false);
      if r.outcome.Overrun? {
        OverrunsLater(ram, next, ring, off, total, first, r);
      } else if r.outcome.Done? {
        ring.Shift(off, r.used - 1);
      }
    }
  }

  lemma RoundFills(ram: Ram, ring: Ring, k: nat, rest: seq<Byte>, total: Word, first: bool)
    requires ring.Valid() && k < ring.length && 0 < |rest| <= MAX_FRAME
    requires Owned(ram, ring, k) && Apart(ram, ring, |rest|)
    ensures DescAt(Round(ram, ring, k, rest, total, first), ring, k) ==
            Filled(DescAt(ram, ring, k), first, Share(DescAt(ram, ring, k), |rest|) == |rest|, total)
  {
    hide Apart, Round, DescAt, Bit;
    RoundMeans(ram, ring, k, rest, total, first);
  }

  // ---- what the driver finds ----

  /** The `i`-th descriptor from `off` on carries an end mark. */
  predicate EndAt(ram: Ram, ring: Ring, off: nat, i: nat)
    requires ring.Valid()
  {
    DescAt(ram, ring, ring.Index(off, i)).Enp()
  }

  /** The driver looks for the descriptor that ends the frame. */
  function FrameEnd(ram: Ram, ring: Ring, off: nat, n: nat): (e: nat)
    requires ring.Valid()
    ensures e <= n
    decreases n
  {
    if n == 0 then 0
    else if EndAt(ram, ring, off, 0) then 1
    else
      var e := FrameEnd(ram, ring, off + 1, n - 1);
      if e == 0 then 0 else e + 1
  }

  lemma {:induction false} FrameEndIs(ram: Ram, ring: Ring, off: nat, n: nat)
    requires ring.Valid()
    ensures var e := FrameEnd(ram, ring, off, n);
            && (e > 0 ==> EndAt(ram, ring, off, e - 1))
            && forall i: nat :: i < (if e > 0 then e - 1 else n) ==> !EndAt(ram, ring, off, i)
    decreases n
  {
    hide EndAt;
    if n > 0 && !EndAt(ram, ring, off, 0) {
      FrameEndIs(ram, ring, off + 1, n - 1);
      var e := FrameEnd(ram, ring, off, n);
      forall i: nat | i < (if e > 0 then e - 1 else n)
        ensures !EndAt(ram, ring, off, i)
      {
        if i > 0 {
          EndAtNext(ram, ring, off, i - 1);
        }
      }
      if e > 1 {
        EndAtNext(ram, ring, off, e - 2);
      }
    }
  }

  lemma EndAtNext(ram: Ram, ring: Ring, off: nat, i: nat)
    requires ring.Valid()
    ensures EndAt(ram, ring, off + 1, i) == EndAt(ram, ring, off, i + 1)
  {
    hide DescAt, Bit;
    assert ring.Index(off + 1, i) == ring.Index(off, i + 1);
  }

  /** The driver's half of the protocol: the length from the last descriptor, the bytes from the buffers. */
  function Fetched(ram: Ram, ring: Ring, off: nat): seq<Byte>
    requires ring.Valid()
  {
    var n := FrameEnd(ram, ring, off, ring.length);
    if n == 0 then [] else Collected(ram, ring, off, n, DescAt(ram, ring, ring.Index(off, n - 1)).w3)
  }

  /** Room in the first `n` buffers from `off` on. */
  function Sizes(ram: Ram, ring: Ring, off: nat, n: nat): nat
    requires ring.Valid()
    decreases n
  {
    if n == 0 then 0 else DescAt(ram, ring, ring.Index(off, 0)).Size() + Sizes(ram, ring, off + 1, n - 1)
  }

  lemma {:induction false} SizesSame(ram: Ram, r: Ram, ring: Ring, o1: nat, o2: nat, n: nat)
    requires ring.Valid()
    requires forall i: nat :: i < n ==> DescAt(ram, ring, ring.Index(o1, i)).w2 == DescAt(r, ring, ring.Index(o2, i)).w2
    ensures Sizes(ram, ring, o1, n) == Sizes(r, ring, o2, n)
    decreases n
  {
    hide DescAt, Ring.Index;
    if n > 0 {
      var (p1, p2) := (o1 + 1, o2 + 1);
      forall i: nat | i < n - 1
        ensures DescAt(ram, ring, ring.Index(p1, i)).w2 == DescAt(r, ring, ring.Index(p2, i)).w2
      {
        IndexNext(ring, o1, i);
        IndexNext(ring, o2, i);
        assert DescAt(ram, ring, ring.Index(o1, i + 1)).w2 == DescAt(r, ring, ring.Index(o2, i + 1)).w2;
      }
      SizesSame(ram, r, ring, p1, p2, n - 1);
    }
  }

  lemma IndexNext(ring: Ring, off: nat, i: nat)
    requires ring.Valid()
    ensures ring.Index(off + 1, i) == ring.Index(off, i + 1)
  {
    assert off + 1 + i == off + (i + 1);
  }

  lemma {:induction false} SizesGrow(ram: Ram, ring: Ring, off: nat, m: nat, n: nat)
    requires ring.Valid() && m <= n
    ensures Sizes(ram, ring, off, m) <= Sizes(ram, ring, off, n)
    decreases n
  {
    hide DescAt, Ring.Index;
    if m > 0 {
      SizesGrow(ram, ring, off + 1, m - 1, n - 1);
    }
  }

  lemma {:induction false} CollectedFits(ram: Ram, ring: Ring, off: nat, n: nat, len: nat)
    requires ring.Valid()
    ensures |Collected(ram, ring, off, n, len)| <= Sizes(ram, ring, off, n)
    decreases n
  {
    hide DescAt, Ring.Index;
    if n > 0 {
      var d := DescAt(ram, ring, ring.Index(off, 0));
      CollectedFits(ram, ring, off + 1, n - 1, len - Share(d, len));
    }
  }

  /** A frame goes into as few buffers as hold it: all but the last have not room enough. */
  lemma {:induction false} NotSooner(ram: Ram, ring: Ring, off: nat, rest: seq<Byte>, total: Word, first: bool)
    requires ring.Valid() && 0 < |rest| <= MAX_FRAME && Apart(ram, ring, |rest|)
    ensures var r := Receive(ram, ring, off, rest, total, first);
            r.outcome.Done? ==> r.used > 0 && Sizes(ram, ring, off, r.used - 1) < |rest|
    decreases |rest|
  {
    hide Apart, Round, DescAt, Sizes, Bit, Receive, Scattered, Owned, Ring.Index;
    var k := ring.Index(off, 0);
    var c := Share(DescAt(ram, ring, k), |rest|);
    SizesNone(ram, ring, off);
    ReceiveStep(ram, ring, off, rest, total, first);
    if Owned(ram, ring, k) && c < |rest| {
      var next := Round(ram, ring, k, rest, total, first);
      RoundLeaves(ram, ring, k, rest, total, first);
      ReceiveMeans(next, ring, k + 1, rest[c..], total, false);
      NotSooner(next, ring, k + 1, rest[c..], total, false);
      var r := Receive(next, ring, k + 1, rest[c..], total, false);
      if r.outcome.Done? {
        SizesAfter(ram, next, r.ram, ring, off, k + 1, r.used, rest[c..], total);
      }
    }
  }

  lemma SizesNone(ram: Ram, ring: Ring, off: nat)
    requires ring.Valid()
    ensures Sizes(ram, ring, off, 0) == 0
  {
  }

  lemma SizesAfter(ram: Ram, next: Ram, r: Ram, ring: Ring, off: nat, o: nat, n: nat, rest: seq<Byte>, total: Word)
    requires ring.Valid() && o == ring.Index(off, 0) + 1 && n > 0 && |rest| <= MAX_FRAME
    requires Scattered(next, r, ring, o, n, rest, total, false) && !Owned(next, ring, ring.Index(off, 0))
    requires forall j: nat :: j < ring.length && j != ring.Index(off, 0) ==> DescAt(next, ring, j) == DescAt(ram, ring, j)
    ensures Sizes(ram, ring, off, n) == DescAt(ram, ring, ring.Index(off, 0)).Size() + Sizes(next, ring, o, n - 1)
  {
    hide DescAt, Owned, Ring.Index, Desc.Size, Scattered, Ring.Valid;
    SegmentOwned(next, r, ring, o, n, rest, total);
    Later(next, ring, off, o, n);
    var o1 := off + 1;
    forall i: nat | i < n - 1
      ensures DescAt(ram, ring, ring.Index(o1, i)).w2 == DescAt(next, ring, ring.Index(o, i)).w2
    {
      IndexNext(ring, off, i);
      assert ring.Index(o, i) == ring.Index(off, i + 1);
    }
    SizesSame(ram, next, ring, o1, o, n - 1);
  }

  lemma SegmentOwned(next: Ram, r: Ram, ring: Ring, o: nat, n: nat, rest: seq<Byte>, total: Word)
    requires ring.Valid() && |rest| <= MAX_FRAME && Scattered(next, r, ring, o, n, rest, total, false)
    ensures forall i: nat :: i < n ==> Owned(next, ring, ring.Index(o, i))
  {
    hide DescAt, Owned, Ring.Index, Collected, Confined, Filled;
  }

  /** The driver gets the frame back exactly when it did not leave an end mark in one of the descriptors before the last:
      the chip clears only the ownership bit, and a mark it finds too early cuts the frame short. */
  lemma FetchedBack(ram: Ram, ring: Ring, off: nat, data: seq<Byte>)
    requires ring.Valid() && 0 < |data| <= MAX_FRAME && Apart(ram, ring, |data|)
    ensures var r := Receive(ram, ring, off, data, |data|, true);
            r.outcome.Done? ==>
              (Fetched(r.ram, ring, off) == data <==> forall i: nat :: i < r.used - 1 ==> !EndAt(ram, ring, off, i))
  {
    hide Receive, DescAt, Bit, Filled, Apart, Confined, Collected, EndAt, Ring.Index, FrameEnd, Sizes;
    var r := Receive(ram, ring, off, data, |data|, true);
    if r.outcome.Done? {
      ReceiveMeans(ram, ring, off, data, |data|, true);
      NotSooner(ram, ring, off, data, |data|, true);
      EndMarks(ram, r.ram, ring, off, r.used, |data|);
      FrameEndIs(r.ram, ring, off, ring.length);
      var e := FrameEnd(r.ram, ring, off, ring.length);
      assert EndAt(r.ram, ring, off, r.used - 1);
      if e == r.used {
      } else {
        CollectedFits(r.ram, ring, off, e, DescAt(r.ram, ring, ring.Index(off, e - 1)).w3);
        SizesSame(ram, r.ram, ring, off, off, r.used - 1);
        SizesGrow(r.ram, ring, off, e, r.used - 1);
        assert EndAt(ram, ring, off, e - 1);
      }
    }
  }

  lemma EndMarks(ram: Ram, r: Ram, ring: Ring, off: nat, n: nat, total: Word)
    requires ring.Valid() && HandedBack(ram, r, ring, off, n, total, true)
    ensures forall i: nat :: i < n ==> (EndAt(r, ring, off, i) <==> i == n - 1 || EndAt(ram, ring, off, i))
    ensures forall i: nat :: i < n ==> DescAt(r, ring, ring.Index(off, i)).w2 == DescAt(ram, ring, ring.Index(off, i)).w2
    ensures n > 0 && DescAt(r, ring, ring.Index(off, n - 1)).w3 == total
  {
    hide DescAt, Bit, Ring.Index, Owned;
  }

  // ---- a stale end mark ----

  /** Two descriptors with a buffer of 4 bytes at 0x100 and one of 256 bytes at 0x200; the first still has an end mark. */
  function StaleByte(i: nat): Byte {
    if i == 0 then 1 else if i == 2 then 0x81 else if i == 4 then 0xFF else if i == 5 then 0xFC
    else if i == 8 then 2 else if i == 10 then 0x80 else if i == 12 then 0xFF else 0
  }

  function StaleRam(): Ram {
    seq(RAM, i requires 0 <= i => StaleByte(i))
  }

  const TWO: Ring := Ring(0, 2)

  lemma StaleDescs()
    ensures TWO.Valid()
    ensures DescAt(StaleRam(), TWO, 0) == Desc(0x100, 0x8100, 0xFFFC, 0)
    ensures DescAt(StaleRam(), TWO, 1) == Desc(0x200, 0x8000, 0xFF00, 0)
  {
    hide StaleByte, StaleRam;
    StaleHead();
    StaleTail();
    StaleHalf(0);
    StaleHalf(2);
    StaleHalf(4);
    StaleHalf(6);
    StaleHalf(8);
    StaleHalf(10);
    StaleHalf(12);
    StaleHalf(14);
    FirstTwo(StaleRam());
  }

  lemma FirstTwo(ram: Ram)
    ensures TWO.Valid()
    ensures DescAt(ram, TWO, 0) == Desc(Half(ram, 0), Half(ram, 2), Half(ram, 4), Half(ram, 6))
    ensures DescAt(ram, TWO, 1) == Desc(Half(ram, 8), Half(ram, 10), Half(ram, 12), Half(ram, 14))
  {
    hide Half;
  }

  lemma StaleHalf(i: nat)
    requires i + 1 < RAM
    ensures Half(StaleRam(), i) == Big(StaleByte(i), StaleByte(i + 1))
  {
    hide StaleByte;
  }

  lemma StaleHead()
    ensures StaleByte(0) == 1 && StaleByte(1) == 0 && StaleByte(2) == 0x81 && StaleByte(3) == 0
    ensures StaleByte(4) == 0xFF && StaleByte(5) == 0xFC && StaleByte(6) == 0 && StaleByte(7) == 0
  {
  }

  lemma StaleTail()
    ensures StaleByte(8) == 2 && StaleByte(9) == 0 && StaleByte(10) == 0x80 && StaleByte(11) == 0
    ensures StaleByte(12) == 0xFF && StaleByte(13) == 0 && StaleByte(14) == 0 && StaleByte(15) == 0
  {
  }

  lemma TopBits()
    ensures Bit(0x8000, OWN) && !Bit(0x8000, ENP) && Bit(0x8100, OWN) && Bit(0x8100, ENP)
  {
    Pow2Values();
    SmallPowers();
    assert Bit(0x81, 7) == Bit(0x40, 6);
    hide Bit, Pow2;
    BitUp(1, 0, 15);
    BitUp(0x80, 0, 8);
    BitUp(0x81, 0, 8);
    BitUp(0x81, 7, 8);
    BitUp(1, 0, 6);
    LowBits();
  }

  lemma SmallPowers()
    ensures Pow2(6) == 0x40 && Pow2(15) == 0x8000
  {
    Pow2Values();
    assert Pow2(6) == 4 * Pow2(4);
    assert Pow2(16) == 2 * Pow2(15);
  }

  lemma LowBits()
    ensures Bit(1, 0) && !Bit(0x80, 0) && Bit(0x81, 0)
  {
  }

  lemma StaleApart()
    ensures TWO.Valid() && Apart(StaleRam(), TWO, 5)
  {
    hide InBuffer, Owned, StaleRam;
    var ram := StaleRam();
    forall j: nat, a: nat | j < 2 && a < RAM && InBuffer(ram, TWO, j, 5, a)
      ensures if j == 0 then 0x100 <= a < 0x104 else 0x200 <= a < 0x205
    {
      StaleBuffer(j, a);
    }
  }

  lemma StaleBuffer(j: nat, a: nat)
    requires j < 2 && a < RAM && InBuffer(StaleRam(), TWO, j, 5, a)
    ensures if j == 0 then 0x100 <= a < 0x104 else 0x200 <= a < 0x205
  {
    hide DescAt, Bit, StaleRam;
    StaleDescs();
  }

  /** A frame of five bytes does not come back from there. */
  lemma StaleMarkLoses(data: seq<Byte>)
    requires |data| == 5
    ensures TWO.Valid() && Apart(StaleRam(), TWO, 5)
    ensures var r := Receive(StaleRam(), TWO, 0, data, 5, true);
            r.outcome.Done? && Fetched(r.ram, TWO, 0) != data
  {
    hide DescAt, Bit, Apart, Receive, Fetched, Room, Collected;
    var ram := StaleRam();
    StaleApart();
    StaleDescs();
    TopBits();
    StaleRoom();
    ReceivedIff(ram, TWO, 0, data, 5, true);
    FetchedBack(ram, TWO, 0, data);
    StaleUsed(data);
    assert EndAt(ram, TWO, 0, 0);
  }

  lemma StaleRoom()
    ensures TWO.Valid() && Room(StaleRam(), TWO, 0, 2) == 260
  {
    hide DescAt, Bit;
    StaleDescs();
    TopBits();
    assert TWO.Index(0, 0) == 0 && TWO.Index(1, 0) == 1;
    var ram := StaleRam();
    assert Room(ram, TWO, 2, 0) == 0;
    assert Room(ram, TWO, 1, 1) == 256;
  }

  lemma StaleUsed(data: seq<Byte>)
    requires |data| == 5 && Apart(StaleRam(), TWO, 5)
    ensures var r := Receive(StaleRam(), TWO, 0, data, 5, true);
            r.outcome.Done? ==> r.used >= 2
  {
    hide DescAt, Bit, Apart, Collected, Round;
    StaleDescs();
    TopBits();
    var ram := StaleRam();
    assert TWO.Index(0, 0) == 0;
    var d := DescAt(ram, TWO, 0);
    assert d.Own() && Share(d, 5) == 4;
    var next := Round(ram, TWO, 0, data, 5, true);
    RoundMeans(ram, TWO, 0, data, 5, true);
    NotSooner(next, TWO, 1, data[4..], 5, false);
  }

  // ---- when it succeeds ----

  /** Room in the buffers the chip owns, from one descriptor on to the first it does not own. */
  function Room(ram: Ram, ring: Ring, off: nat, n: nat): nat
    requires ring.Valid()
    decreases n
  {
    var d := DescAt(ram, ring, ring.Index(off, 0));
    if n == 0 || !d.Own() then 0 else d.Size() + Room(ram, ring, off + 1, n - 1)
  }

  lemma NoRoom(ram: Ram, ring: Ring, off: nat)
    requires ring.Valid() && !Owned(ram, ring, ring.Index(off, 0))
    ensures Room(ram, ring, off, ring.length) == 0
  {
    hide DescAt, Bit;
  }

  /** A frame is received exactly when the buffers owned from the current descriptor on have room for it; it is missed
      exactly when there is none at all. */
  lemma {:induction false} ReceivedIff(ram: Ram, ring: Ring, off: nat, rest: seq<Byte>, total: Word, first: bool)
    requires ring.Valid() && 0 < |rest| <= MAX_FRAME && Apart(ram, ring, |rest|)
    ensures var (r, room) := (Receive(ram, ring, off, rest, total, first), Room(ram, ring, off, ring.length));
            && (r.outcome.Done? <==> room >= |rest|)
            && (r.outcome.Missed? <==> first && room == 0)
            && (r.outcome.Missed? ==> r.ram == ram)
    decreases |rest|
  {
    hide Apart, Round, DescAt, Receive, Bit, Ring.Index, Desc.Size, Room;
    var k := ring.Index(off, 0);
    var d := DescAt(ram, ring, k);
    ReceiveStep(ram, ring, off, rest, total, first);
    if !d.Own() {
      NoRoom(ram, ring, off);
    } else {
      RoomFirst(ram, ring, off);
      var c := Share(d, |rest|);
      if c < |rest| {
        var next := Round(ram, ring, k, rest, total, first);
        RoundLeaves(ram, ring, k, rest, total, first);
        ReceivedIff(next, ring, k + 1, rest[c..], total, false);
        RoomAfter(ram, next, ring, off);
      }
    }
  }

  /** Taking the first buffer of the run away leaves the rest of the run. */
  lemma RoomAfter(ram: Ram, next: Ram, ring: Ring, off: nat)
    requires ring.Valid()
    requires var k := ring.Index(off, 0);
             && Owned(ram, ring, k) && !Owned(next, ring, k)
             && forall j: nat :: j < ring.length && j != k ==> DescAt(next, ring, j) == DescAt(ram, ring, j)
    ensures Room(ram, ring, off, ring.length) ==
            DescAt(ram, ring, ring.Index(off, 0)).Size() + Room(next, ring, ring.Index(off, 0) + 1, ring.length)
  {
    hide DescAt, Room;
    var k := ring.Index(off, 0);
    RoomFirst(ram, ring, off);
    ring.Shift(off, 0);
    RoomShift(ram, ring, off + 1, k + 1, ring.length - 1);
    LastIsFirst(ring, k);
    RoomSame(ram, next, ring, k, k + 1, ring.length - 1);
  }

  lemma RoomFirst(ram: Ram, ring: Ring, off: nat)
    requires ring.Valid() && Owned(ram, ring, ring.Index(off, 0))
    ensures Room(ram, ring, off, ring.length) ==
            DescAt(ram, ring, ring.Index(off, 0)).Size() + Room(ram, ring, off + 1, ring.length - 1)
  {
    hide DescAt;
  }

  lemma LastIsFirst(ring: Ring, k: nat)
    requires ring.Valid() && k < ring.length
    ensures ring.Index(k + 1 + (ring.length - 1), 0) == k
  {
    Arith.DivModIs(k + 1 + (ring.length - 1), ring.length, 1, k);
  }

  lemma {:induction false} RoomShift(ram: Ram, ring: Ring, o1: nat, o2: nat, n: nat)
    requires ring.Valid() && ring.Index(o1, 0) == ring.Index(o2, 0)
    ensures Room(ram, ring, o1, n) == Room(ram, ring, o2, n)
    decreases n
  {
    hide DescAt;
    if n > 0 {
      ring.Shift(o1, 0);
      ring.Shift(o2, 0);
      RoomShift(ram, ring, o1 + 1, o2 + 1, n - 1);
    }
  }

  /** A run ends at the released descriptor at the latest. */
  lemma {:induction false} RoomSame(ram: Ram, next: Ram, ring: Ring, k: nat, o: nat, n: nat)
    requires ring.Valid() && n < ring.length && k < ring.length && ring.Index(o + n, 0) == k && !Owned(next, ring, k)
    requires forall j: nat :: j < ring.length && j != k ==> DescAt(next, ring, j) == DescAt(ram, ring, j)
    ensures Room(next, ring, o, n + 1) == Room(ram, ring, o, n)
    decreases n
  {
    hide DescAt;
    if n > 0 {
      ring.Differ(o, n);
      RoomSame(ram, next, ring, k, o + 1, n - 1);
    }
  }
}
