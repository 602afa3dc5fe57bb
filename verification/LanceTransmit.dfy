/** A2065 transmit: a frame is gathered from the buffers of a chain of descriptors. */
module LanceTransmit {
  import opened Words
  import opened Bits
  import opened DescriptorRing
  import opened LanceReceive

  const UFLO: nat := 14
  const TX_BUFF: nat := 15
  const ADD_FCS: nat := 13
  const SHORTEST: nat := 60

  /** How many of the first `n` descriptors the chip owns. */
  function OwnCount(ram: Ram, ring: Ring, n: nat): (c: nat)
    requires ring.Valid() && n <= ring.length
    ensures c <= n
  {
    if n == 0 then 0 else OwnCount(ram, ring, n - 1) + if Owned(ram, ring, n - 1) then 1 else 0
  }

  /** A descriptor given back to the driver. */
  function Release(ram: Ram, ring: Ring, k: nat): Ram
    requires ring.Valid() && k < ring.length
  {
    var d := DescAt(ram, ring, k);
    PutBack(ram, ring, k, With(d.w1, OWN, false), d.w3)
  }

  lemma ReleaseMeans(ram: Ram, ring: Ring, k: nat)
    requires ring.Valid() && k < ring.length
    ensures var (r, d) := (Release(ram, ring, k), DescAt(ram, ring, k));
            && DescAt(r, ring, k) == d.(w1 := With(d.w1, OWN, false)) && !Owned(r, ring, k)
            && (forall j: nat :: j < ring.length && j != k ==> DescAt(r, ring, j) == DescAt(ram, ring, j))
            && (forall a: nat :: a < RAM && !InDesc(ring, k, a) ==> r[a] == ram[a])
  {
    var d := DescAt(ram, ring, k);
    PutBackMeans(ram, ring, k, With(d.w1, OWN, false), d.w3);
  }

  /** Every successful round clears one ownership bit of the ring. */
  lemma {:induction false} ReleaseCounts(ram: Ram, ring: Ring, k: nat, n: nat)
    requires ring.Valid() && k < ring.length && n <= ring.length && Owned(ram, ring, k)
    ensures OwnCount(Release(ram, ring, k), ring, n) == OwnCount(ram, ring, n) - if k < n then 1 else 0
  {
    hide Release, Owned;
    if n > 0 {
      ReleaseCounts(ram, ring, k, n - 1);
      OwnedAfter(ram, ring, k, n - 1);
    }
  }

  lemma OwnedAfter(ram: Ram, ring: Ring, k: nat, j: nat)
    requires ring.Valid() && k < ring.length && j < ring.length
    ensures Owned(Release(ram, ring, k), ring, j) == (j != k && Owned(ram, ring, j))
  {
    hide Release, DescAt;
    ReleaseMeans(ram, ring, k);
  }

  /** The part of one buffer that is sent. */
  function Piece(ram: Ram, ring: Ring, k: nat): seq<Byte>
    requires ring.Valid() && k < ring.length
  {
    var d := DescAt(ram, ring, k);
    ReadAt(ram, d.Addr(), Share(d, MAX_FRAME))
  }

  /** A descriptor marked with the buffer error the chip reports. */
  function Failed(ram: Ram, ring: Ring, k: nat): Ram
    requires ring.Valid() && k < ring.length
  {
    var d := DescAt(ram, ring, k);
    PutBack(ram, ring, k, With(d.w1, ERR, true), With(With(d.w3, TX_BUFF, true), UFLO, true))
  }

  /** Memory, ring position, the bytes gathered, whether the chain was complete, how many descriptors it took, and where
      it stopped. */
  datatype Sent = Sent(ram: Ram, off: nat, out: seq<Byte>, complete: bool, used: nat, last: nat)

  /** The transmit loop. */
  function Chain(ram: Ram, ring: Ring, off: nat, out: seq<Byte>): (s: Sent)
    requires ring.Valid()
    ensures s.last < ring.length
    decreases OwnCount(ram, ring, ring.length)
  {
    var k := ring.Index(off, 0);
    if !Owned(ram, ring, k) then Sent(Failed(ram, ring, k), k, out, false, 0, k)
    else
      var next := Release(ram, ring, k);
      var more := out + Piece(ram, ring, k);
      if DescAt(ram, ring, k).Enp() then Sent(next, k + 1, more, true, 1, k)
      else
        ReleaseCounts(ram, ring, k, ring.length);
        var s := Chain(next, ring, k + 1, more);
        s.(used := s.used + 1)
  }

  /** The buffers of `n` descriptors, one after the other. */
  function Gathered(ram: Ram, ring: Ring, off: nat, n: nat): seq<Byte>
    requires ring.Valid()
    decreases n
  {
    if n == 0 then [] else Piece(ram, ring, ring.Index(off, 0)) + Gathered(ram, ring, off + 1, n - 1)
  }

  /** Everything a complete chain promises about the descriptors: a contiguous segment up to the end mark, each one used
      once and given back, and nothing else written. */
  ghost predicate GivenBack(ram: Ram, r: Ram, ring: Ring, off: nat, n: nat)
    requires ring.Valid()
  {
    && 1 <= n <= ring.length
    && (forall i: nat :: i < n ==> Owned(ram, ring, ring.Index(off, i)))
    && (forall i: nat :: i < n ==> (DescAt(ram, ring, ring.Index(off, i)).Enp() <==> i == n - 1))
    && (forall i: nat :: i < n ==>
          DescAt(r, ring, ring.Index(off, i)) ==
          DescAt(ram, ring, ring.Index(off, i)).(w1 := With(DescAt(ram, ring, ring.Index(off, i)).w1, OWN, false)))
    && (forall k: nat :: k < ring.length && !InSegment(ring, off, n, k) ==> DescAt(r, ring, k) == DescAt(ram, ring, k))
  }

  ghost predicate OnlySegment(ram: Ram, r: Ram, ring: Ring, off: nat, n: nat)
    requires ring.Valid()
  {
    forall a: nat :: a < RAM && !InSegmentDesc(ring, off, n, a) ==> r[a] == ram[a]
  }

  ghost predicate InSegmentDesc(ring: Ring, off: nat, n: nat, a: nat)
    requires ring.Valid()
  {
    exists i: nat :: i < n && InDesc(ring, ring.Index(off, i), a)
  }

  /** What a complete chain promises. */
  ghost predicate Gathers(ram: Ram, ring: Ring, off: nat, out: seq<Byte>, s: Sent)
    requires ring.Valid()
  {
    && GivenBack(ram, s.ram, ring, off, s.used) && OnlySegment(ram, s.ram, ring, off, s.used)
    && s.out == out + Gathered(ram, ring, off, s.used)
    && s.last == ring.Index(off, s.used - 1) && s.off == s.last + 1
  }

  lemma {:induction false} ChainMeans(ram: Ram, ring: Ring, off: nat, out: seq<Byte>)
    requires ring.Valid() && OffRing(ram, ring, MAX_FRAME)
    ensures var s := Chain(ram, ring, off, out);
            s.complete ==> Gathers(ram, ring, off, out, s)
    decreases OwnCount(ram, ring, ring.length)
  {
    hide Gathers, DescAt, Release, Piece, OffRing, Failed, Bit, Owned;
    var k := ring.Index(off, 0);
    if Owned(ram, ring, k) {
      if DescAt(ram, ring, k).Enp() {
        ChainLast(ram, ring, off, out);
      } else {
        var (next, more) := (Release(ram, ring, k), out + Piece(ram, ring, k));
        ReleaseCounts(ram, ring, k, ring.length);
        StillOffRing(ram, ring, k);
        ChainMeans(next, ring, k + 1, more);
        var s := Chain(next, ring, k + 1, more);
        if s.complete {
          ChainStep(ram, ring, off, out, s);
        }
      }
    }
  }

  lemma ChainLast(ram: Ram, ring: Ring, off: nat, out: seq<Byte>)
    requires ring.Valid() && Owned(ram, ring, ring.Index(off, 0)) && DescAt(ram, ring, ring.Index(off, 0)).Enp()
    ensures var k := ring.Index(off, 0);
            Gathers(ram, ring, off, out, Sent(Release(ram, ring, k), k + 1, out + Piece(ram, ring, k), true, 1, k))
  {
    hide GivenBack, OnlySegment, Release, Piece, Gathered, DescAt, Owned, Bit;
    var k := ring.Index(off, 0);
    LastGivenBack(ram, ring, off);
    GatheredNone(ram, ring, off + 1);
    GatheredOne(ram, ring, off, 0);
    assert Piece(ram, ring, k) + [] == Piece(ram, ring, k);
  }

  lemma ChainStep(ram: Ram, ring: Ring, off: nat, out: seq<Byte>, s: Sent)
    requires ring.Valid() && OffRing(ram, ring, MAX_FRAME)
    requires var k := ring.Index(off, 0);
             && Owned(ram, ring, k) && !DescAt(ram, ring, k).Enp()
             && Gathers(Release(ram, ring, k), ring, k + 1, out + Piece(ram, ring, k), s)
    ensures Gathers(ram, ring, off, out, s.(used := s.used + 1))
  {
    hide GivenBack, OnlySegment, Release, Piece, Gathered, DescAt, Owned, Bit, OffRing;
    var k := ring.Index(off, 0);
    var next := Release(ram, ring, k);
    GivenBackGrows(ram, next, s.ram, ring, off, k + 1, s.used);
    OnlySegmentGrows(ram, next, s.ram, ring, off, k + 1, s.used);
    StillOwned(next, s.ram, ring, k + 1, s.used);
    GatheredAfter(ram, ring, off, s.used);
    GatheredOne(ram, ring, off, s.used);
    assert (out + Piece(ram, ring, k)) + Gathered(next, ring, k + 1, s.used) ==
           out + (Piece(ram, ring, k) + Gathered(ram, ring, off + 1, s.used));
    PlaceBefore(ring, off, s.used);
  }

  ghost predicate AllOwned(ram: Ram, ring: Ring, o: nat, n: nat)
    requires ring.Valid()
  {
    forall i: nat :: i < n ==> Owned(ram, ring, ring.Index(o, i))
  }

  lemma StillOwned(ram: Ram, r: Ram, ring: Ring, o: nat, n: nat)
    requires ring.Valid() && GivenBack(ram, r, ring, o, n)
    ensures n >= 1 && AllOwned(ram, ring, o, n)
  {
    hide DescAt, Owned, Bit, With;
  }

  lemma PlaceBefore(ring: Ring, off: nat, n: nat)
    requires ring.Valid() && n >= 1
    ensures ring.Index(ring.Index(off, 0) + 1, n - 1) == ring.Index(off, n)
  {
    ring.Shift(off, n - 1);
  }

  lemma GatheredNone(ram: Ram, ring: Ring, off: nat)
    requires ring.Valid()
    ensures Gathered(ram, ring, off, 0) == []
  {
  }

  lemma GatheredOne(ram: Ram, ring: Ring, off: nat, n: nat)
    requires ring.Valid()
    ensures Gathered(ram, ring, off, n + 1) == Piece(ram, ring, ring.Index(off, 0)) + Gathered(ram, ring, off + 1, n)
  {
  }

  lemma StillOffRing(ram: Ram, ring: Ring, k: nat)
    requires ring.Valid() && k < ring.length && OffRing(ram, ring, MAX_FRAME)
    ensures OffRing(Release(ram, ring, k), ring, MAX_FRAME)
  {
    hide DescAt, Release, InDesc;
    ReleaseMeans(ram, ring, k);
    var r := Release(ram, ring, k);
    forall j: nat | j < ring.length && Owned(r, ring, j)
      ensures Owned(ram, ring, j)
      ensures forall a: nat :: a < RAM && InBuffer(r, ring, j, MAX_FRAME, a) ==> InBuffer(ram, ring, j, MAX_FRAME, a)
    {
      assert DescAt(r, ring, j) == DescAt(ram, ring, j);
    }
  }

  lemma LastGivenBack(ram: Ram, ring: Ring, off: nat)
    requires ring.Valid()
    requires var k := ring.Index(off, 0);
             Owned(ram, ring, k) && DescAt(ram, ring, k).Enp()
    ensures var r := Release(ram, ring, ring.Index(off, 0));
            GivenBack(ram, r, ring, off, 1) && OnlySegment(ram, r, ring, off, 1)
  {
    hide DescAt, Release, InDesc, Owned, Bit, With;
    var k := ring.Index(off, 0);
    ReleaseMeans(ram, ring, k);
    var r := Release(ram, ring, k);
    forall j: nat | j < ring.length && !InSegment(ring, off, 1, j)
      ensures DescAt(r, ring, j) == DescAt(ram, ring, j)
    {
      assert ring.Index(off, 0) != j;
    }
    forall a: nat | a < RAM && !InSegmentDesc(ring, off, 1, a)
      ensures r[a] == ram[a]
    {
      assert !InDesc(ring, ring.Index(off, 0), a);
    }
  }

  lemma GivenBackGrows(ram: Ram, next: Ram, r: Ram, ring: Ring, off: nat, o: nat, n: nat)
    requires ring.Valid() && o == ring.Index(off, 0) + 1
    requires var k := ring.Index(off, 0);
             && next == Release(ram, ring, k) && Owned(ram, ring, k) && !DescAt(ram, ring, k).Enp()
             && GivenBack(next, r, ring, o, n)
    ensures GivenBack(ram, r, ring, off, n + 1)
  {
    hide DescAt, Release, Bit, With;
    var k := ring.Index(off, 0);
    ReleaseMeans(ram, ring, k);
    Later(next, ring, off, o, n);
    DistinctIsShort(ring, off, n + 1);
    assert !InSegment(ring, o, n, k);
    assert DescAt(r, ring, k) == DescAt(next, ring, k);
    forall i: nat | i < n + 1
      ensures Owned(ram, ring, ring.Index(off, i))
      ensures DescAt(ram, ring, ring.Index(off, i)).Enp() <==> i == n
      ensures DescAt(r, ring, ring.Index(off, i)) ==
              DescAt(ram, ring, ring.Index(off, i)).(w1 := With(DescAt(ram, ring, ring.Index(off, i)).w1, OWN, false))
    {
      if i > 0 {
        assert ring.Index(o, i - 1) == ring.Index(off, i) != k;
        assert DescAt(next, ring, ring.Index(off, i)) == DescAt(ram, ring, ring.Index(off, i));
      }
    }
    forall j: nat | j < ring.length && !InSegment(ring, off, n + 1, j)
      ensures DescAt(r, ring, j) == DescAt(ram, ring, j)
    {
      assert ring.Index(off, 0) != j;
      forall i: nat | i < n
        ensures ring.Index(o, i) != j
      {
        assert ring.Index(off, i + 1) != j;
      }
    }
  }

  lemma OnlySegmentGrows(ram: Ram, next: Ram, r: Ram, ring: Ring, off: nat, o: nat, n: nat)
    requires ring.Valid() && o == ring.Index(off, 0) + 1
    requires next == Release(ram, ring, ring.Index(off, 0)) && OnlySegment(next, r, ring, o, n)
    ensures OnlySegment(ram, r, ring, off, n + 1)
  {
    hide DescAt, Release, InDesc;
    var k := ring.Index(off, 0);
    ReleaseMeans(ram, ring, k);
    forall a: nat | a < RAM && !InSegmentDesc(ring, off, n + 1, a)
      ensures r[a] == ram[a]
    {
      assert !InDesc(ring, ring.Index(off, 0), a);
      forall i: nat | i < n
        ensures !InDesc(ring, ring.Index(o, i), a)
      {
        ring.Shift(off, i);
        assert !InDesc(ring, ring.Index(off, i + 1), a);
      }
      assert !InSegmentDesc(ring, o, n, a);
    }
  }

  /** What is still to be gathered does not change when a descriptor is given back. */
  lemma GatheredAfter(ram: Ram, ring: Ring, off: nat, n: nat)
    requires ring.Valid() && OffRing(ram, ring, MAX_FRAME) && Owned(ram, ring, ring.Index(off, 0))
    requires var k := ring.Index(off, 0);
             AllOwned(Release(ram, ring, k), ring, k + 1, n)
    ensures var k := ring.Index(off, 0);
            Gathered(Release(ram, ring, k), ring, k + 1, n) == Gathered(ram, ring, off + 1, n)
  {
    hide DescAt, Release;
    var k := ring.Index(off, 0);
    ReleaseMeans(ram, ring, k);
    ring.Shift(off, 0);
    GatheredSame(ram, Release(ram, ring, k), ring, k, off + 1, k + 1, n);
  }

  lemma {:induction false} GatheredSame(ram: Ram, next: Ram, ring: Ring, k: nat, o1: nat, o2: nat, n: nat)
    requires ring.Valid() && k < ring.length && ring.Index(o1, 0) == ring.Index(o2, 0)
    requires OffRing(ram, ring, MAX_FRAME) && !Owned(next, ring, k)
    requires AllOwned(next, ring, o2, n)
    requires forall j: nat :: j < ring.length && j != k ==> DescAt(next, ring, j) == DescAt(ram, ring, j)
    requires forall a: nat :: a < RAM && !InDesc(ring, k, a) ==> next[a] == ram[a]
    ensures Gathered(next, ring, o2, n) == Gathered(ram, ring, o1, n)
    decreases n
  {
    hide DescAt, OffRing, InDesc;
    if n > 0 {
      var j := ring.Index(o2, 0);
      assert Owned(next, ring, ring.Index(o2, 0)) && j != k;
      PieceSame(ram, next, ring, k, j);
      ring.Shift(o1, 0);
      ring.Shift(o2, 0);
      LaterOwned(next, ring, o2, o2 + 1, n);
      GatheredSame(ram, next, ring, k, o1 + 1, o2 + 1, n - 1);
    }
  }

  lemma LaterOwned(ram: Ram, ring: Ring, o: nat, o1: nat, n: nat)
    requires ring.Valid() && n > 0 && o1 == o + 1 && AllOwned(ram, ring, o, n)
    ensures AllOwned(ram, ring, o1, n - 1)
  {
    hide Owned;
    forall i: nat | i < n - 1
      ensures Owned(ram, ring, ring.Index(o1, i))
    {
      assert ring.Index(o1, i) == ring.Index(o, i + 1);
    }
  }

  lemma PieceSame(ram: Ram, next: Ram, ring: Ring, k: nat, j: nat)
    requires ring.Valid() && k < ring.length && j < ring.length && OffRing(ram, ring, MAX_FRAME)
    requires Owned(next, ring, j) && DescAt(next, ring, j) == DescAt(ram, ring, j)
    requires forall a: nat :: a < RAM && !InDesc(ring, k, a) ==> next[a] == ram[a]
    ensures Piece(next, ring, j) == Piece(ram, ring, j)
  {
    hide DescAt, InDesc;
    var d := DescAt(ram, ring, j);
    forall i: nat | i < Share(d, MAX_FRAME)
      ensures Piece(next, ring, j)[i] == Piece(ram, ring, j)[i]
    {
      DistOf(d.Addr(), i);
      assert InBuffer(ram, ring, j, MAX_FRAME, (d.Addr() + i) % RAM);
    }
  }

  // ---- when a chain is complete ----

  /** The descriptors owned from one on reach an end mark within `n`. */
  predicate Ends(ram: Ram, ring: Ring, off: nat, n: nat)
    requires ring.Valid()
    decreases n
  {
    var k := ring.Index(off, 0);
    n > 0 && Owned(ram, ring, k) && (DescAt(ram, ring, k).Enp() || Ends(ram, ring, off + 1, n - 1))
  }

  lemma {:induction false} CompleteIff(ram: Ram, ring: Ring, off: nat, out: seq<Byte>)
    requires ring.Valid()
    ensures Chain(ram, ring, off, out).complete <==> Ends(ram, ring, off, ring.length)
    decreases OwnCount(ram, ring, ring.length)
  {
    hide DescAt, Release, Failed, Piece, Bit, Owned;
    var k := ring.Index(off, 0);
    if Owned(ram, ring, k) && !DescAt(ram, ring, k).Enp() {
      var next := Release(ram, ring, k);
      ReleaseCounts(ram, ring, k, ring.length);
      ReleaseMeans(ram, ring, k);
      CompleteIff(next, ring, k + 1, out + Piece(ram, ring, k));
      ring.Shift(off, 0);
      EndsShift(ram, ring, off + 1, k + 1, ring.length - 1);
      LastIsFirst(ring, k);
      EndsSame(ram, next, ring, k, k + 1, ring.length - 1);
    }
  }

  lemma {:induction false} EndsShift(ram: Ram, ring: Ring, o1: nat, o2: nat, n: nat)
    requires ring.Valid() && ring.Index(o1, 0) == ring.Index(o2, 0)
    ensures Ends(ram, ring, o1, n) == Ends(ram, ring, o2, n)
    decreases n
  {
    hide DescAt, Owned, Bit;
    if n > 0 {
      ring.Shift(o1, 0);
      ring.Shift(o2, 0);
      EndsShift(ram, ring, o1 + 1, o2 + 1, n - 1);
    }
  }

  lemma {:induction false} EndsSame(ram: Ram, next: Ram, ring: Ring, k: nat, o: nat, n: nat)
    requires ring.Valid() && n < ring.length && k < ring.length && ring.Index(o + n, 0) == k && !Owned(next, ring, k)
    requires forall j: nat :: j < ring.length && j != k ==> DescAt(next, ring, j) == DescAt(ram, ring, j)
    ensures Ends(next, ring, o, n + 1) == Ends(ram, ring, o, n)
    decreases n
  {
    hide DescAt, Bit;
    if n > 0 {
      ring.Differ(o, n);
      EndsSame(ram, next, ring, k, o + 1, n - 1);
    }
  }

  // ---- when it is not ----

  /** Descriptor `j` once the `n` descriptors from `off` on have been given back. */
  ghost function Returned(ram: Ram, ring: Ring, off: nat, n: nat, j: nat): Desc
    requires ring.Valid() && j < ring.length
  {
    var d := DescAt(ram, ring, j);
    if InSegment(ring, off, n, j) then d.(w1 := With(d.w1, OWN, false)) else d
  }

  /** `e` is `d` with the error bit of its second word and the two error bits of its last word set. */
  ghost predicate ErrorMarked(d: Desc, e: Desc) {
    && e.w0 == d.w0 && e.w2 == d.w2
    && (forall b: nat :: b < 16 ==> (Bit(e.w1, b) <==> b == 14 || Bit(d.w1, b)))
    && (forall b: nat :: b < 16 ==> (Bit(e.w3, b) <==> b >= 14 || Bit(d.w3, b)))
  }

  /** No byte outside the ring has changed. */
  ghost predicate OnlyRing(ram: Ram, r: Ram, ring: Ring)
    requires ring.Valid()
  {
    forall a: nat :: a < RAM && (forall j: nat :: j < ring.length ==> !InDesc(ring, j, a)) ==> r[a] == ram[a]
  }

  /** `n` descriptors from `off` on have been given back, and `last` has error marks; nothing else has changed. */
  ghost predicate Marks(ram: Ram, r: Ram, ring: Ring, off: nat, n: nat, last: nat)
    requires ring.Valid() && last < ring.length
  {
    && (forall j: nat :: j < ring.length && j != last ==> DescAt(r, ring, j) == Returned(ram, ring, off, n, j))
    && ErrorMarked(Returned(ram, ring, off, n, last), DescAt(r, ring, last))
    && OnlyRing(ram, r, ring)
  }

  /** A chain that breaks off: descriptors without an end mark up to one that the chip does not own. */
  ghost predicate Breaks(ram: Ram, ring: Ring, off: nat, s: Sent)
    requires ring.Valid() && s.last < ring.length
  {
    && s.used <= ring.length && s.last == ring.Index(off, s.used) && s.off == s.last
    && (forall i: nat :: i < s.used ==> Owned(ram, ring, ring.Index(off, i)) && !DescAt(ram, ring, ring.Index(off, i)).Enp())
    && !Returned(ram, ring, off, s.used, s.last).Own()
    && Marks(ram, s.ram, ring, off, s.used, s.last)
  }

  lemma FailedMeans(ram: Ram, ring: Ring, k: nat)
    requires ring.Valid() && k < ring.length
    ensures var r := Failed(ram, ring, k);
            && ErrorMarked(DescAt(ram, ring, k), DescAt(r, ring, k))
            && (forall j: nat :: j < ring.length && j != k ==> DescAt(r, ring, j) == DescAt(ram, ring, j))
            && OnlyRing(ram, r, ring)
  {
    hide DescAt, PutBack, InDesc, Bit;
    var d := DescAt(ram, ring, k);
    PutBackMeans(ram, ring, k, With(d.w1, ERR, true), With(With(d.w3, TX_BUFF, true), UFLO, true));
  }

  lemma BreaksAtOnce(ram: Ram, ring: Ring, off: nat, out: seq<Byte>)
    requires ring.Valid() && !Owned(ram, ring, ring.Index(off, 0))
    ensures var k := ring.Index(off, 0);
            Breaks(ram, ring, off, Sent(Failed(ram, ring, k), k, out, false, 0, k))
  {
    hide DescAt, Failed, ErrorMarked, OnlyRing, Bit;
    FailedMeans(ram, ring, ring.Index(off, 0));
  }

  lemma ReturnedStep(ram: Ram, next: Ram, ring: Ring, off: nat, o: nat, n: nat, j: nat)
    requires ring.Valid() && o == ring.Index(off, 0) + 1 && j < ring.length
    requires next == Release(ram, ring, ring.Index(off, 0))
    requires forall i: nat :: i < n ==> ring.Index(o, i) == ring.Index(off, i + 1) != ring.Index(off, 0)
    ensures Returned(next, ring, o, n, j) == Returned(ram, ring, off, n + 1, j)
  {
    hide DescAt, Release, Bit, Ring.Index, With;
    var k := ring.Index(off, 0);
    ReleaseMeans(ram, ring, k);
    if j == k {
      assert InSegment(ring, off, n + 1, k);
      assert !InSegment(ring, o, n, k);
    } else {
      if InSegment(ring, o, n, j) {
        var i: nat :| i < n && ring.Index(o, i) == j;
        assert ring.Index(off, i + 1) == j;
      }
      if InSegment(ring, off, n + 1, j) {
        var i: nat :| i < n + 1 && ring.Index(off, i) == j;
        assert ring.Index(o, i - 1) == j;
      }
    }
  }

  lemma BreaksLater(ram: Ram, ring: Ring, off: nat, s: Sent)
    requires ring.Valid() && s.last < ring.length
    requires var k := ring.Index(off, 0);
             Owned(ram, ring, k) && !DescAt(ram, ring, k).Enp() && Breaks(Release(ram, ring, k), ring, k + 1, s)
    ensures Breaks(ram, ring, off, s.(used := s.used + 1))
  {
    hide DescAt, Release, Bit, ErrorMarked, OnlyRing, Returned, Ring.Index;
    var k := ring.Index(off, 0);
    var (next, n) := (Release(ram, ring, k), s.used);
    ReleaseMeans(ram, ring, k);
    Later(next, ring, off, k + 1, n);
    DistinctIsShort(ring, off, n + 1);
    ring.Shift(off, n);
    var (o, m) := (k + 1, n + 1);
    forall j: nat | j < ring.length
      ensures Returned(next, ring, o, n, j) == Returned(ram, ring, off, m, j)
    {
      ReturnedStep(ram, next, ring, off, o, n, j);
    }
    forall i: nat | i < n + 1
      ensures Owned(ram, ring, ring.Index(off, i)) && !DescAt(ram, ring, ring.Index(off, i)).Enp()
    {
      if i > 0 {
        assert ring.Index(k + 1, i - 1) == ring.Index(off, i) != k;
        assert DescAt(next, ring, ring.Index(off, i)) == DescAt(ram, ring, ring.Index(off, i));
      }
    }
    RingOnly(ram, s.ram, ring, k);
  }

  lemma RingOnly(ram: Ram, r: Ram, ring: Ring, k: nat)
    requires ring.Valid() && k < ring.length && OnlyRing(Release(ram, ring, k), r, ring)
    ensures OnlyRing(ram, r, ring)
  {
    hide Release, InDesc, DescAt;
    ReleaseMeans(ram, ring, k);
  }

  /** An incomplete chain gives back what it took, marks the descriptor it stopped at, and changes nothing else. */
  lemma {:induction false} ChainBreaks(ram: Ram, ring: Ring, off: nat, out: seq<Byte>)
    requires ring.Valid()
    ensures var s := Chain(ram, ring, off, out);
            !s.complete ==> Breaks(ram, ring, off, s)
    decreases OwnCount(ram, ring, ring.length)
  {
    hide Breaks, DescAt, Release, Piece, Failed, Bit, Owned;
    var k := ring.Index(off, 0);
    if !Owned(ram, ring, k) {
      BreaksAtOnce(ram, ring, off, out);
    } else if !DescAt(ram, ring, k).Enp() {
      var (next, more) := (Release(ram, ring, k), out + Piece(ram, ring, k));
      ReleaseCounts(ram, ring, k, ring.length);
      ChainBreaks(next, ring, k + 1, more);
      if !Chain(next, ring, k + 1, more).complete {
        BreaksLater(ram, ring, off, Chain(next, ring, k + 1, more));
      }
    }
  }

  // ---- a whole transmission ----

  /** Nothing to send, or a frame of so many bytes of the buffer, or an error. */
  datatype Outcome = Idle | Frame(len: nat) | Error

  datatype Transmission = Transmission(ram: Ram, off: nat, out: seq<Byte>, outcome: Outcome)

  function Transmit(ram: Ram, ring: Ring, off: nat, dtcr: bool): Transmission
    requires ring.Valid()
  {
    var k := ring.Index(off, 0);
    var d := DescAt(ram, ring, k);
    if !d.Own() || !Bit(d.w1, STP) then Transmission(ram, k + 1, [], Idle)
    else
      var s := Chain(ram, ring, k, []);
      if |s.out| < SHORTEST then Transmission(Failed(s.ram, ring, s.last), s.off, s.out, Error)
      else if !s.complete then Transmission(s.ram, s.off, s.out, Error)
      else Transmission(s.ram, s.off, s.out, Frame(|s.out| - if dtcr && !Bit(d.w1, ADD_FCS) then 4 else 0))
  }

  /** A frame goes out exactly when an owned start of a frame is followed by owned descriptors up to an end mark, with at
      least 60 bytes between them; it is those bytes, without the last four when the chip is told to send the frame's own
      checksum and the first descriptor does not ask for another. */
  lemma TransmitMeans(ram: Ram, ring: Ring, off: nat, dtcr: bool)
    requires ring.Valid() && OffRing(ram, ring, MAX_FRAME)
    ensures var (t, k) := (Transmit(ram, ring, off, dtcr), ring.Index(off, 0));
            var d := DescAt(ram, ring, k);
            && (t.outcome.Idle? <==> !(Bit(d.w1, 15) && Bit(d.w1, 9)))
            && (t.outcome.Idle? ==> t.ram == ram && t.off == k + 1 && t.out == [])
            && (t.outcome.Frame? <==> Bit(d.w1, 15) && Bit(d.w1, 9) && Ends(ram, ring, k, ring.length) && |t.out| >= 60)
            && (t.outcome.Frame? ==>
                  && t.outcome.len == |t.out| - (if dtcr && !Bit(d.w1, 13) then 4 else 0)
                  && exists n: nat :: 1 <= n <= ring.length && GivenBack(ram, t.ram, ring, k, n) &&
                                      OnlySegment(ram, t.ram, ring, k, n) && t.out == Gathered(ram, ring, k, n) &&
                                      t.off == ring.Index(k, n - 1) + 1)
  {
    hide DescAt, Chain, Failed, GivenBack, OnlySegment, Gathered, Bit, OffRing, Ends, Owned;
    var k := ring.Index(off, 0);
    var d := DescAt(ram, ring, k);
    if d.Own() && Bit(d.w1, STP) {
      var s := Chain(ram, ring, k, []);
      CompleteIff(ram, ring, k, []);
      ChainMeans(ram, ring, k, []);
      if s.complete {
        assert [] + Gathered(ram, ring, k, s.used) == Gathered(ram, ring, k, s.used);
        AtMostRing(ram, s.ram, ring, k, s.used);
      }
    }
  }

  /** A transmission that fails: the descriptors taken are given back; the one that should have been owned, or the last one
      of a frame under 60 bytes, has the error marks; nothing else is written. */
  lemma TransmitFails(ram: Ram, ring: Ring, off: nat, dtcr: bool) returns (n: nat)
    requires ring.Valid() && OffRing(ram, ring, MAX_FRAME)
    ensures n <= ring.length
    ensures var (t, k) := (Transmit(ram, ring, off, dtcr), ring.Index(off, 0));
            t.outcome.Error? ==>
              if Ends(ram, ring, k, ring.length) then
                && n > 0 && |t.out| < 60 && t.off == ring.Index(k, n - 1) + 1
                && Marks(ram, t.ram, ring, k, n, ring.Index(k, n - 1))
              else t.off == ring.Index(k, n) && Marks(ram, t.ram, ring, k, n, ring.Index(k, n))
  {
    hide DescAt, Chain, Failed, GivenBack, OnlySegment, Gathered, Bit, OffRing, Ends, Owned, Marks, Returned, Ring.Index;
    var k := ring.Index(off, 0);
    var d := DescAt(ram, ring, k);
    n := 0;
    if d.Own() && Bit(d.w1, STP) {
      var s := Chain(ram, ring, k, []);
      CompleteIff(ram, ring, k, []);
      ChainMeans(ram, ring, k, []);
      ChainBreaks(ram, ring, k, []);
      n := s.used;
      if s.complete {
        AtMostRing(ram, s.ram, ring, k, n);
        GivenBackMarks(ram, s.ram, ring, k, n);
      } else {
        MarkedTwice(ram, s.ram, ring, k, n, s.last);
      }
    }
  }

  lemma MarkedTwice(ram: Ram, r: Ram, ring: Ring, off: nat, n: nat, last: nat)
    requires ring.Valid() && last < ring.length && Marks(ram, r, ring, off, n, last)
    ensures Marks(ram, Failed(r, ring, last), ring, off, n, last)
  {
    hide DescAt, Failed, Bit, Returned, InDesc;
    FailedMeans(r, ring, last);
  }

  lemma GivenBackMarks(ram: Ram, r: Ram, ring: Ring, off: nat, n: nat)
    requires ring.Valid() && GivenBack(ram, r, ring, off, n) && OnlySegment(ram, r, ring, off, n)
    ensures n > 0 && Marks(ram, Failed(r, ring, ring.Index(off, n - 1)), ring, off, n, ring.Index(off, n - 1))
  {
    hide DescAt, Failed, Bit, InDesc, Ring.Index, With, ErrorMarked, Owned;
    var last := ring.Index(off, n - 1);
    FailedMeans(r, ring, last);
    forall j: nat | j < ring.length
      ensures DescAt(r, ring, j) == Returned(ram, ring, off, n, j)
    {
      if InSegment(ring, off, n, j) {
        var i: nat :| i < n && ring.Index(off, i) == j;
      }
    }
  }

  lemma AtMostRing(ram: Ram, r: Ram, ring: Ring, off: nat, n: nat)
    requires ring.Valid() && GivenBack(ram, r, ring, off, n)
    ensures 1 <= n <= ring.length
  {
  }
}
