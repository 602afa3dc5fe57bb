/** Section 1 of RFC 1071: the one's complement sum of 16-bit words. */
module OnesComplement {
  import opened Words
  import opened BigEndian
  import Arith

  /** The carries above 16 bits are added back until there are none. */
  function Fold(sum: nat): (f: Word)
    decreases sum
  {
    if sum < 0x1_0000 then sum else Fold(sum % 0x1_0000 + sum / 0x1_0000)
  }

  /** Folding keeps the value modulo 0xffff, and makes zero only of zero. */
  lemma {:induction false} FoldKeeps(sum: nat)
    ensures Fold(sum) % 0xffff == sum % 0xffff
    ensures Fold(sum) == 0 <==> sum == 0
    decreases sum
  {
    if sum >= 0x1_0000 {
      var low, high := sum % 0x1_0000, sum / 0x1_0000;
      FoldKeeps(low + high);
      assert sum == low + high + 0xffff * high;
      Multiple(low + high, high);
    }
  }

  lemma Multiple(x: nat, k: nat)
    ensures (x + 0xffff * k) % 0xffff == x % 0xffff
  {
    var q, r := x / 0xffff, x % 0xffff;
    assert x == 0xffff * q + r;
    assert x + 0xffff * k == (q + k) * 0xffff + r;
    Arith.DivModIs(x + 0xffff * k, 0xffff, q + k, r);
  }

  /** Adding the complement of a folded sum makes the sum fold to all ones. */
  lemma ComplementCompletes(sum: nat)
    requires sum > 0
    ensures Fold(sum + (0xffff - Fold(sum))) == 0xffff
  {
    var f := Fold(sum);
    FoldKeeps(sum);
    var total := sum + (0xffff - f);
    FoldKeeps(total);
    var q, r := sum / 0xffff, sum % 0xffff;
    assert sum == 0xffff * q + r;
    assert f == r || (f == 0xffff && r == 0);
    Multiple(0, if f == r then q + 1 else q);
    assert total == 0xffff * (if f == r then q + 1 else q);
    assert total % 0xffff == 0;
    assert Fold(total) % 0xffff == 0;
  }

  /** The sum of `n` bytes from `at` taken two at a time; an odd last byte is followed by a zero. */
  function Sum(d: seq<Byte>, at: nat, n: nat): nat
    requires at + n <= |d|
    decreases n
  {
    if n == 0 then 0
    else if n == 1 then Big(d[at], 0)
    else Half(d, at) + Sum(d, at + 2, n - 2)
  }

  lemma {:induction false} SumBound(d: seq<Byte>, at: nat, n: nat)
    requires at + n <= |d|
    ensures Sum(d, at, n) <= (n + 1) / 2 * 0xffff
    decreases n
  {
    if n >= 2 {
      SumBound(d, at + 2, n - 2);
    }
  }

  lemma {:induction false} SumSame(d: seq<Byte>, e: seq<Byte>, at: nat, n: nat)
    requires at + n <= |d| == |e| && forall i: nat :: at <= i < at + n ==> d[i] == e[i]
    ensures Sum(d, at, n) == Sum(e, at, n)
    decreases n
  {
    if n >= 2 {
      SumSame(d, e, at + 2, n - 2);
    }
  }

  lemma {:induction false} SumSplit(d: seq<Byte>, at: nat, m: nat, n: nat)
    requires at + m + n <= |d| && m % 2 == 0
    ensures Sum(d, at, m + n) == Sum(d, at, m) + Sum(d, at + m, n)
    decreases m
  {
    if m > 0 {
      SumSplit(d, at + 2, m - 2, n);
    }
  }

  /** A zero after an odd last byte is what the sum supposes anyway. */
  lemma {:induction false} SumPadded(d: seq<Byte>, at: nat, n: nat)
    requires at + n < |d| && n % 2 == 1 && d[at + n] == 0
    ensures Sum(d, at, n + 1) == Sum(d, at, n)
    decreases n
  {
    if n > 1 {
      SumPadded(d, at + 2, n - 2);
    } else {
      assert Sum(d, at + 2, 0) == 0;
    }
  }
}

/** The A2065's exchange of the emulated card's address with the host's, in every place of a frame that carries it. */
module MacTranslation {
  import opened Words
  import opened BigEndian
  import opened OnesComplement

  const MAX_PACKET_SIZE: nat := 4000
  const HEADER: nat := 14
  const CHADDR: nat := 36

  type Mac = m: seq<Byte> | |m| == 6 witness [0, 0, 0, 0, 0, 0]

  datatype Macs = Macs(fake: Mac, host: Mac) {
    /** Each of the two addresses stands for the other. */
    function Flip(m: Mac): Mac {
      if m == fake then host else if m == host then fake else m
    }

    predicate Known(m: Mac) {
      m == fake || m == host
    }

    lemma FlipTwice(m: Mac)
      ensures Flip(Flip(m)) == m && Known(Flip(m)) == Known(m)
    {
    }
  }

  function MacAt(d: seq<Byte>, at: nat): Mac
    requires at + 6 <= |d|
  {
    d[at..at + 6]
  }

  function Exchanged(macs: Macs, d: seq<Byte>, at: nat): (e: seq<Byte>)
    requires at + 6 <= |d|
    ensures |e| == |d| && MacAt(e, at) == macs.Flip(MacAt(d, at))
    ensures forall i: nat :: i < |d| && !(at <= i < at + 6) ==> e[i] == d[i]
  {
    d[..at] + macs.Flip(MacAt(d, at)) + d[at + 6..]
  }

  /** ARP for Ethernet carries the sender's and the target's address. */
  function Arp(macs: Macs, d: seq<Byte>): (e: seq<Byte>)
    requires |d| >= 24
    ensures |e| == |d|
  {
    if Half(d, 0) == 1 && d[4] == 6 then Exchanged(macs, Exchanged(macs, d, 8), 18) else d
  }

  /** Where the IPv4 payload begins. */
  function Udp(d: seq<Byte>): (u: nat)
    requires |d| > 0
    ensures u <= 60 && u % 4 == 0
  {
    d[0] % 16 * 4
  }

  function UdpLength(d: seq<Byte>): Word
    requires |d| >= 102
  {
    Half(d, Udp(d) + 4)
  }

  predicate DhcpPort(w: Word) {
    w == 67 || w == 68
  }

  predicate IsDhcp(d: seq<Byte>)
    requires |d| >= 102
  {
    var u := Udp(d);
    d[9] == 17 && (DhcpPort(Half(d, u)) || DhcpPort(Half(d, u + 2)))
  }

  /** The client address is rewritten under a checksum, so the checksum has to follow. */
  predicate NeedsRepair(macs: Macs, d: seq<Byte>)
    requires |d| >= 102
  {
    var u := Udp(d);
    IsDhcp(d) && macs.Known(MacAt(d, u + CHADDR)) && (d[u + 6] != 0 || d[u + 7] != 0)
  }

  /** The datagram with its checksum zero and a zero byte after it. */
  function Blanked(d: seq<Byte>, u: nat, n: nat): (e: seq<Byte>)
    requires u + 7 < |d| && u + n < |d|
    ensures |e| == |d|
  {
    d[u + 6 := 0][u + 7 := 0][u + n := 0]
  }

  /** The addresses, protocol and length that the UDP checksum covers besides the datagram. */
  function PseudoHeader(d: seq<Byte>, n: nat): nat
    requires |d| >= 20
  {
    Half(d, 12) + Half(d, 14) + Half(d, 16) + Half(d, 18) + 17 + n
  }

  function Covered(d: seq<Byte>, u: nat, n: nat): nat
    requires u + n <= |d| && |d| >= 20
  {
    Sum(d, u, n) + PseudoHeader(d, n)
  }

  /** The checksum the code stores. The test that should replace zero by 0xffff is made on 32 bits and never holds. */
  function Repaired(d: seq<Byte>, u: nat, n: nat): (e: seq<Byte>)
    requires u + 7 < |d| && u + n < |d| && |d| >= 20
    ensures |e| == |d|
  {
    var z := Blanked(d, u, n);
    Stamped(z, u + 6, 0xffff - Fold(Sum(z, u, (n + 1) / 2 * 2) + PseudoHeader(z, n)))
  }

  function Ip(macs: Macs, d: seq<Byte>): (e: seq<Byte>)
    requires Room(macs, d)
    ensures |e| == |d|
  {
    if !IsDhcp(d) then d else
      var e := Exchanged(macs, d, Udp(d) + CHADDR);
      if NeedsRepair(macs, d) then Repaired(e, Udp(d), UdpLength(d)) else e
  }

  /** The buffer holds the headers, and a datagram to be repaired with the byte after it. */
  predicate Room(macs: Macs, d: seq<Byte>) {
    |d| >= 102 && (NeedsRepair(macs, d) ==> Udp(d) + UdpLength(d) < |d|)
  }

  function Payload(macs: Macs, kind: Word, d: seq<Byte>): (e: seq<Byte>)
    requires |d| >= 102 && (kind == 0x0800 ==> Room(macs, d))
    ensures |e| == |d|
  {
    if kind == 0x0806 then Arp(macs, d) else if kind == 0x0800 then Ip(macs, d) else d
  }

  predicate Fits(macs: Macs, p: seq<Byte>, len: int) {
    |p| == MAX_PACKET_SIZE && (len >= 20 && Half(p, 12) == 0x0800 ==> Room(macs, p[HEADER..]))
  }

  /** A frame after translation: both addresses of the header, and what the payload carries. */
  function Munged(macs: Macs, p: seq<Byte>, len: int): (q: seq<Byte>)
    requires Fits(macs, p, len)
    ensures |q| == |p|
  {
    if len < 20 then p else
      macs.Flip(p[..6]) + macs.Flip(p[6..12]) + p[12..HEADER] + Payload(macs, Half(p, 12), p[HEADER..])
  }

  // ---- translating twice ----

  lemma ArpTwice(macs: Macs, d: seq<Byte>)
    requires |d| >= 24
    ensures Arp(macs, Arp(macs, d)) == d
  {
    if Half(d, 0) == 1 && d[4] == 6 {
      var d1 := Exchanged(macs, d, 8);
      var e := Exchanged(macs, d1, 18);
      ExchangedElsewhere(macs, d, 8, 18);
      ExchangedElsewhere(macs, d1, 18, 8);
      var f := Exchanged(macs, e, 8);
      ExchangedElsewhere(macs, e, 8, 18);
      macs.FlipTwice(MacAt(d, 8));
      macs.FlipTwice(MacAt(d, 18));
      var g := Exchanged(macs, f, 18);
      ExchangedElsewhere(macs, f, 18, 8);
      forall i: nat | i < |d|
        ensures g[i] == d[i]
      {
        if 8 <= i < 14 {
          assert g[i] == MacAt(g, 8)[i - 8] && d[i] == MacAt(d, 8)[i - 8];
        } else if 18 <= i < 24 {
          assert g[i] == MacAt(g, 18)[i - 18] && d[i] == MacAt(d, 18)[i - 18];
        }
      }
      assert g == d;
    }
  }

  lemma ExchangedTwice(macs: Macs, d: seq<Byte>, at: nat)
    requires at + 6 <= |d|
    ensures Exchanged(macs, Exchanged(macs, d, at), at) == d
  {
    hide Exchanged;
    var e := Exchanged(macs, d, at);
    var f := Exchanged(macs, e, at);
    macs.FlipTwice(MacAt(d, at));
    forall i: nat | i < |d|
      ensures f[i] == d[i]
    {
      if at <= i < at + 6 {
        assert f[i] == MacAt(f, at)[i - at] && d[i] == MacAt(d, at)[i - at];
      }
    }
  }

  lemma ExchangedElsewhere(macs: Macs, d: seq<Byte>, at: nat, other: nat)
    requires at + 6 <= |d| && other + 6 <= |d| && (other + 6 <= at || at + 6 <= other)
    ensures MacAt(Exchanged(macs, d, at), other) == MacAt(d, other)
  {
  }

  /** The second translation still sees a DHCP datagram: the zero byte that the first one put after it was not the
      protocol, and not half of the only port that told. */
  predicate StillDhcp(d: seq<Byte>)
    requires |d| >= 102
  {
    var (u, n) := (Udp(d), UdpLength(d));
    u + n != 9 && (n == 1 ==> DhcpPort(Half(d, u + 2))) && (n == 3 ==> DhcpPort(Half(d, u)))
  }

  /** The covered words, with the checksum blank, sum to a multiple of 0xffff. */
  predicate SumsToNothing(d: seq<Byte>, u: nat, n: nat)
    requires u + 7 < |d| && u + n < |d| && |d| >= 20
  {
    var z := Blanked(d, u, n);
    (Sum(z, u, (n + 1) / 2 * 2) + PseudoHeader(z, n)) % 0xffff == 0
  }

  /** When the second translation of a repaired datagram takes back the first. A length field of 5 makes the zero byte
      its low half, so that the second translation blanks the first port byte, unless it has no checksum to repair. */
  predicate Restorable(macs: Macs, d: seq<Byte>)
    requires Room(macs, d) && NeedsRepair(macs, d)
  {
    var (u, n) := (Udp(d), UdpLength(d));
    if StillDhcp(d) then
      PadHarmless(macs, d) && (n == 5 ==> d[u] == 0 || SumsToNothing(Exchanged(macs, d, u + CHADDR), u, n))
    else macs.fake == macs.host
  }

  /** Bytes the repair may change for good: the checksum and the byte after the datagram. */
  predicate Scratch(d: seq<Byte>, i: nat)
    requires |d| >= 102
  {
    i == Udp(d) + 6 || i == Udp(d) + 7 || i == Udp(d) + UdpLength(d)
  }

  predicate AgreeBut(x: Mac, y: Mac, k: int) {
    forall j: nat :: j < 6 && j != k ==> x[j] == y[j]
  }

  /** The byte after the datagram is zero in the new client address, or lies outside it, or makes no difference. */
  predicate PadHarmless(macs: Macs, d: seq<Byte>)
    requires |d| >= 102
  {
    var m, k := MacAt(d, Udp(d) + CHADDR), UdpLength(d) - CHADDR;
    !(0 <= k < 6) || macs.Flip(m)[k] == 0 || AgreeBut(m, macs.Flip(m), k)
  }

  /** What the first translation leaves where. */
  lemma IpBytes(macs: Macs, d: seq<Byte>)
    requires Room(macs, d) && NeedsRepair(macs, d)
    ensures var (e, u, n) := (Ip(macs, d), Udp(d), UdpLength(d));
            && (forall i: nat :: i < |d| && !Scratch(d, i) && !(u + CHADDR <= i < u + CHADDR + 6) ==> e[i] == d[i])
            && AgreeBut(MacAt(e, u + CHADDR), macs.Flip(MacAt(d, u + CHADDR)), n - CHADDR)
            && (n < 6 || n > 7 ==> e[u + n] == 0)
  {
    hide Repaired, Exchanged, IsDhcp, Ip, MacAt, AgreeBut;
    var (u, n) := (Udp(d), UdpLength(d));
    var e := Exchanged(macs, d, u + CHADDR);
    IpIs(macs, d);
    RepairedBytes(e, u, n);
    SameButPad(e, Repaired(e, u, n), u, n);
  }

  lemma SameButPad(e: seq<Byte>, r: seq<Byte>, u: nat, n: nat)
    requires |e| == |r| && u + CHADDR + 6 <= |e|
    requires forall i: nat :: i < |e| && i != u + 6 && i != u + 7 && i != u + n ==> r[i] == e[i]
    ensures AgreeBut(MacAt(r, u + CHADDR), MacAt(e, u + CHADDR), n - CHADDR)
  {
    var (x, y) := (MacAt(r, u + CHADDR), MacAt(e, u + CHADDR));
    forall j: nat | j < 6 && j != n - CHADDR
      ensures x[j] == y[j]
    {
      assert x[j] == r[u + CHADDR + j] && e[u + CHADDR + j] == y[j];
    }
  }

  lemma IpIs(macs: Macs, d: seq<Byte>)
    requires Room(macs, d) && NeedsRepair(macs, d)
    ensures Ip(macs, d) == Repaired(Exchanged(macs, d, Udp(d) + CHADDR), Udp(d), UdpLength(d))
  {
    hide Repaired, Exchanged, Half;
  }

  lemma RepairedBytes(e: seq<Byte>, u: nat, n: nat)
    requires |e| >= 20 && u + 7 < |e| && u + n < |e|
    ensures var r := Repaired(e, u, n);
            && (forall i: nat :: i < |e| && i != u + 6 && i != u + 7 && i != u + n ==> r[i] == e[i])
            && (n < 6 || n > 7 ==> r[u + n] == 0)
  {
    hide Fold, Sum, PseudoHeader, Stamped;
  }

  /** Translating a payload twice restores every byte outside the checksum and the byte after the datagram, exactly when
      the first translation has not spoilt what the second one goes by. */
  lemma IpTwice(macs: Macs, d: seq<Byte>)
    requires Room(macs, d)
    ensures Room(macs, Ip(macs, d))
    ensures NeedsRepair(macs, d) ==>
              ((forall i: nat :: i < |d| && !Scratch(d, i) ==> Ip(macs, Ip(macs, d))[i] == d[i]) <==> Restorable(macs, d))
    ensures !NeedsRepair(macs, d) ==> Ip(macs, Ip(macs, d)) == d
  {
    if NeedsRepair(macs, d) {
      hide Ip, Restorable, NeedsRepair;
      Decisions(macs, d);
      if !StillDhcp(d) {
        TwiceUnseen(macs, d);
      } else if UdpLength(d) == 5 {
        TwiceShort(macs, d);
      } else {
        TwiceSeen(macs, d);
      }
    } else if IsDhcp(d) {
      IpTwicePlain(macs, d);
    }
  }

  lemma IpTwicePlain(macs: Macs, d: seq<Byte>)
    requires Room(macs, d) && !NeedsRepair(macs, d) && IsDhcp(d)
    ensures !NeedsRepair(macs, Ip(macs, d)) && Room(macs, Ip(macs, d)) && Ip(macs, Ip(macs, d)) == d
  {
    hide Repaired, Exchanged;
    var at := Udp(d) + CHADDR;
    var e := Exchanged(macs, d, at);
    macs.FlipTwice(MacAt(d, at));
    SameHeaders(d, e);
    ExchangedTwice(macs, d, at);
  }

  /** What the decisions depend on. */
  lemma SameHeaders(d: seq<Byte>, e: seq<Byte>)
    requires |d| == |e| >= 102 && d[0] == e[0] && d[9] == e[9]
    requires forall i: nat :: Udp(d) <= i < Udp(d) + 6 ==> e[i] == d[i]
    ensures Udp(e) == Udp(d) && IsDhcp(e) == IsDhcp(d) && UdpLength(e) == UdpLength(d)
  {
    var u := Udp(d);
    assert Half(e, u) == Half(d, u) && Half(e, u + 2) == Half(d, u + 2) && Half(e, u + 4) == Half(d, u + 4);
  }

  lemma TwiceSeen(macs: Macs, d: seq<Byte>)
    requires Room(macs, d) && NeedsRepair(macs, d) && StillDhcp(d) && UdpLength(d) != 5
    ensures Room(macs, Ip(macs, d))
    ensures (forall i: nat :: i < |d| && !Scratch(d, i) ==> Ip(macs, Ip(macs, d))[i] == d[i]) <==> Restorable(macs, d)
  {
    hide Ip, Repaired, StillDhcp, IsDhcp, Udp, UdpLength, NeedsRepair, MacAt, AgreeBut, SumsToNothing, Macs.Flip;
    var (e, u, n) := (Ip(macs, d), Udp(d), UdpLength(d));
    var at := u + CHADDR;
    IpBytes(macs, d);
    Decisions(macs, d);
    var f := Ip(macs, e);
    var (m, x) := (MacAt(d, at), MacAt(e, at));
    SecondBytes(macs, e);
    PadByte(macs, d);
    Restored(d, f, at, macs.Flip(x));
    Addresses(macs, m, x, n - CHADDR);
  }

  /** The second translation leaves everything alone, the exchanged address too. */
  lemma TwiceUnseen(macs: Macs, d: seq<Byte>)
    requires Room(macs, d) && NeedsRepair(macs, d) && !StillDhcp(d)
    ensures Room(macs, Ip(macs, d))
    ensures (forall i: nat :: i < |d| && !Scratch(d, i) ==> Ip(macs, Ip(macs, d))[i] == d[i]) <==> Restorable(macs, d)
  {
    var (e, at, n) := (Ip(macs, d), Udp(d) + CHADDR, UdpLength(d));
    Decisions(macs, d);
    assert Ip(macs, e) == e;
    hide Ip, Repaired, IsDhcp, Half;
    IpBytes(macs, d);
    PadByte(macs, d);
    var m := MacAt(d, at);
    Restored(d, e, at, macs.Flip(m));
    assert n < CHADDR;
    assert AgreeBut(macs.Flip(m), m, n - CHADDR) <==> macs.Flip(m) == m;
  }

  /** A length field of 5: the second translation works on a datagram of length 0. */
  lemma TwiceShort(macs: Macs, d: seq<Byte>)
    requires Room(macs, d) && NeedsRepair(macs, d) && StillDhcp(d) && UdpLength(d) == 5
    ensures Room(macs, Ip(macs, d))
    ensures (forall i: nat :: i < |d| && !Scratch(d, i) ==> Ip(macs, Ip(macs, d))[i] == d[i]) <==> Restorable(macs, d)
  {
    hide Ip, Repaired, IsDhcp, StillDhcp, SumsToNothing, Exchanged, Udp, UdpLength, NeedsRepair, MacAt, Macs.Flip;
    var (e, u) := (Ip(macs, d), Udp(d));
    var at := u + CHADDR;
    IpBytes(macs, d);
    PadByte(macs, d);
    Decisions(macs, d);
    var f := Ip(macs, e);
    SecondBytes(macs, e);
    var (m, x) := (MacAt(d, at), MacAt(e, at));
    assert x == macs.Flip(m) by {
      assert forall j: nat :: j < 6 ==> x[j] == macs.Flip(m)[j];
    }
    macs.FlipTwice(m);
    FirstPort(macs, d);
    ShortBytes(d, e, f, m);
  }

  lemma ShortBytes(d: seq<Byte>, e: seq<Byte>, f: seq<Byte>, m: Mac)
    requires |d| == |e| == |f| >= 102 && Udp(e) == Udp(d) && UdpLength(d) == 5 && UdpLength(e) == 0
    requires m == MacAt(d, Udp(d) + CHADDR) && AgreeBut(MacAt(f, Udp(d) + CHADDR), m, 5 - CHADDR)
    requires forall i: nat :: i < |d| && !Scratch(d, i) && !(Udp(d) + CHADDR <= i < Udp(d) + CHADDR + 6) ==> e[i] == d[i]
    requires forall i: nat :: i < |d| && !Scratch(e, i) && !(Udp(d) + CHADDR <= i < Udp(d) + CHADDR + 6) ==> f[i] == e[i]
    ensures (forall i: nat :: i < |d| && !Scratch(d, i) ==> f[i] == d[i]) <==> f[Udp(d)] == d[Udp(d)]
  {
    hide UdpLength;
    var at := Udp(d) + CHADDR;
    forall i: nat | i < |d| && !Scratch(d, i) && i != Udp(d)
      ensures f[i] == d[i]
    {
      if at <= i < at + 6 {
        assert MacAt(f, at)[i - at] == m[i - at];
      }
    }
    assert !Scratch(d, Udp(d));
  }

  /** The first port byte goes if the checksum is repaired once more, which takes a stored checksum other than zero. */
  lemma FirstPort(macs: Macs, d: seq<Byte>)
    requires Room(macs, d) && NeedsRepair(macs, d) && StillDhcp(d) && UdpLength(d) == 5
    requires Room(macs, Ip(macs, d))
    ensures Ip(macs, Ip(macs, d))[Udp(d)] == d[Udp(d)] <==>
            d[Udp(d)] == 0 || SumsToNothing(Exchanged(macs, d, Udp(d) + CHADDR), Udp(d), 5)
  {
    hide Ip, Repaired, IsDhcp, StillDhcp, SumsToNothing, Exchanged, Fold, Sum, Udp, UdpLength, MacAt, Macs.Flip;
    var (e, u) := (Ip(macs, d), Udp(d));
    IpBytes(macs, d);
    PadByte(macs, d);
    Decisions(macs, d);
    IpIs(macs, d);
    StoredChecksum(Exchanged(macs, d, u + CHADDR), u, 5);
    assert Half(e, u + 6) == 0 <==> e[u + 6] == 0 && e[u + 7] == 0;
    assert macs.Known(MacAt(e, u + CHADDR)) by {
      var m := MacAt(d, u + CHADDR);
      assert forall j: nat :: j < 6 ==> MacAt(e, u + CHADDR)[j] == macs.Flip(m)[j];
      assert MacAt(e, u + CHADDR) == macs.Flip(m);
      macs.FlipTwice(m);
    }
    if NeedsRepair(macs, e) {
      IpBytes(macs, e);
    } else {
      PlainBytes(macs, e);
    }
  }

  lemma PlainBytes(macs: Macs, e: seq<Byte>)
    requires Room(macs, e) && IsDhcp(e) && !NeedsRepair(macs, e)
    ensures Ip(macs, e)[Udp(e)] == e[Udp(e)]
  {
    hide IsDhcp, NeedsRepair;
  }

  lemma PadByte(macs: Macs, d: seq<Byte>)
    requires Room(macs, d) && NeedsRepair(macs, d)
    ensures var (e, at, k) := (Ip(macs, d), Udp(d) + CHADDR, UdpLength(d) - CHADDR);
            && macs.Known(MacAt(d, at)) && (0 <= k < 6 ==> MacAt(e, at)[k] == 0)
  {
    hide Ip;
    IpBytes(macs, d);
  }

  /** Of the bytes that count, the second translation restores all but perhaps the address, which ends up as `y`. */
  lemma Restored(d: seq<Byte>, f: seq<Byte>, at: nat, y: Mac)
    requires |f| == |d| >= 102 && at == Udp(d) + CHADDR
    requires forall i: nat :: i < |d| && !Scratch(d, i) && !(at <= i < at + 6) ==> f[i] == d[i]
    requires AgreeBut(MacAt(f, at), y, UdpLength(d) - CHADDR)
    ensures (forall i: nat :: i < |d| && !Scratch(d, i) ==> f[i] == d[i]) <==>
            AgreeBut(y, MacAt(d, at), UdpLength(d) - CHADDR)
  {
    var (m, z, k) := (MacAt(d, at), MacAt(f, at), UdpLength(d) - CHADDR);
    if forall i: nat :: i < |d| && !Scratch(d, i) ==> f[i] == d[i] {
      forall j: nat | j < 6 && j != k
        ensures y[j] == m[j]
      {
        assert f[at + j] == d[at + j];
        assert z[j] == y[j];
      }
    }
    if AgreeBut(y, m, k) {
      forall i: nat | i < |d| && !Scratch(d, i)
        ensures f[i] == d[i]
      {
        if at <= i < at + 6 {
          assert z[i - at] == y[i - at] == m[i - at];
        }
      }
    }
  }

  /** The address after the first translation, `x`, and after the second. */
  lemma Addresses(macs: Macs, m: Mac, x: Mac, k: int)
    requires macs.Known(m) && AgreeBut(x, macs.Flip(m), k) && (0 <= k < 6 ==> x[k] == 0)
    ensures AgreeBut(macs.Flip(x), m, k) <==> !(0 <= k < 6) || macs.Flip(m)[k] == 0 || AgreeBut(m, macs.Flip(m), k)
  {
    var y := macs.Flip(m);
    macs.FlipTwice(m);
    if !(0 <= k < 6) || y[k] == 0 {
      assert x == y;
    } else {
      assert x[k] != y[k];
      assert macs.Flip(x) == if x == m then y else x;
    }
  }

  /** What the second translation goes by. */
  lemma Decisions(macs: Macs, d: seq<Byte>)
    requires Room(macs, d) && NeedsRepair(macs, d)
    ensures var (e, n) := (Ip(macs, d), UdpLength(d));
            Udp(e) == Udp(d) && UdpLength(e) == (if n == 5 then 0 else n) && IsDhcp(e) == StillDhcp(d) && Room(macs, e)
  {
    var e := Ip(macs, d);
    IpBytes(macs, d);
    hide Ip;
    HeaderAfter(d, e);
  }

  lemma HeaderAfter(d: seq<Byte>, e: seq<Byte>)
    requires |d| == |e| >= 102 && IsDhcp(d)
    requires forall i: nat :: i < |d| && !Scratch(d, i) && !(Udp(d) + CHADDR <= i < Udp(d) + CHADDR + 6) ==> e[i] == d[i]
    requires (UdpLength(d) < 6 || UdpLength(d) > 7) && Udp(d) + UdpLength(d) < |d| ==> e[Udp(d) + UdpLength(d)] == 0
    ensures var n := UdpLength(d);
            Udp(e) == Udp(d) && UdpLength(e) == (if n == 5 then 0 else n) && IsDhcp(e) == StillDhcp(d)
  {
    hide Big, DhcpPort;
    var (u, n) := (Udp(d), UdpLength(d));
    forall i: nat | i == 0 || i == 9 || u <= i < u + 6
      ensures e[i] == if i == u + n then 0 else d[i]
    {
      HeaderByte(d, e, i);
    }
    SeenBytes(u, n, d[9], d[u], d[u + 1], d[u + 2], d[u + 3], d[u + 4], d[u + 5],
              e[9], e[u], e[u + 1], e[u + 2], e[u + 3], e[u + 4], e[u + 5]);
    FirstByte(d, e, n);
  }

  lemma FirstByte(d: seq<Byte>, e: seq<Byte>, n: nat)
    requires |d| > 0 && |e| > 0 && e[0] == if 0 == Udp(d) + n then 0 else d[0]
    ensures Udp(e) == Udp(d)
  {
  }

  lemma HeaderByte(d: seq<Byte>, e: seq<Byte>, i: nat)
    requires |d| == |e| >= 102 && (i == 0 || i == 9 || Udp(d) <= i < Udp(d) + 6)
    requires forall i: nat :: i < |d| && !Scratch(d, i) && !(Udp(d) + CHADDR <= i < Udp(d) + CHADDR + 6) ==> e[i] == d[i]
    requires (UdpLength(d) < 6 || UdpLength(d) > 7) && Udp(d) + UdpLength(d) < |d| ==> e[Udp(d) + UdpLength(d)] == 0
    ensures e[i] == if i == Udp(d) + UdpLength(d) then 0 else d[i]
  {
    hide UdpLength;
  }

  /** The same on the bytes themselves: protocol, ports and length before and after. */
  lemma SeenBytes(u: nat, n: nat, p: Byte, s1: Byte, s0: Byte, t1: Byte, t0: Byte, l1: Byte, l0: Byte,
                  q: Byte, x1: Byte, x0: Byte, y1: Byte, y0: Byte, m1: Byte, m0: Byte)
    requires n == Big(l1, l0) && q == (if u + n == 9 then 0 else p)
    requires x1 == (if n == 0 then 0 else s1) && x0 == (if n == 1 then 0 else s0)
    requires y1 == (if n == 2 then 0 else t1) && y0 == (if n == 3 then 0 else t0)
    requires m1 == (if n == 4 then 0 else l1) && m0 == (if n == 5 then 0 else l0)
    requires p == 17 && (DhcpPort(Big(s1, s0)) || DhcpPort(Big(t1, t0)))
    ensures Big(m1, m0) == if n == 5 then 0 else n
    ensures q == 17 && (DhcpPort(Big(x1, x0)) || DhcpPort(Big(y1, y0))) <==>
            u + n != 9 && (n == 1 ==> DhcpPort(Big(t1, t0))) && (n == 3 ==> DhcpPort(Big(s1, s0)))
  {
  }

  lemma SecondBytes(macs: Macs, e: seq<Byte>)
    requires Room(macs, e) && IsDhcp(e)
    ensures var (f, u, n) := (Ip(macs, e), Udp(e), UdpLength(e));
            && (forall i: nat :: i < |e| && !Scratch(e, i) && !(u + CHADDR <= i < u + CHADDR + 6) ==> f[i] == e[i])
            && AgreeBut(MacAt(f, u + CHADDR), macs.Flip(MacAt(e, u + CHADDR)), n - CHADDR)
  {
    if NeedsRepair(macs, e) {
      hide Ip;
      IpBytes(macs, e);
    }
  }

  /** A whole frame translated twice is the frame itself, except for what a repaired checksum costs. */
  lemma MungedTwice(macs: Macs, p: seq<Byte>, len: int)
    requires Fits(macs, p, len)
    ensures Fits(macs, Munged(macs, p, len), len)
    ensures var q := Munged(macs, Munged(macs, p, len), len);
            var d := p[HEADER..];
            if len >= 20 && Half(p, 12) == 0x0800 && NeedsRepair(macs, d) then
              (forall i: nat :: i < |p| && (i < HEADER || !Scratch(d, i - HEADER)) ==> q[i] == p[i]) <==> Restorable(macs, d)
            else q == p
  {
    hide Arp, Ip;
    if len >= 20 {
      var q := Munged(macs, p, len);
      var d := p[HEADER..];
      MungedParts(macs, p, len);
      assert Half(q, 12) == Half(p, 12);
      if Half(p, 12) == 0x0806 {
        ArpTwice(macs, d);
      } else if Half(p, 12) == 0x0800 {
        IpTwice(macs, d);
      }
      MungedParts(macs, q, len);
      macs.FlipTwice(p[..6]);
      macs.FlipTwice(p[6..12]);
      WholeFrame(p, Munged(macs, q, len));
      if Half(p, 12) == 0x0800 && NeedsRepair(macs, d) {
        FrameBytes(macs, p, Munged(macs, q, len));
      }
    }
  }

  lemma MungedParts(macs: Macs, p: seq<Byte>, len: int)
    requires Fits(macs, p, len) && len >= 20
    ensures var q := Munged(macs, p, len);
            && q[..6] == macs.Flip(p[..6]) && q[6..12] == macs.Flip(p[6..12]) && q[12] == p[12] && q[13] == p[13]
            && q[HEADER..] == Payload(macs, Half(p, 12), p[HEADER..])
  {
  }

  lemma WholeFrame(p: seq<Byte>, q: seq<Byte>)
    requires |p| == |q| >= HEADER && p[..6] == q[..6] && p[6..12] == q[6..12] && p[12] == q[12] && p[13] == q[13]
    ensures p[..HEADER] == q[..HEADER] && (p[HEADER..] == q[HEADER..] ==> p == q)
  {
    assert p == p[..6] + p[6..12] + [p[12], p[13]] + p[HEADER..];
    assert q == q[..6] + q[6..12] + [q[12], q[13]] + q[HEADER..];
  }

  lemma FrameBytes(macs: Macs, p: seq<Byte>, q: seq<Byte>)
    requires |p| == |q| == MAX_PACKET_SIZE && p[..HEADER] == q[..HEADER]
    ensures var (d, e) := (p[HEADER..], q[HEADER..]);
            (forall i: nat :: i < |p| && (i < HEADER || !Scratch(d, i - HEADER)) ==> q[i] == p[i]) <==>
            (forall i: nat :: i < |d| && !Scratch(d, i) ==> e[i] == d[i])
  {
    hide Scratch;
    var (d, e) := (p[HEADER..], q[HEADER..]);
    if forall i: nat :: i < |p| && (i < HEADER || !Scratch(d, i - HEADER)) ==> q[i] == p[i] {
      forall i: nat | i < |d| && !Scratch(d, i)
        ensures e[i] == d[i]
      {
        assert q[i + HEADER] == p[i + HEADER];
      }
    }
    if forall i: nat :: i < |d| && !Scratch(d, i) ==> e[i] == d[i] {
      forall i: nat | i < |p| && (i < HEADER || !Scratch(d, i - HEADER))
        ensures q[i] == p[i]
      {
        if i < HEADER {
          assert p[..HEADER][i] == q[..HEADER][i];
        } else {
          assert e[i - HEADER] == d[i - HEADER];
        }
      }
    }
  }

  /** One translation is not undone by the next: a datagram of 36 bytes has the first byte of the client address after it. */
  lemma PadLosesAddress(macs: Macs, d: seq<Byte>)
    requires Room(macs, d) && NeedsRepair(macs, d) && UdpLength(d) == CHADDR
    requires macs.Flip(MacAt(d, Udp(d) + CHADDR))[0] != 0
    requires macs.fake[1] != macs.host[1]
    ensures Room(macs, Ip(macs, d))
    ensures exists i: nat :: i < |d| && !Scratch(d, i) && Ip(macs, Ip(macs, d))[i] != d[i]
  {
    hide Ip;
    IpTwice(macs, d);
    var m := MacAt(d, Udp(d) + CHADDR);
    assert m[1] != macs.Flip(m)[1];
    assert !PadHarmless(macs, d);
  }

  // ---- what a translated frame carries ----

  /** Both addresses of an ARP packet for Ethernet, and of no other, are exchanged; nothing else changes. */
  lemma ArpMeans(macs: Macs, d: seq<Byte>)
    requires |d| >= 24
    ensures var e := Arp(macs, d);
            if d[0] == 0 && d[1] == 1 && d[4] == 6 then
              && MacAt(e, 8) == macs.Flip(MacAt(d, 8)) && MacAt(e, 18) == macs.Flip(MacAt(d, 18))
              && forall i: nat :: i < |d| && !(8 <= i < 14) && !(18 <= i < 24) ==> e[i] == d[i]
            else e == d
  {
    if Half(d, 0) == 1 && d[4] == 6 {
      ExchangedElsewhere(macs, d, 8, 18);
      ExchangedElsewhere(macs, Exchanged(macs, d, 8), 18, 8);
    }
  }

  /** A datagram of UDP to or from one of the two DHCP ports. */
  predicate DhcpSeen(d: seq<Byte>)
    requires |d| >= 102
  {
    var u := d[0] % 16 * 4;
    d[9] == 17 && ((d[u] == 0 && (d[u + 1] == 67 || d[u + 1] == 68)) || (d[u + 2] == 0 && (d[u + 3] == 67 || d[u + 3] == 68)))
  }

  lemma SeenIs(d: seq<Byte>)
    requires |d| >= 102
    ensures IsDhcp(d) <==> DhcpSeen(d)
  {
  }

  /** Of an IPv4 payload only DHCP datagrams change. They have the client address exchanged. Where it is one of the two and
      there is a checksum, the checksum is renewed and a zero byte is put after the datagram; nothing else changes. */
  lemma IpMeans(macs: Macs, d: seq<Byte>)
    requires Room(macs, d)
    ensures var (u, n) := (d[0] % 16 * 4, Half(d, d[0] % 16 * 4 + 4));
            if !DhcpSeen(d) then Ip(macs, d) == d
            else if Half(d, u + 6) == 0 || !macs.Known(MacAt(d, u + 36)) then OnlyAddress(macs, d, Ip(macs, d), u + 36)
            else Renewed(macs, d, Ip(macs, d), u, n)
  {
    hide DhcpSeen, Renewed, OnlyAddress, Ip, Half, MacAt, NeedsRepair, IsDhcp;
    SeenIs(d);
    RepairIff(macs, d);
    if NeedsRepair(macs, d) {
      IpRepaired(macs, d, Udp(d), UdpLength(d));
    } else {
      IpPlain(macs, d);
      if IsDhcp(d) {
        PlainIs(macs, d, Udp(d) + 36);
      }
    }
  }

  predicate OnlyAddress(macs: Macs, d: seq<Byte>, e: seq<Byte>, at: nat)
    requires |d| == |e| >= at + 6
  {
    MacAt(e, at) == macs.Flip(MacAt(d, at)) && forall i: nat :: i < |d| && !(at <= i < at + 6) ==> e[i] == d[i]
  }

  predicate Renewed(macs: Macs, d: seq<Byte>, e: seq<Byte>, u: nat, n: nat)
    requires |d| == |e| >= u + 42
  {
    && AgreeBut(MacAt(e, u + 36), macs.Flip(MacAt(d, u + 36)), n as int - 36)
    && (forall i: nat :: i < |d| && i != u + 6 && i != u + 7 && i != u + n && !(u + 36 <= i < u + 42) ==> e[i] == d[i])
    && (n != 6 && n != 7 && u + n < |e| ==> e[u + n] == 0)
  }

  lemma RepairIff(macs: Macs, d: seq<Byte>)
    requires |d| >= 102
    ensures NeedsRepair(macs, d) <==> IsDhcp(d) && macs.Known(MacAt(d, Udp(d) + 36)) && Half(d, Udp(d) + 6) != 0
  {
    hide IsDhcp;
    ChecksumThere(d);
  }

  lemma IpRepaired(macs: Macs, d: seq<Byte>, u: nat, n: nat)
    requires Room(macs, d) && NeedsRepair(macs, d) && u == Udp(d) && n == UdpLength(d)
    ensures Renewed(macs, d, Ip(macs, d), u, n)
  {
    hide IsDhcp, AgreeBut, Ip, MacAt, UdpLength, Udp;
    IpBytes(macs, d);
  }

  lemma PlainIs(macs: Macs, d: seq<Byte>, at: nat)
    requires |d| >= at + 6
    ensures OnlyAddress(macs, d, Exchanged(macs, d, at), at)
  {
    hide Exchanged;
  }

  lemma IpPlain(macs: Macs, d: seq<Byte>)
    requires Room(macs, d) && !NeedsRepair(macs, d)
    ensures Ip(macs, d) == if IsDhcp(d) then Exchanged(macs, d, Udp(d) + CHADDR) else d
  {
    hide Exchanged, IsDhcp, NeedsRepair;
  }

  lemma ChecksumThere(d: seq<Byte>)
    requires |d| >= 102
    ensures Half(d, Udp(d) + 6) == 0 <==> d[Udp(d) + 6] == 0 && d[Udp(d) + 7] == 0
  {
  }

  /** The two addresses of the header are exchanged in every frame, type and length stay, and the payload is translated by
      its type. Frames shorter than 20 bytes stay as they are. */
  lemma MungedMeans(macs: Macs, p: seq<Byte>, len: int)
    requires Fits(macs, p, len)
    ensures var (q, kind) := (Munged(macs, p, len), Half(p, 12));
            if len < 20 then q == p
            else
              && MacAt(q, 0) == macs.Flip(MacAt(p, 0)) && MacAt(q, 6) == macs.Flip(MacAt(p, 6))
              && q[12] == p[12] && q[13] == p[13]
              && q[14..] == if kind == 0x0806 then Arp(macs, p[14..]) else if kind == 0x0800 then Ip(macs, p[14..]) else p[14..]
  {
    hide Arp, Ip;
    if len >= 20 {
      MungedParts(macs, p, len);
    }
  }

  /** So an ARP frame is translated in four places, counted from the start of the frame, and nowhere else. */
  lemma ArpFrame(macs: Macs, p: seq<Byte>, len: int)
    requires Fits(macs, p, len) && len >= 20 && p[12] == 8 && p[13] == 6 && p[14] == 0 && p[15] == 1 && p[18] == 6
    ensures var q := Munged(macs, p, len);
            && (forall at | at == 0 || at == 6 || at == 22 || at == 32 :: MacAt(q, at) == macs.Flip(MacAt(p, at)))
            && forall i: nat :: i < |p| && !(i < 12) && !(22 <= i < 28) && !(32 <= i < 38) ==> q[i] == p[i]
  {
    hide Arp, Munged;
    var (q, d) := (Munged(macs, p, len), p[14..]);
    MungedMeans(macs, p, len);
    ArpMeans(macs, d);
    var e := q[14..];
    assert e == Arp(macs, d);
    assert MacAt(q, 22) == MacAt(e, 8) && MacAt(q, 32) == MacAt(e, 18);
    assert MacAt(p, 22) == MacAt(d, 8) && MacAt(p, 32) == MacAt(d, 18);
    forall i: nat | 12 <= i < |p| && !(22 <= i < 28) && !(32 <= i < 38)
      ensures q[i] == p[i]
    {
      if i >= 14 {
        assert q[i] == e[i - 14] && p[i] == d[i - 14];
      }
    }
  }

  /** And a DHCP frame in three. */
  lemma DhcpFrame(macs: Macs, p: seq<Byte>, len: int)
    requires Fits(macs, p, len) && len >= 20 && p[12] == 8 && p[13] == 0 && DhcpSeen(p[14..])
    ensures var (q, u) := (Munged(macs, p, len), 14 + p[14] % 16 * 4);
            && MacAt(q, 0) == macs.Flip(MacAt(p, 0)) && MacAt(q, 6) == macs.Flip(MacAt(p, 6))
            && AgreeBut(MacAt(q, u + 36), macs.Flip(MacAt(p, u + 36)), Half(p, u + 4) as int - 36)
  {
    hide Ip, Munged, DhcpSeen, AgreeBut, Half, MacAt, Macs.Flip;
    var (q, d) := (Munged(macs, p, len), p[14..]);
    KindIs(p);
    MungedMeans(macs, p, len);
    IpMeans(macs, d);
    var e := q[14..];
    var u := d[0] % 16 * 4;
    assert e == Ip(macs, d);
    MacOf(q, e, u + 36);
    MacOf(p, d, u + 36);
    HalfOf(p, d, u + 4);
    SameMac(MacAt(e, u + 36), macs.Flip(MacAt(d, u + 36)), Half(d, u + 4) as int - 36);
  }

  lemma KindIs(p: seq<Byte>)
    requires |p| >= 14
    ensures Half(p, 12) == 0x0800 <==> p[12] == 8 && p[13] == 0
  {
  }

  lemma HalfOf(p: seq<Byte>, d: seq<Byte>, i: nat)
    requires |p| >= 14 && d == p[14..] && i + 1 < |d|
    ensures Half(p, 14 + i) == Half(d, i)
  {
  }

  lemma MacOf(p: seq<Byte>, d: seq<Byte>, i: nat)
    requires |p| >= 14 && d == p[14..] && i + 6 <= |d|
    ensures MacAt(p, 14 + i) == MacAt(d, i)
  {
  }

  lemma SameMac(x: Mac, y: Mac, k: int)
    ensures x == y ==> AgreeBut(x, y, k)
  {
  }

  /** None of the two addresses stays where a translation has exchanged it. */
  lemma NoneStays(macs: Macs, m: Mac)
    requires macs.fake != macs.host
    ensures macs.Known(m) ==> macs.Flip(m) != m && macs.Known(macs.Flip(m))
    ensures macs.Flip(m) == macs.fake <==> m == macs.host
    ensures macs.Flip(m) == macs.host <==> m == macs.fake
  {
  }

  // ---- the repaired checksum ----

  /** Wherever the checksum is repaired in a datagram of RFC 768 behind a header of RFC 791, pseudo-header and datagram
      then sum to all ones. */
  lemma RepairedSum(macs: Macs, d: seq<Byte>)
    requires Room(macs, d) && NeedsRepair(macs, d) && d[0] % 16 >= 5 && UdpLength(d) >= 8
    ensures var e := Ip(macs, d);
            Fold(Covered(e, Udp(d), UdpLength(d))) == 0xffff
  {
    hide Fold, Sum, Blanked;
    var (u, n) := (Udp(d), UdpLength(d));
    var x := Exchanged(macs, d, u + CHADDR);
    RepairedCovers(x, u, n);
  }

  lemma RepairedCovers(x: seq<Byte>, u: nat, n: nat)
    requires u >= 20 && 8 <= n && u + n < |x|
    ensures Fold(Covered(Repaired(x, u, n), u, n)) == 0xffff
  {
    hide Fold, Sum, Half, PseudoHeader, Stamped, Blanked;
    var z := Blanked(x, u, n);
    BlankedBytes(x, u, n);
    var m := (n + 1) / 2 * 2;
    var s := Sum(z, u, m) + PseudoHeader(z, n);
    var c := 0xffff - Fold(s);
    var e := Stamped(z, u + 6, c);
    PseudoSame(z, e, n);
    PseudoPositive(z, n);
    ChecksumAdds(z, e, u, m);
    if n % 2 == 1 {
      SumPadded(e, u, n);
    }
    ComplementCompletes(s);
  }

  lemma BlankedBytes(x: seq<Byte>, u: nat, n: nat)
    requires u + 7 < |x| && u + n < |x|
    ensures var z := Blanked(x, u, n);
            z[u + 6] == z[u + 7] == z[u + n] == 0
  {
  }

  lemma PseudoSame(d: seq<Byte>, e: seq<Byte>, n: nat)
    requires |d| == |e| >= 20 && forall i: nat :: i < 20 ==> d[i] == e[i]
    ensures PseudoHeader(d, n) == PseudoHeader(e, n)
  {
  }

  /** Of two datagrams alike but for the checksum, which one of them has blank, the sums differ by the checksum. */
  lemma ChecksumAdds(z: seq<Byte>, e: seq<Byte>, u: nat, m: nat)
    requires |z| == |e| && m >= 8 && u + m <= |z| && z[u + 6] == z[u + 7] == 0
    requires forall i: nat :: i < |z| && i != u + 6 && i != u + 7 ==> z[i] == e[i]
    ensures Sum(e, u, m) == Sum(z, u, m) + Half(e, u + 6)
  {
    hide Sum, Half;
    BlankHalf(z, u + 6);
    SumSplit(z, u, 6, m - 6);
    SumSplit(e, u, 6, m - 6);
    SumSplit(z, u + 6, 2, m - 8);
    SumSplit(e, u + 6, 2, m - 8);
    SumSame(z, e, u, 6);
    SumSame(z, e, u + 8, m - 8);
    SumPair(z, u + 6);
    SumPair(e, u + 6);
  }

  lemma BlankHalf(d: seq<Byte>, i: nat)
    requires i + 1 < |d| && d[i] == d[i + 1] == 0
    ensures Half(d, i) == 0
  {
  }

  lemma SumPair(d: seq<Byte>, at: nat)
    requires at + 2 <= |d|
    ensures Sum(d, at, 2) == Half(d, at)
  {
    assert Sum(d, at + 2, 0) == 0;
  }

  /** What is stored is never 0xffff, and is 0, which to RFC 768 means no checksum at all, exactly when the covered
      words sum to a multiple of 0xffff. */
  lemma StoredChecksum(d: seq<Byte>, u: nat, n: nat)
    requires u + 7 < |d| && u + n < |d| && |d| >= 20
    ensures var c := Half(Repaired(d, u, n), u + 6);
            c < 0xffff && (c == 0 <==> SumsToNothing(d, u, n))
  {
    hide Fold, Sum, Half, PseudoHeader;
    var z := Blanked(d, u, n);
    PseudoPositive(z, n);
    var s := Sum(z, u, (n + 1) / 2 * 2) + PseudoHeader(z, n);
    var c := 0xffff - Fold(s);
    assert Half(Repaired(d, u, n), u + 6) == c;
    FoldKeeps(s);
  }

  /** A DHCP datagram of eight bytes whose checksum is repaired to zero, whatever the two addresses are. */
  function UncheckedByte(macs: Macs, i: nat): Byte {
    if i == 0 then 0x45 else if i == 9 then 17 else if i == 12 then 0xFF else if i == 13 then 0x57
    else if i == 21 then 68 else if i == 23 then 67 else if i == 25 then 8 else if i == 27 then 1
    else if CHADDR + 20 <= i < CHADDR + 26 then macs.fake[i - CHADDR - 20] else 0
  }

  function Unchecked(macs: Macs): (d: seq<Byte>)
    ensures |d| == 102
  {
    seq(102, i requires 0 <= i => UncheckedByte(macs, i))
  }

  lemma StoresZero(macs: Macs)
    ensures var d := Unchecked(macs);
            && Room(macs, d) && NeedsRepair(macs, d) && d[0] % 16 >= 5 && UdpLength(d) >= 8
            && Half(Ip(macs, d), Udp(d) + 6) == 0
  {
    hide Repaired, Ip, Fold, Sum, SumsToNothing;
    var d := Unchecked(macs);
    assert d[27] == UncheckedByte(macs, 27);
    assert Half(d, 20) == 68 && UdpLength(d) == 8;
    assert MacAt(d, 56) == macs.fake;
    UncheckedSum(macs, Exchanged(macs, d, 56));
    StoredChecksum(Exchanged(macs, d, 56), 20, 8);
    IpIs(macs, d);
  }

  lemma UncheckedSum(macs: Macs, x: seq<Byte>)
    requires |x| == 102 && forall i: nat :: i < 56 ==> x[i] == UncheckedByte(macs, i)
    ensures SumsToNothing(x, 20, 8)
  {
    hide Sum, Half, UncheckedByte;
    var z := Blanked(x, 20, 8);
    UncheckedHalves(macs, z);
    BlankHalf(z, 26);
    FourWords(z, 20);
  }

  lemma UncheckedHalves(macs: Macs, z: seq<Byte>)
    requires |z| == 102 && forall i: nat :: i < 26 ==> z[i] == UncheckedByte(macs, i)
    ensures Half(z, 12) == 0xFF57 && Half(z, 14) == 0 && Half(z, 16) == 0 && Half(z, 18) == 0
    ensures Half(z, 20) == 68 && Half(z, 22) == 67 && Half(z, 24) == 8
  {
    hide Half, UncheckedByte;
    UncheckedHalf(macs, z, 12, 0xFF57);
    UncheckedHalf(macs, z, 14, 0);
    UncheckedHalf(macs, z, 16, 0);
    UncheckedHalf(macs, z, 18, 0);
    UncheckedHalf(macs, z, 20, 68);
    UncheckedHalf(macs, z, 22, 67);
    UncheckedHalf(macs, z, 24, 8);
  }

  lemma UncheckedHalf(macs: Macs, z: seq<Byte>, i: nat, w: Word)
    requires i + 1 < 26 && |z| == 102 && z[i] == UncheckedByte(macs, i) && z[i + 1] == UncheckedByte(macs, i + 1)
    requires w == if i == 12 then 0xFF57 else if i == 20 then 68 else if i == 22 then 67 else if i == 24 then 8 else 0
    requires i == 12 || 14 <= i <= 24
    requires i % 2 == 0
    ensures Half(z, i) == w
  {
  }

  lemma FourWords(z: seq<Byte>, at: nat)
    requires at + 8 <= |z|
    ensures Sum(z, at, 8) == Half(z, at) + Half(z, at + 2) + Half(z, at + 4) + Half(z, at + 6)
  {
    hide Half;
    assert Sum(z, at + 8, 0) == 0;
    assert Sum(z, at + 4, 4) == Half(z, at + 4) + Sum(z, at + 6, 2);
  }

  lemma PseudoPositive(d: seq<Byte>, n: nat)
    requires |d| >= 20
    ensures PseudoHeader(d, n) > 0
  {
  }

  // ---- the code ----

  /** dofakemac */
  method DoFakeMac(macs: Macs, packet: array<Byte>, at: nat) returns (known: bool)
    requires at + 6 <= packet.Length
    modifies packet
    ensures packet[..] == Exchanged(macs, old(packet[..]), at) && known == macs.Known(MacAt(old(packet[..]), at))
  {
    ghost var was := packet[..];
    var m := packet[at..at + 6];
    if m == macs.fake {
      Copy(macs.host, packet, at);
      return true;
    }
    if m == macs.host {
      Copy(macs.fake, packet, at);
      return true;
    }
    assert packet[..] == Exchanged(macs, was, at);
    return false;
  }

  method Copy(m: Mac, packet: array<Byte>, at: nat)
    requires at + 6 <= packet.Length
    modifies packet
    ensures packet[..] == old(packet[..at]) + m + old(packet[at + 6..])
  {
    for i := 0 to 6
      invariant forall k: nat :: k < packet.Length ==> packet[k] == if at <= k < at + i then m[k - at] else old(packet[k])
    {
      packet[at + i] := m[i];
    }
  }

  /** while (sum >> 16) ... */
  method FoldLoop(sum0: nat) returns (sum: Word)
    ensures sum == Fold(sum0)
  {
    var s := sum0;
    while s / 0x1_0000 != 0
      invariant Fold(s) == Fold(sum0)
      decreases s
    {
      s := s % 0x1_0000 + s / 0x1_0000;
    }
    sum := s;
  }

  /** The sum runs over 16-bit words and stays within 32 bits. */
  method SumLoop(packet: array<Byte>, u: nat, n: Word) returns (sum: nat)
    requires u + n < packet.Length
    ensures sum == Sum(packet[..], u, (n + 1) / 2 * 2) && sum <= 0x8000 * 0xffff
  {
    hide Sum;
    ghost var m := (n + 1) / 2 * 2;
    var i := 0;
    sum := 0;
    SumNone(packet[..], u);
    while i < (n + 1) / 2 * 2
      invariant i <= m && i % 2 == 0 && sum == Sum(packet[..], u, i)
      decreases m - i
    {
      SumSplit(packet[..], u, i, 2);
      SumPair(packet[..], u + i);
      sum := sum + (Big(packet[u + i], packet[u + i + 1]));
      i := i + 2;
    }
    SumBound(packet[..], u, m);
  }

  lemma SumNone(d: seq<Byte>, at: nat)
    requires at <= |d|
    ensures Sum(d, at, 0) == 0
  {
  }

  /** The repair, on the payload from `HEADER` on. */
  method Repair(packet: array<Byte>, u: nat, n: Word)
    requires packet.Length == MAX_PACKET_SIZE && HEADER + u + 7 < packet.Length && HEADER + u + n < packet.Length
    modifies packet
    ensures packet[..HEADER] == old(packet[..HEADER])
    ensures packet[HEADER..] == Repaired(old(packet[HEADER..]), u, n)
  {
    hide Sum, Fold;
    ghost var d := packet[HEADER..];
    var data := HEADER + u;
    packet[data + 6] := 0;
    packet[data + 7] := 0;
    packet[data + n] := 0;
    ghost var z := Blanked(d, u, n);
    assert packet[HEADER..] == z;
    var sum := SumLoop(packet, data, n);
    SumShifted(packet[..], u, (n + 1) / 2 * 2);
    sum := sum + (Big(packet[26], packet[27])) + (Big(packet[28], packet[29]));
    sum := sum + (Big(packet[30], packet[31])) + (Big(packet[32], packet[33]));
    sum := sum + 17 + n;
    assert sum == Sum(z, u, (n + 1) / 2 * 2) + PseudoHeader(z, n) < 0x1_0000_0000;
    var folded := FoldLoop(sum);
    var checksum: int := 0xffff_ffff;
    checksum := checksum - folded;
    if checksum == 0 {
      checksum := 0xffff;
    }
    Complement(folded);
    packet[data + 6] := checksum / 0x100 % 0x100;
    packet[data + 7] := checksum % 0x100;
    assert packet[HEADER..] == Stamped(z, u + 6, 0xffff - folded);
  }

  /** The low 16 bits of a 32-bit complement. */
  lemma Complement(f: Word)
    ensures var c := 0xffff_ffff - f;
            c != 0 && c / 0x100 % 0x100 == (0xffff - f) / 0x100 && c % 0x100 == (0xffff - f) % 0x100
  {
  }

  lemma {:induction false} SumShifted(p: seq<Byte>, u: nat, n: nat)
    requires |p| >= HEADER && HEADER + u + n <= |p|
    ensures Sum(p, HEADER + u, n) == Sum(p[HEADER..], u, n)
    decreases n
  {
    if n >= 2 {
      SumShifted(p, u + 2, n - 2);
    }
  }

  /** mungepacket */
  method MungePacket(macs: Macs, packet: array<Byte>, len: int)
    requires Fits(macs, packet[..], len)
    modifies packet
    ensures packet[..] == Munged(macs, old(packet[..]), len)
  {
    hide Arp, Ip;
    if len < 20 {
      return;
    }
    ghost var p := packet[..];
    var kind := Big(packet[12], packet[13]);
    var dst := DoFakeMac(macs, packet, 0);
    var src := DoFakeMac(macs, packet, 6);
    ghost var q := packet[..];
    HeadersDone(macs, p, q);
    if kind == 0x0806 {
      MungeArp(macs, packet);
    } else if kind == 0x0800 {
      MungeIp(macs, packet);
    }
    MungedIs(macs, p, q, packet[..], len);
  }

  lemma HeadersDone(macs: Macs, p: seq<Byte>, q: seq<Byte>)
    requires |p| == MAX_PACKET_SIZE && q == Exchanged(macs, Exchanged(macs, p, 0), 6)
    ensures MacAt(q, 0) == macs.Flip(MacAt(p, 0)) && MacAt(q, 6) == macs.Flip(MacAt(p, 6))
    ensures q[12] == p[12] && q[13] == p[13] && q[HEADER..] == p[HEADER..]
  {
    hide Exchanged;
    var r := Exchanged(macs, p, 0);
    ExchangedElsewhere(macs, p, 0, 6);
    ExchangedElsewhere(macs, r, 6, 0);
  }

  lemma MungedIs(macs: Macs, p: seq<Byte>, q: seq<Byte>, r: seq<Byte>, len: int)
    requires Fits(macs, p, len) && |r| == |q| == |p| && len >= 20
    requires MacAt(q, 0) == macs.Flip(MacAt(p, 0)) && MacAt(q, 6) == macs.Flip(MacAt(p, 6))
    requires q[12] == p[12] && q[13] == p[13] && r[..HEADER] == q[..HEADER]
    requires r[HEADER..] == Payload(macs, Half(p, 12), p[HEADER..])
    ensures r == Munged(macs, p, len)
  {
    hide Payload, Half;
    MungedParts(macs, p, len);
    var m := Munged(macs, p, len);
    assert r[12] == r[..HEADER][12] && r[13] == r[..HEADER][13];
    assert r[..6] == r[..HEADER][..6] && r[6..12] == r[..HEADER][6..12];
    assert q[..6] == q[..HEADER][..6] && q[6..12] == q[..HEADER][6..12];
    WholeFrame(r, m);
  }

  method MungeArp(macs: Macs, packet: array<Byte>)
    requires packet.Length == MAX_PACKET_SIZE
    modifies packet
    ensures packet[..HEADER] == old(packet[..HEADER]) && packet[HEADER..] == Arp(macs, old(packet[HEADER..]))
  {
    if Big(packet[14], packet[15]) == 1 && packet[18] == 6 {
      ghost var p := packet[..];
      ExchangedShifted(macs, p, 8);
      var sender := DoFakeMac(macs, packet, HEADER + 8);
      ExchangedShifted(macs, packet[..], 18);
      var target := DoFakeMac(macs, packet, HEADER + 8 + 6 + 4);
    }
  }

  lemma ExchangedShifted(macs: Macs, p: seq<Byte>, at: nat)
    requires |p| == MAX_PACKET_SIZE && HEADER + at + 6 <= |p|
    ensures var q := Exchanged(macs, p, HEADER + at);
            q[..HEADER] == p[..HEADER] && q[HEADER..] == Exchanged(macs, p[HEADER..], at)
    ensures MacAt(p, HEADER + at) == MacAt(p[HEADER..], at)
  {
    hide Exchanged;
    var (d, q) := (p[HEADER..], Exchanged(macs, p, HEADER + at));
    var e := Exchanged(macs, d, at);
    assert MacAt(p, HEADER + at) == MacAt(d, at);
    forall i: nat | i < |d|
      ensures q[HEADER + i] == e[i]
    {
      if at <= i < at + 6 {
        assert q[HEADER + i] == MacAt(q, HEADER + at)[i - at];
        assert e[i] == MacAt(e, at)[i - at];
      } else {
        assert d[i] == p[HEADER + i];
      }
    }
    assert q[HEADER..] == e;
  }

  method MungeIp(macs: Macs, packet: array<Byte>)
    requires packet.Length == MAX_PACKET_SIZE && Room(macs, packet[HEADER..])
    modifies packet
    ensures packet[..HEADER] == old(packet[..HEADER]) && packet[HEADER..] == Ip(macs, old(packet[HEADER..]))
  {
    hide Repaired, Exchanged, NeedsRepair;
    ghost var d := packet[HEADER..];
    var proto, ihl := packet[HEADER + 9], packet[HEADER] % 16;
    var u := ihl * 4;
    var data := HEADER + u;
    if proto == 17 {
      var sp := Big(packet[data], packet[data + 1]);
      var dp := Big(packet[data + 2], packet[data + 3]);
      var n := Big(packet[data + 4], packet[data + 5]);
      if sp == 67 || sp == 68 || dp == 67 || dp == 68 {
        assert IsDhcp(d) && n == UdpLength(d);
        MungeDhcp(macs, packet, u, n);
      }
    }
  }

  method MungeDhcp(macs: Macs, packet: array<Byte>, u: nat, n: Word)
    requires packet.Length == MAX_PACKET_SIZE && Room(macs, packet[HEADER..]) && IsDhcp(packet[HEADER..])
    requires u == Udp(packet[HEADER..]) && n == UdpLength(packet[HEADER..])
    modifies packet
    ensures packet[..HEADER] == old(packet[..HEADER]) && packet[HEADER..] == Ip(macs, old(packet[HEADER..]))
  {
    hide Repaired, IsDhcp, UdpLength, Udp, Exchanged;
    ghost var d := packet[HEADER..];
    ExchangedShifted(macs, packet[..], u + CHADDR);
    var udpcrc := DoFakeMac(macs, packet, HEADER + u + CHADDR);
    assert packet[HEADER..][u + 6] == d[u + 6] && packet[HEADER..][u + 7] == d[u + 7];
    if udpcrc && (packet[HEADER + u + 6] != 0 || packet[HEADER + u + 7] != 0) {
      assert NeedsRepair(macs, d);
      Repair(packet, u, n);
    }
  }
}
