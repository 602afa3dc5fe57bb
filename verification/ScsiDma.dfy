/** The A2091 DMA engine: three counters that move in step for every device. */
module ScsiDma {
  import opened Words
  import Arith

  /** Most bytes the transfer count allows; a count of zero still lets one byte through. */
  function CountLimit(tc: nat): nat {
    if tc == 0 then 1 else tc
  }

  /** Bytes after which the old DMAC's word count runs out. */
  function WordLimit(acr: Long, wtc: Long): nat {
    if wtc == 0 then 1 else 2 * wtc + acr % 2
  }

  /** The most bytes one run can move, from the counters alone. */
  function Limit(tc: nat, counting: bool, acr: Long, wtc: Long): (n: nat)
    ensures 1 <= n <= CountLimit(tc)
  {
    if counting && WordLimit(acr, wtc) < CountLimit(tc) then WordLimit(acr, wtc) else CountLimit(tc)
  }

  /** Length of a run that has moved `k - 1` bytes: it ends at the limit or at the first byte the device ends on. */
  function Length(ends: nat -> bool, limit: nat, k: nat): (n: nat)
    requires 1 <= k <= limit
    ensures k <= n <= limit
    ensures n < limit ==> ends(n - 1)
    ensures forall i: nat :: k - 1 <= i < n - 1 ==> !ends(i)
    decreases limit - k
  {
    if k == limit || ends(k - 1) then k else Length(ends, limit, k + 1)
  }

  /** A loop that has moved `n` bytes and knows whether it goes on. */
  ghost predicate Underway(ends: nat -> bool, limit: nat, n: nat, run: bool)
    requires limit >= 1
  {
    if run then n < limit && Length(ends, limit, n + 1) == Length(ends, limit, 1) else 1 <= n == Length(ends, limit, 1)
  }

  lemma UnderwayStep(ends: nat -> bool, limit: nat, n: nat)
    requires limit >= 1 && Underway(ends, limit, n, true)
    ensures Underway(ends, limit, n + 1, n + 1 != limit && !ends(n))
  {
  }

  /** The word count after `k` bytes: it drops whenever the new address is odd, down to zero. */
  function WordsLeft(acr: Long, wtc: Long, k: nat): Long {
    var used := (k + 1 - acr % 2) / 2;
    if used <= wtc then wtc - used else 0
  }

  /** The word count is exhausted before byte `k` exactly from the limit on. */
  lemma WordsRunOut(acr: Long, wtc: Long, k: nat)
    requires k >= 1
    ensures WordsLeft(acr, wtc, k - 1) == 0 <==> k >= WordLimit(acr, wtc)
    ensures WordsLeft(acr, wtc, k - 1) > 0 ==>
            WordsLeft(acr, wtc, k) == WordsLeft(acr, wtc, k - 1) - if (acr + k) % 2 == 1 then 1 else 0
  {
  }

  lemma SameParity(acr: Long, k: nat)
    ensures Wrap(acr + k) % 2 == (acr + k) % 2
  {
  }

  /** Memory after `n` bytes have been written upwards from `acr`. */
  function Written(mem: map<Long, Byte>, acr: Long, bytes: nat -> Byte, n: nat): map<Long, Byte> {
    if n == 0 then mem else Written(mem, acr, bytes, n - 1)[Wrap(acr + n - 1) := bytes(n - 1)]
  }

  function Get(mem: map<Long, Byte>, addr: Long): Byte {
    if addr in mem then mem[addr] else 0
  }

  lemma WrittenNone(mem: map<Long, Byte>, acr: Long, bytes: nat -> Byte)
    ensures Written(mem, acr, bytes, 0) == mem
  {
  }

  lemma WrittenOne(mem: map<Long, Byte>, acr: Long, bytes: nat -> Byte, n: nat)
    ensures Written(mem, acr, bytes, n + 1) == Written(mem, acr, bytes, n)[Wrap(acr + n) := bytes(n)]
  {
  }

  /** Byte `i` of the run is at `acr + i`; every other address keeps what it had. */
  lemma {:induction false} WrittenMeans(mem: map<Long, Byte>, acr: Long, bytes: nat -> Byte, n: nat, a: Long)
    requires n <= 0x1_0000_0000
    ensures var i := Wrap(a - acr);
            Get(Written(mem, acr, bytes, n), a) == if i < n then bytes(i) else Get(mem, a)
  {
    if n > 0 {
      WrittenMeans(mem, acr, bytes, n - 1, a);
      Offset(acr, a, n - 1);
    }
  }

  lemma Offset(acr: Long, a: Long, i: nat)
    requires i < 0x1_0000_0000
    ensures Wrap(acr + i) == a <==> Wrap(a - acr) == i
  {
  }

  lemma ThreeBytes(tc: nat)
    ensures tc % 0x100 + tc / 0x100 % 0x100 * 0x100 + tc / 0x1_0000 % 0x100 * 0x1_0000 == tc % 0x100_0000
  {
    Arith.Nested(tc, 0x100, 0x100);
    var (a, q) := (tc % 0x100, tc / 0x100);
    var (b, c) := (q % 0x100, q / 0x100);
    assert tc == q * 0x100 + a && q == c * 0x100 + b && c == c / 0x100 * 0x100 + c % 0x100;
    Arith.DivModIs(tc, 0x100_0000, c / 0x100, a + b * 0x100 + c % 0x100 * 0x1_0000);
  }

  class Dmac {
    const oldDmac: bool
    const tcen: bool
    var countLsb: Byte
    var countMid: Byte
    var countMsb: Byte
    var acr: Long
    var wtc: Long
    var eint: bool
    var mem: map<Long, Byte>
    var data: seq<Byte>

    predicate Counting() {
      oldDmac && tcen
    }

    /** gettc */
    function Tc(): (tc: nat)
      reads this`countLsb, this`countMid, this`countMsb
      ensures tc < 0x100_0000
    {
      countLsb + countMid * 0x100 + countMsb * 0x1_0000
    }

    constructor (old_: bool, tcen_: bool)
      ensures oldDmac == old_ && tcen == tcen_ && data == []
    {
      oldDmac, tcen := old_, tcen_;
      countLsb, countMid, countMsb, acr, wtc, eint := 0, 0, 0, 0, 0, false;
      mem, data := map[], [];
    }

    /** settc, as far as 24 bits go */
    method SetTc(tc: nat)
      modifies this`countLsb, this`countMid, this`countMsb
      ensures Tc() == tc % 0x100_0000
    {
      ThreeBytes(tc);
      countLsb := tc % 0x100;
      countMid := tc / 0x100 % 0x100;
      countMsb := tc / 0x1_0000 % 0x100;
    }

    method DecreaseTc() returns (out: bool)
      modifies this`countLsb, this`countMid, this`countMsb
      ensures Tc() == if old(Tc()) == 0 then 0 else old(Tc()) - 1
      ensures out == (Tc() == 0)
    {
      var tc := Tc();
      if tc == 0 {
        return true;
      }
      SetTc(tc - 1);
      return tc - 1 == 0;
    }

    /** dmacheck_a2091 */
    method DmaCheck() returns (stop: bool)
      modifies this`acr, this`wtc, this`eint
      ensures acr == Wrap(old(acr) + 1)
      ensures stop == (Counting() && old(wtc) == 0)
      ensures eint == (old(eint) || stop)
      ensures wtc == if Counting() && old(wtc) > 0 && acr % 2 == 1 then old(wtc) - 1 else old(wtc)
    {
      acr := Wrap(acr + 1);
      if oldDmac && tcen {
        if wtc == 0 {
          eint := true;
          return true;
        } else if acr % 2 == 1 {
          wtc := wtc - 1;
        }
      }
      return false;
    }

    /** The first bytes of a run are also kept in the chip's 32-byte buffer. */
    method Keep(v: Byte)
      requires |data| <= 32
      modifies this`data
      ensures |data| <= 32 && data == if |old(data)| < 32 then old(data) + [v] else old(data)
    {
      if |data| < 32 {
        data := data + [v];
      }
    }

    /** The counters after `k` bytes of a run that started with the given ones. */
    ghost predicate After(tc0: nat, acr0: Long, wtc0: Long, eint0: bool, k: nat)
      reads this`countLsb, this`countMid, this`countMsb, this`acr, this`wtc, this`eint
    {
      && Tc() == (if tc0 == 0 then 0 else tc0 - k)
      && acr == Wrap(acr0 + k)
      && wtc == (if Counting() then WordsLeft(acr0, wtc0, k) else wtc0)
      && eint == (eint0 || (Counting() && k >= WordLimit(acr0, wtc0)))
    }

    /** decreasetc and dmacheck after byte `k`: they stop the run exactly at the limit. */
    method CountByte(ghost tc0: nat, ghost acr0: Long, ghost wtc0: Long, ghost eint0: bool, ghost k: nat) returns (stop: bool)
      requires 1 <= k <= Limit(tc0, Counting(), acr0, wtc0)
      requires After(tc0, acr0, wtc0, eint0, k - 1)
      requires tc0 < 0x100_0000
      modifies this`countLsb, this`countMid, this`countMsb, this`acr, this`wtc, this`eint
      ensures After(tc0, acr0, wtc0, eint0, k)
      ensures stop == (k == Limit(tc0, Counting(), acr0, wtc0))
    {
      hide Wrap, WordsLeft, Dmac.Tc;
      WordsRunOut(acr0, wtc0, k);
      WordsRunOut(acr0, wtc0, k + 1);
      WrapAdd(acr0 + k - 1, 1);
      SameParity(acr0, k);
      stop := DecreaseTc();
      var w := DmaCheck();
      stop := stop || w;
    }

    /** Byte `k` of a run arrives. */
    method InByte(v: Byte, ghost tc0: nat, ghost acr0: Long, ghost wtc0: Long, ghost eint0: bool, ghost k: nat) returns (stop: bool)
      requires k < Limit(tc0, Counting(), acr0, wtc0) && After(tc0, acr0, wtc0, eint0, k)
      requires tc0 < 0x100_0000 && |data| <= 32
      modifies this
      ensures After(tc0, acr0, wtc0, eint0, k + 1) && stop == (k + 1 == Limit(tc0, Counting(), acr0, wtc0))
      ensures mem == old(mem)[Wrap(acr0 + k) := v]
      ensures |data| <= 32 && data == if |old(data)| < 32 then old(data) + [v] else old(data)
    {
      hide Dmac.After, Limit;
      AtAddress(tc0, acr0, wtc0, eint0, k);
      mem := mem[acr := v];
      Keep(v);
      stop := CountByte(tc0, acr0, wtc0, eint0, k + 1);
    }

    /** do_dma_commodore, from the device to memory: the device hands over `bytes(i)` and `ends(i)` says whether it
        stops there. */
    method DmaIn(bytes: nat -> Byte, ends: nat -> bool) returns (n: nat)
      requires |data| <= 32
      modifies this
      ensures n == Length(ends, Limit(old(Tc()), Counting(), old(acr), old(wtc)), 1)
      ensures After(old(Tc()), old(acr), old(wtc), old(eint), n)
      ensures mem == Written(old(mem), old(acr), bytes, n)
      ensures data == Kept(old(data), bytes, n)
    {
      hide Dmac.After, Limit, Wrap, Kept, Written, Length, CountLimit, Dmac.Counting, Dmac.Tc;
      ghost var tc0, acr0, wtc0, eint0, data0, mem0 := Tc(), acr, wtc, eint, data, mem;
      ghost var limit := Limit(tc0, Counting(), acr0, wtc0);
      n := 0;
      var run := true;
      NothingMoved(tc0, acr0, wtc0, eint0);
      KeptNone(data0, bytes);
      WrittenNone(mem0, acr0, bytes);
      while run
        invariant Underway(ends, limit, n, run) && (run ==> n < limit)
        invariant After(tc0, acr0, wtc0, eint0, n)
        invariant mem == Written(mem0, acr0, bytes, n)
        invariant |data| <= 32 && data == Kept(data0, bytes, n)
        decreases run, limit - n
      {
        KeptOne(data0, bytes, n);
        WrittenOne(mem0, acr0, bytes, n);
        var stop := InByte(bytes(n), tc0, acr0, wtc0, eint0, n);
        UnderwayStep(ends, limit, n);
        n := n + 1;
        if stop || ends(n - 1) {
          run := false;
        }
      }
    }

    /** Byte `k` of a run leaves. */
    method OutByte(ghost tc0: nat, ghost acr0: Long, ghost wtc0: Long, ghost eint0: bool, ghost k: nat)
      returns (v: Byte, stop: bool)
      requires k < Limit(tc0, Counting(), acr0, wtc0) && After(tc0, acr0, wtc0, eint0, k)
      requires tc0 < 0x100_0000 && |data| <= 32
      modifies this
      ensures After(tc0, acr0, wtc0, eint0, k + 1) && stop == (k + 1 == Limit(tc0, Counting(), acr0, wtc0))
      ensures mem == old(mem) && v == Get(mem, Wrap(acr0 + k))
      ensures |data| <= 32 && data == if |old(data)| < 32 then old(data) + [v] else old(data)
    {
      hide Dmac.After, Limit;
      AtAddress(tc0, acr0, wtc0, eint0, k);
      v := Get(mem, acr);
      Keep(v);
      stop := CountByte(tc0, acr0, wtc0, eint0, k + 1);
    }

    /** do_dma_commodore, from memory to the device: `sent` is what the device got, `ends(i)` whether it stopped at byte i. */
    method DmaOut(ends: nat -> bool) returns (sent: seq<Byte>)
      requires |data| <= 32
      modifies this
      ensures |sent| == Length(ends, Limit(old(Tc()), Counting(), old(acr), old(wtc)), 1)
      ensures After(old(Tc()), old(acr), old(wtc), old(eint), |sent|) && mem == old(mem)
      ensures forall i: nat :: i < |sent| ==> sent[i] == Get(mem, Wrap(old(acr) + i))
      ensures data == old(data) + sent[..Fitting(old(data), sent)]
    {
      hide Dmac.After, Limit, Wrap, Get, Length, CountLimit, Dmac.Counting, Dmac.Tc;
      ghost var tc0, acr0, wtc0, eint0, data0 := Tc(), acr, wtc, eint, data;
      ghost var limit := Limit(tc0, Counting(), acr0, wtc0);
      sent := [];
      var run := true;
      NothingMoved(tc0, acr0, wtc0, eint0);
      while run
        invariant Underway(ends, limit, |sent|, run) && (run ==> |sent| < limit)
        invariant After(tc0, acr0, wtc0, eint0, |sent|) && mem == old(mem)
        invariant |data| <= 32 && data == data0 + sent[..Fitting(data0, sent)]
        invariant forall i: nat :: i < |sent| ==> sent[i] == Get(mem, Wrap(acr0 + i))
        decreases run, limit - |sent|
      {
        var v, stop := OutByte(tc0, acr0, wtc0, eint0, |sent|);
        UnderwayStep(ends, limit, |sent|);
        FittingOne(data0, sent, v);
        sent := sent + [v];
        if stop || ends(|sent| - 1) {
          run := false;
        }
      }
    }

    lemma NothingMoved(tc0: nat, acr0: Long, wtc0: Long, eint0: bool)
      requires Tc() == tc0 && acr == acr0 && wtc == wtc0 && eint == eint0
      ensures After(tc0, acr0, wtc0, eint0, 0)
    {
    }

    lemma AtAddress(tc0: nat, acr0: Long, wtc0: Long, eint0: bool, k: nat)
      requires After(tc0, acr0, wtc0, eint0, k)
      ensures acr == Wrap(acr0 + k)
    {
    }
  }

  /** How many of the bytes a run has moved are kept in what room the 32-byte buffer has left. */
  function Fitting(data: seq<Byte>, moved: seq<Byte>): (n: nat)
    ensures n <= |moved|
  {
    if |data| > 32 then 0 else if |data| + |moved| <= 32 then |moved| else 32 - |data|
  }

  lemma FittingOne(data: seq<Byte>, moved: seq<Byte>, v: Byte)
    requires |data| <= 32
    ensures var (d, e) := (data + moved[..Fitting(data, moved)], moved + [v]);
            data + e[..Fitting(data, e)] == if |d| < 32 then d + [v] else d
  {
  }

  /** The 32-byte buffer after `n` more bytes. */
  function Kept(data: seq<Byte>, bytes: nat -> Byte, n: nat): seq<Byte> {
    if n == 0 then data else
      var d := Kept(data, bytes, n - 1);
      if |d| < 32 then d + [bytes(n - 1)] else d
  }

  lemma KeptNone(data: seq<Byte>, bytes: nat -> Byte)
    ensures Kept(data, bytes, 0) == data
  {
  }

  lemma KeptOne(data: seq<Byte>, bytes: nat -> Byte, n: nat)
    ensures var d := Kept(data, bytes, n);
            Kept(data, bytes, n + 1) == if |d| < 32 then d + [bytes(n)] else d
  {
  }

  /** Of a run's bytes the buffer keeps the leading ones, up to 32 in all. */
  lemma {:induction false} KeptMeans(data: seq<Byte>, bytes: nat -> Byte, n: nat)
    requires |data| <= 32
    ensures var d := Kept(data, bytes, n);
            && |d| == (if |data| + n < 32 then |data| + n else 32)
            && d[..|data|] == data && forall i: nat :: |data| <= i < |d| ==> d[i] == bytes(i - |data|)
  {
    if n > 0 {
      KeptMeans(data, bytes, n - 1);
    }
  }

  /** A run never moves more than the transfer count. It moves all of it if neither the device nor the word count ends it
      sooner; with a count of zero a single byte gets through. */
  lemma FullTransfer(ends: nat -> bool, tc: nat, counting: bool, acr: Long, wtc: Long)
    ensures var n := Length(ends, Limit(tc, counting, acr, wtc), 1);
            && (tc > 0 ==> n <= tc) && (tc == 0 ==> n == 1)
            && ((!counting || WordLimit(acr, wtc) >= tc) && (forall i: nat :: i + 1 < tc ==> !ends(i)) && tc > 0 ==> n == tc)
            && (n < tc ==> ends(n - 1) || (counting && n == WordLimit(acr, wtc)))
  {
  }

  /** With the old DMAC's terminal count on, an even address and w >= 1 words, a run stops with the interrupt at
      exactly 2*w bytes, unless the transfer count or the device ends it sooner. */
  lemma TerminalCount(ends: nat -> bool, tc: nat, acr: Long, w: Long)
    requires acr % 2 == 0 && w >= 1
    ensures var n := Length(ends, Limit(tc, true, acr, w), 1);
            && n <= 2 * w
            && (n == 2 * w || n == CountLimit(tc) || ends(n - 1))
            && (n >= WordLimit(acr, w) <==> n == 2 * w)
            && (CountLimit(tc) >= 2 * w && (forall i: nat :: i + 1 < 2 * w ==> !ends(i)) ==> n == 2 * w)
  {
    var limit := Limit(tc, true, acr, w);
    var n := Length(ends, limit, 1);
    if CountLimit(tc) >= 2 * w && n < 2 * w {
      assert ends(n - 1);
    }
  }
}
