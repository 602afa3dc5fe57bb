/** The A2065 card: board memory, both rings, and the frames in and out of the host's network. */
module Lance {
  import opened Words
  import opened Bits
  import opened DescriptorRing
  import opened MacTranslation
  import opened LanceReceive
  import LanceTransmit
  import Arith

  const BROADCAST: Mac := [0xff, 0xff, 0xff, 0xff, 0xff, 0xff]
  const CRC_BYTES: nat := 4

  datatype Mode = Mode(prom: bool, multicast: bool, dtcr: bool)

  /** The bits of CSR0 that frames set and clear. */
  datatype Status = Status(rxon: bool, txon: bool, miss: bool, rint: bool, tint: bool)

  function AfterReceive(s: Status, o: Outcome): Status {
    match o
    case Done => s.(rint := true)
    case Missed => s.(miss := true)
    case Overrun => s.(rxon := false)
  }

  function AfterTransmit(s: Status, o: LanceTransmit.Outcome): Status {
    match o
    case Idle => s
    case Frame(_) => s.(tint := true)
    case Error => s.(tint := true, txon := false)
  }

  /** Frames for other stations, and the card's own, are not received. */
  predicate Accepts(mode: Mode, macs: Macs, frame: seq<Byte>) {
    && |frame| >= 20
    && var (dst, src) := (frame[..6], frame[6..12]);
       && (if dst[0] % 2 == 1 && dst != BROADCAST then mode.multicast
           else mode.prom || dst == macs.host || dst == BROADCAST)
       && !(src == macs.host && (dst == macs.host || dst == BROADCAST))
  }

  /** The filter, case by case. */
  lemma AcceptsMeans(mode: Mode, macs: Macs, frame: seq<Byte>)
    ensures |frame| < 20 ==> !Accepts(mode, macs, frame)
    ensures |frame| >= 20 ==>
              var (dst, src) := (MacAt(frame, 0), MacAt(frame, 6));
              var everyone := forall i: nat :: i < 6 ==> dst[i] == 0xff;
              && (everyone ==> (Accepts(mode, macs, frame) <==> src != macs.host))
              && (!everyone && dst[0] % 2 == 1 ==>
                    (Accepts(mode, macs, frame) <==> mode.multicast && !(dst == macs.host && src == macs.host)))
              && (dst[0] % 2 == 0 && dst == macs.host ==> (Accepts(mode, macs, frame) <==> src != macs.host))
              && (dst[0] % 2 == 0 && dst != macs.host ==> (Accepts(mode, macs, frame) <==> mode.prom))
  {
    if |frame| >= 20 {
      var dst := MacAt(frame, 0);
      assert (forall i: nat :: i < 6 ==> dst[i] == 0xff) ==> dst == BROADCAST;
    }
  }

  function CrcBytes(crc: Long): (s: seq<Byte>)
    ensures |s| == CRC_BYTES
  {
    [crc / 0x100_0000 % 0x100, crc / 0x1_0000 % 0x100, crc / 0x100 % 0x100, crc % 0x100]
  }

  lemma CrcMeans(crc: Long)
    ensures var b := CrcBytes(crc);
            crc == ((b[0] as int * 0x100 + b[1]) * 0x100 + b[2]) * 0x100 + b[3]
  {
    Arith.Nested(crc, 0x100, 0x100);
    Arith.Nested(crc, 0x1_0000, 0x100);
    Quotients(crc, crc / 0x100, crc / 0x1_0000, crc / 0x100_0000);
  }

  lemma Quotients(x: nat, q: nat, r: nat, s: nat)
    requires q == x / 0x100 && r == q / 0x100 && s == r / 0x100 && s < 0x100
    ensures x == ((s % 0x100 * 0x100 + r % 0x100) * 0x100 + q % 0x100) * 0x100 + x % 0x100
  {
  }

  /** What goes into the buffers: the translated frame and its checksum; `buffer` is the chip's, with the frame in front. */
  function Incoming(macs: Macs, buffer: seq<Byte>, len: nat, crc: seq<Byte> -> Long): (data: seq<Byte>)
    requires Fits(macs, buffer, len) && len <= |buffer|
    ensures |data| == len + CRC_BYTES
  {
    var frame := Munged(macs, buffer, len)[..len];
    frame + CrcBytes(crc(frame))
  }

  /** Every frame reaches the buffers in translation: neither of its header addresses is one the card's driver does not
      know for its own. */
  lemma IncomingHeader(macs: Macs, buffer: seq<Byte>, len: nat, crc: seq<Byte> -> Long)
    requires Fits(macs, buffer, len) && 20 <= len <= |buffer|
    ensures var data := Incoming(macs, buffer, len, crc);
            && MacAt(data, 0) == macs.Flip(MacAt(buffer, 0)) && MacAt(data, 6) == macs.Flip(MacAt(buffer, 6))
            && data[12] == buffer[12] && data[13] == buffer[13]
  {
    hide Munged, CrcBytes;
    MungedMeans(macs, buffer, len);
    var (q, data) := (Munged(macs, buffer, len), Incoming(macs, buffer, len, crc));
    assert data[..14] == q[..14];
    assert MacAt(data, 0) == data[..14][0..6] && MacAt(data, 6) == data[..14][6..12];
    assert MacAt(q, 0) == q[..14][0..6] && MacAt(q, 6) == q[..14][6..12];
    assert data[12] == data[..14][12] && data[13] == data[..14][13] && q[12] == q[..14][12] && q[13] == q[..14][13];
  }

  /** Out of promiscuous mode a frame for a single station that gets through is for this one, and it carries the card's
      own address when it reaches the buffers. */
  lemma AddressedToCard(mode: Mode, macs: Macs, buffer: seq<Byte>, len: nat, crc: seq<Byte> -> Long)
    requires Fits(macs, buffer, len) && len <= |buffer| && Accepts(mode, macs, buffer[..len])
    requires !mode.prom && macs.host[0] % 2 == 0 && buffer[0] % 2 == 0
    ensures MacAt(buffer, 0) == macs.host && MacAt(Incoming(macs, buffer, len, crc), 0) == macs.fake
  {
    hide Munged, Incoming, Accepts, Fits;
    AcceptsMeans(mode, macs, buffer[..len]);
    IncomingHeader(macs, buffer, len, crc);
    assert MacAt(buffer[..len], 0) == MacAt(buffer, 0);
  }

  /** What CSR0 says after a frame: received if the buffers had room, missed if there was none at all, receiver off
      otherwise. */
  lemma StatusAfter(s: Status, ram: Ram, ring: Ring, off: nat, data: seq<Byte>)
    requires ring.Valid() && 0 < |data| <= MAX_FRAME && Apart(ram, ring, |data|)
    ensures var room := LanceReceive.Room(ram, ring, off, ring.length);
            AfterReceive(s, Receive(ram, ring, off, data, |data|, true).outcome) ==
            if room >= |data| then s.(rint := true) else if room == 0 then s.(miss := true) else s.(rxon := false)
  {
    hide Receive, LanceReceive.Room, Apart;
    ReceivedIff(ram, ring, off, data, |data|, true);
  }

  class Card {
    const ram: array<Byte>
    const transmitBuffer: array<Byte>
    var macs: Macs
    var mode: Mode
    var rx: Ring
    var tx: Ring
    var rdrOffset: nat
    var tdrOffset: nat
    var status: Status
    var transmitLen: nat

    ghost predicate Valid()
      reads this`rx, this`tx
    {
      ram.Length == RAM && transmitBuffer.Length == MAX_PACKET_SIZE && ram != transmitBuffer && rx.Valid() && tx.Valid()
    }

    constructor (m: Macs, settings: Mode, receive: Ring, transmit: Ring)
      requires receive.Valid() && transmit.Valid()
      ensures Valid() && fresh(ram) && fresh(transmitBuffer)
      ensures macs == m && mode == settings && rx == receive && tx == transmit && transmitLen == 0
    {
      ram, transmitBuffer := new Byte[RAM](_ => 0), new Byte[MAX_PACKET_SIZE](_ => 0);
      macs, mode, rx, tx := m, settings, receive, transmit;
      rdrOffset, tdrOffset, transmitLen := 0, 0, 0;
      status := Status(true, true, false, false, false);
    }

    /** gotfunc: a frame from the host; `tmp` is the buffer it is put together in, whatever that held before. */
    method GotFrame(tmp: array<Byte>, frame: seq<Byte>, crc: seq<Byte> -> Long)
      requires Valid() && tmp != ram && tmp.Length == MAX_PACKET_SIZE && |frame| + CRC_BYTES <= MAX_FRAME
      requires Fits(macs, frame + tmp[|frame|..], |frame|)
      modifies this`rdrOffset, this`status, ram, tmp
      ensures Valid()
      ensures !old(status).rxon || !Accepts(mode, macs, frame) ==>
                ram[..] == old(ram[..]) && rdrOffset == old(rdrOffset) && status == old(status)
      ensures old(status).rxon && Accepts(mode, macs, frame) ==>
                var data := Incoming(macs, old(frame + tmp[|frame|..]), |frame|, crc);
                var r := Receive(old(ram[..]), rx, old(rdrOffset), data, |data|, true);
                && ram[..] == r.ram && rdrOffset == r.off
                && status == AfterReceive(old(status), r.outcome)
    {
      hide Munged, Fits, Receive;
      if !status.rxon || !Accepts(mode, macs, frame) {
        return;
      }
      var len := |frame|;
      CopyIn(tmp, frame);
      MungePacket(macs, tmp, len);
      var data := tmp[..len];
      data := data + CrcBytes(crc(data));
      Scatter(data);
    }

    static method CopyIn(tmp: array<Byte>, frame: seq<Byte>)
      requires |frame| <= tmp.Length
      modifies tmp
      ensures tmp[..] == frame + old(tmp[|frame|..])
    {
      for i := 0 to |frame|
        invariant forall k: nat :: k < tmp.Length ==> tmp[k] == if k < i then frame[k] else old(tmp[k])
      {
        tmp[i] := frame[i];
      }
    }

    /** The receive loop. */
    method Scatter(data: seq<Byte>)
      requires Valid() && 0 < |data| <= MAX_FRAME
      modifies this`rdrOffset, this`status, ram
      ensures Valid()
      ensures var r := Receive(old(ram[..]), rx, old(rdrOffset), data, |data|, true);
              && ram[..] == r.ram && rdrOffset == r.off
              && status == AfterReceive(old(status), r.outcome)
    {
      hide Receive, Round, PutBack, With, DescAt, Bit, Filled;
      var insize, first := 0, true;
      ghost var all := Receive(ram[..], rx, rdrOffset, data, |data|, true);
      assert data[0..] == data;
      while true
        invariant insize < |data|
        invariant SameEnd(Receive(ram[..], rx, rdrOffset, data[insize..], |data|, first), all)
        invariant rx == old(rx) && tx == old(tx) && status == old(status)
        decreases |data| - insize
      {
        ReceiveStep(ram[..], rx, rdrOffset, data[insize..], |data|, first);
        assert rx.Index(rdrOffset, 0) == rdrOffset % rx.length;
        rdrOffset := rdrOffset % rx.length;
        var k := rdrOffset;
        var d := ReadDesc(rx, k);
        if !d.Own() {
          if !first {
            WriteBack(rx, k, With(With(d.w1, BUFF, true), OFLO, true), d.w3);
            status := status.(rxon := false);
          } else {
            status := status.(miss := true);
          }
          return;
        }
        rdrOffset := rdrOffset + 1;
        ghost var rest := data[insize..];
        ghost var c := Share(d, |rest|);
        insize := FillOne(k, d, data, insize, first);
        assert rest[c..] == data[insize..];
        first := false;
        if insize >= |data| {
          break;
        }
      }
      status := status.(rint := true);
    }

    static ghost predicate SameEnd(r: Received, s: Received) {
      r.ram == s.ram && r.off == s.off && r.outcome == s.outcome
    }

    method ReadDesc(ring: Ring, k: nat) returns (d: Desc)
      requires Valid() && ring.Valid() && k < ring.length
      ensures d == DescAt(ram[..], ring, k)
    {
      var p := ring.At(k);
      d := Desc(BigEndian.Big(ram[p], ram[p + 1]), BigEndian.Big(ram[p + 2], ram[p + 3]),
                BigEndian.Big(ram[p + 4], ram[p + 5]), BigEndian.Big(ram[p + 6], ram[p + 7]));
    }

    method WriteBack(ring: Ring, k: nat, w1: Word, w3: Word)
      requires Valid() && ring.Valid() && k < ring.length
      modifies ram
      ensures ram[..] == PutBack(old(ram[..]), ring, k, w1, w3)
    {
      var p := ring.At(k);
      ram[p + 2] := w1 / 0x100;
      ram[p + 3] := w1 % 0x100;
      ram[p + 6] := w3 / 0x100;
      ram[p + 7] := w3 % 0x100;
    }

    /** One descriptor of a frame. */
    method FillOne(k: nat, d: Desc, data: seq<Byte>, at: nat, first: bool) returns (insize: nat)
      requires Valid() && k < rx.length && d == DescAt(ram[..], rx, k) && at < |data| <= MAX_FRAME
      modifies ram
      ensures insize == at + Share(d, |data| - at)
      ensures ram[..] == Round(old(ram[..]), rx, k, data[at..], |data|, first)
    {
      hide PutBack, Copied, DescAt, Bit;
      ghost var was, rest := ram[..], data[at..];
      var addr, size := d.Addr(), d.Size();
      var i := 0;
      insize := at;
      CopiedNone(was, addr);
      assert rest[..0] == [];
      while i < size && insize < |data|
        invariant i <= size && insize == at + i <= |data|
        invariant ram[..] == Copied(was, addr, rest[..i])
        decreases |data| - insize
      {
        CopiedOne(was, addr, rest[..i], rest[i]);
        assert rest[..i + 1] == rest[..i] + [rest[i]];
        ram[(addr + i) % RAM] := data[insize];
        i := i + 1;
        insize := insize + 1;
      }
      var w1 := With(d.w1, OWN, false);
      if first {
        w1 := With(w1, STP, true);
      }
      var w3 := d.w3;
      if insize >= |data| {
        w1 := With(w1, ENP, true);
        w3 := |data|;
      }
      assert i == Share(d, |rest|);
      WriteBack(rx, k, w1, w3);
    }

    /** do_transmit */
    method DoTransmit()
      requires Valid()
      requires var t := LanceTransmit.Transmit(ram[..], tx, tdrOffset, mode.dtcr);
               && |t.out| <= MAX_PACKET_SIZE
               && (t.outcome.Frame? ==> Fits(macs, t.out + transmitBuffer[|t.out|..], t.outcome.len))
      modifies this`tdrOffset, this`status, this`transmitLen, ram, transmitBuffer
      ensures Valid()
      ensures var t := LanceTransmit.Transmit(old(ram[..]), tx, old(tdrOffset), mode.dtcr);
              && ram[..] == t.ram && tdrOffset == t.off
              && status == AfterTransmit(old(status), t.outcome)
              && (if t.outcome.Idle? then status == old(status)
                  else status == old(status).(tint := true, txon := old(status).txon && t.outcome.Frame?))
              && transmitLen == (if t.outcome.Frame? then t.outcome.len else old(transmitLen))
              && transmitBuffer[..] == (if t.outcome.Frame? then Munged(macs, t.out + old(transmitBuffer[|t.out|..]), t.outcome.len)
                                        else t.out + old(transmitBuffer[|t.out|..]))
    {
      hide LanceTransmit.Chain, LanceTransmit.Failed, Fits, Munged, DescAt, LanceTransmit.Transmit, Bit, With;
      TransmitStep(ram[..], tx, tdrOffset, mode.dtcr);
      tdrOffset := tdrOffset % tx.length;
      var k := tdrOffset;
      var d := ReadDesc(tx, k);
      if !d.Own() || !Bit(d.w1, STP) {
        tdrOffset := tdrOffset + 1;
        return;
      }
      var addFcs := Bit(d.w1, LanceTransmit.ADD_FCS);
      var outsize, err, last := Gather();
      if outsize < LanceTransmit.SHORTEST {
        Fail(last);
        status := status.(txon := false);
        err := true;
      }
      if !err {
        if mode.dtcr && !addFcs {
          outsize := outsize - 4;
        }
        transmitLen := outsize;
        MungePacket(macs, transmitBuffer, transmitLen);
      }
      status := status.(tint := true);
    }

    static lemma TransmitStep(ram: Ram, ring: Ring, off: nat, dtcr: bool)
      requires ring.Valid()
      ensures var (k, t) := (off % ring.length, LanceTransmit.Transmit(ram, ring, off, dtcr));
              var (d, s) := (DescAt(ram, ring, k), LanceTransmit.Chain(ram, ring, k, []));
              if !d.Own() || !Bit(d.w1, STP) then t == LanceTransmit.Transmission(ram, k + 1, [], LanceTransmit.Idle)
              else
                && t.off == s.off && t.out == s.out
                && t.ram == (if |s.out| < LanceTransmit.SHORTEST then LanceTransmit.Failed(s.ram, ring, s.last) else s.ram)
                && t.outcome == (if |s.out| < LanceTransmit.SHORTEST || !s.complete then LanceTransmit.Error
                                 else LanceTransmit.Frame(|s.out| - if dtcr && !Bit(d.w1, LanceTransmit.ADD_FCS) then 4 else 0))
    {
      hide DescAt, LanceTransmit.Chain, LanceTransmit.Failed, Bit;
    }

    method Fail(k: nat)
      requires Valid() && k < tx.length
      modifies ram
      ensures ram[..] == LanceTransmit.Failed(old(ram[..]), tx, k)
    {
      var d := ReadDesc(tx, k);
      WriteBack(tx, k, With(d.w1, ERR, true), With(With(d.w3, LanceTransmit.TX_BUFF, true), LanceTransmit.UFLO, true));
    }

    /** The transmit loop: it ends because every round but the last clears an ownership bit. */
    method Gather() returns (outsize: nat, err: bool, last: nat)
      requires Valid() && |LanceTransmit.Chain(ram[..], tx, tdrOffset, []).out| <= MAX_PACKET_SIZE
      modifies this`tdrOffset, this`status, ram, transmitBuffer
      ensures Valid()
      ensures var s := LanceTransmit.Chain(old(ram[..]), tx, old(tdrOffset), []);
              && ram[..] == s.ram && tdrOffset == s.off && outsize == |s.out| && err == !s.complete && last == s.last
              && transmitBuffer[..] == s.out + old(transmitBuffer[|s.out|..])
              && status == if s.complete then old(status) else old(status).(txon := false)
    {
      hide LanceTransmit.Chain, LanceTransmit.Release, LanceTransmit.Failed, LanceTransmit.Piece, DescAt, PutBack, With, Bit;
      ghost var all := LanceTransmit.Chain(ram[..], tx, tdrOffset, []);
      ghost var buffer0 := transmitBuffer[..];
      outsize, err := 0, false;
      ghost var out: seq<Byte> := [];
      while true
        invariant tx == old(tx) && rx == old(rx) && status == old(status) && outsize == |out| && !err
        invariant SameSent(LanceTransmit.Chain(ram[..], tx, tdrOffset, out), all)
        invariant outsize <= MAX_PACKET_SIZE && transmitBuffer[..] == out + buffer0[outsize..]
        decreases LanceTransmit.OwnCount(ram[..], tx, tx.length)
      {
        ghost var (now, off) := (ram[..], tdrOffset);
        ChainStep(now, tx, off, out);
        assert tx.Index(off, 0) == off % tx.length;
        tdrOffset := tdrOffset % tx.length;
        last := tdrOffset;
        var d := ReadDesc(tx, last);
        if !d.Own() {
          Fail(last);
          status := status.(txon := false);
          err := true;
          return;
        }
        PieceFits(now, tx, off, out);
        outsize := TakePiece(last, d, outsize, out, buffer0);
        out := out + LanceTransmit.Piece(now, tx, last);
        tdrOffset := tdrOffset + 1;
        LanceTransmit.ReleaseCounts(now, tx, last, tx.length);
        ReleaseIs(now, tx, last);
        WriteBack(tx, last, With(d.w1, OWN, false), d.w3);
        if d.Enp() {
          return;
        }
      }
    }

    static lemma ReleaseIs(ram: Ram, ring: Ring, k: nat)
      requires ring.Valid() && k < ring.length
      ensures LanceTransmit.Release(ram, ring, k) ==
              PutBack(ram, ring, k, With(DescAt(ram, ring, k).w1, OWN, false), DescAt(ram, ring, k).w3)
    {
    }

    static ghost predicate SameSent(r: LanceTransmit.Sent, s: LanceTransmit.Sent) {
      r.ram == s.ram && r.off == s.off && r.out == s.out && r.complete == s.complete && r.last == s.last
    }

    static lemma ChainStep(ram: Ram, ring: Ring, off: nat, out: seq<Byte>)
      requires ring.Valid()
      ensures var k := ring.Index(off, 0);
              var s := LanceTransmit.Chain(ram, ring, off, out);
              var (next, more) := (LanceTransmit.Release(ram, ring, k), out + LanceTransmit.Piece(ram, ring, k));
              && (!Owned(ram, ring, k) ==> s == LanceTransmit.Sent(LanceTransmit.Failed(ram, ring, k), k, out, false, 0, k))
              && (Owned(ram, ring, k) && DescAt(ram, ring, k).Enp() ==> s == LanceTransmit.Sent(next, k + 1, more, true, 1, k))
              && (Owned(ram, ring, k) && !DescAt(ram, ring, k).Enp() ==>
                    SameSent(LanceTransmit.Chain(next, ring, k + 1, more), s))
    {
      hide DescAt, LanceTransmit.Release, LanceTransmit.Piece, LanceTransmit.Failed, Owned, Bit;
    }

    static lemma {:induction false} ChainGrows(ram: Ram, ring: Ring, off: nat, out: seq<Byte>)
      requires ring.Valid()
      ensures |LanceTransmit.Chain(ram, ring, off, out).out| >= |out|
      decreases LanceTransmit.OwnCount(ram, ring, ring.length)
    {
      hide DescAt, LanceTransmit.Release, LanceTransmit.Piece, LanceTransmit.Failed, Owned, Bit;
      var k := ring.Index(off, 0);
      if Owned(ram, ring, k) && !DescAt(ram, ring, k).Enp() {
        LanceTransmit.ReleaseCounts(ram, ring, k, ring.length);
        ChainGrows(LanceTransmit.Release(ram, ring, k), ring, k + 1, out + LanceTransmit.Piece(ram, ring, k));
      }
    }

    static lemma PieceFits(ram: Ram, ring: Ring, off: nat, out: seq<Byte>)
      requires ring.Valid() && Owned(ram, ring, ring.Index(off, 0))
      ensures |LanceTransmit.Chain(ram, ring, off, out).out| >= |out| + |LanceTransmit.Piece(ram, ring, ring.Index(off, 0))|
    {
      hide DescAt, LanceTransmit.Release, LanceTransmit.Piece, LanceTransmit.Failed, Owned, Bit;
      var k := ring.Index(off, 0);
      ChainGrows(LanceTransmit.Release(ram, ring, k), ring, k + 1, out + LanceTransmit.Piece(ram, ring, k));
    }

    /** The buffer of one descriptor, appended to the transmit buffer. */
    method TakePiece(k: nat, d: Desc, at: nat, ghost out: seq<Byte>, ghost buffer0: seq<Byte>) returns (outsize: nat)
      requires Valid() && k < tx.length && d == DescAt(ram[..], tx, k) && at == |out|
      requires |buffer0| == MAX_PACKET_SIZE && at + |LanceTransmit.Piece(ram[..], tx, k)| <= MAX_PACKET_SIZE
      requires transmitBuffer[..] == out + buffer0[at..]
      modifies transmitBuffer
      ensures outsize == at + |LanceTransmit.Piece(ram[..], tx, k)|
      ensures transmitBuffer[..] == (out + LanceTransmit.Piece(ram[..], tx, k)) + buffer0[outsize..]
    {
      hide DescAt;
      var addr, size := d.Addr(), d.Size();
      if size > MAX_PACKET_SIZE {
        size := MAX_PACKET_SIZE;
      }
      ghost var piece := LanceTransmit.Piece(ram[..], tx, k);
      outsize := at;
      for i := 0 to size
        invariant outsize == at + i && ram[..] == old(ram[..])
        invariant transmitBuffer[..] == (out + piece[..i]) + buffer0[outsize..]
      {
        assert piece[i] == ram[(addr + i) % RAM];
        assert piece[..i + 1] == piece[..i] + [piece[i]];
        transmitBuffer[outsize] := ram[(addr + i) % RAM];
        outsize := outsize + 1;
      }
      assert piece[..size] == piece;
    }

    /** check_transmit: nothing is gathered while a frame waits to be fetched or the transmitter is off; otherwise one
        transmission takes place. */
    method CheckTransmit()
      requires Valid()
      requires var t := LanceTransmit.Transmit(ram[..], tx, tdrOffset, mode.dtcr);
               transmitLen == 0 && status.txon ==>
                 && |t.out| <= MAX_PACKET_SIZE
                 && (t.outcome.Frame? ==> Fits(macs, t.out + transmitBuffer[|t.out|..], t.outcome.len))
      modifies this`tdrOffset, this`status, this`transmitLen, ram, transmitBuffer
      ensures Valid()
      ensures old(transmitLen) > 0 || !old(status).txon ==>
                && ram[..] == old(ram[..]) && tdrOffset == old(tdrOffset) && status == old(status)
                && transmitLen == old(transmitLen) && transmitBuffer[..] == old(transmitBuffer[..])
      ensures old(transmitLen) == 0 && old(status).txon ==>
                var t := LanceTransmit.Transmit(old(ram[..]), tx, old(tdrOffset), mode.dtcr);
                && ram[..] == t.ram && tdrOffset == t.off
                && status == AfterTransmit(old(status), t.outcome)
                && transmitLen == (if t.outcome.Frame? then t.outcome.len else 0)
                && transmitBuffer[..] == (if t.outcome.Frame? then Munged(macs, t.out + old(transmitBuffer[|t.out|..]), t.outcome.len)
                                          else t.out + old(transmitBuffer[|t.out|..]))
    {
      hide LanceTransmit.Transmit, Fits, Munged;
      if transmitLen > 0 || !status.txon {
        return;
      }
      DoTransmit();
    }

    /** getfunc: the host fetches the frame, if there is one and it is not longer than `limit`; it is gone either way. */
    method GetFrame(limit: nat) returns (frame: seq<Byte>)
      requires Valid() && transmitLen <= MAX_PACKET_SIZE
      modifies this`transmitLen
      ensures transmitLen == 0
      ensures frame == if old(transmitLen) <= limit then transmitBuffer[..old(transmitLen)] else []
    {
      frame := [];
      if transmitLen == 0 {
        return;
      }
      if transmitLen > limit {
        transmitLen := 0;
        return;
      }
      frame := transmitBuffer[..transmitLen];
      transmitLen := 0;
    }
  }
}
