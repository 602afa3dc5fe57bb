/** Akiko's response channel: what reaches memory over a whole run, whatever the CPU does with the receive limit. */
module ResponseHistory {
  import opened Words

  function Sum(bytes: seq<Byte>): nat {
    if bytes == [] then 0 else Sum(bytes[..|bytes| - 1]) + bytes[|bytes| - 1]
  }

  /** A response as it travels: the bytes, and the one that brings their sum to 0xff. */
  function Packet(response: seq<Byte>): (p: seq<Byte>)
    ensures |p| == |response| + 1
  {
    response + [Checksum(response)]
  }

  function Checksum(response: seq<Byte>): Byte {
    (0xff - Sum(response)) % 0x100
  }

  lemma PacketSum(response: seq<Byte>)
    ensures Sum(Packet(response)) % 0x100 == 0xff
  {
    assert Packet(response)[..|response|] == response;
    var s := Sum(response);
    assert 0xff - s == (0xff - s) / 0x100 * 0x100 + Checksum(response);
    Arith.DivModIs(s + Checksum(response), 0x100, 0 - (0xff - s) / 0x100, 0xff);
  }

  import Arith

  /** The channel: bytes still to be delivered, the memory index, the CPU's limit, and the DMA switch. */
  datatype Channel = Channel(pending: seq<Byte>, inx: Byte, cmp: Byte, rxd: bool)

  /** How many bytes the limit allows. */
  function Room(inx: Byte, cmp: Byte): Byte {
    (cmp - inx) % 0x100
  }

  /** How many bytes one poll moves. */
  function Moves(c: Channel): (n: nat)
    ensures n <= |c.pending|
  {
    if !c.rxd then 0 else if |c.pending| <= Room(c.inx, c.cmp) then |c.pending| else Room(c.inx, c.cmp)
  }

  function Polled(c: Channel): Channel {
    c.(pending := c.pending[Moves(c)..], inx := (c.inx + Moves(c)) % 0x100)
  }

  /** A poll that touches the limit raises the interrupt. */
  predicate ReachesLimit(c: Channel) {
    c.rxd && c.pending != [] && 0 < Room(c.inx, c.cmp) <= |c.pending|
  }

  /** A response is taken up only when nothing is pending; an empty one is none at all. */
  predicate Accepts(c: Channel, response: seq<Byte>) {
    c.pending == [] && response != []
  }

  function Offered(c: Channel, response: seq<Byte>): Channel {
    if Accepts(c, response) then c.(pending := Packet(response)) else c
  }

  /** The 256 bytes of the receive page after `bytes` have been put at consecutive places from `at`. */
  function Poked(page: seq<Byte>, at: Byte, bytes: seq<Byte>): (r: seq<Byte>)
    requires |page| == 0x100
    ensures |r| == 0x100
  {
    if bytes == [] then page else
      var n := |bytes| - 1;
      Poked(page, at, bytes[..n])[(at + n) % 0x100 := bytes[n]]
  }

  lemma {:induction false} PokedAppend(page: seq<Byte>, at: Byte, a: seq<Byte>, b: seq<Byte>)
    requires |page| == 0x100
    ensures Poked(page, at, a + b) == Poked(Poked(page, at, a), (at + |a|) % 0x100, b)
  {
    if b == [] {
      assert a + b == a;
    } else {
      var n := |b| - 1;
      assert (a + b)[..|a| + n] == a + b[..n];
      PokedAppend(page, at, a, b[..n]);
      Modulo(at, |a|, n);
    }
  }

  lemma Modulo(x: int, y: int, z: int)
    ensures ((x + y) % 0x100 + z) % 0x100 == (x + (y + z)) % 0x100
  {
    var q := (x + y) / 0x100;
    assert x + y == q * 0x100 + (x + y) % 0x100;
    var w := (x + y) % 0x100 + z;
    Arith.DivModIs(x + (y + z), 0x100, q + w / 0x100, w % 0x100);
  }

  /** Byte `i` ends up at `at + i` unless a later one came round to the same place. */
  lemma {:induction false} PokedAt(page: seq<Byte>, at: Byte, bytes: seq<Byte>, i: nat)
    requires |page| == 0x100 && i < |bytes| <= i + 0x100
    ensures Poked(page, at, bytes)[(at + i) % 0x100] == bytes[i]
  {
    var n := |bytes| - 1;
    if i < n {
      PokedAt(page, at, bytes[..n], i);
      Arith.Differ(at, i, n, 0x100);
    }
  }

  datatype Event = Limit(cmp: Byte) | Dma(on: bool) | Poll | Offer(response: seq<Byte>)

  /** A run: the channel and its page, every byte delivered, and every packet taken up. */
  datatype Run = Run(channel: Channel, page: seq<Byte>, delivered: seq<Byte>, accepted: seq<Byte>)

  function Step(r: Run, e: Event): Run
    requires |r.page| == 0x100
  {
    var c := r.channel;
    match e
    case Limit(cmp) => r.(channel := c.(cmp := cmp))
    case Dma(on) => r.(channel := c.(rxd := on))
    case Poll =>
      var bytes := c.pending[..Moves(c)];
      Run(Polled(c), Poked(r.page, c.inx, bytes), r.delivered + bytes, r.accepted)
    case Offer(response) =>
      Run(Offered(c, response), r.page, r.delivered,
          if Accepts(c, response) then r.accepted + Packet(response) else r.accepted)
  }

  function After(c: Channel, page: seq<Byte>, h: seq<Event>): (r: Run)
    requires |page| == 0x100
    ensures |r.page| == 0x100
  {
    if h == [] then Run(c, page, [], c.pending) else Step(After(c, page, h[..|h| - 1]), h[|h| - 1])
  }

  /** Over every run: each packet's bytes are delivered once and in order, the next packet follows the last, and byte
      number i goes to place i, counted modulo 256 from where the run started. */
  lemma {:induction false} DeliveredInOrder(c: Channel, page: seq<Byte>, h: seq<Event>)
    requires |page| == 0x100
    ensures var r := After(c, page, h);
            && r.delivered + r.channel.pending == r.accepted
            && r.channel.inx == (c.inx + |r.delivered|) % 0x100
            && r.page == Poked(page, c.inx, r.delivered)
  {
    hide Step;
    if h != [] {
      var n := |h| - 1;
      DeliveredInOrder(c, page, h[..n]);
      StepInOrder(c, page, After(c, page, h[..n]), h[n]);
    }
  }

  lemma StepInOrder(c: Channel, page: seq<Byte>, r: Run, e: Event)
    requires |page| == |r.page| == 0x100
    requires r.delivered + r.channel.pending == r.accepted && r.channel.inx == (c.inx + |r.delivered|) % 0x100
    requires r.page == Poked(page, c.inx, r.delivered)
    ensures var t := Step(r, e);
            && t.delivered + t.channel.pending == t.accepted
            && t.channel.inx == (c.inx + |t.delivered|) % 0x100
            && t.page == Poked(page, c.inx, t.delivered)
  {
    hide Poked, Moves, Packet;
    if e.Poll? {
      PollInOrder(c, page, r);
    } else if e.Offer? && Accepts(r.channel, e.response) {
      assert r.delivered == r.accepted;
    }
  }

  lemma PollInOrder(c: Channel, page: seq<Byte>, r: Run)
    requires |page| == |r.page| == 0x100
    requires r.delivered + r.channel.pending == r.accepted && r.channel.inx == (c.inx + |r.delivered|) % 0x100
    requires r.page == Poked(page, c.inx, r.delivered)
    ensures var t := Step(r, Poll);
            && t.delivered + t.channel.pending == t.accepted
            && t.channel.inx == (c.inx + |t.delivered|) % 0x100
            && t.page == Poked(page, c.inx, t.delivered)
  {
    hide Poked, Moves;
    var d := r.channel;
    var bytes := d.pending[..Moves(d)];
    PokedAppend(page, c.inx, r.delivered, bytes);
    assert d.inx == (c.inx + |r.delivered|) % 0x100;
    Modulo(c.inx, |r.delivered|, |bytes|);
    assert Polled(d).inx == (c.inx + (|r.delivered| + |bytes|)) % 0x100;
    Reassociate(r.delivered, d.pending, Moves(d));
  }

  lemma Reassociate(a: seq<Byte>, b: seq<Byte>, n: nat)
    requires n <= |b|
    ensures (a + b[..n]) + b[n..] == a + b
  {
  }

  /** What was taken up: the packets of the responses offered while nothing was pending, one after the other. */
  function Packets(responses: seq<seq<Byte>>): seq<Byte> {
    if responses == [] then [] else Packets(responses[..|responses| - 1]) + Packet(responses[|responses| - 1])
  }

  function Answered(c: Channel, page: seq<Byte>, h: seq<Event>): seq<seq<Byte>>
    requires |page| == 0x100
  {
    if h == [] then [] else
      var n := |h| - 1;
      Answered(c, page, h[..n]) + if Takes(c, page, h) then [h[n].response] else []
  }

  lemma {:induction false} AcceptedArePackets(c: Channel, page: seq<Byte>, h: seq<Event>)
    requires |page| == 0x100
    ensures After(c, page, h).accepted == c.pending + Packets(Answered(c, page, h))
  {
    if h == [] {
      NothingAccepted(c, page);
    } else {
      hide After, Answered, Packets, Packet, Takes;
      var n := |h| - 1;
      AcceptedArePackets(c, page, h[..n]);
      AcceptedStep(c, page, h);
      OneMorePacket(c.pending, Answered(c, page, h[..n]), h[n], Takes(c, page, h));
    }
  }

  lemma NothingAccepted(c: Channel, page: seq<Byte>)
    requires |page| == 0x100
    ensures After(c, page, []).accepted == c.pending + Packets(Answered(c, page, []))
  {
    assert c.pending + Packets([]) == c.pending;
  }

  lemma OneMorePacket(pending: seq<Byte>, done: seq<seq<Byte>>, e: Event, taken: bool)
    requires taken ==> e.Offer?
    ensures (if taken then (pending + Packets(done)) + Packet(e.response) else pending + Packets(done)) ==
            pending + Packets(done + if taken then [e.response] else [])
  {
    hide Packets, Packet;
    if taken {
      PacketsAppend(done, e.response);
      assert (pending + Packets(done)) + Packet(e.response) == pending + (Packets(done) + Packet(e.response));
    } else {
      assert done + [] == done;
    }
  }

  /** The last event of a run is a response that is taken up. */
  predicate Takes(c: Channel, page: seq<Byte>, h: seq<Event>)
    requires |page| == 0x100 && h != []
  {
    var e := h[|h| - 1];
    e.Offer? && Accepts(After(c, page, h[..|h| - 1]).channel, e.response)
  }

  lemma AcceptedStep(c: Channel, page: seq<Byte>, h: seq<Event>)
    requires |page| == 0x100 && h != []
    ensures var (r, e) := (After(c, page, h[..|h| - 1]), h[|h| - 1]);
            && (Takes(c, page, h) ==> e.Offer?)
            && After(c, page, h).accepted == (if Takes(c, page, h) then r.accepted + Packet(e.response) else r.accepted)
            && Answered(c, page, h) == Answered(c, page, h[..|h| - 1]) + if Takes(c, page, h) then [e.response] else []
  {
    hide Packet, Poked, Moves, Polled;
  }

  lemma PacketsAppend(responses: seq<seq<Byte>>, response: seq<Byte>)
    ensures Packets(responses + [response]) == Packets(responses) + Packet(response)
  {
    hide Packet;
    assert (responses + [response])[..|responses|] == responses;
  }

  /** The limit is never passed: a poll leaves exactly the room it has not used, and stops for want of bytes, of room or
      of DMA only. */
  lemma PollRespectsLimit(c: Channel)
    ensures var d := Polled(c);
            && Room(d.inx, d.cmp) == Room(c.inx, c.cmp) - Moves(c)
            && (d.pending == [] || d.inx == d.cmp || !c.rxd)
            && (ReachesLimit(c) <==> c.rxd && c.pending != [] && c.inx != c.cmp && d.inx == d.cmp)
  {
    var n := Moves(c);
    Modulo(c.inx, n, 0);
    RoomLeft(c.inx, c.cmp, n);
  }

  lemma RoomLeft(inx: Byte, cmp: Byte, n: nat)
    requires n <= Room(inx, cmp)
    ensures Room((inx + n) % 0x100, cmp) == Room(inx, cmp) - n
    ensures Room(inx, cmp) == 0 <==> inx == cmp
    ensures Room(inx, cmp) == n <==> (inx + n) % 0x100 == cmp
  {
  }

  /** With DMA on a poll goes on until nothing is pending or the limit is met; without, it moves nothing. */
  lemma PollExhausts(c: Channel)
    ensures c.rxd ==> Polled(c).pending == [] || Polled(c).inx == c.cmp
    ensures !c.rxd ==> Polled(c) == c
    ensures Polled(c).rxd == c.rxd && Polled(c).cmp == c.cmp
  {
    RoomLeft(c.inx, c.cmp, Moves(c));
    assert c.pending[0..] == c.pending;
  }

  /** A packet goes through in one poll exactly when DMA is on and the limit leaves room for all of it. */
  lemma PacketCompletes(c: Channel)
    requires c.pending != []
    ensures Polled(c).pending == [] <==> c.rxd && |c.pending| <= Room(c.inx, c.cmp)
  {
  }
}

/** The firmware side of the channel, as the chip's registers and buffers. */
module ResponseChannel {
  import opened Words
  import opened ResponseHistory

  const RESULT_SIZE: nat := 32
  const LONGEST: nat := 20
  const TOC_REPEAT: nat := 3

  /** Bytes of a command before its checksum; unknown ones have none. */
  function CommandLength(command: Byte): int {
    var c := command % 16;
    if c == 1 || c == 5 || c == 10 then 2
    else if c == 4 then 12
    else if c == 8 then 4
    else if c <= 9 then 1
    else -1
  }

  /** The transmit side: memory index, the CPU's limit, the lines still to wait, and the two switches it obeys. */
  datatype Sender = Sender(inx: Byte, cmp: Byte, delay: nat, txd: bool, sectors: bool)

  predicate Ready(t: Sender, busy: bool) {
    t.txd && !t.sectors && !busy && t.inx != t.cmp && t.delay == 0
  }

  /** `n` bytes of the transmit page from `at`, round the end if need be. */
  function Taken(page: seq<Byte>, at: Byte, n: nat): (s: seq<Byte>)
    requires |page| == 0x100
    ensures |s| == n
  {
    if n == 0 then [] else Taken(page, at, n - 1) + [page[(at + n - 1) % 0x100]]
  }

  /** What a command answers: refusals for unknown and damaged ones, else whatever the firmware has to say. */
  function Response(page: seq<Byte>, inx: Byte, answer: seq<Byte>): seq<Byte>
    requires |page| == 0x100
  {
    var command := page[inx];
    var n := CommandLength(command);
    if n < 0 then [command / 16 * 16 + 5, 0x80]
    else if Sum(Taken(page, inx, n + 1)) % 0x100 != 0xff then [command / 16 * 16 + 5, 0x88]
    else if command % 16 == 0 then [command]
    else if command % 16 > 7 then []
    else answer
  }

  /** Transmit index after a command has been taken. */
  function NextCommand(page: seq<Byte>, inx: Byte): Byte
    requires |page| == 0x100
  {
    var n := CommandLength(page[inx]);
    if page[inx] == 0 then (inx + 1) % 0x100 else (inx + (if n < 0 then 1 else n) + 1) % 0x100
  }

  /** The drive as akiko_handler sees it. */
  datatype Drive = Drive(present: bool, initialized: bool, mediaChanged: bool, audioTimeout: int, playing: bool,
                         tocCounter: int)

  class Akiko {
    const result: array<Byte>
    /** The 256 bytes of memory at cdrx_address. */
    const page: array<Byte>
    var rxinx: Byte
    var rxcmp: Byte
    var rxd: bool
    var rxdmadone: bool
    var txdmadone: bool
    var receiveLength: int
    var receiveOffset: int
    var sender: Sender
    var commandActive: int
    var command: Byte
    var commandLength: int
    var checksumError: bool
    var unknownCommand: bool

    ghost predicate Valid()
      reads this`receiveLength, this`receiveOffset, this`commandActive
    {
      && result.Length == RESULT_SIZE && page.Length == 0x100 && result != page
      && 0 <= receiveLength <= RESULT_SIZE
      && (receiveLength > 0 ==> -1 <= receiveOffset < receiveLength)
      && (receiveOffset < 0 ==> receiveLength < RESULT_SIZE)
      && commandActive == 0
    }

    /** What is still to be delivered; the checksum is not in the buffer before the first byte goes out. */
    ghost function Pending(): seq<Byte>
      requires Valid()
      reads this`receiveLength, this`receiveOffset, this`commandActive, result
    {
      if receiveLength == 0 then []
      else if receiveOffset < 0 then Packet(result[..receiveLength])
      else result[receiveOffset..receiveLength]
    }

    ghost function State(): Channel
      requires Valid()
      reads this`receiveLength, this`receiveOffset, this`commandActive, this`rxinx, this`rxcmp, this`rxd, result
    {
      Channel(Pending(), rxinx, rxcmp, rxd)
    }

    /** akiko_reset */
    constructor ()
      ensures Valid() && fresh(result) && fresh(page) && State() == Channel([], 0, 0, false)
    {
      result, page := new Byte[RESULT_SIZE](_ => 0), new Byte[0x100](_ => 0);
      rxinx, rxcmp, rxd, rxdmadone, txdmadone := 0, 0, false, false, false;
      receiveLength, receiveOffset := 0, 0;
      sender := Sender(0, 0, 0, false, false);
      commandActive, command, commandLength, checksumError, unknownCommand := 0, 0, 0, false, false;
    }

    /** cdrom_start_return_data: 1 if the response is taken up, 0 while another is pending, -1 if there is none. */
    method StartReturnData(len: int) returns (r: int)
      requires Valid() && len < RESULT_SIZE
      modifies this`receiveLength, this`receiveOffset
      ensures Valid()
      ensures r == if old(receiveLength) > 0 then 0 else if len <= 0 then -1 else 1
      ensures r != 1 ==> receiveLength == old(receiveLength) && receiveOffset == old(receiveOffset)
      ensures r == 1 ==> receiveLength == len && receiveOffset == -1
    {
      if receiveLength > 0 {
        return 0;
      }
      if len <= 0 {
        return -1;
      }
      receiveLength := len;
      receiveOffset := -1;
      return 1;
    }

    /** cdrom_return_data */
    method ReturnData()
      requires Valid()
      modifies this`receiveLength, this`receiveOffset, this`rxinx, this`rxdmadone, result, page
      ensures Valid() && State() == Polled(old(State()))
      ensures page[..] == Poked(old(page[..]), old(rxinx), old(Pending())[..Moves(old(State()))])
      ensures rxdmadone == (old(rxdmadone) || ReachesLimit(old(State())))
    {
      hide Poked, Packet, Sum, Checksum, Polled, Moves, ReachesLimit;
      ghost var c := State();
      if receiveLength == 0 || !rxd || rxinx == rxcmp {
        NothingMoves(c, page[..]);
        return;
      }
      if receiveOffset < 0 {
        AppendChecksum();
      }
      SendPending();
    }

    method SendPending()
      requires Valid() && receiveLength > 0 && receiveOffset >= 0 && rxd && rxinx != rxcmp
      modifies this`receiveLength, this`receiveOffset, this`rxinx, this`rxdmadone, page
      ensures Valid() && State() == Polled(old(State()))
      ensures page[..] == Poked(old(page[..]), old(rxinx), old(Pending())[..Moves(old(State()))])
      ensures rxdmadone == (old(rxdmadone) || ReachesLimit(old(State())))
    {
      hide Poked, Packet;
      ghost var c := State();
      Transfer(c);
      RoomLeft(c.inx, c.cmp, Moves(c));
      RoomLeft(c.inx, c.cmp, 0);
      if rxinx == rxcmp {
        rxdmadone := true;
      }
      assert result[receiveOffset..receiveLength] == c.pending[Moves(c)..];
      if receiveOffset == receiveLength {
        receiveLength := 0;
      }
    }

    static lemma NothingMoves(c: Channel, page: seq<Byte>)
      requires |page| == 0x100 && (c.pending == [] || !c.rxd || c.inx == c.cmp)
      ensures Polled(c) == c && !ReachesLimit(c) && Poked(page, c.inx, c.pending[..Moves(c)]) == page
    {
      RoomLeft(c.inx, c.cmp, 0);
      assert c.pending[0..] == c.pending && c.pending[..0] == [];
    }

    method AppendChecksum()
      requires Valid() && receiveLength > 0 && receiveOffset < 0
      modifies this`receiveLength, this`receiveOffset, result
      ensures Valid() && receiveLength > 0 && receiveOffset == 0 && Pending() == old(Pending())
    {
      hide Packet, Sum;
      ghost var response := result[..receiveLength];
      var checksum: Byte := 0xff;
      SumNone();
      for i := 0 to receiveLength
        invariant receiveLength == old(receiveLength) && result[..receiveLength] == response
        invariant checksum == Checksum(response[..i])
      {
        SumOne(response, i);
        checksum := (checksum - result[i]) % 0x100;
      }
      assert response[..receiveLength] == response;
      result[receiveLength] := checksum;
      receiveLength := receiveLength + 1;
      receiveOffset := 0;
      PacketIs(response);
      assert result[..receiveLength] == response + [checksum];
    }

    static lemma PacketIs(response: seq<Byte>)
      ensures Packet(response) == response + [Checksum(response)]
    {
    }

    static lemma SumNone()
      ensures Checksum([]) == 0xff
    {
    }

    static lemma SumOne(response: seq<Byte>, i: nat)
      requires i < |response|
      ensures Checksum(response[..i + 1]) == (Checksum(response[..i]) - response[i]) % 0x100
    {
      assert response[..i + 1][..i] == response[..i];
      Modulo(0xff, 0 - Sum(response[..i]), 0 - response[i] as int);
    }

    /** Bytes go out until there are no more or the limit is met. */
    method Transfer(ghost c: Channel)
      requires Valid() && receiveLength > 0 && receiveOffset >= 0
      requires c == State() && rxd && rxinx != rxcmp
      modifies this`receiveOffset, this`rxinx, page
      ensures receiveOffset == old(receiveOffset) + Moves(c)
      ensures rxinx == (c.inx + Moves(c)) % 0x100
      ensures page[..] == Poked(old(page[..]), c.inx, c.pending[..Moves(c)])
    {
      hide Poked;
      ghost var n := 0;
      ghost var page0 := page[..];
      PokedNone(page0, c.inx);
      while receiveOffset < receiveLength && rxinx != rxcmp
        invariant n <= Moves(c)
        invariant receiveOffset == old(receiveOffset) + n && rxinx == (c.inx + n) % 0x100
        invariant page[..] == Poked(page0, c.inx, c.pending[..n])
        decreases receiveLength - receiveOffset
      {
        RoomLeft(c.inx, c.cmp, n);
        PokedOne(page0, c.inx, c.pending, n);
        Modulo(c.inx, n, 1);
        page[rxinx] := result[receiveOffset];
        rxinx := (rxinx + 1) % 0x100;
        receiveOffset := receiveOffset + 1;
        n := n + 1;
      }
      RoomLeft(c.inx, c.cmp, n);
    }

    static lemma PokedNone(page: seq<Byte>, at: Byte)
      requires |page| == 0x100
      ensures Poked(page, at, []) == page
    {
    }

    static lemma PokedOne(page: seq<Byte>, at: Byte, bytes: seq<Byte>, n: nat)
      requires |page| == 0x100 && n < |bytes|
      ensures Poked(page, at, bytes[..n + 1]) == Poked(page, at, bytes[..n])[(at + n) % 0x100 := bytes[n]]
    {
      assert bytes[..n + 1][..n] == bytes[..n];
    }

    /** A response of the firmware: into the buffer, then to the channel. The callers only come here with nothing
        pending. */
    method Respond(response: seq<Byte>)
      requires Valid() && receiveLength == 0 && |response| <= LONGEST
      modifies this`receiveLength, this`receiveOffset, result
      ensures Valid() && State() == Offered(old(State()), response)
    {
      for i := 0 to |response|
        invariant receiveLength == 0 && result[..i] == response[..i]
      {
        result[i] := response[i];
      }
      var r := StartReturnData(|response|);
      assert result[..|response|] == response;
    }

    /** cdrom_run_command: take the next command from memory, if the channel is free and the CPU has sent one. */
    method RunCommand(tx: seq<Byte>)
      requires Valid() && |tx| == 0x100
      modifies this`sender, this`commandActive, this`command, this`commandLength, this`checksumError, this`unknownCommand,
               this`txdmadone
      ensures txdmadone == (old(txdmadone) || commandActive == 1)
      ensures var t := old(sender);
              commandActive ==
              if t.txd && !t.sectors && receiveLength == 0 && t.inx != t.cmp && t.delay == 0 && tx[t.inx] != 0 then 1 else 0
      ensures commandActive == 1 ==>
        && sender == old(sender) && command == tx[sender.inx]
        && unknownCommand == (CommandLength(command) < 0)
        && commandLength == (if unknownCommand then 1 else CommandLength(command))
        && checksumError == (!unknownCommand && Sum(Taken(tx, sender.inx, commandLength + 1)) % 0x100 != 0xff)
      ensures commandActive == 0 ==>
        sender == if Ready(old(sender), receiveLength > 0) then old(sender).(inx := (old(sender).inx + 1) % 0x100) else old(sender)
    {
      hide Sum, Taken;
      if !sender.txd || sender.sectors || commandActive != 0 || receiveLength > 0 || sender.inx == sender.cmp || sender.delay > 0 {
        return;
      }
      command := tx[sender.inx];
      if command == 0 {
        sender := sender.(inx := (sender.inx + 1) % 0x100);
        return;
      }
      checksumError, unknownCommand := false, false;
      var n := CommandLength(command);
      if n < 0 {
        unknownCommand := true;
        commandActive := 1;
        commandLength := 1;
        txdmadone := true;
        return;
      }
      var checksum: Byte := 0;
      TakenNone(tx, sender.inx);
      for i := 0 to n + 1
        invariant sender == old(sender) && command == tx[sender.inx] && !checksumError && !unknownCommand
        invariant commandActive == 0 && txdmadone == old(txdmadone)
        invariant checksum == Sum(Taken(tx, sender.inx, i)) % 0x100
      {
        TakenOne(tx, sender.inx, i);
        Modulo(0, Sum(Taken(tx, sender.inx, i)), tx[(sender.inx + i) % 0x100]);
        checksum := (checksum + tx[(sender.inx + i) % 0x100]) % 0x100;
      }
      if checksum != 0xff {
        checksumError := true;
      }
      commandActive := 1;
      commandLength := n;
      txdmadone := true;
    }

    static lemma TakenNone(page: seq<Byte>, at: Byte)
      requires |page| == 0x100
      ensures Sum(Taken(page, at, 0)) == 0
    {
    }

    static lemma TakenOne(page: seq<Byte>, at: Byte, n: nat)
      requires |page| == 0x100
      ensures Sum(Taken(page, at, n + 1)) == Sum(Taken(page, at, n)) + page[(at + n) % 0x100]
    {
      assert Taken(page, at, n + 1)[..n] == Taken(page, at, n);
    }

    method ClearResult()
      requires Valid() && receiveLength == 0
      modifies result
      ensures State() == old(State())
    {
      for i := 0 to RESULT_SIZE
      {
        result[i] := 0;
      }
    }

    /** cdrom_run_command_run; `answer` is what the command's own code has to say. */
    method RunCommandRun(answer: seq<Byte>)
      requires Valid() && receiveLength == 0 && |answer| <= LONGEST && 0 <= commandLength
      modifies this`sender, this`receiveLength, this`receiveOffset, result
      ensures Valid()
      ensures sender == old(sender).(inx := (old(sender).inx + commandLength + 1) % 0x100)
      ensures State() == Offered(old(State()),
                if unknownCommand then [command / 16 * 16 + 5, if checksumError then 0x88 else 0x80]
                else if checksumError then [command / 16 * 16 + 5, 0x88]
                else if command % 16 == 0 then [command]
                else if command % 16 > 7 then []
                else answer)
    {
      sender := sender.(inx := (sender.inx + commandLength + 1) % 0x100);
      ClearResult();
      if checksumError || unknownCommand {
        Respond([command / 16 * 16 + 5, if checksumError then 0x88 else 0x80]);
        return;
      }
      if command % 16 == 0 {
        Respond([command]);
      } else if command % 16 <= 7 {
        Respond(answer);
      }
    }

    /** akiko_internal: deliver, then take and answer a command if that left the channel free. */
    method Internal(tx: seq<Byte>, answer: seq<Byte>)
      requires Valid() && |tx| == 0x100 && |answer| <= LONGEST
      modifies this`receiveLength, this`receiveOffset, this`rxinx, this`rxdmadone, this`sender, this`commandActive,
               this`command, this`commandLength, this`checksumError, this`unknownCommand, this`txdmadone, result, page
      ensures Valid()
      ensures page[..] == Poked(old(page[..]), old(rxinx), old(Pending())[..Moves(old(State()))])
      ensures rxdmadone == (old(rxdmadone) || ReachesLimit(old(State())))
      ensures var free := Polled(old(State()));
              var t := old(sender);
              && (Ready(t, free.pending != []) ==>
                    && sender == t.(inx := NextCommand(tx, t.inx))
                    && State() == if tx[t.inx] == 0 then free else Offered(free, Response(tx, t.inx, answer)))
              && (!Ready(t, free.pending != []) ==> sender == t && State() == free)
              && txdmadone == (old(txdmadone) || (Ready(t, free.pending != []) && tx[t.inx] != 0))
    {
      hide Poked, Packet, Sum, Taken, Moves, Polled, Ready, NextCommand, Response, Offered, ReachesLimit;
      ReturnData();
      TakeCommand(tx, answer);
    }

    method TakeCommand(tx: seq<Byte>, answer: seq<Byte>)
      requires Valid() && |tx| == 0x100 && |answer| <= LONGEST
      modifies this`receiveLength, this`receiveOffset, this`sender, this`commandActive,
               this`command, this`commandLength, this`checksumError, this`unknownCommand, this`txdmadone, result
      ensures Valid()
      ensures var t, c := old(sender), old(State());
              && (Ready(t, c.pending != []) ==>
                    && sender == t.(inx := NextCommand(tx, t.inx))
                    && State() == if tx[t.inx] == 0 then c else Offered(c, Response(tx, t.inx, answer)))
              && (!Ready(t, c.pending != []) ==> sender == t && State() == c)
              && txdmadone == (old(txdmadone) || (Ready(t, c.pending != []) && tx[t.inx] != 0))
    {
      hide Packet, Sum, Taken, Offered;
      assert receiveLength > 0 <==> Pending() != [];
      RunCommand(tx);
      if commandActive > 0 {
        commandActive := commandActive - 1;
        if commandActive == 0 {
          RunCommandRun(answer);
        }
      }
    }

    /** akiko_handler: what the drive reports of its own accord. `toc` is the next entry of the table of
        contents, which has `points` entries and goes out three times over. */
    method Handler(d: Drive, framesync: bool, media: Byte, toc: seq<Byte>, points: nat) returns (d1: Drive)
      requires Valid() && |toc| <= LONGEST
      modifies this`receiveLength, this`receiveOffset, result
      ensures Valid() && State() == Offered(old(State()), Report(d, framesync, media, toc))
      ensures d1 == if old(State()).pending != [] then d else AfterReport(d, framesync, points)
    {
      hide Packet, Sum;
      d1 := d;
      if !d1.present || !d1.initialized || receiveLength > 0 {
        return;
      }
      if d1.mediaChanged {
        var r := StartReturnData(0);
        if r < 0 {
          Respond([0x0a, media]);
          d1 := d1.(mediaChanged := false);
        }
        return;
      }
      if d1.audioTimeout > 1 {
        d1 := d1.(audioTimeout := d1.audioTimeout - 1);
      }
      if d1.audioTimeout == 1 {
        d1 := d1.(playing := true, audioTimeout := 0);
      }
      if d1.audioTimeout == -1 {
        d1 := if d1.playing then d1.(playing := false, audioTimeout := -2) else d1.(audioTimeout := 0);
      }
      if d1.audioTimeout == -2 {
        Respond([4, 0]);
        d1 := d1.(audioTimeout := 0);
      }
      if d1.audioTimeout == -3 {
        Respond([4, 0x80]);
        d1 := d1.(audioTimeout := 0);
      }
      if d1.tocCounter >= 0 && commandActive == 0 && framesync {
        var r := StartReturnData(-1);
        if r != 0 {
          Respond(toc);
          if points > 0 {
            d1 := d1.(tocCounter := if (d1.tocCounter + 1) / TOC_REPEAT >= points then -1 else d1.tocCounter + 1);
          }
        }
      }
    }

    /** Writes to the limit and flag registers. */
    method SetLimit(v: Byte)
      requires Valid()
      modifies this`rxcmp, this`rxdmadone
      ensures Valid() && State() == old(State()).(cmp := v) && !rxdmadone
    {
      rxdmadone := false;
      rxcmp := v;
    }

    method SetFlags(receive: bool, send: bool, sectors: bool)
      requires Valid()
      modifies this`rxd, this`sender
      ensures Valid() && State() == old(State()).(rxd := receive)
      ensures sender == old(sender).(txd := send, sectors := sectors)
    {
      rxd := receive;
      sender := sender.(txd := send, sectors := sectors);
    }
  }

  /** The report a drive makes: a changed disk first, then the end or failure of play, then the table of contents. */
  function Report(d: Drive, framesync: bool, media: Byte, toc: seq<Byte>): seq<Byte> {
    if !d.present || !d.initialized then []
    else if d.mediaChanged then [0x0a, media]
    else if d.audioTimeout == -2 || (d.audioTimeout == -1 && d.playing) then [4, 0]
    else if d.audioTimeout == -3 then [4, 0x80]
    else if d.tocCounter >= 0 && framesync then toc
    else []
  }

  /** The drive afterwards: a play time counted down to 1 starts the sound, every report about it is made once, and the
      table of contents moves on unless something else went out, until it has gone out three times over. */
  function AfterReport(d: Drive, framesync: bool, points: nat): Drive {
    if !d.present || !d.initialized then d
    else if d.mediaChanged then d.(mediaChanged := false)
    else
      var t := if d.audioTimeout > 1 then d.audioTimeout - 1 else d.audioTimeout;
      var told := t == -3 || t == -2 || (t == -1 && d.playing);
      var next := if (d.tocCounter + 1) / TOC_REPEAT >= points then -1 else d.tocCounter + 1;
      d.(playing := t == 1 || (t != -1 && d.playing),
         audioTimeout := if -3 <= t <= 1 then 0 else t,
         tocCounter := if d.tocCounter >= 0 && framesync && !told && points > 0 then next else d.tocCounter)
  }

  // ----- commands -----

  /** The firmware's table. */
  lemma CommandTable(command: Byte)
    ensures CommandLength(command) == [1, 2, 1, 1, 12, 2, 1, 1, 4, 1, 2, -1, -1, -1, -1, -1][command % 16]
  {
  }

  /** A command as the CPU sends it: as many bytes as the firmware knows for it, and a checksum that makes them sum to 0xff. */
  ghost predicate WellFormed(cmd: seq<Byte>) {
    cmd != [] && cmd[0] != 0 && |cmd| == CommandLength(cmd[0])
  }

  /** `bytes` lie on the transmit page from `at`, round its end if need be. */
  ghost predicate Lies(page: seq<Byte>, at: Byte, bytes: seq<Byte>)
    requires |page| == 0x100
  {
    forall k: nat :: k < |bytes| ==> page[(at + k) % 0x100] == bytes[k]
  }

  lemma {:induction false} TakenLies(page: seq<Byte>, at: Byte, bytes: seq<Byte>)
    requires |page| == 0x100 && Lies(page, at, bytes)
    ensures Taken(page, at, |bytes|) == bytes
  {
    if bytes != [] {
      var n := |bytes| - 1;
      TakenLies(page, at, bytes[..n]);
      assert bytes == bytes[..n] + [bytes[n]];
    }
  }

  /** Such a command is answered by what the firmware has to say about it, and the index moves past it and its checksum. */
  lemma CommandTaken(page: seq<Byte>, inx: Byte, cmd: seq<Byte>, answer: seq<Byte>)
    requires |page| == 0x100 && WellFormed(cmd) && Lies(page, inx, Packet(cmd))
    ensures Response(page, inx, answer) == (if cmd[0] % 16 == 0 then [cmd[0]] else if cmd[0] % 16 > 7 then [] else answer)
    ensures NextCommand(page, inx) == (inx + |cmd| + 1) % 0x100
  {
    hide Taken, Sum;
    var n := |cmd|;
    assert page[(inx + 0) % 0x100] == Packet(cmd)[0] == cmd[0];
    TakenLies(page, inx, Packet(cmd));
    PacketSum(cmd);
  }

  lemma {:induction false} SumAppend(a: seq<Byte>, b: seq<Byte>)
    ensures Sum(a + b) == Sum(a) + Sum(b)
  {
    if b == [] {
      assert a + b == a;
    } else {
      var n := |b| - 1;
      assert (a + b)[..|a + b| - 1] == a + b[..n];
      SumAppend(a, b[..n]);
    }
  }

  lemma SumChanged(s: seq<Byte>, k: nat, v: Byte)
    requires k < |s|
    ensures Sum(s[k := v]) == Sum(s) - s[k] + v
  {
    assert s == s[..k] + ([s[k]] + s[k + 1..]);
    assert s[k := v] == s[..k] + ([v] + s[k + 1..]);
    SumAppend(s[..k], [s[k]] + s[k + 1..]);
    SumAppend(s[..k], [v] + s[k + 1..]);
    SumAppend([s[k]], s[k + 1..]);
    SumAppend([v], s[k + 1..]);
    SumOne(s[k]);
    SumOne(v);
  }

  lemma SumOne(v: Byte)
    ensures Sum([v]) == v
  {
    assert [v][..0] == [];
  }

  /** A command damaged in any one byte after the first, its checksum included, is refused: the same command group, low
      half 5, and the checksum error. So is a command of unknown length, with the other error. */
  lemma DamageRefused(page: seq<Byte>, inx: Byte, cmd: seq<Byte>, answer: seq<Byte>, k: nat, v: Byte)
    requires |page| == 0x100 && WellFormed(cmd) && 0 < k <= |cmd| && v != Packet(cmd)[k]
    requires Lies(page, inx, Packet(cmd)[k := v])
    ensures var r := Response(page, inx, answer);
            |r| == 2 && r[0] / 16 == cmd[0] / 16 && r[0] % 16 == 5 && r[1] == 0x88
    ensures NextCommand(page, inx) == (inx + |cmd| + 1) % 0x100
  {
    hide Taken, Sum;
    var bytes := Packet(cmd)[k := v];
    assert page[(inx + 0) % 0x100] == bytes[0] == cmd[0];
    TakenLies(page, inx, bytes);
    PacketSum(cmd);
    SumChanged(Packet(cmd), k, v);
    OtherSum(Sum(Packet(cmd)), Packet(cmd)[k], v);
  }

  lemma OtherSum(sum: nat, old_: Byte, v: Byte)
    requires sum % 0x100 == 0xff && v != old_ && sum >= old_
    ensures (sum - old_ + v) % 0x100 != 0xff
  {
  }

  lemma UnknownRefused(page: seq<Byte>, inx: Byte, answer: seq<Byte>)
    requires |page| == 0x100 && page[inx] % 16 >= 11
    ensures var r := Response(page, inx, answer);
            |r| == 2 && r[0] / 16 == page[inx] / 16 && r[0] % 16 == 5 && r[1] == 0x80
    ensures NextCommand(page, inx) == (inx + 2) % 0x100
  {
  }

  /** A zero byte is no command: it is skipped and not answered. */
  lemma ZeroSkipped(page: seq<Byte>, inx: Byte)
    requires |page| == 0x100 && page[inx] == 0
    ensures NextCommand(page, inx) == (inx + 1) % 0x100
  {
  }

  // ----- reports -----

  /** The drive after `n` frames on which the channel was free. */
  function Frames(d: Drive, points: nat, n: nat): Drive {
    if n == 0 then d else AfterReport(Frames(d, points, n - 1), true, points)
  }

  /** From the start of the table of contents on, with nothing else to report, frame number k sends entry k / 3: every entry
      three times, in order; after the last one nothing more is sent. */
  lemma {:induction false} TableThrice(d: Drive, points: nat, k: nat, media: Byte, toc: seq<Byte>)
    requires d.present && d.initialized && !d.mediaChanged && d.audioTimeout == 0 && d.tocCounter == 0 && points > 0
    requires k <= 3 * points
    ensures var f := Frames(d, points, k);
            && f == d.(tocCounter := if k < 3 * points then k else -1)
            && Report(f, true, media, toc) == (if k < 3 * points then toc else [])
            && (k < 3 * points ==> f.tocCounter / 3 == k / 3 < points)
  {
    if k > 0 {
      TableThrice(d, points, k - 1, media, toc);
    }
  }

  /** Reports still to be made, apart from the table. */
  function Owed(d: Drive): nat {
    (if d.mediaChanged then 1 else 0)
    + if d.audioTimeout == -3 || d.audioTimeout == -2 || (d.audioTimeout == -1 && d.playing) then 1 else 0
  }

  /** Each of them is made once: a changed disk first, by its own code; then the end of play, or its failure, with the error
      code. A drive that is absent or not ready reports nothing, and the table waits for the start of a frame. */
  lemma ReportsOnce(d: Drive, points: nat, media: Byte, toc: seq<Byte>)
    ensures AfterReport(d, false, points).tocCounter == d.tocCounter
    ensures var (e, r) := (AfterReport(d, false, points), Report(d, false, media, toc));
            if d.present && d.initialized && Owed(d) > 0 then
              && Owed(e) == Owed(d) - 1
              && r == (if d.mediaChanged then [10, media] else if d.audioTimeout == -3 then [4, 0x80] else [4, 0])
              && (!d.mediaChanged && d.audioTimeout == -1 ==> !e.playing)
            else r == [] && Owed(e) == Owed(d)
  {
  }

  /** A drive told to play after `n` lines plays then, not before, and it counts one line at a time. */
  lemma {:induction false} PlayStarts(d: Drive, n: nat)
    requires d.present && d.initialized && !d.mediaChanged && !d.playing && n >= 2 && d.audioTimeout == n
    ensures forall k: nat :: k < n ==> Waiting(d, k).playing == (k == n - 1)
    ensures Waiting(d, n - 1).audioTimeout == 0
  {
    forall k: nat | k < n
      ensures Waiting(d, k).playing == (k == n - 1)
    {
      Counting(d, n, k);
    }
    Counting(d, n, n - 1);
  }

  /** `k` lines on, none of them the start of a frame. */
  function Waiting(d: Drive, k: nat): Drive {
    if k == 0 then d else AfterReport(Waiting(d, k - 1), false, 0)
  }

  lemma {:induction false} Counting(d: Drive, n: nat, k: nat)
    requires d.present && d.initialized && !d.mediaChanged && !d.playing && n >= 2 && d.audioTimeout == n && k < n
    ensures Waiting(d, k) == d.(audioTimeout := if k < n - 1 then n - k else 0, playing := k == n - 1)
  {
    if k > 0 {
      Counting(d, n, k - 1);
    }
  }
}
