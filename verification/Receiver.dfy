/**
 A receiver written from section 5 of the XMODEM/YMODEM Protocol Reference, one octet at a
 time: it checks block kind, number, complement and CRC, acknowledges, and cuts the file to
 the length announced in block 0.
 */
module Receiver {
  import opened Bytes
  import opened Decimal
  import opened Crc16
  import opened Packets

  datatype Header = Header(name: seq<byte>, size: nat)

  datatype Stage =
    | Ready                // waiting for block 0
    | Receiving(next: byte) // waiting for the data block with this number, or EOT
    | Between              // EOT seen, waiting for the next block 0
    | Closed

  datatype State = State(stage: Stage, inbuf: seq<byte>, header: Option<Header>, file: seq<byte>, out: seq<byte>)

  /** The receiver opens the conversation by asking for CRC mode, as often as it likes. */
  function Begin(calls: nat): State {
    State(Ready, [], None, [], Repeat(CRC16, calls))
  }

  // ------------------------------------------------------------------ block 0

  /** Name, NUL, decimal size; a block without a NUL or without digits is not accepted. */
  function ParseHeader(payload: seq<byte>): Option<Header> {
    var name := CString(payload);
    if |name| == |payload| then None
    else
      var digits := DigitRun(payload[|name| + 1..]);
      if digits == [] then None else Some(Header(name, Value(digits)))
  }

  // ------------------------------------------------------------------ the receiver

  /** Length of the block a first octet announces; 0 for anything else. */
  function BlockLength(first: byte): nat {
    if first == SOH then PACKET_SIZE + 5 else if first == STX then PACKET_1K_SIZE + 5 else if first == EOT then 1 else 0
  }

  predicate Intact(block: seq<byte>)
    requires |block| >= 5
  {
    block[2] == !block[1] && TrailerMatches(block[PACKET_HEADER..])
  }

  function Reply(r: State, octets: seq<byte>): State {
    r.(out := r.out + octets)
  }

  function Accept(r: State, block: seq<byte>): State
    requires |block| >= 1 && (block[0] == EOT || |block| >= PACKET_SIZE + 5)
  {
    if block[0] == EOT then
      if r.stage.Receiving? then Reply(r.(stage := Between), [ACK, CRC16]) else Reply(r, [NAK])
    else if !Intact(block) then Reply(r, [NAK])
    else AcceptBlock(r, block[1], block[PACKET_HEADER..|block| - PACKET_TRAILER])
  }

  function AcceptBlock(r: State, number: byte, payload: seq<byte>): State
    requires payload != []
  {
    match r.stage
    case Ready =>
      if number != 0 then Reply(r, [NAK])
      else if payload[0] == 0 then Reply(r.(stage := Closed), [ACK])
      else (match ParseHeader(payload)
            case None => Reply(r, [NAK])
            case Some(h) => Reply(r.(stage := Receiving(1), header := Some(h)), [ACK, CRC16]))
    case Receiving(k) =>
      if number == k then Reply(r.(stage := Receiving(k + 1), file := r.file + payload), [ACK])
      else Reply(r, [NAK])
    case Between =>
      if number == 0 && payload[0] == 0 then Reply(r.(stage := Closed), [ACK]) else Reply(r, [NAK])
    case Closed => Reply(r, [NAK])
  }

  function Feed(r: State, b: byte): State {
    var inbuf := r.inbuf + [b];
    var n := BlockLength(inbuf[0]);
    if n == 0 then r.(inbuf := [])
    else if |inbuf| < n then r.(inbuf := inbuf)
    else if |inbuf| == n then Accept(r.(inbuf := []), inbuf)
    else r
  }

  function Listen(r: State, octets: seq<byte>): State {
    if octets == [] then r else Feed(Listen(r, octets[..|octets| - 1]), octets[|octets| - 1])
  }

  /** What the receiver has to show once the batch is closed. */
  function Delivered(r: State): Option<(seq<byte>, seq<byte>)> {
    if r.stage.Closed? && r.header.Some? then
      var n := if r.header.value.size < |r.file| then r.header.value.size else |r.file|;
      Some((r.header.value.name, r.file[..n]))
    else None
  }

  /** The number the receiver waits for after n blocks: it starts at 1 and is counted up in an octet. */
  function Expected(n: nat): byte {
    if n == 0 then 1 else Expected(n - 1) + 1
  }

  lemma CountsOn(b: byte, m: nat)
    requires b as int == m % 256
    ensures (b + 1) as int == (m + 1) % 256
  {
    NextOctet(b);
    ModuloNext(m);
  }

  lemma ModuloNext(m: nat)
    ensures (m % 256 + 1) % 256 == (m + 1) % 256
  {
  }

  lemma {:induction false} ExpectedValue(n: nat)
    ensures Expected(n) as int == (n + 1) % 256
    decreases n
  {
    if n == 0 {
      OctetOf(1);
    } else {
      ExpectedValue(n - 1);
      CountsOn(Expected(n - 1), n);
    }
  }

  /** It is the one the sender puts on block n + 1. */
  lemma ExpectedIsSent(n: nat)
    ensures Expected(n) == WireNumber(n + 1) && Expected(n) as int == (n + 1) % 256
  {
    hide *;
    NumberOnWire(n + 1);
    ExpectedValue(n);
    SameOctet(Expected(n), WireNumber(n + 1));
  }

  lemma {:induction false} ListenAppend(r: State, a: seq<byte>, b: seq<byte>)
    ensures Listen(r, a + b) == Listen(Listen(r, a), b)
    decreases |b|
  {
    if b == [] {
      assert a + b == a;
    } else {
      ListenAppend(r, a, b[..|b| - 1]);
      LastOfSum(a, b);
      hide Feed;
    }
  }

  lemma FeedKeepsReplies(r: State, b: byte)
    ensures r.out <= Feed(r, b).out
  {
    hide ParseHeader, Intact;
  }

  /** Replies are only ever added. */
  lemma {:induction false} RepliesGrow(r: State, octets: seq<byte>)
    ensures r.out <= Listen(r, octets).out
    decreases |octets|
  {
    if octets == [] {
    } else {
      RepliesGrow(r, octets[..|octets| - 1]);
      FeedKeepsReplies(Listen(r, octets[..|octets| - 1]), octets[|octets| - 1]);
      hide Feed;
    }
  }

  lemma OneMoreStored(r: State, block: seq<byte>, k: nat)
    requires r.inbuf == [] && block != [] && BlockLength(block[0]) == |block| && k + 1 < |block|
    ensures Feed(r.(inbuf := block[..k]), block[k]) == r.(inbuf := block[..k + 1])
  {
    hide Accept, BlockLength;
    assert block[..k] + [block[k]] == block[..k + 1];
  }

  lemma ListenSnoc(r: State, octets: seq<byte>, k: nat)
    requires k < |octets|
    ensures Listen(r, octets[..k + 1]) == Feed(Listen(r, octets[..k]), octets[k])
  {
    hide Feed;
    assert octets[..k + 1][..k] == octets[..k];
  }

  /** Until a block is complete the receiver only stores it. */
  lemma {:induction false} PartialBlock(r: State, block: seq<byte>, k: nat)
    requires r.inbuf == [] && block != [] && BlockLength(block[0]) == |block| && k < |block|
    ensures Listen(r, block[..k]) == r.(inbuf := block[..k])
    decreases k
  {
    if k == 0 {
      assert block[..0] == [];
    } else {
      hide *;
      PartialBlock(r, block, k - 1);
      ListenSnoc(r, block, k - 1);
      OneMoreStored(r, block, k - 1);
      assert k - 1 + 1 == k;
    }
  }

  lemma WholeBlock(r: State, block: seq<byte>)
    requires r.inbuf == [] && block != [] && BlockLength(block[0]) == |block|
    ensures Listen(r, block) == Accept(r, block)
  {
    var n := |block| - 1;
    PartialBlock(r, block, n);
    assert block[..n] + [block[n]] == block;
    hide Accept;
  }

  lemma FrameParts(kind: byte, number: byte, payload: seq<byte>, trailer: seq<byte>)
    requires |trailer| == 2
    ensures var f := Head(kind, number) + payload + trailer;
            && f[0] == kind && f[1] == number && f[2] == !number
            && f[PACKET_HEADER..] == payload + trailer && f[PACKET_HEADER..|f| - PACKET_TRAILER] == payload
  {
  }

  /** A frame built by the sender is taken as its number and payload. */
  lemma FrameArrives(r: State, kind: byte, number: byte, payload: seq<byte>)
    requires r.inbuf == []
    requires (kind == SOH && |payload| == PACKET_SIZE) || (kind == STX && |payload| == PACKET_1K_SIZE)
    ensures Listen(r, Frame(kind, number, payload)) == AcceptBlock(r, number, payload)
  {
    hide TrailerMatches, AcceptBlock, Trailer, Head, Listen;
    var f := Frame(kind, number, payload);
    FrameParts(kind, number, payload, Trailer(payload));
    hide Frame;
    SentBlockMatches(payload);
    WholeBlock(r, f);
  }

  // ------------------------------------------------------------------ reading back block 0

  /** The whole of block 0 fits its 128 octets, and there is a name. */
  predicate Fits(name: seq<byte>, size: nat) {
    name != [] && |name| + 1 + |Numeral(size)| <= PACKET_SIZE
  }

  /** What a receiver makes of block 0: nothing when the name is empty or the block is unreadable. */
  function HeaderReading(name: seq<byte>, size: nat): Option<Header> {
    var payload := HeaderPayload(name, size);
    if payload[0] == 0 then None else ParseHeader(payload)
  }

  lemma CutPayload(name: seq<byte>, size: nat)
    requires |name| < PACKET_SIZE && forall i :: 0 <= i < |name| ==> name[i] != 0
    ensures var room := PACKET_SIZE - |name| - 1;
            var k := if |Numeral(size)| <= room then |Numeral(size)| else room;
            && CString(HeaderPayload(name, size)) == name && (name != [] ==> HeaderPayload(name, size)[0] == name[0])
            && DigitRun(HeaderPayload(name, size)[|name| + 1..]) == Numeral(size)[..k]
  {
    var payload, numeral := HeaderPayload(name, size), Numeral(size);
    var room := PACKET_SIZE - |name| - 1;
    var k := if |numeral| <= room then |numeral| else room;
    CutAt(name, numeral, k);
    hide Numeral, HeaderPayload;
    CStringIs(payload, |name|);
    assert payload[..|name|] == name;
    var rest := payload[|name| + 1..];
    assert rest[..k] == numeral[..k];
    DigitRunIs(rest, k);
  }

  lemma CutAt(name: seq<byte>, numeral: seq<byte>, k: nat)
    requires |name| < PACKET_SIZE
    requires k == if |numeral| <= PACKET_SIZE - |name| - 1 then |numeral| else PACKET_SIZE - |name| - 1
    ensures var payload := (name + [0] + numeral + Repeat(0, PACKET_SIZE))[..PACKET_SIZE];
            && (forall i :: 0 <= i < |name| ==> payload[i] == name[i]) && payload[|name|] == 0
            && (forall i :: 0 <= i < k ==> payload[|name| + 1..][i] == numeral[i])
            && (|name| + 1 + k < PACKET_SIZE ==> payload[|name| + 1..][k] == 0)
  {
  }

  lemma LongName(name: seq<byte>, size: nat)
    requires |name| >= PACKET_SIZE && forall i :: 0 <= i < |name| ==> name[i] != 0
    ensures HeaderReading(name, size) == None
  {
    var payload := HeaderPayload(name, size);
    assert payload == name[..PACKET_SIZE];
    CStringIs(payload, PACKET_SIZE);
  }

  /**
   Block 0 round trip: a receiver reads back name and size exactly when they fit; when it
   reads anything else, the size it reads is too small.
   */
  lemma HeaderRoundTrip(name: seq<byte>, size: nat)
    requires forall i :: 0 <= i < |name| ==> name[i] != 0
    ensures HeaderReading(name, size) == Some(Header(name, size)) <==> Fits(name, size)
    ensures HeaderReading(name, size).Some? ==>
              name != [] && HeaderReading(name, size).value.name == name && HeaderReading(name, size).value.size <= size
    ensures HeaderReading(name, size).Some? && !Fits(name, size) ==> HeaderReading(name, size).value.size < size
  {
    if |name| >= PACKET_SIZE {
      LongName(name, size);
    } else if name == [] {
      assert HeaderPayload(name, size)[0] == 0;
    } else {
      ShortName(name, size);
    }
  }

  /** Block 0 can be read exactly when there is a name and room for at least one digit. */
  lemma ReadableIff(name: seq<byte>, size: nat)
    requires forall i :: 0 <= i < |name| ==> name[i] != 0
    ensures HeaderReading(name, size).Some? <==> name != [] && |name| + 1 < PACKET_SIZE
  {
    if |name| >= PACKET_SIZE {
      LongName(name, size);
    } else if name != [] {
      CutPayload(name, size);
      var room := PACKET_SIZE - |name| - 1;
      var k := if |Numeral(size)| <= room then |Numeral(size)| else room;
      assert |Numeral(size)[..k]| == k;
      hide HeaderPayload, Numeral, CString, DigitRun, IsDigit;
    } else {
      assert HeaderPayload(name, size)[0] == 0;
    }
  }

  lemma ShortName(name: seq<byte>, size: nat)
    requires 0 < |name| < PACKET_SIZE && forall i :: 0 <= i < |name| ==> name[i] != 0
    ensures HeaderReading(name, size) == Some(Header(name, size)) <==> Fits(name, size)
    ensures HeaderReading(name, size).Some? ==>
              HeaderReading(name, size).value.name == name && HeaderReading(name, size).value.size <= size
    ensures HeaderReading(name, size).Some? && !Fits(name, size) ==> HeaderReading(name, size).value.size < size
  {
    var numeral := Numeral(size);
    CutPayload(name, size);
    NumeralValue(size);
    assert HeaderReading(name, size) == ParseHeader(HeaderPayload(name, size));
    hide HeaderReading, HeaderPayload, Numeral, CString, DigitRun, IsDigit;
    var room := PACKET_SIZE - |name| - 1;
    if |numeral| <= room {
      assert numeral[..|numeral|] == numeral;
    } else if room > 0 {
      if size > 0 {
        NoLeadingZero(size);
        PrefixIsSmaller(numeral, room);
      }
    }
  }
}
