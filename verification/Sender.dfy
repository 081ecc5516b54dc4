/**
 The sending side of modem/ymodem.cpp: the polling loops, and Ymodem_Transmit proved to
 carry out a fixed list of sends and waits, stopping at the first wait that fails.
 */
module Sender {
  import opened Arithmetic
  import opened Bytes
  import opened SerialPort
  import opened Crc16
  import opened Packets

  const NAK_TIMEOUT := 500
  const WAIT_TRIES := 20
  const SEND_TRIES := 25

  // ------------------------------------------------------------------ what one call may leave in the log

  predicate WritesOnly(seg: Log) {
    forall i :: 0 <= i < |seg| ==> seg[i].Tx?
  }

  predicate ReadsOnly(seg: Log) {
    forall i :: 0 <= i < |seg| ==> !seg[i].Tx?
  }

  predicate Sends(seg: Log, data: seq<byte>) {
    WritesOnly(seg) && Wire(seg) == data
  }

  function Stalled(n: nat): (seg: Log)
    ensures |seg| == n
  {
    seq(n, i => Tx([]))
  }

  function Silence(n: nat): (seg: Log)
    ensures |seg| == n
    ensures forall i :: 0 <= i < n ==> seg[i] == Idle
  {
    seq(n, i => Idle)
  }

  /** Send_Byte got its octet out within 25 attempts. */
  predicate SendsOne(seg: Log, b: byte) {
    1 <= |seg| <= SEND_TRIES && seg == Stalled(|seg| - 1) + [Tx([b])]
  }

  /** Send_Byte gave up: nothing was sent, and its caller is not told. */
  predicate Drops(seg: Log) {
    seg == Stalled(SEND_TRIES)
  }

  /** Attempts used up (an octet, or 500 silent reads, each), and silent reads since the last one. */
  function Tally(seg: Log): (nat, nat) {
    if seg == [] then (0, 0)
    else
      var (used, idle) := Tally(seg[..|seg| - 1]);
      if seg[|seg| - 1].Rx? || idle + 1 == NAK_TIMEOUT then (used + 1, 0) else (used, idle + 1)
  }

  predicate NeverHears(seg: Log, ch: byte) {
    forall i :: 0 <= i < |seg| ==> seg[i] != Rx(ch)
  }

  /** The awaited octet came, and nothing was read after it. */
  predicate Hears(seg: Log, ch: byte) {
    && ReadsOnly(seg) && |seg| > 0
    && seg[|seg| - 1] == Rx(ch) && NeverHears(seg[..|seg| - 1], ch)
    && Tally(seg).0 <= WAIT_TRIES
  }

  /** All twenty attempts went by without it. */
  predicate GivesUp(seg: Log, ch: byte) {
    ReadsOnly(seg) && NeverHears(seg, ch) && Tally(seg) == (WAIT_TRIES, 0)
  }

  lemma TallySnoc(seg: Log, e: Event)
    ensures var (used, idle) := Tally(seg);
            Tally(seg + [e]) == if e.Rx? || idle + 1 == NAK_TIMEOUT then (used + 1, 0) else (used, idle + 1)
  {
    assert (seg + [e])[..|seg|] == seg;
  }

  lemma {:induction false} TallySilence(seg: Log, n: nat)
    requires Tally(seg).1 == 0 && n <= NAK_TIMEOUT
    ensures Tally(seg + Silence(n)) == if n < NAK_TIMEOUT then (Tally(seg).0, n) else (Tally(seg).0 + 1, 0)
    decreases n
  {
    if n == 0 {
      assert seg + Silence(0) == seg;
    } else {
      TallySilence(seg, n - 1);
      TallySnoc(seg + Silence(n - 1), Idle);
      assert seg + Silence(n) == (seg + Silence(n - 1)) + [Idle];
    }
  }

  lemma Remainders(n: nat)
    requires n > 0
    ensures if (n - 1) % 500 + 1 == 500 then n / 500 == (n - 1) / 500 + 1 && n % 500 == 0
            else n / 500 == (n - 1) / 500 && n % 500 == (n - 1) % 500 + 1
  {
  }

  lemma SilenceSnoc(n: nat)
    ensures Silence(n + 1) == Silence(n) + [Idle] && Silence(0) == []
  {
  }

  lemma Timeout()
    ensures NAK_TIMEOUT == 500 && Tally([]) == (0, 0)
  {
  }

  lemma {:induction false} TallyOfSilence(n: nat)
    ensures Tally(Silence(n)) == (n / 500, n % 500)
    decreases n
  {
    hide *;
    Timeout();
    if n == 0 {
      SilenceSnoc(0);
    } else {
      TallyOfSilence(n - 1);
      TallySnoc(Silence(n - 1), Idle);
      SilenceSnoc(n - 1);
      Remainders(n);
      assert n - 1 + 1 == n;
    }
  }

  /** A reply is heard if it comes after fewer than ten thousand silent reads, and these many are what a wait is given. */
  lemma SlowReplyIsHeardIff(n: nat, ch: byte)
    ensures Hears(Silence(n) + [Rx(ch)], ch) <==> n < 10_000
    ensures GivesUp(Silence(n), ch) <==> n == 10_000
  {
    TallyOfSilence(n);
    TallySnoc(Silence(n), Rx(ch));
    hide Tally;
    assert (Silence(n) + [Rx(ch)])[..n] == Silence(n);
  }

  /** `n` times the same octet. */
  function Chatter(b: byte, n: nat): (seg: Log)
    ensures |seg| == n
    ensures forall i :: 0 <= i < n ==> seg[i] == Rx(b)
  {
    seq(n, i => Rx(b))
  }

  lemma {:induction false} TallyOfChatter(b: byte, n: nat)
    ensures Tally(Chatter(b, n)) == (n, 0)
    decreases n
  {
    if n == 0 {
      assert Chatter(b, 0) == [];
    } else {
      TallyOfChatter(b, n - 1);
      TallySnoc(Chatter(b, n - 1), Rx(b));
      hide Tally;
      assert Chatter(b, n) == Chatter(b, n - 1) + [Rx(b)];
    }
  }

  /** The same for other octets in its place: twenty use up the wait. */
  lemma LateReplyIsHeardIff(n: nat, b: byte, ch: byte)
    requires b != ch
    ensures Hears(Chatter(b, n) + [Rx(ch)], ch) <==> n < 20
    ensures GivesUp(Chatter(b, n), ch) <==> n == 20
  {
    TallyOfChatter(b, n);
    TallySnoc(Chatter(b, n), Rx(ch));
    hide Tally;
    assert (Chatter(b, n) + [Rx(ch)])[..n] == Chatter(b, n);
  }

  /** Send_Byte goes through at the 25th write at the latest, and gives up after 25 empty ones. */
  lemma TwentyFiveWrites(n: nat, b: byte)
    ensures SendsOne(Stalled(n) + [Tx([b])], b) <==> n < 25
    ensures Drops(Stalled(n)) <==> n == 25
  {
    assert |Stalled(n)| == n;
  }

  // ------------------------------------------------------------------ the plan of a transfer

  datatype Action = Packet(data: seq<byte>) | Single(b: byte) | Await(ch: byte)

  predicate Done(a: Action, seg: Log) {
    match a
    case Packet(data) => Sends(seg, data)
    case Single(b) => SendsOne(seg, b) || Drops(seg)
    case Await(ch) => Hears(seg, ch)
  }

  /** The first |segs| actions were carried out, one log segment each. */
  predicate Performed(plan: seq<Action>, segs: seq<Log>) {
    |segs| <= |plan| && forall i :: 0 <= i < |segs| ==> Done(plan[i], segs[i])
  }

  predicate Completed(plan: seq<Action>, segs: seq<Log>) {
    Performed(plan, segs) && |segs| == |plan|
  }

  /** Everything went as planned up to a wait that gave up. */
  predicate Refused(plan: seq<Action>, segs: seq<Log>) {
    && 0 < |segs| <= |plan| && Performed(plan, segs[..|segs| - 1])
    && plan[|segs| - 1].Await? && GivesUp(segs[|segs| - 1], plan[|segs| - 1].ch)
  }

  function HeaderFrame(name: seq<byte>, size: nat): seq<byte> {
    Frame(SOH, 0, HeaderPayload(name, size))
  }

  function Opening(name: seq<byte>, size: nat): seq<Action> {
    [Packet(HeaderFrame(name, size)), Await(ACK), Await(CRC16)]
  }

  /** Blocks 1 to n, each acknowledged before the next. */
  function DataActions(payloads: seq<seq<byte>>, n: nat): (acts: seq<Action>)
    requires n <= |payloads|
    ensures |acts| == 2 * n
  {
    if n == 0 then [] else DataActions(payloads, n - 1) + [Packet(DataFrame(n, payloads[n - 1])), Await(ACK)]
  }

  const NULL_PAYLOAD: seq<byte> := Repeat(0, PACKET_SIZE)

  function Closing(): seq<Action> {
    [Single(EOT), Await(ACK), Packet(Head(SOH, 0) + NULL_PAYLOAD),
     Single(Trailer(NULL_PAYLOAD)[0]), Single(Trailer(NULL_PAYLOAD)[1]), Await(ACK)]
  }

  function BlocksSent(payloads: seq<seq<byte>>): nat {
    if |payloads| <= MAX_BLOCKS then |payloads| else MAX_BLOCKS
  }

  /** What Ymodem_Transmit sets out to do: past 896 blocks it stops without closing. */
  function Plan(name: seq<byte>, image: seq<byte>): seq<Action> {
    var payloads := Payloads(image);
    Opening(name, |image|) + DataActions(payloads, BlocksSent(payloads)) +
    (if |payloads| <= MAX_BLOCKS then Closing() else [])
  }

  lemma DataActionsEnd(payloads: seq<seq<byte>>, n: nat)
    requires 0 < n <= |payloads|
    ensures DataActions(payloads, n) ==
            DataActions(payloads, n - 1) + [Packet(DataFrame(n, payloads[n - 1])), Await(ACK)]
  {
    hide DataFrame;
  }

  lemma {:induction false} DataActionAt(payloads: seq<seq<byte>>, n: nat, k: nat)
    requires k < n <= |payloads|
    ensures DataActions(payloads, n)[2 * k] == Packet(DataFrame(k + 1, payloads[k]))
    ensures DataActions(payloads, n)[2 * k + 1] == Await(ACK)
    decreases n
  {
    hide *;
    DataActionsEnd(payloads, n);
    EndsWithPair(DataActions(payloads, n - 1), Packet(DataFrame(n, payloads[n - 1])), Await(ACK));
    if k == n - 1 {
    } else {
      DataActionAt(payloads, n - 1, k);
    }
  }

  lemma EndsWithPair<T>(before: seq<T>, x: T, y: T)
    ensures var all := before + [x, y];
            all[|before|] == x && all[|before| + 1] == y && forall i :: 0 <= i < |before| ==> all[i] == before[i]
  {
  }

  lemma PlanAt(name: seq<byte>, image: seq<byte>, k: nat)
    requires k < BlocksSent(Payloads(image))
    ensures |Plan(name, image)| >= 2 * k + 5
    ensures Plan(name, image)[2 * k + 3] == Packet(DataFrame(k + 1, Payloads(image)[k]))
    ensures Plan(name, image)[2 * k + 4] == Await(ACK)
  {
    var payloads := Payloads(image);
    var n := BlocksSent(payloads);
    var rest := if |payloads| <= MAX_BLOCKS then Closing() else [];
    DataActionAt(payloads, n, k);
    OpeningLength(name, |image|);
    Middle(Opening(name, |image|), DataActions(payloads, n), rest, k, Packet(DataFrame(k + 1, payloads[k])), Await(ACK));
  }

  lemma OpeningLength(name: seq<byte>, size: nat)
    ensures |Opening(name, size)| == 3
  {
  }

  lemma Middle<T>(a: seq<T>, b: seq<T>, c: seq<T>, k: nat, x: T, y: T)
    requires |a| == 3 && 2 * k + 1 < |b| && b[2 * k] == x && b[2 * k + 1] == y
    ensures |a + b + c| >= 2 * k + 5 && (a + b + c)[2 * k + 3] == x && (a + b + c)[2 * k + 4] == y
  {
  }

  lemma PlanEnd(name: seq<byte>, image: seq<byte>)
    requires |Payloads(image)| <= MAX_BLOCKS
    ensures var n := 2 * |Payloads(image)| + 3;
            |Plan(name, image)| == n + 6 && Plan(name, image)[n..] == Closing()
  {
  }

  // ------------------------------------------------------------------ the code

  /** Polls the port, at most `timeout` times, for one octet. */
  method ReceiveByte(port: Port, timeout: nat) returns (status: int, c: byte, ghost seg: Log)
    requires Answered(port.peer, port.log)
    modifies port`log
    ensures Answered(port.peer, port.log) && port.log == old(port.log) + seg
    ensures !port.open ==> status == -1 && seg == []
    ensures port.open ==>
      || (status == 0 && exists k :: 0 <= k < timeout && seg == Silence(k) + [Rx(c)])
      || (status == -1 && seg == Silence(timeout))
  {
    c := 0;
    var left: nat := timeout;
    ghost var silent := 0;
    seg := [];
    assert port.log == old(port.log) + seg;
    while left > 0
      invariant left + silent == timeout && Answered(port.peer, port.log)
      invariant port.log == old(port.log) + seg
      invariant seg == if port.open then Silence(silent) else []
    {
      left := left - 1;
      var result, len;
      result, len, c := port.Read();
      if !result {
        return -1, c, [];
      }
      if len == 1 {
        seg := seg + [Rx(c)];
        assert port.log == old(port.log) + seg;
        assert 0 <= silent < timeout && seg == Silence(silent) + [Rx(c)];
        return 0, c, seg;
      }
      seg := seg + [Idle];
      silent := silent + 1;
      assert port.log == old(port.log) + seg;
      assert seg == Silence(silent);
    }
    status := -1;
  }

  /** Tries 25 times to get one octet accepted; the result says nothing. */
  method SendByte(port: Port, c: byte) returns (ghost seg: Log)
    requires Answered(port.peer, port.log)
    modifies port
    ensures Answered(port.peer, port.log) && port.log == old(port.log) + seg
    ensures !port.open ==> seg == []
    ensures port.open ==> SendsOne(seg, c) || Drops(seg)
    ensures port.stalls + Empties(seg) == old(port.stalls)
  {
    seg := [];
    assert port.log == old(port.log) + seg;
    var i := 0;
    while i < SEND_TRIES
      invariant i <= SEND_TRIES && port.log == old(port.log) + seg && Answered(port.peer, port.log)
      invariant !port.open ==> seg == []
      invariant port.open ==> seg == Stalled(i)
      invariant port.stalls + Empties(seg) == old(port.stalls)
    {
      var result, len := port.Write([c]);
      if !result {
        break;
      }
      EmptiesSnoc(seg, Tx([c][..len]));
      seg := seg + [Tx([c][..len])];
      assert port.log == old(port.log) + seg;
      if len == 1 {
        assert [c][..1] == [c];
        assert seg[|seg| - 1] == Tx([c]);
        break;
      }
      assert seg == Stalled(i + 1);
      i := i + 1;
    }
  }

  lemma SendsMore(seg: Log, sent: seq<byte>, part: seq<byte>)
    requires Sends(seg, sent)
    ensures Sends(seg + [Tx(part)], sent + part)
    ensures Empties(seg + [Tx(part)]) == Empties(seg) + if part == [] then 1 else 0
  {
    hide Wire;
    WireAppend(seg, [Tx(part)]);
    WireOne(Tx(part));
    EmptiesSnoc(seg, Tx(part));
  }

  lemma SendsNothing()
    ensures Sends([], []) && Empties([]) == 0
  {
  }

  lemma PartSent(data: seq<byte>, index: nat, length: nat, w: nat)
    requires index <= length <= |data| && w <= length - index
    ensures data[..index] + data[index..length][..w] == data[..index + w]
  {
  }

  /** Keeps writing what is left of the packet until all of it is accepted. */
  method SendPacket(port: Port, data: array<byte>, length: nat) returns (ghost seg: Log)
    requires Answered(port.peer, port.log)
    requires length <= data.Length && length < 0x1_0000
    modifies port
    ensures Answered(port.peer, port.log) && port.log == old(port.log) + seg
    ensures port.stalls + Empties(seg) == old(port.stalls)
    ensures !port.open ==> seg == []
    ensures port.open ==> Sends(seg, data[..length])
  {
    hide Sends, Empties, Wire, Answered;
    seg := [];
    SendsNothing();
    assert port.log == old(port.log) + seg && data[..0] == [];
    var index := 0;
    while index < length
      invariant index <= length && port.log == old(port.log) + seg && Answered(port.peer, port.log)
      invariant port.stalls + Empties(seg) == old(port.stalls)
      invariant !port.open ==> seg == []
      invariant port.open ==> Sends(seg, data[..index])
      decreases length - index, port.stalls
    {
      var result, writelen := port.Write(data[index..length]);
      if !result {
        return;
      }
      ghost var part := data[index..length][..writelen];
      SendsMore(seg, data[..index], part);
      PartSent(data[..], index, length, writelen);
      assert data[index..length] == data[..][index..length] && data[..index] == data[..][..index];
      seg := seg + [Tx(part)];
      assert port.log == old(port.log) + seg;
      index := index + writelen;
    }
  }

  /** Waits for `ch`, dropping up to twenty other octets or long silences. */
  method WaitForChar(port: Port, ch: byte) returns (heard: bool, ghost seg: Log)
    requires Answered(port.peer, port.log)
    modifies port`log
    ensures Answered(port.peer, port.log) && port.log == old(port.log) + seg
    ensures !port.open ==> !heard && seg == []
    ensures port.open ==> if heard then Hears(seg, ch) else GivesUp(seg, ch)
  {
    seg := [];
    assert port.log == old(port.log) + seg;
    var i := 0;
    while i < WAIT_TRIES
      invariant i <= WAIT_TRIES && port.log == old(port.log) + seg && Answered(port.peer, port.log)
      invariant !port.open ==> seg == []
      invariant port.open ==> ReadsOnly(seg) && NeverHears(seg, ch) && Tally(seg) == (i, 0)
    {
      var status, c;
      ghost var part;
      status, c, part := ReceiveByte(port, NAK_TIMEOUT);
      if port.open {
        AttemptAdds(seg, part, status, c, ch, i);
      }
      seg := seg + part;
      assert port.log == old(port.log) + seg;
      if status == 0 {
        if c == ch {
          return true, seg;
        }
      }
      i := i + 1;
    }
    heard := false;
  }

  /** One Receive_Byte more: the wait is over if it brought the octet, else one attempt is gone. */
  lemma AttemptAdds(seg: Log, part: Log, status: int, c: byte, ch: byte, i: nat)
    requires ReadsOnly(seg) && NeverHears(seg, ch) && Tally(seg) == (i, 0) && i < WAIT_TRIES
    requires || (status == 0 && exists k :: 0 <= k < NAK_TIMEOUT && part == Silence(k) + [Rx(c)])
             || (status == -1 && part == Silence(NAK_TIMEOUT))
    ensures status == 0 && c == ch ==> Hears(seg + part, ch)
    ensures !(status == 0 && c == ch) ==>
              ReadsOnly(seg + part) && NeverHears(seg + part, ch) && Tally(seg + part) == (i + 1, 0)
  {
    if status == 0 {
      var k :| 0 <= k < NAK_TIMEOUT && part == Silence(k) + [Rx(c)];
      OctetAdds(seg, k, c, ch, i);
    } else {
      TallySilence(seg, NAK_TIMEOUT);
      hide Tally, Silence;
    }
  }

  lemma OctetAdds(seg: Log, k: nat, c: byte, ch: byte, i: nat)
    requires ReadsOnly(seg) && NeverHears(seg, ch) && Tally(seg) == (i, 0) && i < WAIT_TRIES && k < NAK_TIMEOUT
    ensures var now := seg + (Silence(k) + [Rx(c)]);
            && (c == ch ==> Hears(now, ch))
            && (c != ch ==> ReadsOnly(now) && NeverHears(now, ch) && Tally(now) == (i + 1, 0))
  {
    var quiet := seg + Silence(k);
    TallySilence(seg, k);
    TallySnoc(quiet, Rx(c));
    hide Tally, Silence;
    assert ReadsOnly(quiet) && NeverHears(quiet, ch);
    assert seg + (Silence(k) + [Rx(c)]) == quiet + [Rx(c)];
    assert (quiet + [Rx(c)])[..|quiet|] == quiet;
  }

  lemma {:induction false} ReadsUseNoStalls(seg: Log)
    requires ReadsOnly(seg)
    ensures Empties(seg) == 0
    decreases |seg|
  {
    if seg == [] {
    } else {
      ReadsUseNoStalls(seg[..|seg| - 1]);
    }
  }

  lemma PerformedSnoc(plan: seq<Action>, segs: seq<Log>, seg: Log)
    requires Performed(plan, segs) && |segs| < |plan| && Done(plan[|segs|], seg)
    ensures Performed(plan, segs + [seg])
    ensures Flatten(segs + [seg]) == Flatten(segs) + seg
  {
    FlattenSnoc(segs, seg);
    hide Done, Flatten;
    forall i | 0 <= i < |segs| + 1
      ensures Done(plan[i], (segs + [seg])[i])
    {
    }
  }

  lemma RefusedSnoc(plan: seq<Action>, segs: seq<Log>, seg: Log)
    requires Performed(plan, segs) && |segs| < |plan| && plan[|segs|].Await? && GivesUp(seg, plan[|segs|].ch)
    ensures Refused(plan, segs + [seg])
    ensures Flatten(segs + [seg]) == Flatten(segs) + seg
  {
    FlattenSnoc(segs, seg);
    hide Performed, GivesUp, Flatten;
    assert (segs + [seg])[..|segs|] == segs;
  }

  /** No Send_Byte gave up without sending. */
  predicate NothingDropped(plan: seq<Action>, segs: seq<Log>)
    requires |segs| <= |plan|
  {
    forall i :: 0 <= i < |segs| && plan[i].Single? ==> !Drops(segs[i])
  }

  /** The transfer as the port sees it: `segs` are what each action so far added to the log. */
  ghost predicate Following(port: Port, base: Log, stalls: nat, plan: seq<Action>, segs: seq<Log>)
    reads port
  {
    && Answered(port.peer, port.log) && port.log == base + Flatten(segs)
    && Performed(plan, segs) && port.stalls + Empties(Flatten(segs)) == stalls
  }

  /** Following, but the last action is a wait that gave up. */
  ghost predicate Stopped(port: Port, base: Log, stalls: nat, plan: seq<Action>, segs: seq<Log>)
    reads port
  {
    && Answered(port.peer, port.log) && port.log == base + Flatten(segs)
    && Refused(plan, segs) && port.stalls + Empties(Flatten(segs)) == stalls
  }

  /** Puts the CRC of the payload behind it, high octet first. */
  method AppendTrailer(packetData: array<byte>, pktSize: nat)
    requires pktSize + PACKET_HEADER + PACKET_TRAILER <= packetData.Length
    modifies packetData
    ensures packetData[..pktSize + 5] ==
            old(packetData[..pktSize + PACKET_HEADER]) + Trailer(old(packetData[PACKET_HEADER..pktSize + PACKET_HEADER]))
  {
    ghost var payload := packetData[PACKET_HEADER..PACKET_HEADER + pktSize];
    var tempCRC := CalCRC16(packetData, PACKET_HEADER, pktSize);
    SplitIsTrailer(tempCRC, payload);
    var hi, lo := HighOctet(tempCRC), LowOctet(tempCRC);
    hide *;
    PutTwo(packetData, pktSize + PACKET_HEADER, hi, lo);
  }

  method PutTwo(data: array<byte>, at: nat, hi: byte, lo: byte)
    requires at + 2 <= data.Length
    modifies data
    ensures data[..at + 2] == old(data[..at]) + [hi, lo]
  {
    data[at + 0] := hi;
    data[at + 1] := lo;
  }

  /** The next action of the plan has been carried out, adding `seg` to the log. */
  lemma Followed(port: Port, base: Log, stalls: nat, plan: seq<Action>, segs: seq<Log>, seg: Log, before: Log, left: nat)
    requires Answered(port.peer, port.log) && before == base + Flatten(segs) && port.log == before + seg
    requires Performed(plan, segs) && |segs| < |plan| && Done(plan[|segs|], seg)
    requires left + Empties(Flatten(segs)) == stalls && port.stalls + Empties(seg) == left
    ensures Following(port, base, stalls, plan, segs + [seg])
  {
    PerformedSnoc(plan, segs, seg);
    EmptiesAppend(Flatten(segs), seg);
    Associative(base, Flatten(segs), seg);
    hide Flatten, Performed, Done, Empties, Answered;
  }

  /** Sends a packet as the next action of the plan. */
  method PacketStep(port: Port, data: array<byte>, length: nat, ghost base: Log, ghost stalls: nat,
                    ghost plan: seq<Action>, ghost segs: seq<Log>) returns (ghost now: seq<Log>)
    requires length <= data.Length && length < 0x1_0000
    requires Answered(port.peer, port.log)
    requires port.open ==>
      Following(port, base, stalls, plan, segs) && |segs| < |plan| && plan[|segs|] == Packet(data[..length])
    modifies port
    ensures Answered(port.peer, port.log)
    ensures !port.open ==> port.log == old(port.log)
    ensures port.open ==> Following(port, base, stalls, plan, now) && |now| == |segs| + 1
  {
    ghost var before, left := port.log, port.stalls;
    ghost var seg := SendPacket(port, data, length);
    now := segs + [seg];
    if port.open {
      Followed(port, base, stalls, plan, segs, seg, before, left);
    }
  }

  /** Sends a single octet as the next action of the plan. */
  method SingleStep(port: Port, c: byte, ghost base: Log, ghost stalls: nat,
                    ghost plan: seq<Action>, ghost segs: seq<Log>) returns (ghost now: seq<Log>)
    requires Answered(port.peer, port.log)
    requires port.open ==> Following(port, base, stalls, plan, segs) && |segs| < |plan| && plan[|segs|] == Single(c)
    modifies port
    ensures Answered(port.peer, port.log)
    ensures !port.open ==> port.log == old(port.log)
    ensures port.open ==> Following(port, base, stalls, plan, now) && |now| == |segs| + 1
  {
    ghost var before, left := port.log, port.stalls;
    ghost var seg := SendByte(port, c);
    now := segs + [seg];
    if port.open {
      Followed(port, base, stalls, plan, segs, seg, before, left);
    }
  }

  /** Waits as the next action of the plan says. */
  method AwaitStep(port: Port, ch: byte, ghost base: Log, ghost stalls: nat,
                   ghost plan: seq<Action>, ghost segs: seq<Log>) returns (heard: bool, ghost now: seq<Log>)
    requires Answered(port.peer, port.log)
    requires port.open ==> Following(port, base, stalls, plan, segs) && |segs| < |plan| && plan[|segs|] == Await(ch)
    modifies port
    ensures Answered(port.peer, port.log)
    ensures !port.open ==> port.log == old(port.log) && !heard
    ensures port.open ==> |now| == |segs| + 1
    ensures port.open ==> if heard then Following(port, base, stalls, plan, now) else Stopped(port, base, stalls, plan, now)
  {
    ghost var before, left := port.log, port.stalls;
    ghost var seg;
    heard, seg := WaitForChar(port, ch);
    now := segs + [seg];
    hide Hears, GivesUp, Flatten, Performed, Refused, Empties, Answered;
    if port.open {
      Waited(port, base, stalls, plan, segs, seg, before, ch);
    }
  }

  lemma Waited(port: Port, base: Log, stalls: nat, plan: seq<Action>, segs: seq<Log>, seg: Log, before: Log, ch: byte)
    requires Answered(port.peer, port.log) && before == base + Flatten(segs) && port.log == before + seg
    requires Performed(plan, segs) && |segs| < |plan| && plan[|segs|] == Await(ch)
    requires port.stalls + Empties(Flatten(segs)) == stalls
    ensures Hears(seg, ch) ==> Following(port, base, stalls, plan, segs + [seg])
    ensures GivesUp(seg, ch) ==> Stopped(port, base, stalls, plan, segs + [seg])
  {
    hide Hears, GivesUp, Flatten, Performed, Refused, Empties, Answered;
    if Hears(seg, ch) || GivesUp(seg, ch) {
      WaitIsReads(seg, ch);
      ReadsUseNoStalls(seg);
      EmptiesAppend(Flatten(segs), seg);
      Associative(base, Flatten(segs), seg);
      if Hears(seg, ch) {
        PerformedSnoc(plan, segs, seg);
      }
      if GivesUp(seg, ch) {
        RefusedSnoc(plan, segs, seg);
      }
    }
  }

  lemma WaitIsReads(seg: Log, ch: byte)
    requires Hears(seg, ch) || GivesUp(seg, ch)
    ensures ReadsOnly(seg)
  {
  }

  /** Block 0 in the packet buffer, trailer included. */
  method BuildHeader(packetData: array<byte>, sendFileName: array<byte>, sizeFile: nat)
    requires packetData.Length == PACKET_1K_SIZE + PACKET_HEADER + PACKET_TRAILER && packetData != sendFileName
    requires sendFileName.Length >= FILE_NAME_LENGTH - 1
    requires sizeFile < 1_000_000_000
    modifies packetData
    ensures packetData[..PACKET_SIZE + 5] == HeaderFrame(CString(sendFileName[..]), sizeFile)
  {
    var filename := CopyName(sendFileName);
    ghost var name := CString(sendFileName[..]);
    assert filename[..FILE_NAME_LENGTH][..FILE_NAME_LENGTH - 1] == sendFileName[..][..FILE_NAME_LENGTH - 1];
    SameHeader(filename[..FILE_NAME_LENGTH], sendFileName[..], sizeFile);
    PrepareInitialPacket(packetData, filename, sizeFile);
    ghost var block, payload := packetData[..PACKET_SIZE + PACKET_HEADER], HeaderPayload(name, sizeFile);
    SliceAfterHead(block, Head(SOH, 0), payload);
    assert HeaderFrame(name, sizeFile) == block + Trailer(payload);
    hide *;
    assert packetData[PACKET_HEADER..PACKET_SIZE + PACKET_HEADER] == block[PACKET_HEADER..];
    AppendTrailer(packetData, PACKET_SIZE);
  }

  /** The next data block in the packet buffer, trailer included. */
  method BuildBlock(packetData: array<byte>, buf: array<byte>, at: nat, size: nat, blkNumber: nat)
    returns (pktSize: nat)
    requires packetData.Length == PACKET_1K_SIZE + PACKET_HEADER + PACKET_TRAILER && packetData != buf
    requires at + size <= buf.Length
    modifies packetData
    ensures pktSize == PayloadSize(size)
    ensures packetData[..pktSize + 5] == DataFrame(blkNumber, FirstPayload(buf[at..at + size]))
  {
    PreparePacket(buf, at, packetData, WireNumber(blkNumber), size);
    if size >= PACKET_1K_SIZE {
      pktSize := PACKET_1K_SIZE;
    } else {
      pktSize := PACKET_SIZE;
    }
    ghost var payload := FirstPayload(buf[at..at + size]);
    ghost var block := packetData[..pktSize + PACKET_HEADER];
    SliceAfterHead(block, Head(Kind(payload), WireNumber(blkNumber)), payload);
    assert DataFrame(blkNumber, payload) == block + Trailer(payload);
    hide *;
    assert packetData[PACKET_HEADER..pktSize + PACKET_HEADER] == block[PACKET_HEADER..];
    AppendTrailer(packetData, pktSize);
  }

  lemma OpeningActions(plan: seq<Action>, name: seq<byte>, size: nat)
    requires |plan| >= 3 && plan[..3] == Opening(name, size)
    ensures plan[0] == Packet(HeaderFrame(name, size)) && plan[1] == Await(ACK) && plan[2] == Await(CRC16)
  {
    assert plan[0] == plan[..3][0] && plan[1] == plan[..3][1] && plan[2] == plan[..3][2];
  }

  /** Ymodem_Transmit up to the data: block 0, its ACK, and the request for CRC mode. */
  method SendHeader(port: Port, packetData: array<byte>, sendFileName: array<byte>, sizeFile: nat,
                    ghost base: Log, ghost stalls: nat, ghost plan: seq<Action>) returns (ok: bool, ghost segs: seq<Log>)
    requires packetData.Length == PACKET_1K_SIZE + PACKET_HEADER + PACKET_TRAILER && packetData != sendFileName
    requires sendFileName.Length >= FILE_NAME_LENGTH - 1
    requires sizeFile < 1_000_000_000
    requires Answered(port.peer, port.log)
    requires port.open ==> Following(port, base, stalls, plan, [])
    requires |plan| >= 3 && plan[..3] == Opening(CString(sendFileName[..]), sizeFile)
    modifies port, packetData
    ensures Answered(port.peer, port.log)
    ensures !port.open ==> !ok && port.log == old(port.log)
    ensures port.open && ok ==> Following(port, base, stalls, plan, segs) && |segs| == 3
    ensures port.open && !ok ==> Stopped(port, base, stalls, plan, segs)
  {
    OpeningActions(plan, CString(sendFileName[..]), sizeFile);
    hide *;
    BuildHeader(packetData, sendFileName, sizeFile);
    segs := PacketStep(port, packetData, PACKET_SIZE + PACKET_HEADER + 2, base, stalls, plan, []);
    ok, segs := AwaitStep(port, ACK, base, stalls, plan, segs);
    if !ok {
      return;
    }
    ok, segs := AwaitStep(port, CRC16, base, stalls, plan, segs);
  }

  lemma SliceAfterHead(block: seq<byte>, head: seq<byte>, payload: seq<byte>)
    requires |head| == PACKET_HEADER && block == head + payload
    ensures block[PACKET_HEADER..] == payload
  {
  }

  /** The local copy of the name: 255 octets, a last one never written, and the octet behind the array. */
  method CopyName(sendFileName: array<byte>) returns (filename: array<byte>)
    requires sendFileName.Length >= FILE_NAME_LENGTH - 1
    ensures fresh(filename) && filename.Length == FILE_NAME_LENGTH + 1
    ensures FILE_NAME_LENGTH == 256 && filename[..255] == sendFileName[..255]
  {
    filename := new byte[FILE_NAME_LENGTH + 1];
    var i := 0;
    while i < FILE_NAME_LENGTH - 1
      invariant i <= FILE_NAME_LENGTH - 1
      invariant filename[..i] == sendFileName[..i]
    {
      filename[i] := sendFileName[i];
      i := i + 1;
    }
  }

  /** The number posted to the progress bar, in 32-bit arithmetic. */
  function Percent(sizeFile: nat, acked: nat): nat
    requires sizeFile > 0
  {
    (100 * acked % 0x1_0000_0000) / sizeFile
  }

  /** `p` is the percentage of `acked` in `sizeFile`, rounded down. */
  predicate IsPercent(p: nat, sizeFile: nat, acked: nat) {
    p * sizeFile <= 100 * acked < (p + 1) * sizeFile
  }

  /** Up to the block limit the number posted is the true percentage. */
  lemma PercentIsTrue(sizeFile: nat, acked: nat)
    requires 0 < sizeFile && acked <= 896 * 1024
    ensures IsPercent(Percent(sizeFile, acked), sizeFile, acked)
  {
    NoWrap(acked);
    QuotientBounds(100 * acked, sizeFile);
  }

  /** How much of the image the first `k` blocks carry. */
  function Acked(size: nat, k: nat): (n: nat)
    ensures n <= size
  {
    if k == 0 then 0 else Acked(size, k - 1) + ChunkSize(size - Acked(size, k - 1))
  }

  lemma {:induction false} AckedShifts(size: nat, k: nat)
    ensures Acked(size, k + 1) == ChunkSize(size) + Acked(size - ChunkSize(size), k)
    decreases k
  {
    hide ChunkSize;
    if k == 0 {
      assert Acked(size, 0) == 0;
    } else {
      AckedShifts(size, k - 1);
    }
  }

  lemma FlattenTakes(first: seq<byte>, rest: seq<seq<byte>>, k: nat)
    requires 0 < k <= |rest| + 1
    ensures Flatten(([first] + rest)[..k]) == first + Flatten(rest[..k - 1])
  {
    assert ([first] + rest)[..k] == [first] + rest[..k - 1];
    FlattenCons(first, rest[..k - 1]);
  }

  /** That is what their payloads hold, the filler aside. */
  lemma {:induction false} AckedIsCarried(image: seq<byte>, k: nat)
    requires k <= |Payloads(image)|
    ensures var carried := |Flatten(Payloads(image)[..k])|;
            Acked(|image|, k) == if carried <= |image| then carried else |image|
    decreases k
  {
    if k == 0 {
      assert Payloads(image)[..0] == [];
    } else {
      var rest := image[ChunkSize(|image|)..];
      FlattenTakes(FirstPayload(image), Payloads(rest), k);
      AckedShifts(|image|, k - 1);
      assert |image| < PACKET_SIZE ==> rest == [];
      AckedIsCarried(rest, k - 1);
      hide Acked, Flatten, Payloads;
    }
  }

  /** The percentage after each block: rising, never above 100, and 100 for the last block only. */
  predicate GoodProgress(progress: seq<nat>, sizeFile: nat, blocks: nat) {
    && (progress != [] ==> sizeFile > 0)
    && (forall j :: 0 <= j < |progress| ==> IsPercent(progress[j], sizeFile, Acked(sizeFile, j + 1)))
    && (forall i, j :: 0 <= i < j < |progress| ==> progress[i] <= progress[j])
    && (forall j :: 0 <= j < |progress| ==> progress[j] <= 100 && (progress[j] == 100 <==> j == blocks - 1))
  }

  lemma PercentRises(sizeFile: nat, a: nat, b: nat)
    requires 0 < sizeFile && a <= b <= sizeFile && b <= MAX_BLOCKS * PACKET_1K_SIZE
    ensures Percent(sizeFile, a) <= Percent(sizeFile, b) <= 100
    ensures Percent(sizeFile, b) == 100 <==> b == sizeFile
  {
    NoWrap(a);
    NoWrap(b);
    QuotientRises(100 * a, 100 * b, sizeFile);
    QuotientRises(100 * b, 100 * sizeFile, sizeFile);
    QuotientOfProduct(100, sizeFile);
    if b < sizeFile {
      QuotientBelow(100 * b, 100, sizeFile);
    }
  }

  /** Before the block limit is reached the product stays far below 2^32. */
  lemma NoWrap(acked: nat)
    requires acked <= MAX_BLOCKS * PACKET_1K_SIZE
    ensures 100 * acked % 0x1_0000_0000 == 100 * acked
  {
  }

  lemma PayloadsStep(payloads: seq<seq<byte>>, n: nat, rest: seq<byte>)
    requires rest != [] && n <= |payloads| && payloads[n..] == Payloads(rest)
    ensures n < |payloads| && payloads[n] == FirstPayload(rest)
    ensures payloads[n + 1..] == Payloads(rest[ChunkSize(|rest|)..])
  {
    assert payloads[n] == payloads[n..][0];
    assert payloads[n + 1..] == payloads[n..][1..];
  }

  /** One data block: built, sent, acknowledged. */
  method BlockStep(port: Port, packetData: array<byte>, buf: array<byte>, bufPtr: nat, size: nat, blkNumber: nat,
                   ghost base: Log, ghost stalls: nat, ghost plan: seq<Action>, ghost segs: seq<Log>)
    returns (heard: bool, pktSize: nat, ghost now: seq<Log>)
    requires packetData.Length == PACKET_1K_SIZE + PACKET_HEADER + PACKET_TRAILER && packetData != buf
    requires bufPtr + size <= buf.Length
    requires port.open && Following(port, base, stalls, plan, segs) && |segs| + 1 < |plan|
    requires plan[|segs|] == Packet(DataFrame(blkNumber, FirstPayload(buf[bufPtr..bufPtr + size])))
    requires plan[|segs| + 1] == Await(ACK)
    modifies port, packetData
    ensures Answered(port.peer, port.log) && pktSize == PayloadSize(size)
    ensures |now| == |segs| + 2
    ensures if heard then Following(port, base, stalls, plan, now) else Stopped(port, base, stalls, plan, now)
  {
    pktSize := BuildBlock(packetData, buf, bufPtr, size, blkNumber);
    hide Following, Stopped, DataFrame, FirstPayload;
    now := PacketStep(port, packetData, pktSize + PACKET_HEADER + 2, base, stalls, plan, segs);
    heard, now := AwaitStep(port, ACK, base, stalls, plan, now);
  }

  lemma BeforeBlocks(name: seq<byte>, image: seq<byte>)
    ensures image == [] <==> Payloads(image) == []
    ensures GoodProgress([], |image|, |Payloads(image)|)
    ensures MAX_BLOCKS == 896 && PACKET_1K_SIZE == 1024 && PACKET_HEADER == 3 && PACKET_TRAILER == 2
  {
  }

  /** What the data phase leaves behind: all blocks acknowledged, or a wait that failed, or too many blocks. */
  ghost predicate BlocksOutcome(ok: bool, port: Port, base: Log, stalls: nat, name: seq<byte>, image: seq<byte>,
                                segs: seq<Log>)
    reads port
  {
    var plan, n := Plan(name, image), |Payloads(image)|;
    if ok then
      n <= MAX_BLOCKS && Following(port, base, stalls, plan, segs) && |segs| == 3 + 2 * n
    else
      || Stopped(port, base, stalls, plan, segs)
      || (n > MAX_BLOCKS && Following(port, base, stalls, plan, segs) && |segs| == |plan|)
  }

  /** The data phase: blocks 1, 2, ... each acknowledged, until the image or the block numbers run out. */
  method SendBlocks(port: Port, packetData: array<byte>, buf: array<byte>, sizeFile: nat, ghost image: seq<byte>,
                    ghost base: Log, ghost stalls: nat, ghost name: seq<byte>, ghost segs0: seq<Log>)
    returns (ok: bool, progress: seq<nat>, ghost segs: seq<Log>)
    requires packetData.Length == PACKET_1K_SIZE + PACKET_HEADER + PACKET_TRAILER && packetData != buf
    requires sizeFile <= buf.Length && image == buf[..sizeFile]
    requires Answered(port.peer, port.log) && |segs0| == 3
    requires port.open && Following(port, base, stalls, Plan(name, image), segs0)
    modifies port, packetData
    ensures Answered(port.peer, port.log)
    ensures BlocksOutcome(ok, port, base, stalls, name, image, segs)
    ensures GoodProgress(progress, sizeFile, |Payloads(image)|)
    ensures ok ==> |progress| == |Payloads(image)|
  {
    hide *;
    BeforeBlocks(name, image);
    AckedNothing(sizeFile);
    ghost var payloads := Payloads(image);
    ghost var plan := Plan(name, image);
    ghost var n := 0;
    segs, progress := segs0, [];
    var bufPtr, size, blkNumber := 0, sizeFile, 1;
    assert buf[0..sizeFile] == image && payloads[0..] == payloads;
    while size > 0
      invariant 0 <= bufPtr && 0 <= size <= sizeFile && (size > 0 ==> bufPtr + size == sizeFile)
      invariant n <= |payloads| && n <= 896 && |progress| == n && sizeFile - size <= 1024 * n
      invariant size > 0 ==> blkNumber == n + 1 && n < 896 && payloads[n..] == Payloads(buf[bufPtr..bufPtr + size])
      invariant size == 0 ==> n == |payloads|
      invariant Answered(port.peer, port.log) && Following(port, base, stalls, plan, segs) && |segs| == 3 + 2 * n
      invariant sizeFile - size == Acked(sizeFile, n)
      invariant GoodProgress(progress, sizeFile, |payloads|)
      invariant n > 0 ==> AtMost(progress, Percent(sizeFile, sizeFile - size))
      decreases size
    {
      ghost var rest, acked := buf[bufPtr..bufPtr + size], sizeFile - size;
      PayloadsStep(payloads, n, rest);
      EnoughBlocks(payloads, n);
      PlanAt(name, image, n);
      var heard, pktSize;
      heard, pktSize, segs := BlockStep(port, packetData, buf, bufPtr, size, blkNumber, base, stalls, plan, segs);
      n := n + 1;
      if !heard {
        ok := false;
        StoppedInBlocks(port, base, stalls, name, image, segs);
        return;
      }
      AfterBlock(payloads, n, rest, pktSize);
      AckedNext(sizeFile, n - 1, size, pktSize);
      if size > pktSize {
        bufPtr := bufPtr + pktSize;
        size := size - pktSize;
        assert buf[bufPtr..bufPtr + size] == rest[pktSize..];
        if blkNumber == MAX_BLOCKS {
          ok := false;
          TooManyBlocks(port, base, stalls, name, image, segs);
          return;
        } else {
          blkNumber := blkNumber + 1;
        }
      } else {
        bufPtr := bufPtr + pktSize;
        size := 0;
      }
      ProgressSnoc(progress, |payloads|, sizeFile, acked, sizeFile - size);
      progress := progress + [Percent(sizeFile, sizeFile - size)];
    }
    ok := true;
    AllBlocksSent(port, base, stalls, name, image, segs);
  }

  lemma StoppedInBlocks(port: Port, base: Log, stalls: nat, name: seq<byte>, image: seq<byte>, segs: seq<Log>)
    requires Stopped(port, base, stalls, Plan(name, image), segs)
    ensures BlocksOutcome(false, port, base, stalls, name, image, segs)
  {
  }

  lemma TooManyBlocks(port: Port, base: Log, stalls: nat, name: seq<byte>, image: seq<byte>, segs: seq<Log>)
    requires |Payloads(image)| > 896 && |segs| == 3 + 2 * 896
    requires Following(port, base, stalls, Plan(name, image), segs)
    ensures BlocksOutcome(false, port, base, stalls, name, image, segs)
  {
    PlanWithoutClosing(name, image);
  }

  lemma AllBlocksSent(port: Port, base: Log, stalls: nat, name: seq<byte>, image: seq<byte>, segs: seq<Log>)
    requires |Payloads(image)| <= 896 && |segs| == 3 + 2 * |Payloads(image)|
    requires Following(port, base, stalls, Plan(name, image), segs)
    ensures BlocksOutcome(true, port, base, stalls, name, image, segs)
  {
  }

  predicate AtMost(progress: seq<nat>, p: nat) {
    forall j :: 0 <= j < |progress| ==> progress[j] <= p
  }

  lemma ProgressSnoc(progress: seq<nat>, blocks: nat, sizeFile: nat, before: nat, acked: nat)
    requires 0 < sizeFile && before <= acked <= sizeFile && acked <= MAX_BLOCKS * PACKET_1K_SIZE
    requires GoodProgress(progress, sizeFile, blocks) && (progress != [] ==> AtMost(progress, Percent(sizeFile, before)))
    requires acked == sizeFile <==> |progress| == blocks - 1
    requires acked == Acked(sizeFile, |progress| + 1)
    ensures GoodProgress(progress + [Percent(sizeFile, acked)], sizeFile, blocks)
    ensures AtMost(progress + [Percent(sizeFile, acked)], Percent(sizeFile, acked))
  {
    PercentRises(sizeFile, before, acked);
    PercentIsTrue(sizeFile, acked);
    hide Percent, Acked, IsPercent;
  }

  /** One block more. */
  lemma AckedNext(sizeFile: nat, n: nat, size: nat, pktSize: nat)
    requires 0 < size <= sizeFile && sizeFile - size == Acked(sizeFile, n) && pktSize == PayloadSize(size)
    ensures Acked(sizeFile, n + 1) == if size > pktSize then sizeFile - size + pktSize else sizeFile
  {
  }

  lemma AckedNothing(sizeFile: nat)
    ensures Acked(sizeFile, 0) == 0
  {
  }

  lemma EnoughBlocks(payloads: seq<seq<byte>>, n: nat)
    requires n < |payloads| && n < MAX_BLOCKS
    ensures n < BlocksSent(payloads)
  {
  }

  /** What is left of the payload list once block `n` is out. */
  lemma AfterBlock(payloads: seq<seq<byte>>, n: nat, rest: seq<byte>, pktSize: nat)
    requires rest != [] && n <= |payloads| && pktSize == PayloadSize(|rest|)
    requires payloads[n..] == Payloads(rest[ChunkSize(|rest|)..])
    ensures pktSize <= PACKET_1K_SIZE
    ensures |rest| > pktSize ==> payloads[n..] == Payloads(rest[pktSize..]) && n < |payloads|
    ensures |rest| <= pktSize ==> n == |payloads|
  {
    if |rest| > pktSize {
      assert ChunkSize(|rest|) == pktSize;
      assert |Payloads(rest[pktSize..])| > 0;
    } else {
      assert rest[ChunkSize(|rest|)..] == [];
    }
  }

  lemma PlanWithoutClosing(name: seq<byte>, image: seq<byte>)
    requires |Payloads(image)| > MAX_BLOCKS
    ensures |Plan(name, image)| == 3 + 2 * MAX_BLOCKS
  {
  }

  lemma ClosingActions(plan: seq<Action>, n: nat)
    requires n <= |plan| && plan[n..] == Closing()
    ensures |plan| == n + 6
    ensures plan[n] == Single(EOT) && plan[n + 1] == Await(ACK)
    ensures plan[n + 2] == Packet(Head(SOH, 0) + NULL_PAYLOAD)
    ensures plan[n + 3] == Single(Trailer(NULL_PAYLOAD)[0]) && plan[n + 4] == Single(Trailer(NULL_PAYLOAD)[1])
    ensures plan[n + 5] == Await(ACK)
  {
    assert forall i :: 0 <= i < 6 ==> plan[n + i] == plan[n..][i];
  }

  /** The null block that closes the batch, without trailer, and the two octets of its CRC. */
  method BuildNull(packetData: array<byte>) returns (hi: byte, lo: byte)
    requires packetData.Length == PACKET_1K_SIZE + PACKET_HEADER + PACKET_TRAILER
    modifies packetData
    ensures packetData[..PACKET_SIZE + PACKET_HEADER] == Head(SOH, 0) + NULL_PAYLOAD
    ensures hi == Trailer(NULL_PAYLOAD)[0] && lo == Trailer(NULL_PAYLOAD)[1]
  {
    packetData[0] := SOH;
    packetData[1] := 0;
    packetData[2] := 0xFF;
    var i := PACKET_HEADER;
    while i < PACKET_SIZE + PACKET_HEADER
      invariant PACKET_HEADER <= i <= PACKET_SIZE + PACKET_HEADER
      invariant packetData[..i] == [SOH, 0, 0xFF] + Repeat(0, i - PACKET_HEADER)
    {
      packetData[i] := 0x00;
      i := i + 1;
    }
    assert packetData[PACKET_HEADER..PACKET_SIZE + PACKET_HEADER] == NULL_PAYLOAD;
    var tempCRC := CalCRC16(packetData, PACKET_HEADER, PACKET_SIZE);
    SplitIsTrailer(tempCRC, NULL_PAYLOAD);
    hi, lo := HighOctet(tempCRC), LowOctet(tempCRC);
  }

  /** Ymodem_Transmit after the data: EOT, its ACK, the null block, and the last ACK. */
  method SendEnd(port: Port, packetData: array<byte>, ghost base: Log, ghost stalls: nat, ghost plan: seq<Action>,
                 ghost segs0: seq<Log>) returns (ok: bool, ghost segs: seq<Log>)
    requires packetData.Length == PACKET_1K_SIZE + PACKET_HEADER + PACKET_TRAILER
    requires Answered(port.peer, port.log) && port.open && Following(port, base, stalls, plan, segs0)
    requires |segs0| <= |plan| && plan[|segs0|..] == Closing()
    modifies port, packetData
    ensures Answered(port.peer, port.log)
    ensures ok ==> Following(port, base, stalls, plan, segs) && |segs| == |plan|
    ensures !ok ==> Stopped(port, base, stalls, plan, segs)
  {
    ClosingActions(plan, |segs0|);
    hide *;
    segs := SingleStep(port, EOT, base, stalls, plan, segs0);
    ok, segs := AwaitStep(port, ACK, base, stalls, plan, segs);
    if !ok {
      return;
    }
    var hi, lo := BuildNull(packetData);
    segs := PacketStep(port, packetData, PACKET_SIZE + PACKET_HEADER, base, stalls, plan, segs);
    segs := SingleStep(port, hi, base, stalls, plan, segs);
    segs := SingleStep(port, lo, base, stalls, plan, segs);
    ok, segs := AwaitStep(port, ACK, base, stalls, plan, segs);
  }

  /** The run of a transfer: what was added to the log, with at most `stalls` empty writes, and the result. */
  ghost predicate Ran(result: byte, added: Log, stalls: nat, name: seq<byte>, image: seq<byte>, segs: seq<Log>) {
    var plan, n := Plan(name, image), |Payloads(image)|;
    && added == Flatten(segs) && |segs| <= |plan| && Empties(added) <= stalls
    && (if result == 0 then n <= MAX_BLOCKS && Completed(plan, segs)
        else result == 0xFF && (Refused(plan, segs) || (n > MAX_BLOCKS && Completed(plan, segs))))
  }

  lemma RanFollowing(port: Port, result: byte, before: Log, stalls: nat, name: seq<byte>, image: seq<byte>, segs: seq<Log>)
    requires Following(port, before, stalls, Plan(name, image), segs) && |segs| == |Plan(name, image)|
    requires result == if |Payloads(image)| <= MAX_BLOCKS then 0 else 0xFF
    ensures before <= port.log && Ran(result, port.log[|before|..], stalls, name, image, segs)
  {
  }

  lemma RanStopped(port: Port, before: Log, stalls: nat, name: seq<byte>, image: seq<byte>, segs: seq<Log>)
    requires Stopped(port, before, stalls, Plan(name, image), segs)
    ensures before <= port.log && Ran(0xFF, port.log[|before|..], stalls, name, image, segs)
  {
  }

  lemma BeforeTransmit(port: Port, name: seq<byte>, image: seq<byte>)
    requires Answered(port.peer, port.log)
    ensures Following(port, port.log, port.stalls, Plan(name, image), [])
    ensures |Plan(name, image)| >= 3 && Plan(name, image)[..3] == Opening(name, |image|)
    ensures PACKET_1K_SIZE == 1024 && PACKET_HEADER == 3 && PACKET_TRAILER == 2 && PACKET_SIZE == 128
    ensures GoodProgress([], |image|, |Payloads(image)|)
  {
    assert Flatten<Event>([]) == [];
  }

  /** Sends the image to the port's peer. 0 is success; -1 is returned as 0xFF. */
  method Transmit(port: Port, buf: array<byte>, sendFileName: array<byte>, sizeFile: nat)
    returns (result: byte, progress: seq<nat>, ghost segs: seq<Log>)
    requires sizeFile <= buf.Length && sizeFile < 1_000_000_000
    requires sendFileName.Length >= FILE_NAME_LENGTH - 1
    requires Answered(port.peer, port.log)
    modifies port
    ensures Answered(port.peer, port.log) && old(port.log) <= port.log
    ensures !port.open ==> result == 0xFF && port.log == old(port.log) && progress == []
    ensures port.open ==>
      Ran(result, port.log[|old(port.log)|..], old(port.stalls), CString(sendFileName[..]), buf[..sizeFile], segs)
    ensures GoodProgress(progress, sizeFile, |Payloads(buf[..sizeFile])|)
    ensures result == 0 ==> |progress| == |Payloads(buf[..sizeFile])|
  {
    ghost var name, image, base, stalls := CString(sendFileName[..]), buf[..sizeFile], port.log, port.stalls;
    ghost var plan := Plan(name, image);
    hide *;
    BeforeTransmit(port, name, image);
    progress := [];
    var packetData := new byte[1029];
    var ok;
    ok, segs := SendHeader(port, packetData, sendFileName, sizeFile, base, stalls, plan);
    if !ok {
      if port.open {
        RanStopped(port, base, stalls, name, image, segs);
      }
      return 0xFF, progress, segs;
    }
    ok, progress, segs := SendBlocks(port, packetData, buf, sizeFile, image, base, stalls, name, segs);
    if !ok {
      AfterBlocksFailed(port, base, stalls, name, image, segs);
      return 0xFF, progress, segs;
    }
    AfterBlocksDone(port, base, stalls, name, image, segs);
    ok, segs := SendEnd(port, packetData, base, stalls, plan, segs);
    if !ok {
      RanStopped(port, base, stalls, name, image, segs);
      return 0xFF, progress, segs;
    }
    RanFollowing(port, 0, base, stalls, name, image, segs);
    return 0, progress, segs;
  }

  lemma AfterBlocksFailed(port: Port, base: Log, stalls: nat, name: seq<byte>, image: seq<byte>, segs: seq<Log>)
    requires BlocksOutcome(false, port, base, stalls, name, image, segs)
    ensures base <= port.log && Ran(0xFF, port.log[|base|..], stalls, name, image, segs)
  {
    if Stopped(port, base, stalls, Plan(name, image), segs) {
      RanStopped(port, base, stalls, name, image, segs);
    } else {
      RanFollowing(port, 0xFF, base, stalls, name, image, segs);
    }
  }

  lemma AfterBlocksDone(port: Port, base: Log, stalls: nat, name: seq<byte>, image: seq<byte>, segs: seq<Log>)
    requires BlocksOutcome(true, port, base, stalls, name, image, segs)
    ensures Following(port, base, stalls, Plan(name, image), segs)
    ensures |segs| <= |Plan(name, image)| && Plan(name, image)[|segs|..] == Closing()
    ensures |Payloads(image)| <= MAX_BLOCKS
  {
    PlanEnd(name, image);
  }
}
