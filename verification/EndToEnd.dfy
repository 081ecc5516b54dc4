/**
 The sender of module Sender against the receiver of module Receiver, over a line that loses nothing but
 may flip bits on the way to the receiver.
 */
module EndToEnd {
  import opened Bytes
  import opened SerialPort
  import opened Crc16
  import opened Packets
  import opened Sender
  import opened Transcript
  import opened Receiver
  import opened Noise
  import opened FarEnd

  /** The receiver before it hears anything, having called for CRC mode `calls` times. */
  function Far(calls: nat, noise: seq<byte>): Ear {
    Ear(Begin(calls), noise)
  }

  /** What the line will flip behind block k. */
  function NoiseAfter(noise: seq<byte>, name: seq<byte>, image: seq<byte>, k: nat): seq<byte>
    requires k <= |Payloads(image)|
  {
    Beyond(noise, |SentThrough(name, image, k)|)
  }

  /** Every block comes through whole, or with its kind octet intact and small damage behind it; EOT may become anything. */
  predicate Gentle(noise: seq<byte>, name: seq<byte>, image: seq<byte>) {
    forall k :: 0 <= k <= |Payloads(image)| + 1 ==> BlockIsMild(noise, name, image, k)
  }

  /** Block 0, the data blocks, the null block. */
  predicate BlockIsMild(noise: seq<byte>, name: seq<byte>, image: seq<byte>, k: nat)
    requires k <= |Payloads(image)| + 1
  {
    if k == 0 then Mild(HeaderFrame(name, |image|), noise)
    else if k <= |Payloads(image)| then Mild(DataFrame(k, Payloads(image)[k - 1]), NoiseAfter(noise, name, image, k - 1))
    else Mild(NullFrame(), Beyond(NoiseAfter(noise, name, image, |Payloads(image)|), 1))
  }

  // ------------------------------------------------------------------ the receiver's side of each phase

  function Replies(calls: nat, answer: seq<byte>): seq<byte> {
    Repeat(CRC16, calls) + answer
  }

  /** The queue in the opening, when block 0 was understood. */
  lemma UnderstoodQueue(calls: nat, out: seq<byte>)
    requires out == Replies(calls, [ACK, CRC16])
    ensures |out| == calls + 2
    ensures calls < WAIT_TRIES ==> InReach(out[0..], ACK, calls) && InReach(out[calls + 1..], CRC16, 0)
    ensures calls >= WAIT_TRIES ==> OutOfReach(out[0..], ACK)
  {
  }

  /** The queue in the opening, when block 0 closed the batch. */
  lemma ClosedQueue(calls: nat, out: seq<byte>)
    requires out == Replies(calls, [ACK])
    ensures |out| == calls + 1 && OutOfReach(out[calls + 1..], CRC16)
    ensures calls < WAIT_TRIES ==> InReach(out[0..], ACK, calls)
    ensures calls >= WAIT_TRIES ==> OutOfReach(out[0..], ACK)
  {
  }

  /** The queue in the opening, when block 0 was not understood. */
  lemma RefusedQueue(calls: nat, out: seq<byte>)
    requires out == Replies(calls, [NAK])
    ensures OutOfReach(out[0..], ACK)
  {
  }

  lemma BlockQueue(out: seq<byte>)
    ensures |out + [ACK]| == |out| + 1 && InReach((out + [ACK])[|out|..], ACK, 0)
  {
    assert (out + [ACK])[|out|..] == [ACK];
  }

  lemma RefusedBlockQueue(out: seq<byte>)
    ensures |out| <= |out + [NAK]| && OutOfReach((out + [NAK])[|out|..], ACK)
  {
    assert (out + [NAK])[|out|..] == [NAK];
  }

  /** The queue while the batch is being closed. */
  lemma EndQueue(out: seq<byte>, all: seq<byte>)
    requires all == out + [ACK, CRC16]
    ensures |all| == |out| + 2 && InReach(all[|out|..], ACK, 0)
    ensures |all + [ACK]| == |out| + 3 && InReach((all + [ACK])[|out| + 1..], ACK, 1)
    ensures OutOfReach(all[|out| + 1..], ACK) && OutOfReach((all + [NAK])[|out| + 1..], ACK)
  {
    assert all[|out|..] == [ACK, CRC16];
    assert all[|out| + 1..] == [CRC16] && (all + [NAK])[|out| + 1..] == [CRC16, NAK];
    assert (all + [ACK])[|out| + 1..] == [CRC16, ACK];
  }

  /** The receiver after block 0. */
  lemma HeaderArrives(calls: nat, name: seq<byte>, size: nat)
    ensures var r := Listen(Begin(calls), HeaderFrame(name, size));
            && Delivered(r) == None
            && match HeaderReading(name, size)
               case None => r.out == Replies(calls, [ACK]) || r.out == Replies(calls, [NAK])
               case Some(h) => r == State(Receiving(1), [], Some(h), [], Replies(calls, [ACK, CRC16]))
  {
    var payload := HeaderPayload(name, size);
    hide Listen, HeaderPayload, ParseHeader, Frame;
    FrameArrives(Begin(calls), SOH, 0, payload);
  }

  /** The receiver after `n` data blocks, `h` being what it read in block 0. */
  predicate InBlocks(r: State, h: Header, payloads: seq<seq<byte>>, n: nat) {
    n <= |payloads| && r == State(Receiving(Expected(n)), [], Some(h), Flatten(payloads[..n]), r.out)
  }

  lemma BlockArrives(r: State, h: Header, payloads: seq<seq<byte>>, n: nat)
    requires InBlocks(r, h, payloads, n) && n < |payloads|
    requires |payloads[n]| == PACKET_SIZE || |payloads[n]| == PACKET_1K_SIZE
    ensures var r' := Listen(r, DataFrame(n + 1, payloads[n]));
            InBlocks(r', h, payloads, n + 1) && r'.out == r.out + [ACK]
  {
    assert payloads[..n + 1] == payloads[..n] + [payloads[n]];
    FlattenSnoc(payloads[..n], payloads[n]);
    hide Listen, Frame, Flatten, WireNumber;
    ExpectedIsSent(n);
    FrameArrives(r, Kind(payloads[n]), WireNumber(n + 1), payloads[n]);
  }

  /** EOT after `n` blocks. */
  lemma EotArrives(r: State, h: Header, payloads: seq<seq<byte>>, n: nat)
    requires InBlocks(r, h, payloads, n)
    ensures Listen(r, [EOT]) == r.(stage := Between, out := r.out + [ACK, CRC16])
  {
    hide Flatten;
    WholeBlock(r, [EOT]);
  }

  lemma BlocksDeliverNothing(r: State, h: Header, payloads: seq<seq<byte>>, n: nat)
    requires InBlocks(r, h, payloads, n)
    ensures r.inbuf == [] && r.header == Some(h) && Expects(r, WireNumber(n + 1)) && Delivered(r) == None
  {
    hide WireNumber;
    ExpectedIsSent(n);
  }

  /** Anything but EOT in place of EOT draws no reply. */
  lemma OtherOctet(r: State, h: Header, payloads: seq<seq<byte>>, n: nat, b: byte)
    requires InBlocks(r, h, payloads, n) && b != EOT
    ensures Listen(r, [b]).out == r.out && Delivered(Listen(r, [b])) == None
  {
    hide Flatten, Accept;
    assert [b][..0] == [] && Listen(r, []) == r;
    assert BlockLength(b) == 0 || BlockLength(b) > 1;
  }

  /** The receiver has seen EOT and holds the file. */
  predicate AtEnd(r: State) {
    r.inbuf == [] && r.stage == Between
  }

  lemma NullAccepted(r: State)
    requires AtEnd(r)
    ensures Listen(r, NullFrame()) == r.(stage := Closed, out := r.out + [ACK])
  {
    hide Listen, Frame;
    FrameArrives(r, SOH, 0, NULL_PAYLOAD);
  }

  lemma NullFrameParts()
    ensures NullFrame() == Head(SOH, 0) + NULL_PAYLOAD + Trailer(NULL_PAYLOAD)
    ensures |NullFrame()| == 133 && |Head(SOH, 0) + NULL_PAYLOAD| == 131 && (Head(SOH, 0) + NULL_PAYLOAD)[0] == SOH
  {
  }

  /** The null block comes in three pieces. */
  lemma ThreePieces(ear: Ear, start: seq<byte>, hi: seq<byte>, lo: seq<byte>)
    ensures Hear(Hear(Hear(ear, start), hi), lo) == Hear(ear, start + hi + lo)
  {
    hide *;
    HearAppend(ear, start, hi);
    HearAppend(ear, start + hi, lo);
  }

  /** Part of a block draws no reply. */
  lemma Unfinished(r: State, octets: seq<byte>)
    requires r.inbuf == [] && octets != [] && |octets| < BlockLength(octets[0])
    ensures Listen(r, octets) == r.(inbuf := octets)
  {
    var n := BlockLength(octets[0]);
    var block := octets + Repeat(0, n - |octets|);
    hide Listen, BlockLength;
    PartialBlock(r, block, |octets|);
    assert block[..|octets|] == octets;
  }

  /** A null block that lost an octet of its CRC is never finished, whatever becomes of the rest. */
  lemma CutNullBlock(ear: Ear, hi: seq<byte>, lo: seq<byte>)
    requires AtEnd(ear.r) && |hi| + |lo| < 2 && Clear(ear.noise, 1)
    ensures var r := Hear(ear, Head(SOH, 0) + NULL_PAYLOAD + hi + lo).r; r.out == ear.r.out && Delivered(r) == None
  {
    var octets := Head(SOH, 0) + NULL_PAYLOAD + hi + lo;
    NullFrameParts();
    assert 0 < |octets| < 133 && octets[0] == SOH && BlockLength(SOH) == 133;
    hide Head, Spoilt, Listen, BlockLength;
    FirstOctet(octets, ear.noise);
    Unfinished(ear.r, Spoilt(octets, ear.noise));
  }

  /** A whole null block closes the batch if it comes through, else it is refused. */
  lemma WholeNullBlock(ear: Ear)
    requires AtEnd(ear.r) && Mild(NullFrame(), ear.noise)
    ensures var r := Hear(ear, NullFrame()).r;
            if Clear(ear.noise, |NullFrame()|) then r == ear.r.(stage := Closed, out := ear.r.out + [ACK])
            else r == ear.r.(out := ear.r.out + [NAK])
  {
    NullFrameParts();
    assert NullFrame() == Frame(SOH, 0, NULL_PAYLOAD);
    hide Listen, Frame, Spoilt, Small;
    if Clear(ear.noise, |NullFrame()|) {
      HearClear(ear, NullFrame());
      NullAccepted(ear.r);
    } else {
      SpoiltBlockIsRefused(ear, SOH, 0, NULL_PAYLOAD);
    }
  }

  // ------------------------------------------------------------------ the run against the receiver

  lemma StartAt(far: Ear, plan: seq<Action>, segs: seq<Log>)
    requires |segs| <= |plan|
    ensures At(far, plan, segs, 0, far, 0)
  {
    HearNothing(far);
    assert segs[..0] == [];
  }

  lemma PlanOpens(name: seq<byte>, image: seq<byte>)
    ensures var plan := Plan(name, image);
            && |plan| >= 3 && plan[0] == Packet(HeaderFrame(name, |image|))
            && plan[1] == Await(ACK) && plan[2] == Await(CRC16)
            && Octets(plan[0]) == HeaderFrame(name, |image|) != []
  {
  }

  lemma HeaderSent(peer: Peer, far: Ear, name: seq<byte>, image: seq<byte>, segs: seq<Log>)
    requires Session(peer, far, Plan(name, image), segs)
    ensures At(far, Plan(name, image), segs, 1, Hear(far, HeaderFrame(name, |image|)), 0)
  {
    hide *;
    SessionFacts(peer, far, Plan(name, image), segs);
    StartAt(far, Plan(name, image), segs);
    PlanOpens(name, image);
    SendAt(peer, far, Plan(name, image), segs, 0, far, 0);
    PacketLine(Plan(name, image)[0], segs[0]);
  }

  /** Block 0 comes through, or is refused. */
  lemma HeaderHeard(calls: nat, noise: seq<byte>, name: seq<byte>, size: nat)
    requires Mild(HeaderFrame(name, size), noise)
    ensures var ear, n := Hear(Far(calls, noise), HeaderFrame(name, size)), |HeaderFrame(name, size)|;
            if Clear(noise, n) then ear == Ear(Listen(Begin(calls), HeaderFrame(name, size)), Beyond(noise, n))
            else ear.r.out == Replies(calls, [NAK]) && Delivered(ear.r) == None
  {
    hide Listen, HeaderPayload, Frame, Spoilt, Small, Beyond;
    if Clear(noise, |HeaderFrame(name, size)|) {
      HearClear(Far(calls, noise), HeaderFrame(name, size));
    } else {
      SpoiltBlockIsRefused(Far(calls, noise), SOH, 0, HeaderPayload(name, size));
    }
  }

  /** The opening fails when block 0 is damaged or not understood, or when twenty calls are still unread. */
  lemma OpeningFails(peer: Peer, calls: nat, noise: seq<byte>, name: seq<byte>, image: seq<byte>, segs: seq<Log>)
    requires Session(peer, Far(calls, noise), Plan(name, image), segs) && Mild(HeaderFrame(name, |image|), noise)
    requires || HeaderReading(name, |image|) == None || calls >= WAIT_TRIES
             || !Clear(noise, |HeaderFrame(name, |image|)|)
    ensures Fails(Far(calls, noise), Plan(name, image), segs)
  {
    var far, plan, ear := Far(calls, noise), Plan(name, image), Hear(Far(calls, noise), HeaderFrame(name, |image|));
    var tries := WAIT_TRIES;
    hide *;
    HeaderSent(peer, far, name, image, segs);
    HeaderHeard(calls, noise, name, |image|);
    HeaderArrives(calls, name, |image|);
    PlanOpens(name, image);
    if ear.r.out == Replies(calls, [NAK]) {
      RefusedQueue(calls, ear.r.out);
      RefuseAt(peer, far, plan, segs, 1, ear, 0, ACK);
    } else if ear.r.out == Replies(calls, [ACK]) {
      ClosedOpeningFails(peer, far, calls, plan, segs, ear);
    } else {
      UnderstoodQueue(calls, ear.r.out);
      RefuseAt(peer, far, plan, segs, 1, ear, 0, ACK);
    }
  }

  lemma ClosedOpeningFails(peer: Peer, far: Ear, calls: nat, plan: seq<Action>, segs: seq<Log>, ear: Ear)
    requires Session(peer, far, plan, segs) && |plan| >= 3 && plan[1] == Await(ACK) && plan[2] == Await(CRC16)
    requires At(far, plan, segs, 1, ear, 0) && ear.r.out == Replies(calls, [ACK]) && Delivered(ear.r) == None
    ensures Fails(far, plan, segs)
  {
    hide *;
    ClosedQueue(calls, ear.r.out);
    if calls < WAIT_TRIES {
      HearAt(peer, far, plan, segs, 1, ear, 0, ACK, calls);
      RefuseAt(peer, far, plan, segs, 2, ear, calls + 1, CRC16);
    } else {
      RefuseAt(peer, far, plan, segs, 1, ear, 0, ACK);
    }
  }

  lemma OpeningWorks(peer: Peer, calls: nat, noise: seq<byte>, name: seq<byte>, image: seq<byte>, segs: seq<Log>, h: Header)
    returns (r: State)
    requires Session(peer, Far(calls, noise), Plan(name, image), segs) && Mild(HeaderFrame(name, |image|), noise)
    requires HeaderReading(name, |image|) == Some(h) && calls < WAIT_TRIES && Clear(noise, |HeaderFrame(name, |image|)|)
    ensures At(Far(calls, noise), Plan(name, image), segs, 3, Ear(r, NoiseAfter(noise, name, image, 0)), |r.out|)
    ensures InBlocks(r, h, Payloads(image), 0)
  {
    r := Listen(Begin(calls), HeaderFrame(name, |image|));
    NoiseFirst(noise, name, image);
    hide *;
    HeaderSent(peer, Far(calls, noise), name, image, segs);
    HeaderHeard(calls, noise, name, |image|);
    HeaderArrives(calls, name, |image|);
    PlanOpens(name, image);
    TwoWaits(peer, Far(calls, noise), calls, Plan(name, image), segs, Ear(r, NoiseAfter(noise, name, image, 0)));
    NoBlocksYet(r, h, Payloads(image));
  }

  lemma NoiseFirst(noise: seq<byte>, name: seq<byte>, image: seq<byte>)
    ensures NoiseAfter(noise, name, image, 0) == Beyond(noise, |HeaderFrame(name, |image|)|)
  {
    SentFirst(name, image);
    hide SentThrough, HeaderFrame, Payloads;
  }

  lemma TwoWaits(peer: Peer, far: Ear, calls: nat, plan: seq<Action>, segs: seq<Log>, ear: Ear)
    requires Session(peer, far, plan, segs) && |plan| >= 3 && plan[1] == Await(ACK) && plan[2] == Await(CRC16)
    requires At(far, plan, segs, 1, ear, 0) && ear.r.out == Replies(calls, [ACK, CRC16]) && calls < WAIT_TRIES
    ensures At(far, plan, segs, 3, ear, |ear.r.out|)
  {
    hide *;
    UnderstoodQueue(calls, ear.r.out);
    HearAt(peer, far, plan, segs, 1, ear, 0, ACK, calls);
    HearAt(peer, far, plan, segs, 2, ear, calls + 1, CRC16, 0);
  }

  lemma NoBlocksYet(r: State, h: Header, payloads: seq<seq<byte>>)
    requires r == State(Receiving(1), [], Some(h), [], r.out)
    ensures InBlocks(r, h, payloads, 0)
  {
    assert payloads[..0] == [];
  }

  lemma BlockOctets(n: nat, payload: seq<byte>)
    ensures Octets(Packet(DataFrame(n, payload))) == DataFrame(n, payload) != []
  {
  }

  lemma BlocksBound(payloads: seq<seq<byte>>, n: nat)
    requires n <= BlocksSent(payloads)
    ensures n <= |payloads| && (n < BlocksSent(payloads) ==> n < |payloads|)
  {
  }

  /** One more block is sent. */
  lemma BlockSent(peer: Peer, far: Ear, name: seq<byte>, image: seq<byte>, segs: seq<Log>, n: nat, ear: Ear)
    requires Session(peer, far, Plan(name, image), segs) && n < BlocksSent(Payloads(image)) && n < |Payloads(image)|
    requires At(far, Plan(name, image), segs, 3 + 2 * n, ear, |ear.r.out|)
    ensures |Plan(name, image)| >= 5 + 2 * n && Plan(name, image)[4 + 2 * n] == Await(ACK)
    ensures At(far, Plan(name, image), segs, 4 + 2 * n, Hear(ear, DataFrame(n + 1, Payloads(image)[n])), |ear.r.out|)
  {
    var plan, payloads := Plan(name, image), Payloads(image);
    hide *;
    PlanAt(name, image, n);
    BlockOctets(n + 1, payloads[n]);
    SendAt(peer, far, plan, segs, 2 * n + 3, ear, |ear.r.out|);
    PacketLine(plan[2 * n + 3], segs[2 * n + 3]);
  }

  /** It comes through, is acknowledged and kept. */
  lemma OneBlockWorks(peer: Peer, far: Ear, name: seq<byte>, image: seq<byte>, segs: seq<Log>, h: Header, n: nat,
                      r: State, noise: seq<byte>)
    returns (r': State)
    requires Session(peer, far, Plan(name, image), segs) && n < BlocksSent(Payloads(image)) && n < |Payloads(image)|
    requires At(far, Plan(name, image), segs, 3 + 2 * n, Ear(r, noise), |r.out|) && InBlocks(r, h, Payloads(image), n)
    requires Clear(noise, |DataFrame(n + 1, Payloads(image)[n])|)
    ensures At(far, Plan(name, image), segs, 5 + 2 * n,
               Ear(r', Beyond(noise, |DataFrame(n + 1, Payloads(image)[n])|)), |r'.out|)
    ensures InBlocks(r', h, Payloads(image), n + 1)
  {
    var plan, payloads := Plan(name, image), Payloads(image);
    hide *;
    PayloadSizes(image);
    assert payloads[n] in payloads;
    r' := Listen(r, DataFrame(n + 1, payloads[n]));
    BlockSent(peer, far, name, image, segs, n, Ear(r, noise));
    HearClear(Ear(r, noise), DataFrame(n + 1, payloads[n]));
    BlockArrives(r, h, payloads, n);
    BlockQueue(r.out);
    HearAt(peer, far, plan, segs, 2 * n + 4, Ear(r', Beyond(noise, |DataFrame(n + 1, payloads[n])|)), |r.out|, ACK, 0);
  }

  /** Or it is damaged, refused, and was the last. */
  lemma OneBlockFails(peer: Peer, far: Ear, name: seq<byte>, image: seq<byte>, segs: seq<Log>, h: Header, n: nat,
                      r: State, noise: seq<byte>)
    requires Session(peer, far, Plan(name, image), segs) && n < BlocksSent(Payloads(image)) && n < |Payloads(image)|
    requires At(far, Plan(name, image), segs, 3 + 2 * n, Ear(r, noise), |r.out|) && InBlocks(r, h, Payloads(image), n)
    requires var frame := DataFrame(n + 1, Payloads(image)[n]); Mild(frame, noise) && !Clear(noise, |frame|)
    ensures Fails(far, Plan(name, image), segs)
  {
    var plan, payloads := Plan(name, image), Payloads(image);
    hide *;
    PayloadSizes(image);
    assert payloads[n] in payloads;
    BlockSent(peer, far, name, image, segs, n, Ear(r, noise));
    DataBlockRefused(r, h, payloads, n, noise);
    RefusedBlockQueue(r.out);
    RefuseAt(peer, far, plan, segs, 2 * n + 4, Hear(Ear(r, noise), DataFrame(n + 1, payloads[n])), |r.out|, ACK);
  }

  lemma DataBlockRefused(r: State, h: Header, payloads: seq<seq<byte>>, n: nat, noise: seq<byte>)
    requires InBlocks(r, h, payloads, n) && n < |payloads|
    requires |payloads[n]| == PACKET_SIZE || |payloads[n]| == PACKET_1K_SIZE
    requires var frame := DataFrame(n + 1, payloads[n]); Mild(frame, noise) && !Clear(noise, |frame|)
    ensures var r' := Hear(Ear(r, noise), DataFrame(n + 1, payloads[n])).r;
            r'.out == r.out + [NAK] && Delivered(r') == None
  {
    BlocksDeliverNothing(r, h, payloads, n);
    hide Frame, WireNumber, Clear, Small, Spoilt, Listen, Flatten, Expects, Beyond, Mild;
    SpoiltBlockIsRefused(Ear(r, noise), Kind(payloads[n]), WireNumber(n + 1), payloads[n]);
  }

  lemma GentleFacts(noise: seq<byte>, name: seq<byte>, image: seq<byte>)
    requires Gentle(noise, name, image)
    ensures Mild(HeaderFrame(name, |image|), noise)
    ensures Mild(NullFrame(), Beyond(NoiseAfter(noise, name, image, |Payloads(image)|), 1))
  {
    hide Mild, NoiseAfter, Payloads, Frame, Beyond;
    assert BlockIsMild(noise, name, image, 0);
    assert BlockIsMild(noise, name, image, |Payloads(image)| + 1);
  }

  lemma GentleBlock(noise: seq<byte>, name: seq<byte>, image: seq<byte>, n: nat)
    requires Gentle(noise, name, image) && n < |Payloads(image)|
    ensures Mild(DataFrame(n + 1, Payloads(image)[n]), NoiseAfter(noise, name, image, n))
  {
    hide Mild, NoiseAfter, Payloads, Frame;
    assert BlockIsMild(noise, name, image, n + 1);
  }

  lemma NoiseNext(noise: seq<byte>, name: seq<byte>, image: seq<byte>, n: nat)
    requires n < |Payloads(image)|
    ensures var m := |DataFrame(n + 1, Payloads(image)[n])|;
            && NoiseAfter(noise, name, image, n + 1) == Beyond(NoiseAfter(noise, name, image, n), m)
            && (Clear(noise, |SentThrough(name, image, n + 1)|) <==>
                Clear(noise, |SentThrough(name, image, n)|) && Clear(NoiseAfter(noise, name, image, n), m))
  {
    SentNext(name, image, n);
    hide SentThrough, Payloads, DataFrame, Clear, Beyond;
    ClearAdds(noise, |SentThrough(name, image, n)|, |DataFrame(n + 1, Payloads(image)[n])|);
  }

  /** After n blocks the receiver holds just these if all came through; else the transfer has failed. */
  lemma {:induction false} BlocksWork(peer: Peer, calls: nat, noise: seq<byte>, name: seq<byte>, image: seq<byte>,
                                    segs: seq<Log>, h: Header, n: nat)
    returns (r: State)
    requires Session(peer, Far(calls, noise), Plan(name, image), segs) && Gentle(noise, name, image)
    requires HeaderReading(name, |image|) == Some(h) && calls < WAIT_TRIES
    requires n <= BlocksSent(Payloads(image)) && n <= |Payloads(image)|
    ensures if Clear(noise, |SentThrough(name, image, n)|)
            then && At(Far(calls, noise), Plan(name, image), segs, 3 + 2 * n, Ear(r, NoiseAfter(noise, name, image, n)), |r.out|)
                 && InBlocks(r, h, Payloads(image), n)
            else Fails(Far(calls, noise), Plan(name, image), segs)
    decreases n
  {
    hide *;
    r := Begin(calls);
    if n == 0 {
      GentleFacts(noise, name, image);
      SentFirst(name, image);
      if Clear(noise, |HeaderFrame(name, |image|)|) {
        r := OpeningWorks(peer, calls, noise, name, image, segs, h);
      } else {
        OpeningFails(peer, calls, noise, name, image, segs);
      }
    } else {
      var before := BlocksWork(peer, calls, noise, name, image, segs, h, n - 1);
      BlocksBound(Payloads(image), n);
      NoiseNext(noise, name, image, n - 1);
      GentleBlock(noise, name, image, n - 1);
      if Clear(noise, |SentThrough(name, image, n)|) {
        r := OneBlockWorks(peer, Far(calls, noise), name, image, segs, h, n - 1, before, NoiseAfter(noise, name, image, n - 1));
      } else if Clear(noise, |SentThrough(name, image, n - 1)|) {
        OneBlockFails(peer, Far(calls, noise), name, image, segs, h, n - 1, before, NoiseAfter(noise, name, image, n - 1));
      }
    }
  }

  // ------------------------------------------------------------------ closing the batch

  lemma ClosingPlan(plan: seq<Action>, k: nat)
    requires k <= |plan| && plan[k..] == Closing()
    ensures |plan| == k + 6
    ensures plan[k] == Single(EOT) && Octets(plan[k]) == [EOT]
    ensures plan[k + 1] == Await(ACK) && plan[k + 5] == Await(ACK)
    ensures plan[k + 2].Packet? && plan[k + 3].Single? && plan[k + 4].Single?
    ensures var start, t := Head(SOH, 0) + NULL_PAYLOAD, Trailer(NULL_PAYLOAD);
            Octets(plan[k + 2]) == start != [] && Octets(plan[k + 3]) == [t[0]] && Octets(plan[k + 4]) == [t[1]]
  {
    hide Closing, Head, Trailer;
    ClosingActions(plan, k);
  }

  lemma SingleLine(plan: seq<Action>, segs: seq<Log>, k: nat)
    requires k < |segs| <= |plan|
    ensures Line(plan[k], segs[k]) == if plan[k].Single? && Drops(segs[k]) then [] else Octets(plan[k])
    ensures NothingDropped(plan, segs) && plan[k].Single? ==> !Drops(segs[k])
  {
    hide Drops;
  }

  /** EOT and its ACK, or a stop when EOT was dropped or damaged. */
  lemma EotPhase(peer: Peer, far: Ear, plan: seq<Action>, segs: seq<Log>, h: Header,
                 payloads: seq<seq<byte>>, n: nat, k: nat, r: State, noise: seq<byte>) returns (r1: State)
    requires Session(peer, far, plan, segs) && k <= |plan| && plan[k..] == Closing()
    requires At(far, plan, segs, k, Ear(r, noise), |r.out|) && InBlocks(r, h, payloads, n)
    ensures k < |segs| <= |plan| && r1 == r.(stage := Between, out := r.out + [ACK, CRC16])
    ensures if Drops(segs[k]) || !Clear(noise, 1) then Fails(far, plan, segs)
            else At(far, plan, segs, k + 2, Ear(r1, Beyond(noise, 1)), |r.out| + 1)
  {
    hide *;
    r1 := r.(stage := Between, out := r.out + [ACK, CRC16]);
    ClosingPlan(plan, k);
    SessionFacts(peer, far, plan, segs);
    SendAt(peer, far, plan, segs, k, Ear(r, noise), |r.out|);
    SingleLine(plan, segs, k);
    BlocksDeliverNothing(r, h, payloads, n);
    EmptyQueue(r.out);
    if Drops(segs[k]) {
      HearNothing(Ear(r, noise));
      RefuseAt(peer, far, plan, segs, k + 1, Ear(r, noise), |r.out|, ACK);
    } else if Clear(noise, 1) {
      HearClear(Ear(r, noise), [EOT]);
      EotArrives(r, h, payloads, n);
      EndQueue(r.out, r1.out);
      HearAt(peer, far, plan, segs, k + 1, Ear(r1, Beyond(noise, 1)), |r.out|, ACK, 0);
    } else {
      SpoiltEot(r, h, payloads, n, noise);
      RefuseAt(peer, far, plan, segs, k + 1, Hear(Ear(r, noise), [EOT]), |r.out|, ACK);
    }
  }

  lemma SpoiltEot(r: State, h: Header, payloads: seq<seq<byte>>, n: nat, noise: seq<byte>)
    requires InBlocks(r, h, payloads, n) && !Clear(noise, 1)
    ensures var r' := Hear(Ear(r, noise), [EOT]).r; r'.out == r.out && Delivered(r') == None
  {
    hide InBlocks, Listen, Spoilt;
    ClearIff([EOT], noise);
    var b := Spoilt([EOT], noise)[0];
    assert Spoilt([EOT], noise) == [b];
    OtherOctet(r, h, payloads, n, b);
  }

  lemma EmptyQueue(out: seq<byte>)
    ensures OutOfReach(out[|out|..], ACK)
  {
  }

  lemma SendThree(peer: Peer, far: Ear, plan: seq<Action>, segs: seq<Log>, k: nat, ear: Ear, taken: nat)
    requires Session(peer, far, plan, segs) && At(far, plan, segs, k, ear, taken) && k + 2 < |plan|
    requires plan[k].Packet? && !plan[k + 1].Await? && !plan[k + 2].Await?
    requires Octets(plan[k]) != [] && Octets(plan[k + 1]) != [] && Octets(plan[k + 2]) != []
    ensures k + 2 < |segs| <= |plan|
    ensures At(far, plan, segs, k + 3,
               Hear(ear, Octets(plan[k]) + Line(plan[k + 1], segs[k + 1]) + Line(plan[k + 2], segs[k + 2])), taken)
  {
    hide *;
    SessionFacts(peer, far, plan, segs);
    SendAt(peer, far, plan, segs, k, ear, taken);
    PacketLine(plan[k], segs[k]);
    SendAt(peer, far, plan, segs, k + 1, Hear(ear, Octets(plan[k])), taken);
    SendAt(peer, far, plan, segs, k + 2, Hear(Hear(ear, Octets(plan[k])), Line(plan[k + 1], segs[k + 1])), taken);
    ThreePieces(ear, Octets(plan[k]), Line(plan[k + 1], segs[k + 1]), Line(plan[k + 2], segs[k + 2]));
  }

  /** The null block and its ACK, or a stop when an octet of its CRC was dropped or it was damaged. */
  lemma NullPhase(peer: Peer, far: Ear, plan: seq<Action>, segs: seq<Log>, k: nat, out: seq<byte>, r1: State, noise: seq<byte>)
    returns (r2: State)
    requires Session(peer, far, plan, segs) && k <= |plan| && plan[k..] == Closing() && |plan| == k + 6
    requires At(far, plan, segs, k + 2, Ear(r1, noise), |out| + 1) && AtEnd(r1) && r1.out == out + [ACK, CRC16]
    requires Mild(NullFrame(), noise)
    ensures k + 4 < |segs| <= |plan| && r2 == r1.(stage := Closed, out := r1.out + [ACK])
    ensures if Drops(segs[k + 3]) || Drops(segs[k + 4]) || !Clear(noise, |NullFrame()|) then Fails(far, plan, segs)
            else At(far, plan, segs, k + 6, Ear(r2, Beyond(noise, |NullFrame()|)), |r2.out|)
  {
    hide *;
    r2 := r1.(stage := Closed, out := r1.out + [ACK]);
    ClosingPlan(plan, k);
    SendThree(peer, far, plan, segs, k + 2, Ear(r1, noise), |out| + 1);
    SingleLine(plan, segs, k + 3);
    SingleLine(plan, segs, k + 4);
    EndQueue(out, r1.out);
    NullSoFar(r1);
    var start, hi, lo := Head(SOH, 0) + NULL_PAYLOAD, Line(plan[k + 3], segs[k + 3]), Line(plan[k + 4], segs[k + 4]);
    var ear := Hear(Ear(r1, noise), start + hi + lo);
    if Drops(segs[k + 3]) || Drops(segs[k + 4]) {
      MildStart(noise);
      CutNullBlock(Ear(r1, noise), hi, lo);
      RefuseAt(peer, far, plan, segs, k + 5, ear, |out| + 1, ACK);
    } else {
      NullPieces();
      WholeNullBlock(Ear(r1, noise));
      if Clear(noise, |NullFrame()|) {
        HearClear(Ear(r1, noise), NullFrame());
        HearAt(peer, far, plan, segs, k + 5, ear, |out| + 1, ACK, 1);
      } else {
        RefuseAt(peer, far, plan, segs, k + 5, ear, |out| + 1, ACK);
      }
    }
  }

  lemma NullSoFar(r1: State)
    requires AtEnd(r1)
    ensures forall out: seq<byte> :: Delivered(r1.(out := out)) == None
  {
  }

  lemma MildStart(noise: seq<byte>)
    requires Mild(NullFrame(), noise)
    ensures Clear(noise, 1)
  {
    NullFrameParts();
    hide Small, Spoilt, Frame;
  }

  lemma NullPieces()
    ensures var t := Trailer(NULL_PAYLOAD); Head(SOH, 0) + NULL_PAYLOAD + [t[0]] + [t[1]] == NullFrame()
  {
    NullFrameParts();
    var t := Trailer(NULL_PAYLOAD);
    hide Head, Trailer;
    assert t == [t[0]] + [t[1]];
  }

  // ------------------------------------------------------------------ the outcome

  lemma CompletedWhenAllDone(far: Ear, plan: seq<Action>, segs: seq<Log>, ear: Ear)
    requires At(far, plan, segs, |plan|, ear, |ear.r.out|)
    ensures Completed(plan, segs) && Heard(far, Flatten(segs)) == ear
  {
    assert segs[..|plan|] == segs;
  }

  lemma CutToLength(image: seq<byte>, pad: seq<byte>, size: nat)
    requires size <= |image|
    ensures size <= |image + pad| && (image + pad)[..size] == image[..size]
  {
  }

  /** Single octets are sent in the closing part only. */
  lemma SinglesAtEnd(name: seq<byte>, image: seq<byte>, i: nat)
    requires |Payloads(image)| <= MAX_BLOCKS && i < |Plan(name, image)| && Plan(name, image)[i].Single?
    ensures var k := 3 + 2 * |Payloads(image)|; i == k || i == k + 3 || i == k + 4
  {
    var plan, n := Plan(name, image), |Payloads(image)|;
    hide *;
    AllSent(Payloads(image));
    PlanEnd(name, image);
    ClosingActions(plan, 3 + 2 * n);
    PlanOpens(name, image);
    if 3 <= i < 3 + 2 * n {
      NoSinglesEarly(name, image, n, i);
    }
  }

  lemma NothingDroppedIff(plan: seq<Action>, segs: seq<Log>, k: nat)
    requires k + 4 < |segs| <= |plan| && plan[k].Single? && plan[k + 3].Single? && plan[k + 4].Single?
    requires forall i :: 0 <= i < |plan| && plan[i].Single? ==> i == k || i == k + 3 || i == k + 4
    ensures NothingDropped(plan, segs) <==> !Drops(segs[k]) && !Drops(segs[k + 3]) && !Drops(segs[k + 4])
  {
    hide Drops;
  }

  lemma AllSent(payloads: seq<seq<byte>>)
    requires |payloads| <= MAX_BLOCKS
    ensures BlocksSent(payloads) == |payloads|
  {
  }

  lemma WholeFile(r: State, h: Header, payloads: seq<seq<byte>>)
    requires InBlocks(r, h, payloads, |payloads|)
    ensures r.file == Flatten(payloads)
  {
    assert payloads[..|payloads|] == payloads;
  }

  lemma DeliveredFile(r: State, h: Header)
    requires r.stage == Closed && r.header == Some(h) && h.size <= |r.file|
    ensures Delivered(r) == Some((h.name, r.file[..h.size]))
  {
  }

  /** The transcript ends with EOT and the null block. */
  lemma ClearToTheEnd(noise: seq<byte>, name: seq<byte>, image: seq<byte>)
    requires |Payloads(image)| <= MAX_BLOCKS
    ensures var n := |Payloads(image)|;
            Clear(noise, |Ideal(Plan(name, image))|) <==>
            Clear(noise, |SentThrough(name, image, n)|) && Clear(NoiseAfter(noise, name, image, n), 1) &&
            Clear(Beyond(NoiseAfter(noise, name, image, n), 1), |NullFrame()|)
  {
    var n := |Payloads(image)|;
    TranscriptShape(name, image);
    AllSent(Payloads(image));
    assert Ideal(Plan(name, image)) == SentThrough(name, image, n) + ([EOT] + NullFrame());
    hide Ideal, Plan, Payloads, SentThrough, Clear, Beyond, NullFrame;
    ClearAdds(noise, |SentThrough(name, image, n)|, 1 + |NullFrame()|);
    ClearAdds(NoiseAfter(noise, name, image, n), 1, |NullFrame()|);
  }

  lemma SinglesAre(name: seq<byte>, image: seq<byte>)
    requires |Payloads(image)| <= MAX_BLOCKS
    ensures var plan, k := Plan(name, image), 3 + 2 * |Payloads(image)|;
            && |plan| == k + 6 && plan[k..] == Closing()
            && plan[k].Single? && plan[k + 3].Single? && plan[k + 4].Single?
            && forall i :: 0 <= i < |plan| && plan[i].Single? ==> i == k || i == k + 3 || i == k + 4
  {
    var plan, k := Plan(name, image), 3 + 2 * |Payloads(image)|;
    hide *;
    PlanEnd(name, image);
    ClosingActions(plan, k);
    forall i | 0 <= i < |plan| && plan[i].Single?
      ensures i == k || i == k + 3 || i == k + 4
    {
      SinglesAtEnd(name, image, i);
    }
  }

  /** With block 0 understood and few packets, the transfer works if nothing is dropped or damaged, else it fails. */
  lemma TransferWorks(peer: Peer, calls: nat, noise: seq<byte>, name: seq<byte>, image: seq<byte>, segs: seq<Log>, h: Header)
    requires Session(peer, Far(calls, noise), Plan(name, image), segs) && Gentle(noise, name, image)
    requires HeaderReading(name, |image|) == Some(h) && h.size <= |image| && calls < WAIT_TRIES
    requires PacketCount(|image|) <= MAX_BLOCKS && |segs| <= |Plan(name, image)|
    ensures if NothingDropped(Plan(name, image), segs) && Clear(noise, |Ideal(Plan(name, image))|)
            then && Completed(Plan(name, image), segs)
                 && Delivered(Heard(Far(calls, noise), Flatten(segs)).r) == Some((h.name, image[..h.size]))
            else Fails(Far(calls, noise), Plan(name, image), segs)
  {
    var far, plan, payloads := Far(calls, noise), Plan(name, image), Payloads(image);
    hide *;
    PayloadCount(image);
    AllSent(payloads);
    var n, k := |payloads|, 3 + 2 * |payloads|;
    SinglesAre(name, image);
    ClearToTheEnd(noise, name, image);
    GentleFacts(noise, name, image);
    var r := BlocksWork(peer, calls, noise, name, image, segs, h, n);
    if Clear(noise, |SentThrough(name, image, n)|) {
      BatchCloses(peer, far, plan, segs, h, image, k, r, NoiseAfter(noise, name, image, n));
    }
  }

  /** The end of the batch, once all blocks are there. */
  lemma BatchCloses(peer: Peer, far: Ear, plan: seq<Action>, segs: seq<Log>, h: Header, image: seq<byte>,
                    k: nat, r: State, noise: seq<byte>)
    requires Session(peer, far, plan, segs) && |segs| <= |plan| == k + 6 && plan[k..] == Closing()
    requires plan[k].Single? && plan[k + 3].Single? && plan[k + 4].Single?
    requires forall i :: 0 <= i < |plan| && plan[i].Single? ==> i == k || i == k + 3 || i == k + 4
    requires At(far, plan, segs, k, Ear(r, noise), |r.out|) && InBlocks(r, h, Payloads(image), |Payloads(image)|)
    requires h.size <= |image| && Mild(NullFrame(), Beyond(noise, 1))
    ensures if NothingDropped(plan, segs) && Clear(noise, 1) && Clear(Beyond(noise, 1), |NullFrame()|)
            then Completed(plan, segs) && Delivered(Heard(far, Flatten(segs)).r) == Some((h.name, image[..h.size]))
            else Fails(far, plan, segs)
  {
    hide *;
    var r1 := EotPhase(peer, far, plan, segs, h, Payloads(image), |Payloads(image)|, k, r, noise);
    if Drops(segs[k]) {
      SingleLine(plan, segs, k);
    } else if Clear(noise, 1) {
      AtEndNow(r, h, Payloads(image), r1);
      var r2 := NullPhase(peer, far, plan, segs, k, r.out, r1, Beyond(noise, 1));
      NothingDroppedIff(plan, segs, k);
      if NothingDropped(plan, segs) && Clear(Beyond(noise, 1), |NullFrame()|) {
        CompletedWhenAllDone(far, plan, segs, Ear(r2, Beyond(Beyond(noise, 1), |NullFrame()|)));
        FileIsWhole(r, h, image, r2);
      }
    }
  }

  lemma AtEndNow(r: State, h: Header, payloads: seq<seq<byte>>, r1: State)
    requires InBlocks(r, h, payloads, |payloads|) && r1 == r.(stage := Between, out := r1.out)
    ensures AtEnd(r1)
  {
  }

  lemma FileIsWhole(r: State, h: Header, image: seq<byte>, r2: State)
    requires InBlocks(r, h, Payloads(image), |Payloads(image)|) && h.size <= |image|
    requires r2 == r.(stage := Closed, out := r2.out)
    ensures Delivered(r2) == Some((h.name, image[..h.size]))
  {
    hide InBlocks, Payloads, Delivered;
    BlocksDeliverNothing(r, h, Payloads(image), |Payloads(image)|);
    WholeFile(r, h, Payloads(image));
    PayloadsCarryImage(image);
    CutToLength(image, Repeat(FILLER, PadLength(|image|)), h.size);
    DeliveredFile(r2, h);
  }

  /** With too many packets the receiver never has anything to show. */
  lemma TooLongDeliversNothing(peer: Peer, calls: nat, noise: seq<byte>, name: seq<byte>, image: seq<byte>, segs: seq<Log>,
                               h: Header)
    requires Session(peer, Far(calls, noise), Plan(name, image), segs) && Gentle(noise, name, image)
    requires HeaderReading(name, |image|) == Some(h) && calls < WAIT_TRIES && PacketCount(|image|) > MAX_BLOCKS
    ensures Delivered(Heard(Far(calls, noise), Flatten(segs)).r) == None
  {
    var far, plan, payloads := Far(calls, noise), Plan(name, image), Payloads(image);
    PayloadCount(image);
    var n := BlocksSent(payloads);
    assert n == MAX_BLOCKS < |payloads|;
    hide *;
    PlanWithoutClosing(name, image);
    var r := BlocksWork(peer, calls, noise, name, image, segs, h, n);
    if Clear(noise, |SentThrough(name, image, n)|) {
      BlocksDeliverNothing(r, h, payloads, n);
      CompletedWhenAllDone(far, plan, segs, Ear(r, NoiseAfter(noise, name, image, n)));
    } else {
      FailsMeans(far, plan, segs);
    }
  }

  lemma FailsMeans(far: Ear, plan: seq<Action>, segs: seq<Log>)
    requires Fails(far, plan, segs)
    ensures !Completed(plan, segs) && Delivered(Heard(far, Flatten(segs)).r) == None
  {
  }

  lemma RanSession(result: byte, log: Log, stalls: nat, name: seq<byte>, image: seq<byte>, segs: seq<Log>,
                   peer: Peer, far: Ear)
    requires Ran(result, log, stalls, name, image, segs)
    requires Answered(peer, log) && Conforming(peer, far)
    ensures |segs| <= |Plan(name, image)|
    ensures Session(peer, far, Plan(name, image), segs) && log == Flatten(segs)
  {
    hide Plan, Flatten, NothingDropped, Performed, Conforming, Answered;
  }

  /**
   The outcome against a conforming receiver over a line with gentle noise, exactly. The result is 0 just
   when the receiver had called fewer than twenty times, block 0 can be read, at most 896 packets are needed,
   no octet was dropped by Send_Byte and none damaged on the line. Then the receiver holds the first `size`
   octets of the image, `size` being what it read; else it has nothing to show.
   */
  lemma OutcomeIsExact(result: byte, log: Log, stalls: nat, name: seq<byte>, image: seq<byte>, segs: seq<Log>,
                       peer: Peer, calls: nat, noise: seq<byte>)
    requires Ran(result, log, stalls, name, image, segs) && Answered(peer, log) && Conforming(peer, Far(calls, noise))
    requires (forall i :: 0 <= i < |name| ==> name[i] != 0) && Gentle(noise, name, image)
    ensures |segs| <= |Plan(name, image)|
    ensures result == 0 <==>
            calls < WAIT_TRIES && HeaderReading(name, |image|).Some? && PacketCount(|image|) <= MAX_BLOCKS &&
            NothingDropped(Plan(name, image), segs) && Clear(noise, |Ideal(Plan(name, image))|)
    ensures result == 0 ==>
            var h := HeaderReading(name, |image|).value;
            h.size <= |image| && Delivered(Heard(Far(calls, noise), log).r) == Some((h.name, image[..h.size]))
    ensures result != 0 ==> Delivered(Heard(Far(calls, noise), log).r) == None
  {
    var far, plan := Far(calls, noise), Plan(name, image);
    hide *;
    RanSession(result, log, stalls, name, image, segs, peer, far);
    ZeroIffCompleted(result, log, stalls, name, image, segs);
    HeaderRoundTrip(name, |image|);
    GentleFacts(noise, name, image);
    if HeaderReading(name, |image|) == None || calls >= WAIT_TRIES {
      OpeningFails(peer, calls, noise, name, image, segs);
      FailsMeans(far, plan, segs);
    } else if PacketCount(|image|) <= MAX_BLOCKS {
      TransferWorks(peer, calls, noise, name, image, segs, HeaderReading(name, |image|).value);
      if !(NothingDropped(plan, segs) && Clear(noise, |Ideal(plan)|)) {
        FailsMeans(far, plan, segs);
      }
    } else {
      TooLongDeliversNothing(peer, calls, noise, name, image, segs, HeaderReading(name, |image|).value);
    }
  }

  /**
   End to end, both directions: the result is 0 and the receiver holds the file under its name exactly when
   block 0 fits its 128 octets, the image needs at most 896 packets, the receiver had called fewer than
   twenty times, Send_Byte dropped nothing and the line damaged nothing.
   */
  lemma FileArrivesIff(result: byte, log: Log, stalls: nat, name: seq<byte>, image: seq<byte>, segs: seq<Log>,
                       peer: Peer, calls: nat, noise: seq<byte>)
    requires Ran(result, log, stalls, name, image, segs) && Answered(peer, log) && Conforming(peer, Far(calls, noise))
    requires (forall i :: 0 <= i < |name| ==> name[i] != 0) && Gentle(noise, name, image)
    ensures |segs| <= |Plan(name, image)|
    ensures (result == 0 && Delivered(Heard(Far(calls, noise), log).r) == Some((name, image))) <==>
            Fits(name, |image|) && PacketCount(|image|) <= MAX_BLOCKS && calls < WAIT_TRIES &&
            NothingDropped(Plan(name, image), segs) && Clear(noise, |Ideal(Plan(name, image))|)
  {
    hide *;
    OutcomeIsExact(result, log, stalls, name, image, segs, peer, calls, noise);
    HeaderRoundTrip(name, |image|);
    if result == 0 {
      SameFile(HeaderReading(name, |image|).value, name, image);
    }
  }

  lemma SameFile(h: Header, name: seq<byte>, image: seq<byte>)
    requires h.name == name && h.size <= |image|
    ensures (h.name, image[..h.size]) == (name, image) <==> h.size == |image|
    ensures h.size == |image| <==> h == Header(name, |image|)
  {
    assert h.size == |image| ==> image[..h.size] == image;
  }

  /**
   The gap between the two: a name that leaves room for some digits but not for all still ends
   in success, and the receiver keeps a shorter file.
   */
  lemma LongNameShortensFile(result: byte, log: Log, stalls: nat, name: seq<byte>, image: seq<byte>, segs: seq<Log>,
                             peer: Peer, calls: nat, noise: seq<byte>)
    requires Ran(result, log, stalls, name, image, segs) && Answered(peer, log) && Conforming(peer, Far(calls, noise))
    requires (forall i :: 0 <= i < |name| ==> name[i] != 0) && Gentle(noise, name, image)
    requires name != [] && !Fits(name, |image|)
    ensures |segs| <= |Plan(name, image)|
    ensures result == 0 <==>
            |name| + 1 < PACKET_SIZE && PacketCount(|image|) <= MAX_BLOCKS && calls < WAIT_TRIES &&
            NothingDropped(Plan(name, image), segs) && Clear(noise, |Ideal(Plan(name, image))|)
    ensures result == 0 ==>
            exists n: nat :: n < |image| && Delivered(Heard(Far(calls, noise), log).r) == Some((name, image[..n]))
  {
    hide *;
    OutcomeIsExact(result, log, stalls, name, image, segs, peer, calls, noise);
    HeaderRoundTrip(name, |image|);
    ReadableIff(name, |image|);
    if result == 0 {
      var h := HeaderReading(name, |image|).value;
      assert Delivered(Heard(Far(calls, noise), log).r) == Some((name, image[..h.size]));
    }
  }

  /** A line that damages nothing is gentle. */
  lemma SilenceIsGentle(name: seq<byte>, image: seq<byte>)
    ensures Gentle([], name, image) && forall n: nat :: Clear([], n)
  {
    hide Small, Spoilt, HeaderFrame, DataFrame, Payloads, SentThrough, NullFrame;
  }

  const MAX_PATH := 260

  /** The buffer doUpdate passes as the file name. */
  method PathBuffer(path: seq<byte>) returns (filename: array<byte>)
    requires |path| <= 260 && forall i :: 0 <= i < |path| ==> path[i] != 0
    ensures fresh(filename) && filename.Length == MAX_PATH + 1 && filename[|path|] == 0
    ensures CString(filename[..]) == path
  {
    filename := new byte[MAX_PATH + 1](i => 0);
    for i := 0 to |path|
      invariant forall k :: 0 <= k < i ==> filename[k] == path[k]
      invariant forall k :: i <= k <= MAX_PATH ==> filename[k] == 0
    {
      filename[i] := path[i];
    }
    CStringIs(filename[..], |path|);
    assert filename[..][..|path|] == path;
  }

  /** Success and delivery go together with the five conditions. */
  ghost predicate ArrivesIff(result: byte, added: Log, path: seq<byte>, image: seq<byte>, segs: seq<Log>,
                             calls: nat, noise: seq<byte>)
  {
    && |segs| <= |Plan(path, image)|
    && ((result == 0 && Delivered(Heard(Far(calls, noise), added).r) == Some((path, image))) <==>
        Fits(path, |image|) && PacketCount(|image|) <= MAX_BLOCKS && calls < WAIT_TRIES &&
        NothingDropped(Plan(path, image), segs) && Clear(noise, |Ideal(Plan(path, image))|))
  }

  /** What the run of a transfer comes to, the log before it set aside. */
  lemma UpdateOutcome(result: byte, base: Log, added: Log, stalls: nat, path: seq<byte>, image: seq<byte>, segs: seq<Log>,
                      peer: Peer, calls: nat, noise: seq<byte>)
    requires Ran(result, added, stalls, path, image, segs) && Answered(peer, base + added)
    requires Conforming(Onward(peer, base), Far(calls, noise)) && Gentle(noise, path, image)
    requires forall i :: 0 <= i < |path| ==> path[i] != 0
    ensures ArrivesIff(result, added, path, image, segs, calls, noise)
    ensures |segs| <= |Plan(path, image)| && (stalls < SEND_TRIES ==> NothingDropped(Plan(path, image), segs))
  {
    var tries := SEND_TRIES;
    hide Ran, Answered, Conforming, Gentle, Delivered, Heard, Fits, Plan, PacketCount, NothingDropped, Clear, Ideal;
    AnsweredOnward(peer, base, added);
    FileArrivesIff(result, added, stalls, path, image, segs, Onward(peer, base), calls, noise);
    if stalls < tries {
      FewStallsDropNothing(result, added, stalls, path, image, segs);
    }
  }

  /**
   The part of doUpdate that matters here: the size guard, and the transfer, after whatever the
   menu dialogue left in the log. Against a receiver that conforms from there on the file
   arrives exactly under the five conditions; the guard alone does not give the second one, and
   the fourth holds whenever fewer than 25 writes come back empty.
   */
  method Update(port: Port, imageData: array<byte>, imageLen: nat, path: seq<byte>, ghost calls: nat, ghost noise: seq<byte>)
    returns (started: bool, result: byte, ghost segs: seq<Log>)
    requires imageLen <= imageData.Length
    requires |path| <= 260 && forall i :: 0 <= i < |path| ==> path[i] != 0
    requires port.open && Answered(port.peer, port.log)
    requires Conforming(Onward(port.peer, port.log), Far(calls, noise)) && Gentle(noise, path, imageData[..imageLen])
    modifies port
    ensures started <==> imageLen <= USER_FLASH_SIZE
    ensures !started ==> port.log == old(port.log)
    ensures old(port.log) <= port.log && |segs| <= |Plan(path, imageData[..imageLen])|
    ensures started ==>
              ArrivesIff(result, port.log[|old(port.log)|..], path, imageData[..imageLen], segs, calls, noise)
    ensures started && old(port.stalls) < SEND_TRIES ==> NothingDropped(Plan(path, imageData[..imageLen]), segs)
  {
    hide Plan, ArrivesIff, NothingDropped, Conforming, Gentle, Answered, Ran, Onward, CString, GoodProgress;
    segs := [];
    if imageLen > USER_FLASH_SIZE {
      return false, 0xFF, [];
    }
    var filename := PathBuffer(path);
    ghost var base, stalls := port.log, port.stalls;
    var progress;
    result, progress, segs := Transmit(port, imageData, filename, imageLen);
    started := true;
    ghost var added := port.log[|base|..];
    assert port.log == base + added;
    UpdateOutcome(result, base, added, stalls, path, imageData[..imageLen], segs, port.peer, calls, noise);
  }
}
