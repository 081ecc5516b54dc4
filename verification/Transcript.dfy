/** What any run of Ymodem_Transmit, whatever the peer answers, can have put on the line. */
module Transcript {
  import opened Bytes
  import opened SerialPort
  import opened Packets
  import opened Crc16
  import opened Sender

  /** The octets an action is meant to send. */
  function Octets(a: Action): seq<byte> {
    match a case Packet(data) => data case Single(b) => [b] case Await(_) => []
  }

  function Ideal(acts: seq<Action>): seq<byte> {
    if acts == [] then [] else Ideal(acts[..|acts| - 1]) + Octets(acts[|acts| - 1])
  }

  lemma {:induction false} IdealAppend(a: seq<Action>, b: seq<Action>)
    ensures Ideal(a + b) == Ideal(a) + Ideal(b)
    decreases |b|
  {
    if b == [] {
      assert a + b == a && Ideal(b) == [];
    } else {
      IdealAppend(a, b[..|b| - 1]);
      LastOfSum(a, b);
      Associative(Ideal(a), Ideal(b[..|b| - 1]), Octets(b[|b| - 1]));
      hide Octets;
    }
  }

  lemma IdealPrefix(acts: seq<Action>, k: nat)
    requires k <= |acts|
    ensures Ideal(acts[..k]) <= Ideal(acts)
  {
    hide *;
    IdealAppend(acts[..k], acts[k..]);
    assert acts[..k] + acts[k..] == acts;
  }

  lemma {:induction false} ReadsPutNothing(seg: Log)
    requires ReadsOnly(seg)
    ensures Wire(seg) == []
    decreases |seg|
  {
    if seg == [] {
    } else {
      ReadsPutNothing(seg[..|seg| - 1]);
    }
  }

  lemma {:induction false} StallsPutNothing(n: nat)
    ensures Wire(Stalled(n)) == []
    decreases n
  {
    if n == 0 {
    } else {
      StallsPutNothing(n - 1);
      assert Stalled(n)[..n - 1] == Stalled(n - 1);
    }
  }

  /** What one finished action put on the line. */
  lemma WireOfAction(a: Action, seg: Log)
    requires Done(a, seg)
    ensures Wire(seg) == if a.Single? && Drops(seg) then [] else Octets(a)
  {
    match a
    case Packet(data) =>
    case Await(ch) => ReadsPutNothing(seg);
    case Single(b) =>
      if Drops(seg) {
        StallsPutNothing(SEND_TRIES);
      } else {
        StallsPutNothing(|seg| - 1);
        WireAppend(Stalled(|seg| - 1), [Tx([b])]);
        WireOne(Tx([b]));
      }
  }

  lemma WireOfLast(a: Action, seg: Log)
    requires Done(a, seg) || (a.Await? && GivesUp(seg, a.ch))
    requires a.Single? ==> !Drops(seg)
    ensures Wire(seg) == Octets(a)
  {
    if Done(a, seg) {
      WireOfAction(a, seg);
    } else {
      ReadsPutNothing(seg);
    }
  }

  /** A run, finished or refused: all but the last action done, the last done or given up. */
  predicate Runs(plan: seq<Action>, segs: seq<Log>) {
    Performed(plan, segs) || Refused(plan, segs)
  }

  lemma RunsAt(plan: seq<Action>, segs: seq<Log>, i: nat)
    requires Runs(plan, segs) && i < |segs|
    ensures |segs| <= |plan|
    ensures Done(plan[i], segs[i]) || (plan[i].Await? && GivesUp(segs[i], plan[i].ch))
    ensures i < |segs| - 1 ==> Done(plan[i], segs[i])
  {
    if Refused(plan, segs) && i < |segs| - 1 {
      assert segs[..|segs| - 1][i] == segs[i];
    }
  }

  lemma IdealStep(plan: seq<Action>, k: nat)
    requires k < |plan|
    ensures Ideal(plan[..k + 1]) == Ideal(plan[..k]) + Octets(plan[k])
  {
    assert plan[..k + 1][..k] == plan[..k];
  }

  lemma FlattenStep(segs: seq<Log>, k: nat)
    requires k < |segs|
    ensures Flatten(segs[..k + 1]) == Flatten(segs[..k]) + segs[k]
    ensures Wire(Flatten(segs[..k + 1])) == Wire(Flatten(segs[..k])) + Wire(segs[k])
  {
    assert segs[..k + 1][..k] == segs[..k];
    WireAppend(Flatten(segs[..k]), segs[k]);
  }

  /** None of the first `k` actions dropped its octet. */
  predicate NoDropBefore(plan: seq<Action>, segs: seq<Log>, k: nat) {
    k <= |segs| && |segs| <= |plan| && forall i :: 0 <= i < k && plan[i].Single? ==> !Drops(segs[i])
  }

  lemma NoDropAtAll(plan: seq<Action>, segs: seq<Log>)
    requires |segs| <= |plan|
    ensures NothingDropped(plan, segs) <==> NoDropBefore(plan, segs, |segs|)
  {
    hide Drops;
  }

  lemma NoDropEarlier(plan: seq<Action>, segs: seq<Log>, k: nat)
    requires k > 0 && NoDropBefore(plan, segs, k)
    ensures NoDropBefore(plan, segs, k - 1) && (plan[k - 1].Single? ==> !Drops(segs[k - 1]))
  {
    hide Drops;
  }

  lemma NothingYet(plan: seq<Action>, segs: seq<Log>)
    ensures Wire(Flatten(segs[..0])) == Ideal(plan[..0])
  {
    assert segs[..0] == [] && plan[..0] == [];
  }

  lemma WireStep(plan: seq<Action>, segs: seq<Log>, k: nat)
    requires Runs(plan, segs) && k < |segs| <= |plan| && (plan[k].Single? ==> !Drops(segs[k]))
    requires Wire(Flatten(segs[..k])) == Ideal(plan[..k])
    ensures Wire(Flatten(segs[..k + 1])) == Ideal(plan[..k + 1])
  {
    hide *;
    RunsAt(plan, segs, k);
    WireOfLast(plan[k], segs[k]);
    FlattenStep(segs, k);
    IdealStep(plan, k);
  }

  lemma RunsWithin(plan: seq<Action>, segs: seq<Log>)
    requires Runs(plan, segs)
    ensures |segs| <= |plan|
  {
  }

  /** As long as nothing is dropped the wire holds exactly what the actions begun so far were to send. */
  lemma {:induction false} WireOfRun(plan: seq<Action>, segs: seq<Log>, k: nat)
    requires Runs(plan, segs) && NoDropBefore(plan, segs, k) && k <= |segs|
    ensures Wire(Flatten(segs[..k])) == Ideal(plan[..k])
    decreases k
  {
    hide *;
    RunsWithin(plan, segs);
    if k == 0 {
      NothingYet(plan, segs);
    } else {
      NoDropEarlier(plan, segs, k);
      WireOfRun(plan, segs, k - 1);
      WireStep(plan, segs, k - 1);
    }
  }

  lemma LineAtMost(a: Action, seg: Log)
    requires Done(a, seg) || (a.Await? && GivesUp(seg, a.ch))
    ensures |Wire(seg)| <= |Octets(a)|
  {
    if Done(a, seg) {
      WireOfAction(a, seg);
    } else {
      ReadsPutNothing(seg);
    }
    hide Done, GivesUp, Drops, Wire, Octets;
  }

  /** Dropped or not, the wire never holds more than that. */
  lemma {:induction false} WireAtMost(plan: seq<Action>, segs: seq<Log>, k: nat)
    requires Runs(plan, segs) && k <= |segs| <= |plan|
    ensures |Wire(Flatten(segs[..k]))| <= |Ideal(plan[..k])|
    decreases k
  {
    hide *;
    if k == 0 {
      NothingYet(plan, segs);
    } else {
      WireAtMost(plan, segs, k - 1);
      RunsAt(plan, segs, k - 1);
      LineAtMost(plan[k - 1], segs[k - 1]);
      FlattenStep(segs, k - 1);
      IdealStep(plan, k - 1);
    }
  }

  /** Number of octets dropped by Send_Byte. */
  function Dropped(plan: seq<Action>, segs: seq<Log>): nat
    requires |segs| <= |plan|
  {
    if segs == [] then 0
    else
      var n := |segs| - 1;
      Dropped(plan, segs[..n]) + if plan[n].Single? && Drops(segs[n]) then 1 else 0
  }

  /** A completed run is short on the line by exactly the dropped octets. */
  lemma {:induction false} WireLength(plan: seq<Action>, segs: seq<Log>, k: nat)
    requires Performed(plan, segs) && k <= |segs|
    ensures |Wire(Flatten(segs[..k]))| + Dropped(plan, segs[..k]) == |Ideal(plan[..k])|
    ensures Dropped(plan, segs[..k]) == 0 <==> NothingDropped(plan, segs[..k])
    decreases k
  {
    if k == 0 {
      assert segs[..0] == [] && plan[..0] == [];
    } else {
      var n := k - 1;
      WireLength(plan, segs, n);
      DroppedStep(plan, segs, n);
      assert Done(plan[n], segs[n]);
      SingleOctet(plan[n]);
      hide *;
      WireOfAction(plan[n], segs[n]);
      FlattenStep(segs, n);
      IdealStep(plan, n);
    }
  }

  lemma SingleOctet(a: Action)
    ensures a.Single? ==> |Octets(a)| == 1
  {
  }

  lemma DroppedStep(plan: seq<Action>, segs: seq<Log>, n: nat)
    requires n < |segs| <= |plan|
    ensures Dropped(plan, segs[..n + 1]) == Dropped(plan, segs[..n]) + if plan[n].Single? && Drops(segs[n]) then 1 else 0
    ensures NothingDropped(plan, segs[..n + 1]) <==> NothingDropped(plan, segs[..n]) && !(plan[n].Single? && Drops(segs[n]))
  {
    assert segs[..n + 1][..n] == segs[..n];
    hide Drops;
    assert forall i :: 0 <= i < n ==> segs[..n][i] == segs[i] && segs[..n + 1][i] == segs[i];
    assert segs[..n + 1][n] == segs[n];
  }

  /** The finished transfer is on the line in full exactly when no octet was dropped. */
  lemma CompleteIffNothingDropped(plan: seq<Action>, segs: seq<Log>)
    requires Completed(plan, segs)
    ensures Wire(Flatten(segs)) == Ideal(plan) <==> NothingDropped(plan, segs)
  {
    hide Ideal, Wire, Flatten, Dropped, Drops;
    WireLength(plan, segs, |segs|);
    assert plan[..|segs|] == plan && segs[..|segs|] == segs;
    if NothingDropped(plan, segs) {
      NoDropAtAll(plan, segs);
      WireOfRun(plan, segs, |segs|);
    }
  }

  /** Whatever the peer does: what is on the line is a prefix of the transcript. */
  lemma WireIsPrefix(result: byte, added: Log, stalls: nat, name: seq<byte>, image: seq<byte>, segs: seq<Log>)
    requires Ran(result, added, stalls, name, image, segs) && NothingDropped(Plan(name, image), segs)
    ensures Wire(added) <= Ideal(Plan(name, image))
    ensures result == 0 ==> Wire(added) == Ideal(Plan(name, image))
  {
    var plan := Plan(name, image);
    hide Plan, Wire, Ideal, Flatten, NothingDropped, GivesUp, Done;
    NoDropAtAll(plan, segs);
    WireOfRun(plan, segs, |segs|);
    IdealPrefix(plan, |segs|);
    assert segs[..|segs|] == segs && plan[..|plan|] == plan;
  }

  /** The result is 0 exactly when the plan has a closing part and every action in it was done. */
  lemma ZeroIffCompleted(result: byte, added: Log, stalls: nat, name: seq<byte>, image: seq<byte>, segs: seq<Log>)
    requires Ran(result, added, stalls, name, image, segs)
    ensures result == 0 <==> PacketCount(|image|) <= MAX_BLOCKS && Completed(Plan(name, image), segs)
  {
    PayloadCount(image);
    var plan := Plan(name, image);
    hide Plan, Payloads, Done, GivesUp, PacketCount;
    if Completed(plan, segs) && Refused(plan, segs) {
      HeardIsNotGivenUp(plan[|segs| - 1], segs[|segs| - 1]);
    }
  }

  /** When no wait fails, only the block limit can: the result is 0xFF exactly past 896 packets. */
  lemma GuardFiresIff(result: byte, added: Log, stalls: nat, name: seq<byte>, image: seq<byte>, segs: seq<Log>)
    requires Ran(result, added, stalls, name, image, segs) && Completed(Plan(name, image), segs)
    ensures result == 0xFF <==> PacketCount(|image|) > MAX_BLOCKS
    ensures |image| <= 911_232 ==> result == 0
    ensures |image| % PACKET_1K_SIZE == 0 && |image| <= USER_FLASH_SIZE ==> result == 0
  {
    ZeroIffCompleted(result, added, stalls, name, image, segs);
    CountBound(|image|);
    hide Plan, Payloads, Done, GivesUp, PacketCount;
  }

  lemma HeardIsNotGivenUp(a: Action, seg: Log)
    requires a.Await? && Done(a, seg)
    ensures !GivesUp(seg, a.ch)
  {
    assert seg[|seg| - 1] == Rx(a.ch);
  }

  /** Every dropped octet has cost 25 empty writes. */
  lemma {:induction false} DropsCostWrites(plan: seq<Action>, segs: seq<Log>)
    requires |segs| <= |plan|
    ensures SEND_TRIES * Dropped(plan, segs) <= Empties(Flatten(segs))
    ensures Dropped(plan, segs) == 0 <==> NothingDropped(plan, segs)
    decreases |segs|
  {
    if segs == [] {
    } else {
      var n := |segs| - 1;
      DropsCostWrites(plan, segs[..n]);
      assert segs[..n + 1] == segs;
      DroppedStep(plan, segs, n);
      FlattenStep(segs, n);
      hide Drops, Flatten, Dropped;
      EmptiesAppend(Flatten(segs[..n]), segs[n]);
      if Drops(segs[n]) {
        DropCost(segs[n]);
      }
    }
  }

  lemma DropCost(seg: Log)
    requires Drops(seg)
    ensures Empties(seg) == SEND_TRIES
  {
    StallsAreEmpty(SEND_TRIES);
  }

  lemma {:induction false} StallsAreEmpty(n: nat)
    ensures Empties(Stalled(n)) == n
    decreases n
  {
    if n == 0 {
    } else {
      StallsAreEmpty(n - 1);
      assert Stalled(n)[..n - 1] == Stalled(n - 1);
    }
  }

  /** Fewer than 25 empty writes leave no room for a dropped octet. */
  lemma FewStallsDropNothing(result: byte, added: Log, stalls: nat, name: seq<byte>, image: seq<byte>, segs: seq<Log>)
    requires Ran(result, added, stalls, name, image, segs) && stalls < SEND_TRIES
    ensures NothingDropped(Plan(name, image), segs)
  {
    hide Plan, Flatten, Dropped, Drops, Empties, Performed, GivesUp, Payloads;
    DropsCostWrites(Plan(name, image), segs);
  }

  // ------------------------------------------------------------------ the transcript

  /** The null block with its trailer. */
  function NullFrame(): seq<byte> {
    Frame(SOH, 0, NULL_PAYLOAD)
  }

  /** Blocks 1 to n as they travel. */
  function DataFrames(payloads: seq<seq<byte>>, n: nat): seq<byte>
    requires n <= |payloads|
  {
    if n == 0 then [] else DataFrames(payloads, n - 1) + DataFrame(n, payloads[n - 1])
  }

  lemma IdealOne(a: Action)
    ensures Ideal([a]) == Octets(a)
  {
    assert [a][..0] == [] && Ideal([]) == [];
  }

  lemma IdealSnoc(acts: seq<Action>, a: Action)
    ensures Ideal(acts + [a]) == Ideal(acts) + Octets(a)
  {
    assert (acts + [a])[..|acts|] == acts;
  }

  lemma {:induction false} IdealData(payloads: seq<seq<byte>>, n: nat)
    requires n <= |payloads|
    ensures Ideal(DataActions(payloads, n)) == DataFrames(payloads, n)
    decreases n
  {
    hide DataFrame, Octets;
    if n == 0 {
    } else {
      IdealData(payloads, n - 1);
      IdealPair(DataActions(payloads, n - 1), DataFrame(n, payloads[n - 1]));
    }
  }

  lemma IdealPair(acts: seq<Action>, frame: seq<byte>)
    ensures Ideal(acts + [Packet(frame), Await(ACK)]) == Ideal(acts) + frame
  {
    IdealSnoc(acts, Packet(frame));
    IdealSnoc(acts + [Packet(frame)], Await(ACK));
    assert acts + [Packet(frame), Await(ACK)] == acts + [Packet(frame)] + [Await(ACK)];
  }

  lemma IdealOpening(name: seq<byte>, size: nat)
    ensures Ideal(Opening(name, size)) == HeaderFrame(name, size)
  {
    var a := Packet(HeaderFrame(name, size));
    IdealOne(a);
    IdealSnoc([a], Await(ACK));
    IdealSnoc([a] + [Await(ACK)], Await(CRC16));
    assert Opening(name, size) == [a] + [Await(ACK)] + [Await(CRC16)];
  }

  lemma IdealTakes(acts: seq<Action>)
    requires |acts| == 6
    ensures Ideal(acts) ==
            Ideal(acts[..1]) + Octets(acts[1]) + Octets(acts[2]) + Octets(acts[3]) + Octets(acts[4]) + Octets(acts[5])
  {
    forall k | 1 <= k < 6
      ensures Ideal(acts[..k + 1]) == Ideal(acts[..k]) + Octets(acts[k])
    {
      IdealSnoc(acts[..k], acts[k]);
      assert acts[..k + 1] == acts[..k] + [acts[k]];
    }
    assert acts[..6] == acts;
    hide Ideal, Octets;
    assert Ideal(acts[..1 + 1]) == Ideal(acts[..1]) + Octets(acts[1]);
    assert Ideal(acts[..2 + 1]) == Ideal(acts[..2]) + Octets(acts[2]);
    assert Ideal(acts[..3 + 1]) == Ideal(acts[..3]) + Octets(acts[3]);
    assert Ideal(acts[..4 + 1]) == Ideal(acts[..4]) + Octets(acts[4]);
    assert Ideal(acts[..5 + 1]) == Ideal(acts[..5]) + Octets(acts[5]);
  }

  lemma IdealClosing()
    ensures Ideal(Closing()) == [EOT] + NullFrame()
  {
    var head, p, t := Head(SOH, 0), NULL_PAYLOAD, Trailer(NULL_PAYLOAD);
    assert Closing() == EndActions(EOT, ACK, head + p, t[0], t[1]);
    assert NullFrame() == head + p + t;
    hide *;
    IdealEnd(EOT, ACK, head + p, t[0], t[1]);
    assert [EOT] + (head + p) + [t[0]] + [t[1]] == [EOT] + (head + p + t);
  }

  function EndActions(eot: byte, ack: byte, block: seq<byte>, hi: byte, lo: byte): seq<Action> {
    [Single(eot), Await(ack), Packet(block), Single(hi), Single(lo), Await(ack)]
  }

  lemma IdealEnd(eot: byte, ack: byte, block: seq<byte>, hi: byte, lo: byte)
    ensures Ideal(EndActions(eot, ack, block, hi, lo)) == [eot] + block + [hi] + [lo]
  {
    EndOctets(eot, ack, block, hi, lo);
    IdealOne(Single(eot));
    hide *;
    IdealTakes(EndActions(eot, ack, block, hi, lo));
  }

  lemma EndOctets(eot: byte, ack: byte, block: seq<byte>, hi: byte, lo: byte)
    ensures var acts := EndActions(eot, ack, block, hi, lo);
            && |acts| == 6 && acts[..1] == [Single(eot)] && Octets(Single(eot)) == [eot]
            && Octets(acts[1]) == [] && Octets(acts[2]) == block && Octets(acts[3]) == [hi]
            && Octets(acts[4]) == [lo] && Octets(acts[5]) == []
  {
  }

  /** Block 0, blocks 1 to N once each in order, EOT, the null block; past 896 blocks, only the first part. */
  lemma TranscriptShape(name: seq<byte>, image: seq<byte>)
    ensures var payloads := Payloads(image);
            Ideal(Plan(name, image)) ==
            HeaderFrame(name, |image|) + DataFrames(payloads, BlocksSent(payloads)) +
            (if |payloads| <= MAX_BLOCKS then [EOT] + NullFrame() else [])
  {
    var payloads := Payloads(image);
    var n := BlocksSent(payloads);
    var opening, data := Opening(name, |image|), DataActions(payloads, n);
    var rest := if |payloads| <= MAX_BLOCKS then Closing() else [];
    IdealOpening(name, |image|);
    IdealData(payloads, n);
    IdealClosing();
    hide Ideal, Opening, DataActions, Closing, HeaderFrame, DataFrames, Payloads, NullFrame;
    IdealAppend(opening, data);
    IdealAppend(opening + data, rest);
    if |payloads| > MAX_BLOCKS {
      assert opening + data + [] == opening + data;
    }
  }

  // ------------------------------------------------------------------ stop and wait

  /** How many whole segments a prefix of the log covers. */
  lemma {:induction false} CoveredSegments(segs: seq<Log>, h: Log) returns (j: nat)
    requires h <= Flatten(segs)
    ensures j <= |segs| && Flatten(segs[..j]) <= h
    ensures j < |segs| ==> h <= Flatten(segs[..j + 1])
    decreases |segs|
  {
    assert segs[..|segs|] == segs;
    if segs == [] || h == Flatten(segs) {
      j := |segs|;
    } else {
      var n := |segs| - 1;
      if h <= Flatten(segs[..n]) {
        j := CoveredSegments(segs[..n], h);
        assert segs[..n][..j] == segs[..j];
        if j == n {
          assert segs[..n][..n] == segs[..n];
        } else {
          assert segs[..n][..j + 1] == segs[..j + 1];
        }
      } else {
        j := n;
        var whole := Flatten(segs[..n]);
        assert Flatten(segs) == whole + segs[n];
        assert |h| > |whole|;
        assert h[..|whole|] == Flatten(segs)[..|whole|];
      }
    }
  }

  lemma {:induction false} WirePrefix(h: Log, log: Log)
    requires h <= log
    ensures |Wire(h)| <= |Wire(log)|
  {
    WireAppend(h, log[|h|..]);
    assert log == h + log[|h|..];
  }

  /** Between positions m and n of the log nothing is sent, and `ch` is the last octet read. */
  predicate HeardAfter(h: Log, sent: seq<byte>, ch: byte, m: nat, n: nat) {
    m < n <= |h| && Wire(h[..m]) == sent && Wire(h[..n]) == sent && ReadsOnly(h[m..n]) && h[n - 1] == Rx(ch)
  }

  /**
   At every moment of a run: once an octet of action i is on the line, every wait before it has
   been answered, after all that was to be sent before the wait and before anything after it.
   */
  lemma StopAndWait(plan: seq<Action>, segs: seq<Log>, h: Log, w: nat, i: nat) returns (m: nat, n: nat)
    requires Runs(plan, segs) && h <= Flatten(segs)
    requires forall x :: 0 <= x < w && x < |plan| && plan[x].Single? && x < |segs| ==> !Drops(segs[x])
    requires w < i < |plan| && plan[w].Await? && |Wire(h)| > |Ideal(plan[..i])|
    ensures HeardAfter(h, Ideal(plan[..w]), plan[w].ch, m, n)
    ensures w < |segs| && m == |Flatten(segs[..w])| && n == |Flatten(segs[..w + 1])|
  {
    hide *;
    var j := CoveredSegments(segs, h);
    var begun := if j < |segs| then j + 1 else j;
    BegunBound(plan, segs, h, begun);
    RunsWithin(plan, segs);
    if begun <= i {
      IdealShorter(plan, begun, i);
    }
    assert w < j;
    RunsAt(plan, segs, w);
    NoDropSo(plan, segs, w);
    WireOfRun(plan, segs, w);
    m, n := WaitInLog(plan, segs, h, w, j);
  }

  lemma NoDropSo(plan: seq<Action>, segs: seq<Log>, w: nat)
    requires w <= |segs| <= |plan|
    requires forall x :: 0 <= x < w && x < |plan| && plan[x].Single? && x < |segs| ==> !Drops(segs[x])
    ensures NoDropBefore(plan, segs, w)
  {
    hide Drops;
  }

  lemma WaitInLog(plan: seq<Action>, segs: seq<Log>, h: Log, w: nat, j: nat) returns (m: nat, n: nat)
    requires w < j <= |segs| <= |plan| && Flatten(segs[..j]) <= h
    requires plan[w].Await? && Done(plan[w], segs[w]) && Wire(Flatten(segs[..w])) == Ideal(plan[..w])
    ensures HeardAfter(h, Ideal(plan[..w]), plan[w].ch, m, n)
    ensures m == |Flatten(segs[..w])| && n == |Flatten(segs[..w + 1])|
  {
    hide *;
    var early, seg := Flatten(segs[..w]), segs[w];
    m, n := |early|, |early + seg|;
    FlattenStep(segs, w);
    FlattenSplit(segs, w + 1, j);
    WaitEnds(plan[w], seg);
    Prefixes(early, seg, h);
    HeardThere(h, Ideal(plan[..w]), plan[w].ch, early, seg);
  }

  lemma FlattenSplit(segs: seq<Log>, i: nat, j: nat)
    requires i <= j <= |segs|
    ensures Flatten(segs[..i]) <= Flatten(segs[..j])
  {
    hide Flatten;
    FlattenAppend(segs[..i], segs[i..j]);
    assert segs[..i] + segs[i..j] == segs[..j];
  }

  lemma WaitEnds(a: Action, seg: Log)
    requires a.Await? && Done(a, seg)
    ensures seg != [] && ReadsOnly(seg) && seg[|seg| - 1] == Rx(a.ch) && Wire(seg) == []
  {
    ReadsPutNothing(seg);
  }

  lemma Prefixes(early: Log, seg: Log, h: Log)
    requires early + seg <= h
    ensures h[..|early|] == early && h[..|early + seg|] == early + seg && h[|early|..|early + seg|] == seg
    ensures seg != [] ==> h[|early + seg| - 1] == seg[|seg| - 1]
  {
    assert h[..|early + seg|] == early + seg;
    assert h[..|early|] == (early + seg)[..|early|];
    assert h[|early|..|early + seg|] == (early + seg)[|early|..];
  }

  lemma HeardThere(h: Log, sent: seq<byte>, ch: byte, early: Log, seg: Log)
    requires early + seg <= h && h[..|early|] == early && h[..|early + seg|] == early + seg
    requires h[|early|..|early + seg|] == seg && seg != [] && ReadsOnly(seg) && seg[|seg| - 1] == Rx(ch)
    requires h[|early + seg| - 1] == seg[|seg| - 1]
    requires Wire(early) == sent && Wire(early + seg) == sent + []
    ensures HeardAfter(h, sent, ch, |early|, |early + seg|)
  {
    assert sent + [] == sent;
    hide Wire, ReadsOnly;
  }

  lemma IdealShorter(plan: seq<Action>, k: nat, i: nat)
    requires k <= i <= |plan|
    ensures |Ideal(plan[..k])| <= |Ideal(plan[..i])|
  {
    hide *;
    IdealPrefix(plan[..i], k);
    assert plan[..i][..k] == plan[..k];
  }

  lemma BegunBound(plan: seq<Action>, segs: seq<Log>, h: Log, begun: nat)
    requires Runs(plan, segs) && begun <= |segs| && h <= Flatten(segs)
    requires begun < |segs| ==> h <= Flatten(segs[..begun])
    ensures begun <= |plan| && |Wire(h)| <= |Ideal(plan[..begun])|
  {
    hide *;
    RunsWithin(plan, segs);
    assert segs[..|segs|] == segs;
    WirePrefix(h, Flatten(segs[..begun]));
    WireAtMost(plan, segs, begun);
  }

  /** Block 0 and blocks 1 to k. */
  function SentThrough(name: seq<byte>, image: seq<byte>, k: nat): seq<byte>
    requires k <= |Payloads(image)|
  {
    HeaderFrame(name, |image|) + DataFrames(Payloads(image), k)
  }

  lemma PlanStart(name: seq<byte>, image: seq<byte>)
    ensures var plan := Plan(name, image);
            && |plan| >= 3 && plan[0] == Packet(HeaderFrame(name, |image|))
            && plan[1] == Await(ACK) && plan[2] == Await(CRC16)
  {
  }

  lemma WaitsSendNothing(plan: seq<Action>, k: nat)
    requires k < |plan| && plan[k].Await?
    ensures Ideal(plan[..k + 1]) == Ideal(plan[..k])
  {
    hide Ideal;
    IdealStep(plan, k);
  }

  lemma PacketSends(plan: seq<Action>, k: nat, data: seq<byte>)
    requires k < |plan| && plan[k] == Packet(data)
    ensures Ideal(plan[..k + 1]) == Ideal(plan[..k]) + data
  {
    hide Ideal;
    IdealStep(plan, k);
  }

  lemma SentNext(name: seq<byte>, image: seq<byte>, k: nat)
    requires k < |Payloads(image)|
    ensures SentThrough(name, image, k + 1) == SentThrough(name, image, k) + DataFrame(k + 1, Payloads(image)[k])
  {
    hide HeaderFrame, Payloads, DataFrame;
    Associative(HeaderFrame(name, |image|), DataFrames(Payloads(image), k), DataFrame(k + 1, Payloads(image)[k]));
  }

  lemma SentFirst(name: seq<byte>, image: seq<byte>)
    ensures SentThrough(name, image, 0) == HeaderFrame(name, |image|)
  {
    assert HeaderFrame(name, |image|) + [] == HeaderFrame(name, |image|);
    hide HeaderFrame;
  }

  /** What is to be sent before the waits that stand between block k and block k + 1. */
  lemma {:induction false} IdealThrough(name: seq<byte>, image: seq<byte>, k: nat)
    requires k <= BlocksSent(Payloads(image))
    ensures k <= |Payloads(image)| && |Plan(name, image)| >= 2 * k + 3
    ensures Ideal(Plan(name, image)[..2 * k + 3]) == SentThrough(name, image, k)
    ensures Ideal(Plan(name, image)[..2 * k + 2]) == SentThrough(name, image, k) && Plan(name, image)[2 * k + 2].Await?
    ensures k == 0 ==> Ideal(Plan(name, image)[..1]) == SentThrough(name, image, 0)
    ensures k > 0 ==> Plan(name, image)[2 * k + 2] == Await(ACK)
    decreases k
  {
    hide *;
    var plan := Plan(name, image);
    PlanStart(name, image);
    if k == 0 {
      SentFirst(name, image);
      NothingSentYet(plan);
      PacketSends(plan, 0, HeaderFrame(name, |image|));
      WaitsSendNothing(plan, 1);
      WaitsSendNothing(plan, 2);
    } else {
      BlocksWithin(Payloads(image), k);
      IdealThrough(name, image, k - 1);
      SentNext(name, image, k - 1);
      NextBlock(plan, Payloads(image)[k - 1], k, name, image);
    }
  }

  lemma BlocksWithin(payloads: seq<seq<byte>>, k: nat)
    requires k <= BlocksSent(payloads)
    ensures k <= |payloads|
  {
  }

  lemma NextBlock(plan: seq<Action>, payload: seq<byte>, k: nat, name: seq<byte>, image: seq<byte>)
    requires plan == Plan(name, image) && 0 < k <= BlocksSent(Payloads(image)) && k <= |Payloads(image)|
    requires payload == Payloads(image)[k - 1] && |plan| >= 2 * k + 1
    ensures |plan| >= 2 * k + 3 && plan[2 * k + 2] == Await(ACK)
    ensures Ideal(plan[..2 * k + 2]) == Ideal(plan[..2 * k + 1]) + DataFrame(k, payload)
    ensures Ideal(plan[..2 * k + 3]) == Ideal(plan[..2 * k + 2])
  {
    hide *;
    PlanAt(name, image, k - 1);
    PacketSends(plan, 2 * k + 1, DataFrame(k, payload));
    WaitsSendNothing(plan, 2 * k + 2);
  }

  lemma NothingSentYet(plan: seq<Action>)
    ensures Ideal(plan[..0]) == []
  {
  }

  lemma MoreToSend(name: seq<byte>, image: seq<byte>, k: nat)
    requires k < BlocksSent(Payloads(image)) || k == |Payloads(image)| <= MAX_BLOCKS
    ensures k <= BlocksSent(Payloads(image)) && 2 * k + 3 < |Plan(name, image)|
  {
    if k < BlocksSent(Payloads(image)) {
      PlanAt(name, image, k);
    } else {
      PlanEnd(name, image);
    }
    hide Plan, Payloads;
  }

  /**
   Stop and wait: once anything is on the line beyond blocks 0 to k, that is block k + 1 or the
   end of the transfer, an ACK was read after the last octet of block k and before the first
   one beyond it; and for k = 0 a 'C' after that ACK.
   */
  lemma NoBlockBeforeAck(name: seq<byte>, image: seq<byte>, segs: seq<Log>, h: Log, k: nat)
    requires Runs(Plan(name, image), segs) && h <= Flatten(segs)
    requires k < BlocksSent(Payloads(image)) || k == |Payloads(image)| <= MAX_BLOCKS
    requires k <= |Payloads(image)| && |Wire(h)| > |SentThrough(name, image, k)|
    ensures exists m, n :: HeardAfter(h, SentThrough(name, image, k), ACK, m, n)
    ensures k == 0 ==> exists m, n, p :: HeardAfter(h, SentThrough(name, image, 0), ACK, m, n) &&
                                         HeardAfter(h, SentThrough(name, image, 0), CRC16, n, p)
  {
    hide *;
    MoreToSend(name, image, k);
    IdealThrough(name, image, k);
    var plan := Plan(name, image);
    forall x | 0 <= x < 2 * k + 3 && x < |plan|
      ensures !plan[x].Single?
    {
      NoSinglesEarly(name, image, k, x);
    }
    if k == 0 {
      PlanStart(name, image);
      var m, n := StopAndWait(plan, segs, h, 1, 3);
      var n', p := StopAndWait(plan, segs, h, 2, 3);
      assert HeardAfter(h, SentThrough(name, image, 0), ACK, m, n);
      assert HeardAfter(h, SentThrough(name, image, 0), CRC16, n, p);
    } else {
      var m, n := StopAndWait(plan, segs, h, 2 * k + 2, 2 * k + 3);
      assert HeardAfter(h, SentThrough(name, image, k), ACK, m, n);
    }
  }

  /** No single octet is sent before the last block has been acknowledged. */
  lemma NoSinglesEarly(name: seq<byte>, image: seq<byte>, k: nat, x: nat)
    requires k <= BlocksSent(Payloads(image)) && x < 2 * k + 3 && x < |Plan(name, image)|
    ensures !Plan(name, image)[x].Single?
  {
    hide *;
    PlanStart(name, image);
    if x >= 3 {
      var j := (x - 3) / 2;
      assert x == 2 * j + 3 || x == 2 * j + 4;
      PlanAt(name, image, j);
    }
  }

  /** The same for the null block: it waits for an ACK read after the EOT, unless that was dropped. */
  lemma NoNullBlockBeforeAck(name: seq<byte>, image: seq<byte>, segs: seq<Log>, h: Log)
    requires Runs(Plan(name, image), segs) && h <= Flatten(segs)
    requires var k := 2 * |Payloads(image)| + 3; k < |segs| ==> !Drops(segs[k])
    requires |Payloads(image)| <= MAX_BLOCKS && |Wire(h)| > |SentThrough(name, image, |Payloads(image)|)| + 1
    ensures exists m, n :: HeardAfter(h, SentThrough(name, image, |Payloads(image)|) + [EOT], ACK, m, n)
  {
    var plan, k := Plan(name, image), |Payloads(image)|;
    hide *;
    AllBlocks(Payloads(image));
    IdealThrough(name, image, k);
    PlanEnd(name, image);
    ClosingActions(plan, 2 * k + 3);
    EotSent(plan, 2 * k + 3, SentThrough(name, image, k));
    forall x | 0 <= x < 2 * k + 3 && x < |plan|
      ensures !plan[x].Single?
    {
      NoSinglesEarly(name, image, k, x);
    }
    var m, n := StopAndWait(plan, segs, h, 2 * k + 4, 2 * k + 5);
    assert HeardAfter(h, SentThrough(name, image, k) + [EOT], ACK, m, n);
  }

  lemma EotSent(plan: seq<Action>, k: nat, sent: seq<byte>)
    requires k + 2 < |plan| && plan[k] == Single(EOT) && plan[k + 1] == Await(ACK) && Ideal(plan[..k]) == sent
    ensures Ideal(plan[..k + 1]) == sent + [EOT] == Ideal(plan[..k + 2])
    ensures |Ideal(plan[..k + 2])| == |sent| + 1
  {
    EotOctets();
    hide *;
    IdealStep(plan, k);
    WaitsSendNothing(plan, k + 1);
  }

  lemma AllBlocks(payloads: seq<seq<byte>>)
    requires |payloads| <= MAX_BLOCKS
    ensures BlocksSent(payloads) == |payloads|
  {
  }

  lemma EotOctets()
    ensures Octets(Single(EOT)) == [EOT]
  {
  }

  // ------------------------------------------------------------------ the plan in octets

  /** A block of `size` octets, ready but for its CRC. */
  predicate Begins(f: seq<byte>, kind: byte, number: int, size: nat) {
    |f| >= size + 3 && f[0] == kind && f[1] as int == number && f[2] as int == 255 - number
  }

  lemma FrameBegins(kind: byte, number: byte, payload: seq<byte>)
    ensures var f := Frame(kind, number, payload);
            Begins(f, kind, number as int, |payload|) && f[3..|payload| + 3] == payload && |f| == |payload| + 5
  {
    Complement(number);
    hide Trailer;
  }

  lemma HeaderOctets(name: seq<byte>, size: nat)
    ensures Begins(HeaderFrame(name, size), 0x01, 0, 128) && |HeaderFrame(name, size)| == 133
    ensures HeaderFrame(name, size)[3..131] == HeaderPayload(name, size)
  {
    OctetOf(0);
    hide HeaderPayload, Frame, Begins;
    FrameBegins(0x01, 0, HeaderPayload(name, size));
  }

  /** The block as it travels: kind by length, number modulo 256, complement, payload, CRC. */
  predicate IsBlock(a: Action, number: int, payload: seq<byte>) {
    && a.Packet? && |a.data| == |payload| + 5
    && Begins(a.data, if |payload| == 1024 then 0x02 else 0x01, number, |payload|)
    && a.data[3..|payload| + 3] == payload && TrailerMatches(a.data[3..])
  }

  lemma DataBlockIs(block: nat, payload: seq<byte>)
    ensures IsBlock(Packet(DataFrame(block, payload)), block % 256, payload)
  {
    DataFrameOctets(block, payload);
    SentBlockMatches(payload);
    hide WireNumber, Trailer, TrailerMatches;
    assert DataFrame(block, payload)[3..] == payload + Trailer(payload);
  }

  lemma HeaderBlockIs(name: seq<byte>, size: nat)
    ensures IsBlock(Packet(HeaderFrame(name, size)), 0, HeaderPayload(name, size))
  {
    HeaderOctets(name, size);
    SentBlockMatches(HeaderPayload(name, size));
    hide HeaderPayload, Trailer, TrailerMatches, Begins;
    assert HeaderFrame(name, size)[3..] == HeaderPayload(name, size) + Trailer(HeaderPayload(name, size));
  }

  /**
   The plan with its constants written out: block 0, ACK, 'C'; blocks 1, 2, ... with their numbers modulo 256,
   an ACK each; EOT, ACK, and 128 zeros with their CRC, which is zero, ACK.
   */
  lemma PlanInOctets(name: seq<byte>, image: seq<byte>)
    ensures var plan, payloads := Plan(name, image), Payloads(image);
            && |plan| >= 3 && IsBlock(plan[0], 0, HeaderPayload(name, |image|))
            && plan[1] == Await(0x06) && plan[2] == Await(0x43)
            && (forall k :: 0 <= k < |payloads| && k < 896 ==>
                  && |plan| >= 2 * k + 5 && IsBlock(plan[2 * k + 3], (k + 1) % 256, payloads[k])
                  && plan[2 * k + 4] == Await(0x06))
            && (|payloads| > 896 ==> |plan| == 3 + 2 * 896)
            && (|payloads| <= 896 ==>
                  plan[3 + 2 * |payloads|..] ==
                  [Single(0x04), Await(0x06), Packet([0x01, 0x00, 0xFF] + Repeat(0, 128)), Single(0), Single(0), Await(0x06)])
  {
    var plan, payloads := Plan(name, image), Payloads(image);
    ClosingInOctets();
    PlanStart(name, image);
    Limits();
    hide *;
    HeaderBlockIs(name, |image|);
    forall k | 0 <= k < |payloads| && k < 896
      ensures |plan| >= 2 * k + 5 && IsBlock(plan[2 * k + 3], (k + 1) % 256, payloads[k])
      ensures plan[2 * k + 4] == Await(0x06)
    {
      EnoughBlocks(payloads, k);
      PlanAt(name, image, k);
      DataBlockIs(k + 1, payloads[k]);
    }
    if |payloads| <= 896 {
      PlanEnd(name, image);
    } else {
      PlanWithoutClosing(name, image);
    }
  }

  lemma Limits()
    ensures MAX_BLOCKS == 896 && ACK == 0x06 && CRC16 == 0x43
  {
  }

  lemma ClosingInOctets()
    ensures Closing() ==
            [Single(0x04), Await(0x06), Packet([0x01, 0x00, 0xFF] + Repeat(0, 128)), Single(0), Single(0), Await(0x06)]
  {
    TrailerOfZeros(128);
    hide Trailer;
  }
}
