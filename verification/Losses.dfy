/**
 Octets that Send_Byte drops without saying so: which transfers can report success all the
 same. Each dropped octet costs 25 empty writes, and it takes a far end that acknowledges what
 it has not received; a conforming receiver never lets it pass.
 */
module Losses {
  import opened Bytes
  import opened SerialPort
  import opened Crc16
  import opened Packets
  import opened Sender
  import opened Transcript
  import opened FarEnd
  import opened EndToEnd

  /** The three octets that are sent singly: EOT and the CRC of the null block. */
  datatype Loss = Loss(eot: bool, hi: bool, lo: bool)

  function Missing(l: Loss): nat {
    (if l.eot then 1 else 0) + (if l.hi then 1 else 0) + (if l.lo then 1 else 0)
  }

  /** Where the closing part of the plan begins. */
  function End(image: seq<byte>): nat {
    3 + 2 * |Payloads(image)|
  }

  /** Whether action `i` of a plan that closes at `k` sends a lost octet. */
  predicate LostAt(l: Loss, k: nat, i: nat) {
    (i == k && l.eot) || (i == k + 3 && l.hi) || (i == k + 4 && l.lo)
  }

  /** Just the octets of `l` were dropped. */
  predicate Loses(segs: seq<Log>, k: nat, l: Loss) {
    |segs| == k + 6 && Drops(segs[k]) == l.eot && Drops(segs[k + 3]) == l.hi && Drops(segs[k + 4]) == l.lo
  }

  function Kept(lost: bool, b: byte): seq<byte> {
    if lost then [] else [b]
  }

  /** The transcript without the lost octets. */
  function Remaining(name: seq<byte>, image: seq<byte>, l: Loss): seq<byte> {
    var t := Trailer(NULL_PAYLOAD);
    SentThrough(name, image, |Payloads(image)|) + Kept(l.eot, EOT) + (Head(SOH, 0) + NULL_PAYLOAD) +
    Kept(l.hi, t[0]) + Kept(l.lo, t[1])
  }

  // ------------------------------------------------------------------ the shape of the plan

  /** What there is to know about one action of a plan that closes at `k`. */
  predicate Shape(plan: seq<Action>, k: nat, i: nat)
    requires i < |plan|
  {
    match plan[i]
    case Packet(data) => data != []
    case Single(_) => i == k || i == k + 3 || i == k + 4
    case Await(ch) =>
      i > 0 && if i == 2 then ch == CRC16 && plan[1] == Await(ACK) else ch == ACK && !plan[i - 1].Await?
  }

  lemma StartShape(name: seq<byte>, image: seq<byte>, k: nat, i: nat)
    requires i < 3
    ensures i < |Plan(name, image)| && Shape(Plan(name, image), k, i)
  {
    PlanOpens(name, image);
    hide Plan, HeaderFrame;
    PacketOctets(Plan(name, image)[0]);
  }

  lemma BlockShape(name: seq<byte>, image: seq<byte>, k: nat, i: nat)
    requires 3 <= i < 3 + 2 * BlocksSent(Payloads(image)) && i < |Plan(name, image)|
    ensures Shape(Plan(name, image), k, i)
  {
    hide Plan, Payloads, DataFrame, BlocksSent, Frame;
    var j := (i - 3) / 2;
    assert i == 2 * j + 3 || i == 2 * j + 4;
    BlocksBound(Payloads(image), j);
    PlanAt(name, image, j);
    BlockOctets(j + 1, Payloads(image)[j]);
  }

  lemma EndShape(plan: seq<Action>, k: nat, i: nat)
    requires |plan| == k + 6 && plan[k..] == Closing() && 2 < k <= i < k + 6
    ensures Shape(plan, k, i)
  {
    ClosingActions(plan, k);
    ClosingPlan(plan, k);
    hide Closing, Head, Trailer;
    PacketOctets(plan[k + 2]);
  }

  lemma PlanCases(name: seq<byte>, image: seq<byte>, i: nat)
    requires |Payloads(image)| <= MAX_BLOCKS && i < |Plan(name, image)|
    ensures |Plan(name, image)| == End(image) + 6 && Shape(Plan(name, image), End(image), i)
  {
    var k := End(image);
    assert k == 3 + 2 * |Payloads(image)|;
    hide *;
    AllBlocks(Payloads(image));
    PlanEnd(name, image);
    if i < 3 {
      StartShape(name, image, k, i);
    } else if i < k {
      BlockShape(name, image, k, i);
    } else {
      EndShape(Plan(name, image), k, i);
    }
  }

  lemma ShapeOfSingle(plan: seq<Action>, k: nat, i: nat)
    requires i < |plan| && Shape(plan, k, i)
    ensures plan[i].Single? ==> i == k || i == k + 3 || i == k + 4
    ensures plan[i].Packet? ==> plan[i].data != []
  {
  }

  lemma PacketOctets(a: Action)
    ensures a.Packet? ==> Octets(a) == a.data
  {
  }

  lemma CloseActions(name: seq<byte>, image: seq<byte>)
    requires |Payloads(image)| <= MAX_BLOCKS
    ensures var plan, k := Plan(name, image), End(image);
            && |plan| == k + 6 && plan[k] == Single(EOT) && plan[k + 1] == Await(ACK)
            && plan[k + 2] == Packet(Head(SOH, 0) + NULL_PAYLOAD)
            && plan[k + 3] == Single(Trailer(NULL_PAYLOAD)[0]) && plan[k + 4] == Single(Trailer(NULL_PAYLOAD)[1])
            && plan[k + 5] == Await(ACK)
  {
    assert End(image) == 3 + 2 * |Payloads(image)|;
    hide *;
    PlanEnd(name, image);
    ClosingActions(Plan(name, image), End(image));
  }

  // ------------------------------------------------------------------ what a loss leaves and costs

  /** Nothing is lost before the closing part. */
  lemma BlocksOnLine(name: seq<byte>, image: seq<byte>, segs: seq<Log>)
    requires |Payloads(image)| <= MAX_BLOCKS && Completed(Plan(name, image), segs)
    ensures End(image) <= |segs|
    ensures Wire(Flatten(segs[..End(image)])) == SentThrough(name, image, |Payloads(image)|)
  {
    var plan, k := Plan(name, image), End(image);
    assert k == 3 + 2 * |Payloads(image)|;
    PerformedPart(plan, segs, k) by { CloseActions(name, image); }
    hide *;
    CloseActions(name, image);
    AllBlocks(Payloads(image));
    forall i | 0 <= i < k
      ensures !plan[i].Single?
    {
      PlanCases(name, image, i);
      ShapeOfSingle(plan, k, i);
    }
    NoSinglesNoDrops(plan, segs[..k]);
    NoDropAtAll(plan, segs[..k]);
    WireOfRun(plan, segs[..k], k);
    assert segs[..k][..k] == segs[..k];
    IdealThrough(name, image, |Payloads(image)|);
  }

  lemma PerformedPart(plan: seq<Action>, segs: seq<Log>, k: nat)
    requires Performed(plan, segs) && k <= |segs|
    ensures Performed(plan, segs[..k]) && Runs(plan, segs[..k])
  {
    hide Done;
  }

  lemma NoSinglesNoDrops(plan: seq<Action>, segs: seq<Log>)
    requires |segs| <= |plan| && forall i :: 0 <= i < |segs| ==> !plan[i].Single?
    ensures NothingDropped(plan, segs)
  {
  }

  lemma OnLine(plan: seq<Action>, segs: seq<Log>, k: nat)
    requires Completed(plan, segs) && k < |plan|
    ensures Wire(Flatten(segs[..k + 1])) == Wire(Flatten(segs[..k])) + Line(plan[k], segs[k])
  {
    assert Done(plan[k], segs[k]);
    hide Done, Wire, Flatten, Octets;
    WireOfAction(plan[k], segs[k]);
    FlattenStep(segs, k);
  }

  lemma Lines(a: Action, seg: Log)
    ensures a.Await? ==> Line(a, seg) == []
    ensures a.Packet? ==> Line(a, seg) == a.data
    ensures a.Single? ==> Line(a, seg) == Kept(Drops(seg), a.b)
  {
    hide Drops;
  }

  /** What is on the line when the octets of `l` were dropped. */
  lemma LossOnLine(name: seq<byte>, image: seq<byte>, segs: seq<Log>, l: Loss)
    requires |Payloads(image)| <= MAX_BLOCKS && Completed(Plan(name, image), segs) && Loses(segs, End(image), l)
    ensures Wire(Flatten(segs)) == Remaining(name, image, l)
  {
    var plan, k := Plan(name, image), End(image);
    var sent, block, t := SentThrough(name, image, |Payloads(image)|), Head(SOH, 0) + NULL_PAYLOAD, Trailer(NULL_PAYLOAD);
    assert Remaining(name, image, l) == sent + Kept(l.eot, EOT) + block + Kept(l.hi, t[0]) + Kept(l.lo, t[1]);
    LosesSegments(segs, k, l);
    hide *;
    CloseActions(name, image);
    BlocksOnLine(name, image, segs);
    ClosingLines(plan, segs, k, sent, Kept(l.eot, EOT), block, Kept(l.hi, t[0]), Kept(l.lo, t[1]));
  }

  lemma LosesSegments(segs: seq<Log>, k: nat, l: Loss)
    requires Loses(segs, k, l)
    ensures |segs| == k + 6 && Drops(segs[k]) == l.eot && Drops(segs[k + 3]) == l.hi && Drops(segs[k + 4]) == l.lo
  {
  }

  lemma ClosingLines(plan: seq<Action>, segs: seq<Log>, k: nat, sent: seq<byte>, eot: seq<byte>, block: seq<byte>,
                     hi: seq<byte>, lo: seq<byte>)
    requires Completed(plan, segs) && |plan| == |segs| == k + 6 && Wire(Flatten(segs[..k])) == sent
    requires plan[k].Single? && eot == Kept(Drops(segs[k]), plan[k].b)
    requires plan[k + 1].Await? && plan[k + 2] == Packet(block) && plan[k + 5].Await?
    requires plan[k + 3].Single? && hi == Kept(Drops(segs[k + 3]), plan[k + 3].b)
    requires plan[k + 4].Single? && lo == Kept(Drops(segs[k + 4]), plan[k + 4].b)
    ensures Wire(Flatten(segs)) == sent + eot + block + hi + lo
  {
    hide *;
    forall i | k <= i < k + 6
      ensures Wire(Flatten(segs[..i + 1])) == Wire(Flatten(segs[..i])) + Line(plan[i], segs[i])
    {
      OnLine(plan, segs, i);
    }
    Lines(plan[k], segs[k]);
    Lines(plan[k + 1], segs[k + 1]);
    Lines(plan[k + 2], segs[k + 2]);
    Lines(plan[k + 3], segs[k + 3]);
    Lines(plan[k + 4], segs[k + 4]);
    Lines(plan[k + 5], segs[k + 5]);
    assert segs[..k + 6] == segs;
    assert Wire(Flatten(segs[..(k + 1) + 1])) == Wire(Flatten(segs[..k + 1])) + [];
    assert Wire(Flatten(segs[..(k + 2) + 1])) == sent + eot + block;
    assert Wire(Flatten(segs[..(k + 3) + 1])) == sent + eot + block + hi;
    assert Wire(Flatten(segs[..(k + 4) + 1])) == sent + eot + block + hi + lo;
    assert Wire(Flatten(segs[..(k + 5) + 1])) == sent + eot + block + hi + lo + [];
  }

  /** A loss costs 25 empty writes an octet. */
  lemma LossCosts(name: seq<byte>, image: seq<byte>, stalls: nat, segs: seq<Log>, l: Loss)
    requires Ran(0, Flatten(segs), stalls, name, image, segs) && Loses(segs, End(image), l)
    ensures stalls >= SEND_TRIES * Missing(l)
  {
    var plan, k := Plan(name, image), End(image);
    LosesSegments(segs, k, l);
    assert |Payloads(image)| <= MAX_BLOCKS && |segs| <= |plan| && Empties(Flatten(segs)) <= stalls;
    hide *;
    CloseActions(name, image);
    DropsCostWrites(plan, segs);
    forall i | k <= i < k + 6
      ensures Dropped(plan, segs[..i + 1]) == Dropped(plan, segs[..i]) + if plan[i].Single? && Drops(segs[i]) then 1 else 0
    {
      DroppedStep(plan, segs, i);
    }
    assert segs[..k + 6] == segs;
    assert Dropped(plan, segs[..k + 1]) >= if l.eot then 1 else 0;
    assert Dropped(plan, segs[..(k + 1) + 1]) >= if l.eot then 1 else 0;
    assert Dropped(plan, segs[..(k + 2) + 1]) >= if l.eot then 1 else 0;
    assert Dropped(plan, segs[..(k + 3) + 1]) >= (if l.eot then 1 else 0) + (if l.hi then 1 else 0);
    assert Dropped(plan, segs[..(k + 4) + 1]) >=
           (if l.eot then 1 else 0) + (if l.hi then 1 else 0) + (if l.lo then 1 else 0);
    assert Dropped(plan, segs[..(k + 5) + 1]) >= Dropped(plan, segs[..k + 5]);
    CountMissing(l);
    AtLeast(Dropped(plan, segs), Missing(l), Empties(Flatten(segs)));
  }

  lemma CountMissing(l: Loss)
    ensures Missing(l) == (if l.eot then 1 else 0) + (if l.hi then 1 else 0) + (if l.lo then 1 else 0)
  {
  }

  lemma AtLeast(drops: nat, missing: nat, empties: nat)
    requires drops >= missing && SEND_TRIES * drops <= empties
    ensures SEND_TRIES * missing <= empties
  {
  }

  // ------------------------------------------------------------------ a far end that is fooled

  /** Answers every read at once: 'C' straight after an ACK, else ACK, whatever it was sent. */
  function Credulous(): Peer {
    (h: Log) => if h != [] && h[|h| - 1] == Rx(ACK) then Some(CRC16) else Some(ACK)
  }

  /** An action carried out with no waste: one write, one read, or 25 empty writes. */
  function Act(a: Action, lost: bool): Log {
    match a
    case Packet(data) => [Tx(data)]
    case Await(ch) => [Rx(ch)]
    case Single(b) => if lost then Stalled(SEND_TRIES) else [Tx([b])]
  }

  lemma ActIsDone(a: Action, lost: bool)
    ensures Done(a, Act(a, lost)) && Act(a, lost) != []
    ensures a.Single? ==> (Drops(Act(a, lost)) <==> lost)
    ensures (a.Packet? ==> a.data != []) ==> Empties(Act(a, lost)) == if a.Single? && lost then SEND_TRIES else 0
    ensures a.Await? ==> Act(a, lost) == [Rx(a.ch)]
    ensures !a.Await? ==> WritesOnly(Act(a, lost))
  {
    match a
    case Packet(data) =>
      WireOne(Tx(data));
      EmptiesSnoc([], Tx(data));
      assert [] + [Tx(data)] == [Tx(data)];
    case Await(ch) =>
      TallySnoc([], Rx(ch));
      EmptiesSnoc([], Rx(ch));
      assert [] + [Rx(ch)] == [Rx(ch)];
    case Single(b) =>
      if lost {
        StallsAreEmpty(SEND_TRIES);
      } else {
        EmptiesSnoc([], Tx([b]));
        assert [] + [Tx([b])] == [Tx([b])] == Stalled(0) + [Tx([b])];
      }
  }

  /** The run in which everything goes smoothly except that the octets of `l` are dropped. */
  function LossyRun(name: seq<byte>, image: seq<byte>, l: Loss): (segs: seq<Log>)
    ensures |segs| == |Plan(name, image)|
  {
    seq(|Plan(name, image)|, i requires 0 <= i < |Plan(name, image)| => Act(Plan(name, image)[i], LostAt(l, End(image), i)))
  }

  lemma LossyAt(name: seq<byte>, image: seq<byte>, l: Loss, i: nat)
    requires i < |Plan(name, image)|
    ensures LossyRun(name, image, l)[i] == Act(Plan(name, image)[i], LostAt(l, End(image), i))
  {
    hide Plan, Act, End;
  }

  lemma LossyCompletes(name: seq<byte>, image: seq<byte>, l: Loss)
    requires |Payloads(image)| <= MAX_BLOCKS
    ensures Completed(Plan(name, image), LossyRun(name, image, l)) && Loses(LossyRun(name, image, l), End(image), l)
  {
    var plan, segs := Plan(name, image), LossyRun(name, image, l);
    hide Plan, LossyRun, Act, Done, Drops, End;
    forall i | 0 <= i < |plan|
      ensures Done(plan[i], segs[i]) && (plan[i].Single? ==> (Drops(segs[i]) <==> LostAt(l, End(image), i)))
    {
      LossyAt(name, image, l, i);
      ActIsDone(plan[i], LostAt(l, End(image), i));
    }
    CloseActions(name, image);
  }

  /** How many octets of `l` are sent before action `i`. */
  function LostBefore(l: Loss, k: nat, i: nat): nat {
    (if l.eot && k < i then 1 else 0) + (if l.hi && k + 3 < i then 1 else 0) + (if l.lo && k + 4 < i then 1 else 0)
  }

  lemma LostStep(l: Loss, k: nat, i: nat)
    ensures LostBefore(l, k, i + 1) == LostBefore(l, k, i) + if LostAt(l, k, i) then 1 else 0
    ensures LostBefore(l, k, 0) == 0
    ensures LostBefore(l, k, k + 6) == Missing(l)
  {
  }

  lemma {:induction false} LossyEmpties(name: seq<byte>, image: seq<byte>, l: Loss, i: nat)
    requires |Payloads(image)| <= MAX_BLOCKS && i <= |Plan(name, image)|
    ensures Empties(Flatten(LossyRun(name, image, l)[..i])) == SEND_TRIES * LostBefore(l, End(image), i)
    decreases i
  {
    var segs := LossyRun(name, image, l);
    if i == 0 {
      assert segs[..0] == [];
      LostStep(l, End(image), 0);
    } else {
      hide *;
      LossyEmpties(name, image, l, i - 1);
      FlattenStep(segs, i - 1);
      EmptiesAppend(Flatten(segs[..i - 1]), segs[i - 1]);
      LossyEmptiesAt(name, image, l, i - 1);
      CostStep(l, End(image), i - 1);
    }
  }

  lemma CostStep(l: Loss, k: nat, i: nat)
    ensures SEND_TRIES * LostBefore(l, k, i + 1) ==
            SEND_TRIES * LostBefore(l, k, i) + if LostAt(l, k, i) then SEND_TRIES else 0
  {
    LostStep(l, k, i);
    hide LostBefore, LostAt;
  }

  lemma LossyEmptiesAt(name: seq<byte>, image: seq<byte>, l: Loss, i: nat)
    requires |Payloads(image)| <= MAX_BLOCKS && i < |Plan(name, image)|
    ensures Empties(LossyRun(name, image, l)[i]) == if LostAt(l, End(image), i) then SEND_TRIES else 0
  {
    hide *;
    LossyAt(name, image, l, i);
    PlanCases(name, image, i);
    ShapeOfSingle(Plan(name, image), End(image), i);
    ActIsDone(Plan(name, image)[i], LostAt(l, End(image), i));
    OnlySinglesAreLost(name, image, l, i);
  }

  lemma OnlySinglesAreLost(name: seq<byte>, image: seq<byte>, l: Loss, i: nat)
    requires |Payloads(image)| <= MAX_BLOCKS && i < |Plan(name, image)|
    ensures LostAt(l, End(image), i) ==> Plan(name, image)[i].Single?
  {
    hide Plan, End;
    CloseActions(name, image);
  }

  lemma {:induction false} AnsweredWrites(peer: Peer, log: Log, seg: Log)
    requires Answered(peer, log) && WritesOnly(seg)
    ensures Answered(peer, log + seg)
    decreases |seg|
  {
    if seg == [] {
      assert log + seg == log;
    } else {
      var init, e := seg[..|seg| - 1], seg[|seg| - 1];
      AnsweredWrites(peer, log, init);
      AnsweredSnoc(peer, log + init, e);
      assert log + seg == log + init + [e];
    }
  }

  /** The last event before action `i`: what was read when the action before was a wait, else a write. */
  predicate LastIs(log: Log, a: Action) {
    log != [] && if a.Await? then log[|log| - 1] == Rx(a.ch) else log[|log| - 1].Tx?
  }

  lemma LastOfAct(log: Log, a: Action, lost: bool)
    ensures LastIs(log + Act(a, lost), a)
  {
    ActIsDone(a, lost);
    hide Act, Done, Drops, Empties;
    var seg := Act(a, lost);
    assert (log + seg)[|log + seg| - 1] == seg[|seg| - 1];
  }

  lemma CredulousAnswers(log: Log, ch: byte)
    requires if ch == CRC16 then LastIs(log, Await(ACK)) else ch == ACK && (log == [] || log[|log| - 1].Tx?)
    ensures Credulous()(log) == Some(ch)
  {
  }

  lemma {:induction false} LossyIsAnswered(name: seq<byte>, image: seq<byte>, l: Loss, i: nat)
    requires |Payloads(image)| <= MAX_BLOCKS && i <= |Plan(name, image)|
    ensures Answered(Credulous(), Flatten(LossyRun(name, image, l)[..i]))
    ensures i > 0 ==> LastIs(Flatten(LossyRun(name, image, l)[..i]), Plan(name, image)[i - 1])
    decreases i
  {
    var segs := LossyRun(name, image, l);
    if i == 0 {
      assert segs[..0] == [];
    } else {
      var log, a, lost := Flatten(segs[..i - 1]), Plan(name, image)[i - 1], LostAt(l, End(image), i - 1);
      hide *;
      LossyIsAnswered(name, image, l, i - 1);
      FlattenStep(segs, i - 1);
      LossyAt(name, image, l, i - 1);
      if a.Await? {
        NextWait(name, image, log, i - 1);
      }
      ActIsAnswered(log, a, lost);
    }
  }

  lemma ActIsAnswered(log: Log, a: Action, lost: bool)
    requires Answered(Credulous(), log) && (a.Await? ==> Credulous()(log) == Some(a.ch))
    ensures Answered(Credulous(), log + Act(a, lost)) && LastIs(log + Act(a, lost), a)
  {
    hide *;
    ActIsDone(a, lost);
    LastOfAct(log, a, lost);
    if a.Await? {
      AnsweredSnoc(Credulous(), log, Rx(a.ch));
    } else {
      AnsweredWrites(Credulous(), log, Act(a, lost));
    }
  }

  lemma NextWait(name: seq<byte>, image: seq<byte>, log: Log, i: nat)
    requires |Payloads(image)| <= MAX_BLOCKS && i < |Plan(name, image)| && Plan(name, image)[i].Await?
    requires i > 0 ==> LastIs(log, Plan(name, image)[i - 1])
    ensures Credulous()(log) == Some(Plan(name, image)[i].ch)
  {
    AckIsNotC();
    PlanCases(name, image, i);
    hide Plan, Credulous;
    CredulousAnswers(log, Plan(name, image)[i].ch);
  }

  lemma AckIsNotC()
    ensures ACK != CRC16
  {
  }

  // ------------------------------------------------------------------ when a loss goes unnoticed

  /** A run with result 0, answered by the credulous far end, that loses just the octets of `l`. */
  ghost predicate Unnoticed(name: seq<byte>, image: seq<byte>, stalls: nat, l: Loss, segs: seq<Log>) {
    && Ran(0, Flatten(segs), stalls, name, image, segs) && Answered(Credulous(), Flatten(segs))
    && Loses(segs, End(image), l) && Wire(Flatten(segs)) == Remaining(name, image, l)
  }

  /** Any of the three octets can be missing after a success, exactly when there are 25 empty writes for each. */
  lemma LossGoesUnnoticedIff(name: seq<byte>, image: seq<byte>, stalls: nat, l: Loss)
    requires PacketCount(|image|) <= MAX_BLOCKS
    ensures (exists segs :: Unnoticed(name, image, stalls, l, segs)) <==> stalls >= SEND_TRIES * Missing(l)
  {
    if stalls >= SEND_TRIES * Missing(l) {
      LossyIsUnnoticed(name, image, stalls, l);
      assert Unnoticed(name, image, stalls, l, LossyRun(name, image, l));
    }
    forall segs | Unnoticed(name, image, stalls, l, segs)
      ensures stalls >= SEND_TRIES * Missing(l)
    {
      hide Ran, Loses, Wire, Remaining;
      LossCosts(name, image, stalls, segs, l);
    }
  }

  lemma LossyIsUnnoticed(name: seq<byte>, image: seq<byte>, stalls: nat, l: Loss)
    requires PacketCount(|image|) <= MAX_BLOCKS && stalls >= SEND_TRIES * Missing(l)
    ensures Unnoticed(name, image, stalls, l, LossyRun(name, image, l))
  {
    var plan, segs := Plan(name, image), LossyRun(name, image, l);
    PayloadCount(image);
    hide Plan, LossyRun, Payloads, PacketCount, Completed, Flatten, Wire, Remaining, Loses, Answered, Empties, Missing,
         LostBefore, End, Credulous;
    LossyCompletes(name, image, l);
    LossOnLine(name, image, segs, l);
    assert segs[..|plan|] == segs;
    LossyEmpties(name, image, l, |plan|);
    LossyIsAnswered(name, image, l, |plan|);
    CloseActions(name, image);
    LostStep(l, End(image), 0);
  }

  /** No conforming receiver lets a loss pass, whatever the calls before the transfer and the noise on the line. */
  lemma OnlyOthersAreFooled(name: seq<byte>, image: seq<byte>, stalls: nat, segs: seq<Log>, peer: Peer,
                            calls: nat, noise: seq<byte>)
    requires Ran(0, Flatten(segs), stalls, name, image, segs) && Answered(peer, Flatten(segs))
    requires (forall i :: 0 <= i < |name| ==> name[i] != 0) && Gentle(noise, name, image)
    requires Wire(Flatten(segs)) != Ideal(Plan(name, image))
    ensures !Conforming(peer, Far(calls, noise))
  {
    hide *;
    ZeroIffCompleted(0, Flatten(segs), stalls, name, image, segs);
    CompleteIffNothingDropped(Plan(name, image), segs);
    if Conforming(peer, Far(calls, noise)) {
      OutcomeIsExact(0, Flatten(segs), stalls, name, image, segs, peer, calls, noise);
    }
  }
}
