/**
 A conforming far end: it answers what the receiver has to say, in order, each within 500 polls. How a
 run of the sender goes on against it, one action at a time.
 */
module FarEnd {
  import opened Bytes
  import opened SerialPort
  import opened Sender
  import opened Transcript
  import opened Receiver
  import opened Noise

  // ------------------------------------------------------------------ a conforming far end

  /** The receiver once it has heard all that was put on the line. */
  function Heard(far: Ear, log: Log): Ear {
    Hear(far, Wire(log))
  }

  /** The octets read. */
  function Received(log: Log): seq<byte> {
    if log == [] then []
    else Received(log[..|log| - 1]) + (match log[|log| - 1] case Rx(b) => [b] case Tx(_) => [] case Idle => [])
  }

  /** Reads that timed out since the last octet went either way. */
  function Pause(log: Log): nat {
    if log == [] || log[|log| - 1] != Idle then 0 else Pause(log[..|log| - 1]) + 1
  }

  /** At a read after `h`: the oldest reply not yet read, or none, and never none 500 times in a row. */
  predicate ConformsAt(peer: Peer, far: Ear, h: Log) {
    var out, n := Heard(far, h).r.out, |Received(h)|;
    if n < |out| then peer(h) == Some(out[n]) || (peer(h) == None && Pause(h) < NAK_TIMEOUT - 1)
    else peer(h) == None
  }

  ghost predicate Conforming(peer: Peer, far: Ear) {
    forall h: Log :: ConformsAt(peer, far, h)
  }

  /** The far end that never keeps the sender waiting. */
  function Prompt(far: Ear): Peer {
    (h: Log) => var out, n := Heard(far, h).r.out, |Received(h)|; if n < |out| then Some(out[n]) else None
  }

  lemma PromptConforms(far: Ear)
    ensures Conforming(Prompt(far), far)
  {
    forall h: Log
      ensures ConformsAt(Prompt(far), far, h)
    {
      hide Heard, Received, Pause;
    }
  }

  lemma ReceivedSnoc(log: Log, e: Event)
    ensures Received(log + [e]) == Received(log) + (match e case Rx(b) => [b] case Tx(_) => [] case Idle => [])
    ensures Pause(log + [e]) == if e == Idle then Pause(log) + 1 else 0
  {
    assert (log + [e])[..|log|] == log;
  }

  lemma {:induction false} ReceivedAppend(a: Log, b: Log)
    ensures Received(a + b) == Received(a) + Received(b)
    decreases |b|
  {
    if b == [] {
      assert a + b == a;
    } else {
      var init, e := b[..|b| - 1], b[|b| - 1];
      ReceivedAppend(a, init);
      ReceivedSnoc(a + init, e);
      ReceivedSnoc(init, e);
      hide Received;
      assert b == init + [e] && a + b == (a + init) + [e];
    }
  }

  lemma {:induction false} WritesReadNothing(seg: Log)
    requires WritesOnly(seg)
    ensures Received(seg) == []
    decreases |seg|
  {
    if seg == [] {
    } else {
      WritesReadNothing(seg[..|seg| - 1]);
    }
  }

  lemma AnsweredPrefix(peer: Peer, log: Log, h: Log)
    requires Answered(peer, log) && h <= log
    ensures Answered(peer, h)
  {
    forall i | 0 <= i < |h|
      ensures AnsweredAt(peer, h, i)
    {
      assert AnsweredAt(peer, log, i);
      assert h[..i] == log[..i];
    }
  }

  /** During a wait, octets come from the front of the reply queue, each costing one attempt. */
  ghost predicate Follows(h: Log, seg: Log, queue: seq<byte>) {
    && Received(seg) <= queue
    && (|Received(seg)| < |queue| || (seg != [] && seg[|seg| - 1].Rx?) ==>
          Tally(seg) == (|Received(seg)|, Pause(h + seg)))
  }

  lemma FollowsSnoc(h: Log, seg: Log, queue: seq<byte>, e: Event)
    requires Follows(h, seg, queue) && !e.Tx?
    requires e.Rx? ==> |Received(seg)| < |queue| && e.b == queue[|Received(seg)|]
    requires e.Idle? && |Received(seg)| < |queue| ==> Pause(h + seg) < NAK_TIMEOUT - 1
    ensures Follows(h, seg + [e], queue)
  {
    hide Tally, Received, Pause;
    TallySnoc(seg, e);
    ReceivedSnoc(seg, e);
    ReceivedSnoc(h + seg, e);
    Associative(h, seg, [e]);
    PrefixGrows(Received(seg), queue);
    LastOf(seg, e);
  }

  lemma LastOf(seg: Log, e: Event)
    ensures (seg + [e])[|seg + [e]| - 1] == e
  {
  }

  lemma PrefixGrows(got: seq<byte>, queue: seq<byte>)
    requires got <= queue
    ensures |got| < |queue| ==> got + [queue[|got|]] <= queue
    ensures got + [] == got
  {
  }

  lemma QueueFront(out: seq<byte>, taken: nat, got: seq<byte>, n: nat)
    requires taken <= |out| && n == taken + |got|
    ensures n < |out| <==> |got| < |out[taken..]|
    ensures n < |out| ==> out[n] == out[taken..][|got|]
  {
  }

  /** The answer to one more read of the wait. */
  lemma NextAnswer(peer: Peer, far: Ear, h: Log, seg: Log, e: Event)
    requires Conforming(peer, far) && Answered(peer, h + seg + [e])
    requires ReadsOnly(seg) && !e.Tx? && |Received(h)| <= |Heard(far, h).r.out|
    ensures var queue := Heard(far, h).r.out[|Received(h)|..];
            && (e.Rx? ==> |Received(seg)| < |queue| && e.b == queue[|Received(seg)|])
            && (e.Idle? && |Received(seg)| < |queue| ==> Pause(h + seg) < NAK_TIMEOUT - 1)
  {
    var now := h + seg;
    assert ConformsAt(peer, far, now);
    assert AnsweredAt(peer, now + [e], |now|);
    assert (now + [e])[..|now|] == now;
    ReadsPutNothing(seg);
    WireAppend(h, seg);
    assert Wire(now) == Wire(h);
    ReceivedAppend(h, seg);
    hide Received, Pause, Wire, Hear, Conforming, Answered;
    QueueFront(Heard(far, h).r.out, |Received(h)|, Received(seg), |Received(now)|);
  }

  lemma {:induction false} ReadsFollowQueue(peer: Peer, far: Ear, h: Log, seg: Log)
    requires Conforming(peer, far) && Answered(peer, h + seg) && ReadsOnly(seg)
    requires Pause(h) == 0 && |Received(h)| <= |Heard(far, h).r.out|
    ensures Follows(h, seg, Heard(far, h).r.out[|Received(h)|..])
    decreases |seg|
  {
    if seg == [] {
      assert h + seg == h;
    } else {
      var init, e := seg[..|seg| - 1], seg[|seg| - 1];
      assert seg == init + [e] && h + seg == h + init + [e];
      hide Answered, Received, Pause, Heard, Follows, Conforming;
      AnsweredPrefix(peer, h + seg, h + init);
      ReadsFollowQueue(peer, far, h, init);
      NextAnswer(peer, far, h, init, e);
      FollowsSnoc(h, init, Heard(far, h).r.out[|Received(h)|..], e);
    }
  }

  /** The awaited octet is in the queue, at most nineteen others before it. */
  predicate InReach(queue: seq<byte>, ch: byte, j: nat) {
    j < |queue| && j < WAIT_TRIES && queue[j] == ch && forall i :: 0 <= i < j ==> queue[i] != ch
  }

  predicate OutOfReach(queue: seq<byte>, ch: byte) {
    forall i :: 0 <= i < |queue| && i < WAIT_TRIES ==> queue[i] != ch
  }

  lemma {:induction false} NeverHeardIsNotReceived(seg: Log, ch: byte)
    requires NeverHears(seg, ch)
    ensures forall i :: 0 <= i < |Received(seg)| ==> Received(seg)[i] != ch
    decreases |seg|
  {
    if seg == [] {
    } else {
      var init := seg[..|seg| - 1];
      assert seg[|seg| - 1] != Rx(ch);
      assert NeverHears(init, ch);
      NeverHeardIsNotReceived(init, ch);
    }
  }

  lemma HeardIsReceived(seg: Log, ch: byte)
    requires Hears(seg, ch)
    ensures var got := Received(seg);
            got != [] && got[|got| - 1] == ch && forall i :: 0 <= i < |got| - 1 ==> got[i] != ch
  {
    var init := seg[..|seg| - 1];
    NeverHeardIsNotReceived(init, ch);
    ReceivedSnoc(init, Rx(ch));
    assert seg == init + [Rx(ch)];
  }

  lemma ReachIsExclusive(queue: seq<byte>, ch: byte, got: seq<byte>, j: nat)
    requires InReach(queue, ch, j) && got <= queue && got != [] && got[|got| - 1] == ch
    requires forall i :: 0 <= i < |got| - 1 ==> got[i] != ch
    ensures |got| == j + 1
  {
    assert j < |got| ==> got[j] == queue[j];
    assert queue[|got| - 1] == ch;
  }

  lemma PrefixAgrees(got: seq<byte>, queue: seq<byte>)
    requires got <= queue
    ensures forall i :: 0 <= i < |got| ==> queue[i] == got[i]
  {
  }

  /** A wait is over exactly when its octet is in reach; it then has read the queue up to it. */
  lemma AwaitWorks(h: Log, seg: Log, queue: seq<byte>, ch: byte, j: nat)
    requires Follows(h, seg, queue) && InReach(queue, ch, j)
    ensures !GivesUp(seg, ch)
    ensures Hears(seg, ch) ==> |Received(seg)| == j + 1
  {
    PrefixAgrees(Received(seg), queue);
    hide Received, Tally;
    if GivesUp(seg, ch) {
      NeverHeardIsNotReceived(seg, ch);
    } else if Hears(seg, ch) {
      HeardIsReceived(seg, ch);
      ReachIsExclusive(queue, ch, Received(seg), j);
    }
  }

  lemma AwaitFails(h: Log, seg: Log, queue: seq<byte>, ch: byte)
    requires Follows(h, seg, queue) && OutOfReach(queue, ch)
    ensures !Hears(seg, ch)
  {
    PrefixAgrees(Received(seg), queue);
    hide Received, Tally;
    if Hears(seg, ch) {
      HeardIsReceived(seg, ch);
    }
  }

  // ------------------------------------------------------------------ following a run

  /** The run is over: everything done, or a wait gave up. */
  predicate Ended(plan: seq<Action>, segs: seq<Log>) {
    Completed(plan, segs) || Refused(plan, segs)
  }

  /** A whole run against a conforming far end. */
  ghost predicate Session(peer: Peer, far: Ear, plan: seq<Action>, segs: seq<Log>) {
    Conforming(peer, far) && Answered(peer, Flatten(segs)) && Ended(plan, segs)
  }

  predicate DoneUpTo(plan: seq<Action>, segs: seq<Log>, k: nat) {
    k <= |segs| <= |plan| && forall i :: 0 <= i < k ==> Done(plan[i], segs[i])
  }

  /** After `k` actions `ear` is what the receiver has come to, and `taken` of its replies have been read. */
  predicate At(far: Ear, plan: seq<Action>, segs: seq<Log>, k: nat, ear: Ear, taken: nat) {
    && DoneUpTo(plan, segs, k)
    && Heard(far, Flatten(segs[..k])) == ear
    && |Received(Flatten(segs[..k]))| == taken <= |ear.r.out|
    && Pause(Flatten(segs[..k])) == 0
  }

  lemma Continues(plan: seq<Action>, segs: seq<Log>, k: nat)
    requires Ended(plan, segs) && DoneUpTo(plan, segs, k) && k < |plan|
    ensures k < |segs|
    ensures Done(plan[k], segs[k]) || (plan[k].Await? && GivesUp(segs[k], plan[k].ch))
  {
    if k == |segs| {
      HeardIsNotGivenUp(plan[k - 1], segs[k - 1]);
    } else {
      hide Done, GivesUp;
      assert k < |segs| - 1 ==> segs[..|segs| - 1][k] == segs[k];
    }
  }

  lemma Rejoin<T>(s: seq<T>, k: nat)
    requires k <= |s|
    ensures s[..k] + s[k..] == s
  {
  }

  lemma SegmentInLog(peer: Peer, segs: seq<Log>, k: nat)
    requires k < |segs| && Answered(peer, Flatten(segs))
    ensures Answered(peer, Flatten(segs[..k]) + segs[k])
  {
    hide *;
    FlattenStep(segs, k);
    FlattenAppend(segs[..k + 1], segs[k + 1..]);
    Rejoin(segs, k + 1);
    AnsweredPrefix(peer, Flatten(segs), Flatten(segs[..k]) + segs[k]);
  }

  lemma DoneOneMore(plan: seq<Action>, segs: seq<Log>, k: nat)
    requires DoneUpTo(plan, segs, k) && k < |segs| && Done(plan[k], segs[k])
    ensures DoneUpTo(plan, segs, k + 1)
  {
  }

  lemma PauseEnds(h: Log, seg: Log)
    requires seg != [] && seg[|seg| - 1] != Idle
    ensures Pause(h + seg) == 0
  {
  }

  lemma Advance(far: Ear, plan: seq<Action>, segs: seq<Log>, k: nat, ear: Ear, taken: nat, more: seq<byte>, got: nat)
    requires At(far, plan, segs, k, ear, taken) && k < |segs| && Done(plan[k], segs[k])
    requires Wire(segs[k]) == more && |Received(segs[k])| == got && taken + got <= |Hear(ear, more).r.out|
    requires segs[k] != [] && segs[k][|segs[k]| - 1] != Idle
    ensures At(far, plan, segs, k + 1, Hear(ear, more), taken + got)
  {
    hide Done, Flatten, Received, Pause, Hear, Wire;
    var h := Flatten(segs[..k]);
    FlattenStep(segs, k);
    HearAppend(far, Wire(h), more);
    ReceivedAppend(h, segs[k]);
    PauseEnds(h, segs[k]);
    DoneOneMore(plan, segs, k);
  }

  /** What an action put on the line. */
  function Line(a: Action, seg: Log): seq<byte> {
    if a.Single? && Drops(seg) then [] else Octets(a)
  }

  lemma SentSegment(a: Action, seg: Log)
    requires Done(a, seg) && Octets(a) != []
    ensures Wire(seg) == Line(a, seg) && Received(seg) == [] && seg != [] && seg[|seg| - 1] != Idle
  {
    WireOfAction(a, seg);
    hide Stalled;
    if a.Single? {
      SingleWrites(seg, a.b);
    } else {
      assert Wire([]) == [];
    }
    WritesReadNothing(seg);
  }

  lemma SingleWrites(seg: Log, b: byte)
    requires SendsOne(seg, b) || Drops(seg)
    ensures WritesOnly(seg) && seg != []
  {
  }

  lemma AtIsDone(far: Ear, plan: seq<Action>, segs: seq<Log>, k: nat, ear: Ear, taken: nat)
    requires At(far, plan, segs, k, ear, taken)
    ensures DoneUpTo(plan, segs, k) && taken <= |ear.r.out|
    ensures Heard(far, Flatten(segs[..k])) == ear && Pause(Flatten(segs[..k])) == 0
    ensures |Received(Flatten(segs[..k]))| == taken
  {
  }

  lemma SessionFacts(peer: Peer, far: Ear, plan: seq<Action>, segs: seq<Log>)
    requires Session(peer, far, plan, segs)
    ensures Conforming(peer, far) && Answered(peer, Flatten(segs)) && Ended(plan, segs)
    ensures |segs| <= |plan|
  {
  }

  /** A send always happens, and the receiver hears exactly what of it was not dropped. */
  lemma SendAt(peer: Peer, far: Ear, plan: seq<Action>, segs: seq<Log>, k: nat, ear: Ear, taken: nat)
    requires Session(peer, far, plan, segs) && At(far, plan, segs, k, ear, taken)
    requires k < |plan| && !plan[k].Await? && Octets(plan[k]) != []
    ensures k < |segs| && At(far, plan, segs, k + 1, Hear(ear, Line(plan[k], segs[k])), taken)
  {
    hide *;
    SessionFacts(peer, far, plan, segs);
    AtIsDone(far, plan, segs, k, ear, taken);
    Continues(plan, segs, k);
    SentSegment(plan[k], segs[k]);
    RepliesAdd(ear, Line(plan[k], segs[k]));
    Advance(far, plan, segs, k, ear, taken, Line(plan[k], segs[k]), 0);
  }

  lemma PacketLine(a: Action, seg: Log)
    requires a.Packet?
    ensures Line(a, seg) == Octets(a)
  {
  }

  lemma WaitSegment(peer: Peer, far: Ear, plan: seq<Action>, segs: seq<Log>, k: nat, ear: Ear, taken: nat)
    requires Session(peer, far, plan, segs) && At(far, plan, segs, k, ear, taken)
    requires k < |plan| && plan[k].Await?
    ensures k < |segs| && Follows(Flatten(segs[..k]), segs[k], ear.r.out[taken..])
    ensures Hears(segs[k], plan[k].ch) || GivesUp(segs[k], plan[k].ch)
  {
    hide *;
    SessionFacts(peer, far, plan, segs);
    AtIsDone(far, plan, segs, k, ear, taken);
    Continues(plan, segs, k);
    SegmentInLog(peer, segs, k);
    WaitReads(plan[k], segs[k]);
    ReadsFollowQueue(peer, far, Flatten(segs[..k]), segs[k]);
  }

  lemma WaitReads(a: Action, seg: Log)
    requires a.Await? && (Done(a, seg) || GivesUp(seg, a.ch))
    ensures ReadsOnly(seg)
    ensures Hears(seg, a.ch) || GivesUp(seg, a.ch)
  {
  }

  lemma HeardSegment(a: Action, seg: Log)
    requires a.Await? && Hears(seg, a.ch)
    ensures Done(a, seg) && Wire(seg) == [] && seg != [] && seg[|seg| - 1] != Idle
  {
    ReadsPutNothing(seg);
  }

  lemma HearNothing(ear: Ear)
    ensures Hear(ear, []) == ear
  {
  }

  lemma RepliesAdd(ear: Ear, octets: seq<byte>)
    ensures ear.r.out <= Hear(ear, octets).r.out
  {
    RepliesGrow(ear.r, Spoilt(octets, ear.noise));
  }

  lemma ReachBound(out: seq<byte>, taken: nat, ch: byte, j: nat)
    requires taken <= |out| && InReach(out[taken..], ch, j)
    ensures taken + j + 1 <= |out|
  {
  }

  /** A wait whose octet is in reach succeeds, and reads the queue up to it. */
  lemma HearAt(peer: Peer, far: Ear, plan: seq<Action>, segs: seq<Log>, k: nat, ear: Ear, taken: nat, ch: byte, j: nat)
    requires Session(peer, far, plan, segs) && At(far, plan, segs, k, ear, taken)
    requires k < |plan| && plan[k] == Await(ch) && InReach(ear.r.out[taken..], ch, j)
    ensures At(far, plan, segs, k + 1, ear, taken + j + 1)
  {
    hide *;
    AtIsDone(far, plan, segs, k, ear, taken);
    WaitSegment(peer, far, plan, segs, k, ear, taken);
    AwaitWorks(Flatten(segs[..k]), segs[k], ear.r.out[taken..], ch, j);
    HeardSegment(plan[k], segs[k]);
    HearNothing(ear);
    ReachBound(ear.r.out, taken, ch, j);
    Advance(far, plan, segs, k, ear, taken, [], j + 1);
  }

  lemma CompletedAt(plan: seq<Action>, segs: seq<Log>, k: nat)
    requires Completed(plan, segs) && k < |plan|
    ensures Done(plan[k], segs[k])
    ensures plan[k].Await? ==> Hears(segs[k], plan[k].ch)
  {
  }

  /** A run that did not hear what it waited for went no further. */
  lemma StopsThere(far: Ear, plan: seq<Action>, segs: seq<Log>, k: nat)
    requires Ended(plan, segs) && k < |segs| <= |plan| && plan[k].Await? && !Hears(segs[k], plan[k].ch) && ReadsOnly(segs[k])
    ensures Heard(far, Flatten(segs)) == Heard(far, Flatten(segs[..k]))
  {
    LastOne(plan, segs, k);
    hide *;
    assert segs[..k + 1] == segs;
    FlattenStep(segs, k);
    ReadsPutNothing(segs[k]);
    WireAppend(Flatten(segs[..k]), segs[k]);
    NothingMore(Wire(Flatten(segs[..k])));
    SameWire(far, Flatten(segs), Flatten(segs[..k]));
  }

  lemma DoneBefore(plan: seq<Action>, segs: seq<Log>, k: nat)
    requires Ended(plan, segs) && k + 1 < |segs| <= |plan|
    ensures Done(plan[k], segs[k])
  {
    hide Done, GivesUp;
    assert segs[..|segs| - 1][k] == segs[k];
  }

  lemma LastOne(plan: seq<Action>, segs: seq<Log>, k: nat)
    requires Ended(plan, segs) && k < |segs| <= |plan| && plan[k].Await? && !Hears(segs[k], plan[k].ch)
    ensures |segs| == k + 1
  {
    hide Ended, Hears;
    if k + 1 < |segs| {
      DoneBefore(plan, segs, k);
    }
  }

  lemma NothingMore(s: seq<byte>)
    ensures s + [] == s
  {
  }

  lemma SameWire(far: Ear, a: Log, b: Log)
    requires Wire(a) == Wire(b)
    ensures Heard(far, a) == Heard(far, b)
  {
  }

  /** The transfer stops short, and the receiver has nothing to show. */
  predicate Fails(far: Ear, plan: seq<Action>, segs: seq<Log>) {
    !Completed(plan, segs) && Delivered(Heard(far, Flatten(segs)).r) == None
  }

  /** A wait whose octet is out of reach ends the transfer. */
  lemma RefuseAt(peer: Peer, far: Ear, plan: seq<Action>, segs: seq<Log>, k: nat, ear: Ear, taken: nat, ch: byte)
    requires Session(peer, far, plan, segs) && At(far, plan, segs, k, ear, taken)
    requires k < |plan| && plan[k] == Await(ch) && OutOfReach(ear.r.out[taken..], ch) && Delivered(ear.r) == None
    ensures Fails(far, plan, segs)
  {
    hide *;
    SessionFacts(peer, far, plan, segs);
    AtIsDone(far, plan, segs, k, ear, taken);
    WaitSegment(peer, far, plan, segs, k, ear, taken);
    AwaitFails(Flatten(segs[..k]), segs[k], ear.r.out[taken..], ch);
    NotHeardReads(segs[k], ch);
    StopsThere(far, plan, segs, k);
    if Completed(plan, segs) {
      CompletedAt(plan, segs, k);
    }
    FailsSo(far, plan, segs, ear);
  }

  lemma NotHeardReads(seg: Log, ch: byte)
    requires GivesUp(seg, ch)
    ensures ReadsOnly(seg)
  {
  }

  lemma FailsSo(far: Ear, plan: seq<Action>, segs: seq<Log>, ear: Ear)
    requires !Completed(plan, segs) && Heard(far, Flatten(segs)) == ear && Delivered(ear.r) == None
    ensures Fails(far, plan, segs)
  {
  }
}
