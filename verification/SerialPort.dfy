/**
 The serial port as modem/ymodem.cpp sees it. A log records every call that reached the
 device; the far end is an arbitrary function of that log, so a statement about all peers
 is a statement about all reply streams.
 */
module SerialPort {
  import opened Bytes

  datatype Event =
    | Tx(data: seq<byte>) // a write, and the part of it that was accepted
    | Rx(b: byte)         // a one-octet read that returned an octet
    | Idle                // a one-octet read that timed out

  type Log = seq<Event>

  type Peer = Log -> Option<byte>

  /** Everything put on the line. */
  function Wire(log: Log): seq<byte> {
    if log == [] then []
    else Wire(log[..|log| - 1]) + Accepted(log[|log| - 1])
  }

  function Accepted(e: Event): seq<byte> {
    match e case Tx(data) => data case Rx(_) => [] case Idle => []
  }

  lemma {:induction false} WireAppend(a: Log, b: Log)
    ensures Wire(a + b) == Wire(a) + Wire(b)
    decreases |b|
  {
    if b == [] {
      assert a + b == a && Wire(b) == [];
    } else {
      WireAppend(a, b[..|b| - 1]);
      LastOfSum(a, b);
      Associative(Wire(a), Wire(b[..|b| - 1]), Accepted(b[|b| - 1]));
      hide Accepted;
    }
  }

  lemma WireOne(e: Event)
    ensures Wire([e]) == Accepted(e)
  {
    assert [e][..0] == [] && Wire([]) == [];
  }

  /** How many writes were accepted with length zero. */
  function Empties(log: Log): nat {
    if log == [] then 0 else Empties(log[..|log| - 1]) + if log[|log| - 1] == Tx([]) then 1 else 0
  }

  lemma EmptiesSnoc(log: Log, e: Event)
    ensures Empties(log + [e]) == Empties(log) + if e == Tx([]) then 1 else 0
  {
    assert (log + [e])[..|log|] == log;
  }

  lemma {:induction false} EmptiesAppend(a: Log, b: Log)
    ensures Empties(a + b) == Empties(a) + Empties(b)
    decreases |b|
  {
    if b == [] {
      assert a + b == a;
    } else {
      EmptiesAppend(a, b[..|b| - 1]);
      LastOfSum(a, b);
    }
  }

  predicate AnsweredAt(peer: Peer, log: Log, i: nat)
    requires i < |log|
  {
    match log[i]
    case Tx(_) => true
    case Rx(b) => peer(log[..i]) == Some(b)
    case Idle => peer(log[..i]) == None
  }

  /** Every read in the log was answered by the peer. */
  ghost predicate Answered(peer: Peer, log: Log) {
    forall i :: 0 <= i < |log| ==> AnsweredAt(peer, log, i)
  }

  lemma AnsweredSnoc(peer: Peer, log: Log, e: Event)
    requires Answered(peer, log)
    requires match e case Tx(_) => true case Rx(b) => peer(log) == Some(b) case Idle => peer(log) == None
    ensures Answered(peer, log + [e])
  {
    var now := log + [e];
    forall i | 0 <= i < |now|
      ensures AnsweredAt(peer, now, i)
    {
      if i < |log| {
        assert AnsweredAt(peer, log, i);
        assert now[..i] == log[..i];
      } else {
        assert now[..i] == log;
      }
    }
  }

  /** The far end once `base` is behind it. */
  function Onward(peer: Peer, base: Log): Peer {
    (h: Log) => peer(base + h)
  }

  lemma AnsweredOnward(peer: Peer, base: Log, added: Log)
    requires Answered(peer, base + added)
    ensures Answered(Onward(peer, base), added)
  {
    forall i | 0 <= i < |added|
      ensures AnsweredAt(Onward(peer, base), added, i)
    {
      assert AnsweredAt(peer, base + added, |base| + i);
      assert (base + added)[..|base| + i] == base + added[..i];
    }
  }

  class Port {
    const open: bool
    const peer: Peer
    var log: Log
    var stalls: nat // how many more writes will be accepted with length zero

    constructor (open: bool, peer: Peer, stalls: nat)
      ensures this.open == open && this.peer == peer && this.stalls == stalls && log == []
    {
      this.open, this.peer, this.stalls, this.log := open, peer, stalls, [];
    }

    /** UART_READ of one octet. */
    method Read() returns (result: bool, len: nat, c: byte)
      requires Answered(peer, log)
      modifies this`log
      ensures Answered(peer, log)
      ensures result == open && len <= 1
      ensures !open ==> log == old(log)
      ensures open ==> log == old(log) + [if len == 1 then Rx(c) else Idle]
    {
      result, len, c := open, 0, 0;
      if open {
        match peer(log)
        case None =>
          AnsweredSnoc(peer, log, Idle);
          log := log + [Idle];
        case Some(b) =>
          AnsweredSnoc(peer, log, Rx(b));
          len, c := 1, b;
          log := log + [Rx(b)];
      }
    }

    /** UART_WRITE: any prefix may be accepted, the empty one only while stalls remain. */
    method Write(data: seq<byte>) returns (result: bool, len: nat)
      requires Answered(peer, log) && data != []
      modifies this
      ensures Answered(peer, log)
      ensures result == open
      ensures !open ==> log == old(log) && stalls == old(stalls)
      ensures open ==> len <= |data| && log == old(log) + [Tx(data[..len])]
      ensures open ==> stalls == old(stalls) - (if len == 0 then 1 else 0)
    {
      result, len := open, 0;
      if open {
        len :| len <= |data| && (len == 0 ==> stalls > 0);
        if len == 0 {
          stalls := stalls - 1;
        }
        AnsweredSnoc(peer, log, Tx(data[..len]));
        log := log + [Tx(data[..len])];
      }
    }
  }
}
