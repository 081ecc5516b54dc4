/**
 doParseFile of CosmosParser.cpp: a header, then tagged records, read through one buffer that
 keeps what earlier reads left in it. Record sizes are parameters, and whether a position
 record holds a fix is an arbitrary test on its octets.
 */
module LogParser {
  import opened Bytes

  const BUFFER_SIZE := 512

  const GPS: byte := 0x10
  const HEARTBEAT: byte := 0x20
  const PEDOMETER: byte := 0x21
  const BIKE: byte := 0x22
  const BAROMETER: byte := 0x30
  const TEMPERATURE: byte := 0x31
  const LAP: byte := 0x82

  datatype Sizes = Sizes(head: nat, gps: nat, heartbeat: nat, pedometer: nat, bike: nat, barometer: nat,
                         temperature: nat, lap: nat)

  predicate Fits(n: nat) {
    0 < n <= BUFFER_SIZE
  }

  predicate Legal(z: Sizes) {
    && Fits(z.head) && Fits(z.gps) && Fits(z.heartbeat) && Fits(z.pedometer) && Fits(z.bike) && Fits(z.barometer)
    && Fits(z.temperature) && Fits(z.lap)
  }

  /** Octets that follow a tag; none follow a tag that is not known. */
  function Size(z: Sizes, tag: byte): (n: nat)
    requires Legal(z)
    ensures n <= BUFFER_SIZE
  {
    if tag == GPS then z.gps else if tag == HEARTBEAT then z.heartbeat else if tag == PEDOMETER then z.pedometer
    else if tag == BIKE then z.bike else if tag == BAROMETER then z.barometer
    else if tag == TEMPERATURE then z.temperature else if tag == LAP then z.lap else 0
  }

  predicate Known(tag: byte) {
    tag == GPS || tag == HEARTBEAT || tag == PEDOMETER || tag == BIKE || tag == BAROMETER || tag == TEMPERATURE || tag == LAP
  }

  // ------------------------------------------------------------------ logs

  datatype Record = Record(tag: byte, data: seq<byte>)

  predicate Complete(z: Sizes, r: Record)
    requires Legal(z)
  {
    |r.data| == Size(z, r.tag)
  }

  predicate AllComplete(z: Sizes, rs: seq<Record>)
    requires Legal(z)
  {
    forall r :: r in rs ==> Complete(z, r)
  }

  function Encode(rs: seq<Record>): seq<byte> {
    if rs == [] then [] else [rs[0].tag] + rs[0].data + Encode(rs[1..])
  }

  /** The complete records a byte string starts with, and what is left over. */
  function Split(z: Sizes, rest: seq<byte>): (seq<Record>, seq<byte>)
    requires Legal(z)
    decreases |rest|
  {
    if rest == [] || |rest| - 1 < Size(z, rest[0]) then ([], rest)
    else
      var n := Size(z, rest[0]);
      var (rs, tail) := Split(z, rest[1 + n..]);
      ([Record(rest[0], rest[1..1 + n])] + rs, tail)
  }

  /** Nothing, or a record cut short. */
  predicate Truncated(z: Sizes, tail: seq<byte>)
    requires Legal(z)
  {
    tail != [] ==> |tail| - 1 < Size(z, tail[0])
  }

  /** Every byte string is complete records and a truncated one, in just one way. */
  lemma {:induction false} SplitIsExact(z: Sizes, rest: seq<byte>)
    requires Legal(z)
    ensures var (rs, tail) := Split(z, rest);
            rest == Encode(rs) + tail && Truncated(z, tail) && AllComplete(z, rs)
    decreases |rest|
  {
    if rest == [] || |rest| - 1 < Size(z, rest[0]) {
      assert Split(z, rest) == ([], rest) && Encode([]) + rest == rest;
    } else {
      var r, after := Record(rest[0], rest[1..1 + Size(z, rest[0])]), rest[1 + Size(z, rest[0])..];
      SplitStep(z, rest);
      hide *;
      SplitIsExact(z, after);
      var (rs, tail) := Split(z, after);
      JoinRecord(z, r, rs, tail);
    }
  }

  lemma SplitStep(z: Sizes, rest: seq<byte>)
    requires Legal(z) && rest != [] && |rest| - 1 >= Size(z, rest[0])
    ensures var n := Size(z, rest[0]);
            var r, after := Record(rest[0], rest[1..1 + n]), rest[1 + n..];
            && Complete(z, r) && rest == [r.tag] + r.data + after && |after| < |rest|
            && Split(z, rest) == ([r] + Split(z, after).0, Split(z, after).1)
  {
    hide Size;
  }

  lemma JoinRecord(z: Sizes, r: Record, rs: seq<Record>, tail: seq<byte>)
    requires Legal(z) && Complete(z, r) && AllComplete(z, rs)
    ensures [r.tag] + r.data + (Encode(rs) + tail) == Encode([r] + rs) + tail && AllComplete(z, [r] + rs)
  {
    EncodeCons(r, rs);
    Associative([r.tag] + r.data, Encode(rs), tail);
    hide Encode, Complete;
  }

  lemma EncodeCons(r: Record, rs: seq<Record>)
    ensures Encode([r] + rs) == [r.tag] + r.data + Encode(rs)
  {
    assert ([r] + rs)[1..] == rs;
  }

  lemma {:induction false} SplitOfEncode(z: Sizes, rs: seq<Record>, tail: seq<byte>)
    requires Legal(z) && Truncated(z, tail) && AllComplete(z, rs)
    ensures Split(z, Encode(rs) + tail) == (rs, tail)
    decreases |rs|
  {
    if rs == [] {
      assert Encode(rs) + tail == tail;
    } else {
      SplitOfEncode(z, rs[1..], tail);
      FirstRecord(rs, tail);
      assert rs[0] in rs;
      hide Encode, Size;
      assert [rs[0]] + rs[1..] == rs;
    }
  }

  lemma FirstRecord(rs: seq<Record>, tail: seq<byte>)
    requires rs != []
    ensures var all, n := Encode(rs) + tail, |rs[0].data|;
            |all| >= 1 + n && all[0] == rs[0].tag && all[1..1 + n] == rs[0].data && all[1 + n..] == Encode(rs[1..]) + tail
  {
    var r, more := rs[0], Encode(rs[1..]);
    assert Encode(rs) + tail == [r.tag] + r.data + (more + tail) by { Associative([r.tag] + r.data, more, tail); }
    hide Encode;
    Layout(r.tag, r.data, more + tail);
  }

  lemma Layout(tag: byte, data: seq<byte>, more: seq<byte>)
    ensures var all, n := [tag] + data + more, |data|;
            |all| >= 1 + n && all[0] == tag && all[1..1 + n] == data && all[1 + n..] == more
  {
  }

  // ------------------------------------------------------------------ the loop as a function

  /** A position record holds a fix: latitude or longitude is not zero. */
  type FixTest = seq<byte> -> bool

  /** Whether the disk takes the k-th line. */
  type Disk = nat -> bool

  function Always(k: nat): bool { true }

  /** A read of `part` into the buffer. */
  function Over(buffer: seq<byte>, part: seq<byte>): (b: seq<byte>)
    requires |part| <= |buffer|
    ensures |b| == |buffer|
  {
    part + buffer[|part|..]
  }

  /** As many of `n` octets as there are. */
  function Taken(rest: seq<byte>, n: nat): (part: seq<byte>)
    ensures |part| <= n
  {
    if n <= |rest| then rest[..n] else rest
  }

  /** The loop goes on after a record that is no position: not cut short, or a lap of at least one octet. */
  predicate GoesOn(z: Sizes, tag: byte, read: nat)
    requires Legal(z)
  {
    if tag == LAP then read > 0 else read == Size(z, tag)
  }

  /** What a turn of the loop writes, once `part` is over the tag in the buffer; None ends the loop. */
  function Writes(z: Sizes, isFix: FixTest, disk: Disk, tag: byte, read: nat, now: seq<byte>, k: nat): Option<seq<seq<byte>>>
    requires Legal(z) && |now| == BUFFER_SIZE
  {
    if tag == GPS then
      if read < z.heartbeat then None
      else if !isFix(now[..z.gps]) then Some([])
      else if disk(k) then Some([now[..z.gps]])
      else None
    else if GoesOn(z, tag, read) then Some([])
    else None
  }

  /** The octets read behind the first tag, the buffer with them, and what is left to read. */
  function Behind(z: Sizes, rest: seq<byte>): (part: seq<byte>)
    requires Legal(z) && rest != []
    ensures |part| < |rest| && |part| <= BUFFER_SIZE
  {
    Taken(rest[1..], Size(z, rest[0]))
  }

  function Now(z: Sizes, rest: seq<byte>, buffer: seq<byte>): (now: seq<byte>)
    requires Legal(z) && rest != [] && |buffer| == BUFFER_SIZE
    ensures |now| == BUFFER_SIZE
  {
    Over(Over(buffer, [rest[0]]), Behind(z, rest))
  }

  function Onward(z: Sizes, rest: seq<byte>): (after: seq<byte>)
    requires Legal(z) && rest != []
    ensures |after| < |rest|
  {
    rest[1 + |Behind(z, rest)|..]
  }

  /** The lines the body loop writes; `k` counts those written before. */
  function Lines(z: Sizes, isFix: FixTest, disk: Disk, rest: seq<byte>, buffer: seq<byte>, k: nat): seq<seq<byte>>
    requires Legal(z) && |buffer| == BUFFER_SIZE
    decreases |rest|
  {
    if rest == [] then []
    else
      var now := Now(z, rest, buffer);
      match Writes(z, isFix, disk, rest[0], |Behind(z, rest)|, now, k)
      case None => []
      case Some(lines) => lines + Lines(z, isFix, disk, Onward(z, rest), now, k + |lines|)
  }

  // ------------------------------------------------------------------ what comes out

  /** One line per position record with a fix, in order. */
  function Fixes(isFix: FixTest, rs: seq<Record>): seq<seq<byte>> {
    if rs == [] then []
    else (if rs[0].tag == GPS && isFix(rs[0].data) then [rs[0].data] else []) + Fixes(isFix, rs[1..])
  }

  /** The buffer after these records. */
  function BufferAfter(z: Sizes, buffer: seq<byte>, rs: seq<Record>): (b: seq<byte>)
    requires Legal(z) && |buffer| == BUFFER_SIZE && AllComplete(z, rs)
    ensures |b| == BUFFER_SIZE
    decreases |rs|
  {
    if rs == [] then buffer
    else
      assert rs[0] in rs;
      BufferAfter(z, Over(Over(buffer, [rs[0].tag]), rs[0].data), rs[1..])
  }

  /** A position record cut short that the loop takes for a whole one: it is measured against the wrong size. */
  predicate PassesForWhole(z: Sizes, tail: seq<byte>) {
    tail != [] && tail[0] == GPS && |tail| - 1 >= z.heartbeat
  }

  /** The record it sees: the octets there are, completed with what the buffer held. */
  function Patched(z: Sizes, tail: seq<byte>, buffer: seq<byte>): seq<byte>
    requires Legal(z) && tail != [] && |tail| - 1 <= z.gps && |buffer| == BUFFER_SIZE
  {
    Over(Over(buffer, [tail[0]]), tail[1..])[..z.gps]
  }

  function TailLines(z: Sizes, isFix: FixTest, tail: seq<byte>, buffer: seq<byte>): seq<seq<byte>>
    requires Legal(z) && Truncated(z, tail) && |buffer| == BUFFER_SIZE
  {
    if PassesForWhole(z, tail) && isFix(Patched(z, tail, buffer)) then [Patched(z, tail, buffer)] else []
  }

  lemma NoMore(z: Sizes, isFix: FixTest, disk: Disk, buffer: seq<byte>, k: nat)
    requires Legal(z) && |buffer| == BUFFER_SIZE
    ensures Lines(z, isFix, disk, [], buffer, k) == []
  {
  }

  lemma TailRead(z: Sizes, tail: seq<byte>)
    requires Legal(z) && Truncated(z, tail) && tail != []
    ensures Behind(z, tail) == tail[1..] && Onward(z, tail) == []
  {
    hide Size;
  }

  lemma LinesOfTail(z: Sizes, isFix: FixTest, tail: seq<byte>, buffer: seq<byte>, k: nat)
    requires Legal(z) && Truncated(z, tail) && |buffer| == BUFFER_SIZE
    ensures Lines(z, isFix, Always, tail, buffer, k) == TailLines(z, isFix, tail, buffer)
  {
    if tail != [] {
      TailRead(z, tail);
      var now := Now(z, tail, buffer);
      NoMore(z, isFix, Always, now, k);
      NoMore(z, isFix, Always, now, k + 1);
      hide Behind, Onward, Over, Size;
    }
  }

  lemma Facts(z: Sizes)
    requires Legal(z)
    ensures z.heartbeat > 0 && z.gps <= BUFFER_SIZE == 512
  {
  }

  function Fix(isFix: FixTest, r: Record): seq<seq<byte>> {
    if r.tag == GPS && isFix(r.data) then [r.data] else []
  }

  lemma RecordRead(z: Sizes, r: Record, more: seq<byte>)
    requires Legal(z) && Complete(z, r)
    ensures var rest := [r.tag] + r.data + more;
            rest[0] == r.tag && Behind(z, rest) == r.data && Onward(z, rest) == more
  {
    var rest := [r.tag] + r.data + more;
    assert rest[1..] == r.data + more;
    hide Size;
  }

  lemma RecordWrites(z: Sizes, isFix: FixTest, r: Record, buffer: seq<byte>, k: nat)
    requires Legal(z) && z.heartbeat <= z.gps && Complete(z, r) && |buffer| == BUFFER_SIZE
    ensures Writes(z, isFix, Always, r.tag, |r.data|, Over(buffer, r.data), k) == Some(Fix(isFix, r))
  {
    assert Over(buffer, r.data)[..|r.data|] == r.data;
    hide Over;
  }

  /** One complete record through the loop. */
  lemma LinesOfRecord(z: Sizes, isFix: FixTest, r: Record, more: seq<byte>, buffer: seq<byte>, k: nat)
    requires Legal(z) && z.heartbeat <= z.gps && Complete(z, r) && |buffer| == BUFFER_SIZE
    ensures var now := Over(Over(buffer, [r.tag]), r.data);
            Lines(z, isFix, Always, [r.tag] + r.data + more, buffer, k) ==
            Fix(isFix, r) + Lines(z, isFix, Always, more, now, k + |Fix(isFix, r)|)
  {
    var rest := [r.tag] + r.data + more;
    hide *;
    Facts(z);
    RecordRead(z, r, more);
    RecordBuffer(z, r, more, buffer);
    RecordWrites(z, isFix, r, Over(buffer, [r.tag]), k);
    LinesTurn(z, isFix, Always, rest, buffer, k);
  }

  lemma RecordBuffer(z: Sizes, r: Record, more: seq<byte>, buffer: seq<byte>)
    requires Legal(z) && Complete(z, r) && |buffer| == BUFFER_SIZE
    ensures |r.data| <= BUFFER_SIZE
    ensures Now(z, [r.tag] + r.data + more, buffer) == Over(Over(buffer, [r.tag]), r.data)
  {
    RecordRead(z, r, more);
    hide Over, Behind, Size, Legal;
  }

  /** The counter does not matter to a disk that takes everything. */
  lemma {:induction false} CounterIsFree(z: Sizes, isFix: FixTest, rest: seq<byte>, buffer: seq<byte>, k: nat, j: nat)
    requires Legal(z) && |buffer| == BUFFER_SIZE
    ensures Lines(z, isFix, Always, rest, buffer, k) == Lines(z, isFix, Always, rest, buffer, j)
    decreases |rest|
  {
    hide *;
    if rest == [] {
      NoMore(z, isFix, Always, buffer, k);
      NoMore(z, isFix, Always, buffer, j);
    } else {
      LinesTurn(z, isFix, Always, rest, buffer, k);
      LinesTurn(z, isFix, Always, rest, buffer, j);
      WritesAlike(z, isFix, rest[0], |Behind(z, rest)|, Now(z, rest, buffer), k, j);
      var written := Writes(z, isFix, Always, rest[0], |Behind(z, rest)|, Now(z, rest, buffer), k);
      if written.Some? {
        CounterIsFree(z, isFix, Onward(z, rest), Now(z, rest, buffer), k + |written.value|, j + |written.value|);
      }
    }
  }

  lemma WritesAlike(z: Sizes, isFix: FixTest, tag: byte, read: nat, now: seq<byte>, k: nat, j: nat)
    requires Legal(z) && |now| == BUFFER_SIZE
    ensures Writes(z, isFix, Always, tag, read, now, k) == Writes(z, isFix, Always, tag, read, now, j)
  {
    hide GoesOn, Legal;
  }

  lemma FromNothing(z: Sizes, isFix: FixTest, tail: seq<byte>, buffer: seq<byte>)
    requires Legal(z) && |buffer| == BUFFER_SIZE
    ensures AllComplete(z, []) && Encode([]) + tail == tail && BufferAfter(z, buffer, []) == buffer
    ensures forall lines: seq<seq<byte>> :: Fixes(isFix, []) + lines == lines
  {
  }

  /** The parts of a log from its first record on. */
  lemma FromFirst(z: Sizes, isFix: FixTest, rs: seq<Record>, tail: seq<byte>, buffer: seq<byte>)
    requires Legal(z) && |buffer| == BUFFER_SIZE && rs != [] && AllComplete(z, rs)
    ensures Complete(z, rs[0]) && AllComplete(z, rs[1..]) && |rs[0].data| <= BUFFER_SIZE
    ensures Encode(rs) + tail == [rs[0].tag] + rs[0].data + (Encode(rs[1..]) + tail)
    ensures Fixes(isFix, rs) == Fix(isFix, rs[0]) + Fixes(isFix, rs[1..])
    ensures BufferAfter(z, buffer, rs) == BufferAfter(z, Over(Over(buffer, [rs[0].tag]), rs[0].data), rs[1..])
  {
    assert rs[0] in rs;
    Associative([rs[0].tag] + rs[0].data, Encode(rs[1..]), tail);
    hide Over, Size;
  }

  /** Any number of complete records, whatever follows: one line per fix, in order. */
  lemma {:induction false} LinesOfRecords(z: Sizes, isFix: FixTest, rs: seq<Record>, tail: seq<byte>, buffer: seq<byte>)
    requires Legal(z) && z.heartbeat <= z.gps && |buffer| == BUFFER_SIZE && AllComplete(z, rs)
    ensures Lines(z, isFix, Always, Encode(rs) + tail, buffer, 0) ==
            Fixes(isFix, rs) + Lines(z, isFix, Always, tail, BufferAfter(z, buffer, rs), 0)
    decreases |rs|
  {
    hide *;
    Facts(z);
    if rs == [] {
      FromNothing(z, isFix, tail, buffer);
    } else {
      FromFirst(z, isFix, rs, tail, buffer);
      var r, more := rs[0], Encode(rs[1..]) + tail;
      var now := Over(Over(buffer, [r.tag]), r.data);
      LinesOfRecord(z, isFix, r, more, buffer, 0);
      LinesOfRecords(z, isFix, rs[1..], tail, now);
      CounterIsFree(z, isFix, more, now, |Fix(isFix, r)|, 0);
      Associative(Fix(isFix, r), Fixes(isFix, rs[1..]), Lines(z, isFix, Always, tail, BufferAfter(z, now, rs[1..]), 0));
    }
  }

  /**
   What comes out of any byte string at all, exactly: a line per complete position record with
   a fix, in order, and possibly one more from a position record cut short.
   */
  lemma OutputIsExact(z: Sizes, isFix: FixTest, rest: seq<byte>, buffer: seq<byte>)
    requires Legal(z) && z.heartbeat <= z.gps && |buffer| == BUFFER_SIZE
    ensures var (rs, tail) := Split(z, rest);
            && Truncated(z, tail) && AllComplete(z, rs)
            && Lines(z, isFix, Always, rest, buffer, 0) ==
               Fixes(isFix, rs) + TailLines(z, isFix, tail, BufferAfter(z, buffer, rs))
  {
    SplitIsExact(z, rest);
    var (rs, tail) := Split(z, rest);
    hide Lines, Split, Encode, TailLines, Fixes;
    LinesOfRecords(z, isFix, rs, tail, buffer);
    LinesOfTail(z, isFix, tail, BufferAfter(z, buffer, rs), 0);
  }

  /** A log of complete records gives one line per fix, whatever the buffer held before. */
  lemma WholeLog(z: Sizes, isFix: FixTest, rs: seq<Record>, buffer: seq<byte>)
    requires Legal(z) && z.heartbeat <= z.gps && |buffer| == BUFFER_SIZE
    requires AllComplete(z, rs)
    ensures Lines(z, isFix, Always, Encode(rs), buffer, 0) == Fixes(isFix, rs)
  {
    hide Encode, Fixes, Lines;
    LinesOfRecords(z, isFix, rs, [], buffer);
    NoMore(z, isFix, Always, BufferAfter(z, buffer, rs), 0);
    assert Encode(rs) + [] == Encode(rs);
  }

  // ------------------------------------------------------------------ records by kind

  /** The records a log is made of, each with a length of its own; a tag that is none of theirs stands alone. */
  datatype Typed =
    | Gps(data: seq<byte>)
    | Heartbeat(data: seq<byte>)
    | Pedometer(data: seq<byte>)
    | Bike(data: seq<byte>)
    | Barometer(data: seq<byte>)
    | Temperature(data: seq<byte>)
    | Lap(data: seq<byte>)
    | Other(tag: byte)

  function Length(z: Sizes, t: Typed): nat {
    match t
    case Gps(_) => z.gps
    case Heartbeat(_) => z.heartbeat
    case Pedometer(_) => z.pedometer
    case Bike(_) => z.bike
    case Barometer(_) => z.barometer
    case Temperature(_) => z.temperature
    case Lap(_) => z.lap
    case Other(_) => 0
  }

  function Octets(t: Typed): (octets: seq<byte>)
    ensures octets != []
  {
    match t
    case Gps(data) => [0x10] + data
    case Heartbeat(data) => [0x20] + data
    case Pedometer(data) => [0x21] + data
    case Bike(data) => [0x22] + data
    case Barometer(data) => [0x30] + data
    case Temperature(data) => [0x31] + data
    case Lap(data) => [0x82] + data
    case Other(tag) => [tag]
  }

  predicate Named(t: Typed) {
    t.Other? ==> t.tag !in [0x10, 0x20, 0x21, 0x22, 0x30, 0x31, 0x82]
  }

  predicate AllWhole(z: Sizes, ts: seq<Typed>) {
    forall i :: 0 <= i < |ts| ==> Named(ts[i]) && |Octets(ts[i])| == 1 + Length(z, ts[i])
  }

  function OctetsOf(ts: seq<Typed>): seq<byte> {
    if ts == [] then [] else Octets(ts[0]) + OctetsOf(ts[1..])
  }

  /** The positions with a fix, in order. */
  function Positions(isFix: FixTest, ts: seq<Typed>): seq<seq<byte>> {
    if ts == [] then []
    else if ts[0].Gps? && isFix(ts[0].data) then [ts[0].data] + Positions(isFix, ts[1..])
    else Positions(isFix, ts[1..])
  }

  function Untyped(t: Typed): Record {
    Record(Octets(t)[0], Octets(t)[1..])
  }

  function UntypedAll(ts: seq<Typed>): seq<Record> {
    if ts == [] then [] else [Untyped(ts[0])] + UntypedAll(ts[1..])
  }

  /** The size that goes with the tag is the one of its own kind. */
  lemma SizeOfKind(z: Sizes, t: Typed)
    requires Legal(z) && Named(t)
    ensures Size(z, Octets(t)[0]) == Length(z, t)
    ensures Octets(t)[0] == 0x10 <==> t.Gps?
  {
  }

  lemma TypedRecord(z: Sizes, isFix: FixTest, t: Typed)
    requires Legal(z) && Named(t) && |Octets(t)| == 1 + Length(z, t)
    ensures Complete(z, Untyped(t)) && [Untyped(t).tag] + Untyped(t).data == Octets(t)
    ensures Fix(isFix, Untyped(t)) == if t.Gps? && isFix(t.data) then [t.data] else []
  {
    SizeOfKind(z, t);
    assert t.Gps? ==> Octets(t)[1..] == t.data;
    hide Size, Length, Legal;
  }

  lemma {:induction false} TypedRecords(z: Sizes, isFix: FixTest, ts: seq<Typed>)
    requires Legal(z) && AllWhole(z, ts)
    ensures AllComplete(z, UntypedAll(ts)) && Encode(UntypedAll(ts)) == OctetsOf(ts)
    ensures Fixes(isFix, UntypedAll(ts)) == Positions(isFix, ts)
    decreases |ts|
  {
    if ts == [] {
    } else {
      TypedRecord(z, isFix, ts[0]);
      TypedRecords(z, isFix, ts[1..]);
      EncodeCons(Untyped(ts[0]), UntypedAll(ts[1..]));
      assert UntypedAll(ts)[1..] == UntypedAll(ts[1..]);
      hide Octets, Untyped, Complete, Encode;
    }
  }

  /** A log of whole records of all kinds gives one line per position with a fix, in order, and nothing else. */
  lemma TypedLog(z: Sizes, isFix: FixTest, ts: seq<Typed>, buffer: seq<byte>)
    requires Legal(z) && z.heartbeat <= z.gps && |buffer| == BUFFER_SIZE && AllWhole(z, ts)
    ensures Lines(z, isFix, Always, OctetsOf(ts), buffer, 0) == Positions(isFix, ts)
  {
    hide *;
    Facts(z);
    TypedRecords(z, isFix, ts);
    WholeLog(z, isFix, UntypedAll(ts), buffer);
  }

  lemma CutRecord(z: Sizes, last: Typed)
    requires Legal(z) && Named(last) && |Octets(last)| < 1 + Length(z, last)
    ensures Truncated(z, Octets(last)) && (PassesForWhole(z, Octets(last)) <==> last.Gps? && |last.data| >= z.heartbeat)
    ensures last.Gps? ==> |last.data| < z.gps
  {
    SizeOfKind(z, last);
    hide Size;
  }

  /** The octets that came, completed with what the buffer held at the places of the others. */
  lemma PatchedIs(z: Sizes, data: seq<byte>, buffer: seq<byte>)
    requires Legal(z) && 0 < |data| <= z.gps && |buffer| == BUFFER_SIZE
    ensures Patched(z, [0x10] + data, buffer) == data + buffer[|data|..z.gps]
  {
    assert ([0x10] + data)[1..] == data;
  }

  /**
   The same log with a last record cut short: one line more exactly when that is a position record of at
   least a heartbeat's length, and the record completed from the buffer passes for a fix.
   */
  lemma TypedLogCutShort(z: Sizes, isFix: FixTest, ts: seq<Typed>, last: Typed, buffer: seq<byte>)
    requires Legal(z) && z.heartbeat <= z.gps && |buffer| == BUFFER_SIZE && AllWhole(z, ts)
    requires Named(last) && |Octets(last)| < 1 + Length(z, last)
    ensures AllComplete(z, UntypedAll(ts)) && (last.Gps? ==> |last.data| < z.gps <= BUFFER_SIZE)
    ensures Lines(z, isFix, Always, OctetsOf(ts) + Octets(last), buffer, 0) ==
            Positions(isFix, ts) +
            if last.Gps? && |last.data| >= z.heartbeat &&
               isFix(last.data + BufferAfter(z, buffer, UntypedAll(ts))[|last.data|..z.gps])
            then [last.data + BufferAfter(z, buffer, UntypedAll(ts))[|last.data|..z.gps]] else []
  {
    hide *;
    Facts(z);
    TypedRecords(z, isFix, ts);
    CutRecord(z, last);
    LinesOfRecords(z, isFix, UntypedAll(ts), Octets(last), buffer);
    LinesOfTail(z, isFix, Octets(last), BufferAfter(z, buffer, UntypedAll(ts)), 0);
    CutLines(z, isFix, last, BufferAfter(z, buffer, UntypedAll(ts)));
  }

  lemma CutLines(z: Sizes, isFix: FixTest, last: Typed, now: seq<byte>)
    requires Legal(z) && |now| == BUFFER_SIZE && Truncated(z, Octets(last)) && (last.Gps? ==> |last.data| < z.gps <= BUFFER_SIZE)
    requires PassesForWhole(z, Octets(last)) <==> last.Gps? && |last.data| >= z.heartbeat
    ensures TailLines(z, isFix, Octets(last), now) ==
            if last.Gps? && |last.data| >= z.heartbeat && isFix(last.data + now[|last.data|..z.gps])
            then [last.data + now[|last.data|..z.gps]] else []
  {
    Facts(z);
    hide Truncated, Patched, Size;
    if last.Gps? && |last.data| >= z.heartbeat {
      PatchedIs(z, last.data, now);
    }
  }

  /** If a position record were the smaller of the two, no line would ever be written. */
  lemma {:induction false} NoLinesWhenGpsIsSmaller(z: Sizes, isFix: FixTest, disk: Disk, rest: seq<byte>,
                                                 buffer: seq<byte>, k: nat)
    requires Legal(z) && z.gps < z.heartbeat && |buffer| == BUFFER_SIZE
    ensures Lines(z, isFix, disk, rest, buffer, k) == []
    decreases |rest|
  {
    if rest == [] {
    } else {
      GpsIsShort(z, rest);
      hide Now, Onward, Behind, GoesOn;
      NoLinesWhenGpsIsSmaller(z, isFix, disk, Onward(z, rest), Now(z, rest, buffer), k);
    }
  }

  lemma GpsIsShort(z: Sizes, rest: seq<byte>)
    requires Legal(z) && rest != []
    ensures rest[0] == GPS ==> |Behind(z, rest)| <= z.gps
  {
  }

  /** `lines` is the beginning of `full`, cut at the first line the disk did not take. */
  ghost predicate CutAt(disk: Disk, k: nat, lines: seq<seq<byte>>, full: seq<seq<byte>>) {
    && lines <= full
    && (forall j :: k <= j < k + |lines| ==> disk(j))
    && (|lines| < |full| ==> !disk(k + |lines|))
  }

  lemma CutMore(disk: Disk, k: nat, first: seq<seq<byte>>, lines: seq<seq<byte>>, full: seq<seq<byte>>)
    requires |first| == 1 && disk(k) && CutAt(disk, k + 1, lines, full)
    ensures CutAt(disk, k, first + lines, first + full)
  {
  }

  lemma CutHere(disk: Disk, k: nat, full: seq<seq<byte>>)
    requires full == [] || !disk(k)
    ensures CutAt(disk, k, [], full)
  {
  }

  /** A failed write ends the output there and then; what is out is the beginning of the full output. */
  lemma {:induction false} FailedWriteCuts(z: Sizes, isFix: FixTest, disk: Disk, rest: seq<byte>, buffer: seq<byte>, k: nat)
    requires Legal(z) && |buffer| == BUFFER_SIZE
    ensures CutAt(disk, k, Lines(z, isFix, disk, rest, buffer, k), Lines(z, isFix, Always, rest, buffer, k))
    decreases |rest|
  {
    hide *;
    if rest == [] {
      NoMore(z, isFix, disk, buffer, k);
      NoMore(z, isFix, Always, buffer, k);
      CutHere(disk, k, []);
    } else {
      var now, after := Now(z, rest, buffer), Onward(z, rest);
      LinesTurn(z, isFix, disk, rest, buffer, k);
      LinesTurn(z, isFix, Always, rest, buffer, k);
      WriteOrStop(z, isFix, disk, rest[0], |Behind(z, rest)|, now, k);
      var full := Writes(z, isFix, Always, rest[0], |Behind(z, rest)|, now, k);
      if full == None {
        CutHere(disk, k, []);
      } else if full.value == [] {
        FailedWriteCuts(z, isFix, disk, after, now, k);
        LastTurn(Lines(z, isFix, disk, after, now, k));
        LastTurn(Lines(z, isFix, Always, after, now, k));
      } else if disk(k) {
        FailedWriteCuts(z, isFix, disk, after, now, k + 1);
        CutMore(disk, k, full.value, Lines(z, isFix, disk, after, now, k + 1), Lines(z, isFix, Always, after, now, k + 1));
      } else {
        CutHere(disk, k, Lines(z, isFix, Always, rest, buffer, k));
      }
    }
  }

  lemma LinesTurn(z: Sizes, isFix: FixTest, disk: Disk, rest: seq<byte>, buffer: seq<byte>, k: nat)
    requires Legal(z) && rest != [] && |buffer| == BUFFER_SIZE
    ensures Lines(z, isFix, disk, rest, buffer, k) ==
            match Writes(z, isFix, disk, rest[0], |Behind(z, rest)|, Now(z, rest, buffer), k)
            case None => []
            case Some(lines) => lines + Lines(z, isFix, disk, Onward(z, rest), Now(z, rest, buffer), k + |lines|)
  {
  }

  lemma LastTurn(lines: seq<seq<byte>>)
    ensures lines + [] == lines && [] + lines == lines
  {
  }

  lemma WriteOrStop(z: Sizes, isFix: FixTest, disk: Disk, tag: byte, read: nat, now: seq<byte>, k: nat)
    requires Legal(z) && |now| == BUFFER_SIZE
    ensures var mine, full := Writes(z, isFix, disk, tag, read, now, k), Writes(z, isFix, Always, tag, read, now, k);
            if full.Some? && full.value != [] then
              |full.value| == 1 && mine == if disk(k) then full else None
            else mine == full
  {
  }

  // ------------------------------------------------------------------ the code

  /** ReadFile: as much as there is, over the front of the buffer. */
  method ReadFile(file: seq<byte>, pos: nat, buffer: array<byte>, n: nat) returns (w: nat)
    requires pos <= |file| && n <= buffer.Length
    modifies buffer
    ensures w == |Taken(file[pos..], n)| && pos + w <= |file|
    ensures buffer[..] == Over(old(buffer[..]), Taken(file[pos..], n))
  {
    w := if n <= |file| - pos then n else |file| - pos;
    var j := 0;
    while j < w
      invariant j <= w
      invariant forall k :: 0 <= k < j ==> buffer[k] == file[pos + k]
      invariant forall k :: j <= k < buffer.Length ==> buffer[k] == old(buffer[k])
    {
      buffer[j] := file[pos + j];
      j := j + 1;
    }
    assert Taken(file[pos..], n) == file[pos..pos + w];
  }

  /** The record behind a tag; nothing is read behind a tag that is not known. */
  method ReadRecord(z: Sizes, file: seq<byte>, pos: nat, buffer: array<byte>, tag: byte) returns (w: nat, next: nat)
    requires Legal(z) && pos <= |file| && buffer.Length == BUFFER_SIZE
    modifies buffer
    ensures var part := Taken(file[pos..], Size(z, tag));
            && buffer[..] == Over(old(buffer[..]), part) && next == pos + |part| <= |file|
            && w == if Known(tag) then |part| else 1
  {
    w, next := 1, pos;
    if Known(tag) {
      w := ReadFile(file, pos, buffer, Size(z, tag));
      next := pos + w;
    } else {
      assert Taken(file[pos..], 0) == [];
    }
  }

  lemma GoesOnIff(z: Sizes, tag: byte, read: nat, w: nat)
    requires Legal(z) && read <= Size(z, tag) && w == if Known(tag) then read else 1
    ensures GoesOn(z, tag, read) <==> (if tag != LAP && Known(tag) then w >= Size(z, tag) else w > 0)
    ensures tag == GPS ==> Known(tag)
  {
  }

  lemma FirstOver(buffer: seq<byte>, b: byte)
    requires buffer != []
    ensures Over(buffer, [b])[0] == b
  {
  }

  /** What is done with a position record of which `read` octets came. */
  method TakePosition(z: Sizes, isFix: FixTest, disk: Disk, buffer: array<byte>, read: nat, k: nat)
    returns (w: nat, lines: seq<seq<byte>>)
    requires Legal(z) && buffer.Length == BUFFER_SIZE
    ensures Writes(z, isFix, disk, GPS, read, buffer[..], k) == if w == 0 then None else Some(lines)
  {
    w, lines := read, [];
    if read < z.heartbeat {
      w := 0;
    } else {
      assert buffer[..z.gps] == buffer[..][..z.gps];
      if isFix(buffer[..z.gps]) {
        if disk(k) {
          lines := [buffer[..z.gps]];
        } else {
          w := 0;
        }
      }
    }
  }

  /** The switch: reads what belongs to the tag and deals with it. */
  method TakeRecord(z: Sizes, isFix: FixTest, disk: Disk, file: seq<byte>, pos: nat, buffer: array<byte>, k: nat)
    returns (w: nat, next: nat, lines: seq<seq<byte>>)
    requires Legal(z) && pos <= |file| && buffer.Length == BUFFER_SIZE
    modifies buffer
    ensures var tag, part := old(buffer[0]), Taken(file[pos..], Size(z, old(buffer[0])));
            && buffer[..] == Over(old(buffer[..]), part) && next == pos + |part| <= |file|
            && Writes(z, isFix, disk, tag, |part|, buffer[..], k) == if w == 0 then None else Some(lines)
  {
    var tag := buffer[0];
    lines := [];
    Facts(z);
    hide Over, Taken, Lines, Legal;
    w, next := ReadRecord(z, file, pos, buffer, tag);
    GoesOnIff(z, tag, next - pos, w);
    hide *;
    if tag == GPS {
      w, lines := TakePosition(z, isFix, disk, buffer, w, k);
    } else {
      NotPosition(z, isFix, disk, tag, next - pos, buffer[..], k);
      if tag != LAP && Known(tag) {
        if w < Size(z, tag) {
          w := 0;
        }
      }
    }
  }

  lemma NotPosition(z: Sizes, isFix: FixTest, disk: Disk, tag: byte, read: nat, now: seq<byte>, k: nat)
    requires Legal(z) && |now| == BUFFER_SIZE && tag != GPS
    ensures Writes(z, isFix, disk, tag, read, now, k) == if GoesOn(z, tag, read) then Some([]) else None
    ensures Known(tag) ==> Size(z, tag) > 0
  {
  }

  lemma BehindTag(z: Sizes, file: seq<byte>, pos: nat, buffer: seq<byte>)
    requires Legal(z) && pos < |file| && |buffer| == BUFFER_SIZE
    ensures var rest, part := file[pos..], Taken(file[pos + 1..], Size(z, file[pos]));
            && rest[0] == file[pos] && Behind(z, rest) == part && pos + 1 + |part| <= |file|
            && Onward(z, rest) == file[pos + 1 + |part|..]
            && Now(z, rest, buffer) == Over(Over(buffer, [file[pos]]), part)
  {
    var rest := file[pos..];
    assert rest[1..] == file[pos + 1..];
    hide Size, Over;
  }

  lemma NextTag(file: seq<byte>, pos: nat)
    requires pos <= |file|
    ensures Taken(file[pos..], 1) == if pos == |file| then [] else [file[pos]]
    ensures pos == |file| ==> file[pos..] == []
  {
  }

  /** Everything written once the loop, now at `pos`, has ended. */
  ghost function Total(z: Sizes, isFix: FixTest, disk: Disk, rest: seq<byte>, buffer: seq<byte>,
                       lines: seq<seq<byte>>): seq<seq<byte>>
    requires Legal(z) && |buffer| == BUFFER_SIZE
  {
    lines + Lines(z, isFix, disk, rest, buffer, |lines|)
  }

  lemma TotalStart(z: Sizes, isFix: FixTest, disk: Disk, rest: seq<byte>, buffer: seq<byte>)
    requires Legal(z) && |buffer| == BUFFER_SIZE
    ensures Total(z, isFix, disk, rest, buffer, []) == Lines(z, isFix, disk, rest, buffer, 0)
  {
  }

  lemma TotalEnd(z: Sizes, isFix: FixTest, disk: Disk, buffer: seq<byte>, lines: seq<seq<byte>>)
    requires Legal(z) && |buffer| == BUFFER_SIZE
    ensures Total(z, isFix, disk, [], buffer, lines) == lines
  {
  }

  lemma TotalTurn(z: Sizes, isFix: FixTest, disk: Disk, rest: seq<byte>, buffer: seq<byte>, lines: seq<seq<byte>>)
    requires Legal(z) && rest != [] && |buffer| == BUFFER_SIZE
    ensures Total(z, isFix, disk, rest, buffer, lines) ==
            match Writes(z, isFix, disk, rest[0], |Behind(z, rest)|, Now(z, rest, buffer), |lines|)
            case None => lines
            case Some(more) => Total(z, isFix, disk, Onward(z, rest), Now(z, rest, buffer), lines + more)
  {
    var now := Now(z, rest, buffer);
    var w := Writes(z, isFix, disk, rest[0], |Behind(z, rest)|, now, |lines|);
    hide Writes, Now, Behind, Onward;
    if w.Some? {
      Associative(lines, w.value, Lines(z, isFix, disk, Onward(z, rest), now, |lines| + |w.value|));
    }
  }

  lemma TotalFromTag(z: Sizes, isFix: FixTest, disk: Disk, file: seq<byte>, pos: nat, buffer: seq<byte>,
                     lines: seq<seq<byte>>)
    requires Legal(z) && pos < |file| && |buffer| == BUFFER_SIZE
    ensures var part := Taken(file[pos + 1..], Size(z, file[pos]));
            var now := Over(Over(buffer, [file[pos]]), part);
            && pos + 1 + |part| <= |file|
            && Total(z, isFix, disk, file[pos..], buffer, lines) ==
               match Writes(z, isFix, disk, file[pos], |part|, now, |lines|)
               case None => lines
               case Some(more) => Total(z, isFix, disk, file[pos + 1 + |part|..], now, lines + more)
  {
    hide *;
    Facts(z);
    BehindTag(z, file, pos, buffer);
    TotalTurn(z, isFix, disk, file[pos..], buffer, lines);
  }

  /** The turn once the tag is in the buffer. */
  method AfterTag(z: Sizes, isFix: FixTest, disk: Disk, file: seq<byte>, pos: nat, buffer: array<byte>,
                  lines0: seq<seq<byte>>, ghost before: seq<byte>) returns (w: nat, next: nat, lines: seq<seq<byte>>)
    requires Legal(z) && pos < |file| && buffer.Length == |before| == BUFFER_SIZE
    requires buffer[..] == Over(before, [file[pos]]) && buffer[0] == file[pos]
    modifies buffer
    ensures pos < next <= |file|
    ensures Total(z, isFix, disk, file[pos..], before, lines0) ==
            if w == 0 then lines else Total(z, isFix, disk, file[next..], buffer[..], lines)
  {
    hide *;
    TotalFromTag(z, isFix, disk, file, pos, before, lines0);
    var more;
    w, next, more := TakeRecord(z, isFix, disk, file, pos + 1, buffer, |lines0|);
    lines := if w > 0 then lines0 + more else lines0;
  }

  /** One turn of the loop; w = 0 ends it. */
  method Turn(z: Sizes, isFix: FixTest, disk: Disk, file: seq<byte>, pos: nat, buffer: array<byte>, lines0: seq<seq<byte>>)
    returns (w: nat, next: nat, lines: seq<seq<byte>>)
    requires Legal(z) && pos <= |file| && buffer.Length == BUFFER_SIZE
    modifies buffer
    ensures pos <= next <= |file| && (w > 0 ==> pos < next)
    ensures Total(z, isFix, disk, file[pos..], old(buffer[..]), lines0) ==
            if w == 0 then lines else Total(z, isFix, disk, file[next..], buffer[..], lines)
  {
    ghost var before := buffer[..];
    hide *;
    Facts(z);
    NextTag(file, pos);
    w := ReadFile(file, pos, buffer, 1);
    if w == 0 {
      lines, next := lines0, pos;
      TotalEnd(z, isFix, disk, before, lines);
    } else {
      FirstOver(before, file[pos]);
      w, next, lines := AfterTag(z, isFix, disk, file, pos, buffer, lines0, before);
    }
  }

  /** The body loop. */
  method ParseBody(z: Sizes, isFix: FixTest, disk: Disk, file: seq<byte>, start: nat, buffer: array<byte>)
    returns (lines: seq<seq<byte>>)
    requires Legal(z) && start <= |file| && buffer.Length == BUFFER_SIZE
    modifies buffer
    ensures lines == Lines(z, isFix, disk, file[start..], old(buffer[..]), 0)
  {
    hide *;
    TotalStart(z, isFix, disk, file[start..], buffer[..]);
    lines := [];
    var pos: nat, w: nat := start, 1;
    while w > 0
      invariant pos <= |file|
      invariant Lines(z, isFix, disk, file[start..], old(buffer[..]), 0) ==
                if w == 0 then lines else Total(z, isFix, disk, file[pos..], buffer[..], lines)
      decreases |file| - pos, w
    {
      w, pos, lines := Turn(z, isFix, disk, file, pos, buffer, lines);
    }
  }

  /** What a download is turned into: nothing, or a summary of the header and the lines. */
  datatype Report = Report(head: seq<byte>, mode: char, lines: seq<seq<byte>>)

  function ModeLetter(mode: int): char {
    if mode == 1 then 'R' else if mode == 2 then 'B' else if mode == 3 then 'S' else if mode == 4 then 'P' else 'O'
  }

  /** doParseFile: `created` says whether the report could be opened, `junk` is the buffer before the first read. */
  method DoParseFile(z: Sizes, isFix: FixTest, modeOf: seq<byte> -> int, disk: Disk, created: bool, file: Option<seq<byte>>)
    returns (report: Option<Report>, ghost junk: seq<byte>)
    requires Legal(z)
    ensures |junk| == BUFFER_SIZE
    ensures report.Some? <==> file.Some? && |file.value| >= z.head && created
    ensures report.Some? ==>
      var head := file.value[..z.head];
      && report.value.mode == (if 1 <= modeOf(head) <= 4 then "RBSP"[modeOf(head) - 1] else 'O')
      && report.value == Report(head, ModeLetter(modeOf(head)),
                                Lines(z, isFix, disk, file.value[z.head..], Over(junk, head), 0))
  {
    var buffer := new byte[BUFFER_SIZE];
    junk := buffer[..];
    if file == None {
      return None, junk;
    }
    var w := ReadFile(file.value, 0, buffer, z.head);
    assert file.value[0..] == file.value;
    if w < z.head || !created {
      return None, junk;
    }
    var head := buffer[..z.head];
    assert head == file.value[..z.head];
    var lines := ParseBody(z, isFix, disk, file.value, z.head, buffer);
    return Some(Report(head, ModeLetter(modeOf(head)), lines)), junk;
  }
}
