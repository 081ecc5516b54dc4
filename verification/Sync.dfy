/**
 The download as two threads: the reader thread hands chunks to CosmosReadCommProc::proc,
 the sync thread runs doSync. They share `flag`, `dwName` and the files on disk. Each test
 and each assignment of doSync on shared state is one atomic step. A chunk is two: what proc
 does up to opening or closing the file, and the rest.
 */
module Sync {
  import opened Bytes
  import opened ReadComm

  const FILE_LIMIT := 1_000_000

  /** Where the sync thread is. */
  datatype Pc =
    | Stopped                  // no sync thread
    | Test0 | Test2 | Test3    // about to compare flag with 0, 2, 3
    | Test1                    // about to compare flag with 1: the loop ends either way
    | Check                    // flag was 0: is file i there already?
    | Ask1 | Ask2 | Ask3       // about to set flag, to set dwName, to write the request
    | Advance1 | Advance2      // parser started: about to increment i, to clear flag
    | EndIter                  // about to test i < 1000000
    | Finish1 | Finish2        // about to drop a partial file, to clear flag
    | Crashed                  // the reader thread divided by zero

  datatype Event =
    | Requested(n: nat, onDisk: bool)
    | Spawned(n: nat, dwName: nat, file: Option<seq<byte>>, got: seq<byte>, size: nat)

  /**
   `reader`: what the reader thread has still to do with its chunk. `open`: the port is open.
   `pending`: a request is out and its header has not come. `got`: the octets accepted since
   the last header. `kept`: the files found at the start and those downloaded whole since.
   `history` and `mark`: what the sync thread did, and where its present session began.
   */
  datatype Sys = Sys(rx: Rx, pc: Pc, i: nat, reader: Rest, open: bool, pending: bool, got: seq<byte>, kept: Folder,
                     history: seq<Event>, mark: nat)

  datatype Input =
    | Run(gone: bool)                               // the sync thread steps; `gone`: it finds the port closed
    | Chunk(data: seq<byte>, written: Option<nat>)  // the reader thread starts on a chunk
    | Resume(created: bool)                         // and ends with it
    | Start                                         // a new sync thread, the port open

  function Boot(disk: Folder): Sys {
    Sys(Rx(0, 0, None, Null, 0, 0, 0, disk), Stopped, 0, Nothing, false, false, [], disk, [], 0)
  }

  // ------------------------------------------------------------------ steps

  function Request(s: Sys): Sys {
    s.(pc := EndIter, pending := true, history := s.history + [Requested(s.i, s.i in s.rx.disk)])
  }

  function Spawn(s: Sys): Sys {
    var file := if s.i in s.rx.disk then Some(s.rx.disk[s.i]) else None;
    s.(pc := Advance1, history := s.history + [Spawned(s.i, s.rx.dwName, file, s.got, s.rx.fileSize)])
  }

  function OnRun(s: Sys, gone: bool): Sys {
    var rx := s.rx;
    match s.pc
    case Test0 =>
      if gone then s.(pc := Finish1, open := false, pending := false)
      else if rx.flag == 0 then s.(pc := Check)
      else s.(pc := Test2)
    case Check => if s.i in rx.disk then s.(i := s.i + 1, pc := EndIter) else s.(pc := Ask1)
    case Ask1 => s.(rx := rx.(flag := 1), pc := Ask2)
    case Ask2 => s.(rx := rx.(dwName := s.i), pc := Ask3)
    case Ask3 => Request(s)
    case Test2 => if rx.flag == 2 then s.(pc := EndIter) else s.(pc := Test3)
    case Test3 => if rx.flag == 3 then Spawn(s) else s.(pc := Test1)
    case Test1 => s.(pc := Finish1)
    case Advance1 => s.(i := s.i + 1, pc := Advance2)
    case Advance2 => s.(rx := rx.(flag := 0), pc := EndIter)
    case EndIter => if s.i < FILE_LIMIT then s.(pc := Test0) else s.(pc := Finish1)
    case Finish1 => if rx.flag == 2 then s.(rx := AfterDelete(rx), pc := Finish2) else s.(pc := Finish2)
    case Finish2 => s.(rx := rx.(flag := 0), pc := Stopped)
    case Stopped => s
    case Crashed => s
  }

  function OnChunk(s: Sys, data: seq<byte>, written: Option<nat>): Sys
    requires written.Some? ==> written.value <= |data|
  {
    match Starts(s.rx, data, written)
    case None => s.(pc := Crashed)
    case Some(half) =>
      var message := Classify(data);
      var got := if message.FileRead? then []
                 else if message.Content? && s.rx.flag == 2 && s.rx.handle.Open? && written.Some?
                 then s.got + data[..written.value]
                 else s.got;
      s.(rx := half.rx, reader := half.rest, got := got, pending := s.pending && !message.FileRead?)
  }

  function OnResume(s: Sys, created: bool): Sys {
    s.(rx := Ends(s.rx, s.reader, created), reader := Nothing,
       kept := if s.reader == CloseFile then s.kept[s.rx.dwName := s.got] else s.kept)
  }

  /**
   What is assumed of the watch and of the operating system. The watch sends one FREAD header
   per request, it has come and been dealt with when the loop next looks, and its size is not
   negative; no FSIZE reply comes during or right after a download. Chunks are at most 1024
   octets. The port is not closed while a chunk is being dealt with, and brings nothing once
   it is closed. A chunk that looks like a CHECK reply may come at any time: the code drops it,
   be it a reply or a piece of the file.
   */
  predicate Allowed(s: Sys, input: Input) {
    match input
    case Run(gone) => s.pc == Test0 ==> if gone then s.reader == Nothing else !s.pending && s.reader != OpenFile
    case Start => s.pc == Stopped
    case Resume(created) => s.reader != Nothing
    case Chunk(data, written) =>
      && s.open && s.reader == Nothing && |data| <= CHUNK_LIMIT && (written.Some? ==> written.value <= |data|)
      && match Classify(data)
         case FileRead(size) => s.pending && size <= LONG_MAX
         case FileSize(_) => s.rx.flag != 2 && s.rx.flag != 3
         case Ignored => true
         case Content => true
  }

  function Step(s: Sys, input: Input): Sys
    requires Allowed(s, input)
  {
    match input
    case Run(gone) => OnRun(s, gone)
    case Start => s.(pc := Test0, i := 1, open := true, mark := |s.history|)
    case Chunk(data, written) => OnChunk(s, data, written)
    case Resume(created) => OnResume(s, created)
  }

  predicate Admissible(s: Sys, inputs: seq<Input>)
    decreases |inputs|
  {
    inputs != [] ==> Allowed(s, inputs[0]) && Admissible(Step(s, inputs[0]), inputs[1..])
  }

  function After(s: Sys, inputs: seq<Input>): Sys
    requires Admissible(s, inputs)
    decreases |inputs|
  {
    if inputs == [] then s else After(Step(s, inputs[0]), inputs[1..])
  }

  lemma {:induction false} AfterLast(s: Sys, inputs: seq<Input>)
    requires inputs != [] && Admissible(s, inputs)
    ensures var init, last := inputs[..|inputs| - 1], inputs[|inputs| - 1];
            && Admissible(s, init) && Allowed(After(s, init), last)
            && After(s, inputs) == Step(After(s, init), last)
    decreases |inputs|
  {
    hide Step, Allowed;
    var init := inputs[..|inputs| - 1];
    if |inputs| == 1 {
      assert init == [] && inputs[1..] == [];
    } else {
      AfterLast(Step(s, inputs[0]), inputs[1..]);
      assert init[1..] == inputs[1..][..|inputs| - 2];
    }
  }

  // ------------------------------------------------------------------ what the watch has sent

  /**
   What has come since the last FREAD header, whatever the program made of it: the size it
   announced, all octets of untagged chunks the disk would take, and those up to the piece
   that reached the size.
   */
  datatype Sent = Sent(size: nat, all: seq<byte>, file: seq<byte>)

  function Taken(data: seq<byte>, written: Option<nat>): seq<byte> {
    if written.Some? && written.value <= |data| then data[..written.value] else []
  }

  function Sending(before: Sent, input: Input): Sent {
    match input
    case Run(_) => before
    case Resume(_) => before
    case Start => before
    case Chunk(data, written) =>
      match Classify(data)
      case FileRead(size) => Sent(size, [], [])
      case Content =>
        var more := Taken(data, written);
        Sent(before.size, before.all + more, if |before.file| < before.size then before.file + more else before.file)
      case FileSize(_) => before
      case Ignored => before
  }

  function SentBy(inputs: seq<Input>): Sent {
    if inputs == [] then Sent(0, [], []) else Sending(SentBy(inputs[..|inputs| - 1]), inputs[|inputs| - 1])
  }

  /** The program has what was sent: all of it during a download, the whole file after it. */
  predicate Agrees(s: Sys, sent: Sent) {
    && (s.rx.flag == 2 && s.pc != Finish2 && s.rx.handle != Invalid ==>
          s.got == sent.all == sent.file && s.rx.fileSize == sent.size)
    && (s.rx.flag == 3 ==> s.got == sent.file <= sent.all && s.rx.fileSize == sent.size)
  }

  // ------------------------------------------------------------------ what every step keeps

  predicate Phase(pc: Pc, flag: nat) {
    match pc
    case Stopped => flag == 0
    case Check => flag == 0
    case Ask1 => flag == 0
    case Ask2 => flag == 1
    case Ask3 => flag == 1
    case Test1 => flag == 1
    case Test3 => flag == 1 || flag == 3
    case Test2 => 1 <= flag <= 3
    case Advance1 => flag == 3
    case Advance2 => flag == 3
    case Crashed => false
    case _ => flag <= 3
  }

  /** A file is being written: the open file holds exactly what was accepted since its header. */
  predicate Downloading(s: Sys) {
    && s.rx.dwName == s.i < FILE_LIMIT && s.rx.dwName !in s.kept
    && s.rx.total == |s.got| && 0 < s.rx.fileSize <= LONG_MAX
    && match s.reader
       case OpenFile => s.rx.handle == Null && s.got == [] && s.rx.disk == s.kept
       case Nothing =>
         && s.rx.last == Some(s.rx.dwName) && |s.got| < s.rx.fileSize
         && if s.rx.handle == Invalid then s.got == [] && s.rx.disk == s.kept else Holds(s)
       case CloseFile => Holds(s) && s.rx.fileSize <= |s.got| < s.rx.fileSize + CHUNK_LIMIT
  }

  predicate Holds(s: Sys) {
    && s.rx.handle == Open(s.rx.dwName) && s.rx.last == Some(s.rx.dwName)
    && s.rx.disk == s.kept[s.rx.dwName := s.got]
  }

  /** When the reader thread may be in the middle of a chunk, and that a closed port brings nothing. */
  predicate Reading(s: Sys) {
    && (s.reader == OpenFile ==> s.rx.flag == 2 && (s.pc == EndIter || s.pc == Test0))
    && (s.reader == CloseFile ==> s.rx.flag == 2 && (s.pc == EndIter || s.pc == Test0 || s.pc == Test2))
    && (s.rx.flag == 2 && (s.pc == Finish1 || s.pc == Finish2) ==> s.reader == Nothing && !s.open)
  }

  predicate OnDisk(s: Sys) {
    if s.rx.flag == 2 && s.pc != Finish2 then Downloading(s) else s.rx.handle == Null && s.rx.disk == s.kept
  }

  predicate Waiting(s: Sys) {
    && (s.pending ==> s.rx.flag == 1 && s.rx.dwName == s.i && s.i !in s.kept && (s.pc == EndIter || s.pc == Test0))
    && (s.pc == Ask1 || s.pc == Ask2 || s.pc == Ask3 ==> s.i !in s.kept)
    && (s.pc == Ask3 ==> s.rx.dwName == s.i)
    && (s.pending || s.pc == Test0 || s.pc == Check || s.pc == Ask1 || s.pc == Ask2 || s.pc == Ask3 ==> s.i < FILE_LIMIT)
  }

  predicate NotSpawned(history: seq<Event>, n: nat) {
    forall k :: 0 <= k < |history| && history[k].Spawned? ==> history[k].n != n
  }

  /** A file has come whole, and is one chunk too long at most. */
  predicate Whole(s: Sys) {
    s.rx.flag == 3 ==>
      && s.rx.dwName in s.kept && s.kept[s.rx.dwName] == s.got
      && s.rx.fileSize <= |s.got| < s.rx.fileSize + CHUNK_LIMIT
      && s.i == (if s.pc == Advance2 then s.rx.dwName + 1 else s.rx.dwName)
      && (s.pc != Advance1 && s.pc != Advance2 ==> NotSpawned(s.history, s.rx.dwName))
  }

  predicate Proper(e: Event, kept: Folder) {
    match e
    case Requested(n, onDisk) => !onDisk
    case Spawned(n, dwName, file, got, size) =>
      n == dwName && file == Some(got) && n in kept && kept[n] == got && size <= |got| < size + CHUNK_LIMIT
  }

  predicate AllProper(history: seq<Event>, kept: Folder) {
    forall k :: 0 <= k < |history| ==> Proper(history[k], kept)
  }

  /** No file is parsed twice, and within a session the numbers rise. */
  predicate Rising(history: seq<Event>, mark: nat) {
    forall a, b :: 0 <= a < b < |history| && history[a].Spawned? && history[b].Spawned? ==>
                     history[a].n != history[b].n && (mark <= a ==> history[a].n < history[b].n)
  }

  predicate Below(history: seq<Event>, mark: nat, bound: nat) {
    forall k :: mark <= k < |history| && history[k].Spawned? ==> history[k].n < bound
  }

  predicate Logged(s: Sys) {
    && s.mark <= |s.history| && AllProper(s.history, s.kept) && Rising(s.history, s.mark)
    && Below(s.history, s.mark, if s.pc == Advance1 then s.i + 1 else s.i)
  }

  predicate Inv(s: Sys) {
    Phase(s.pc, s.rx.flag) && OnDisk(s) && Reading(s) && Waiting(s) && Whole(s) && Logged(s)
  }

  predicate Grows(before: Folder, after: Folder) {
    forall n :: n in before ==> n in after && after[n] == before[n]
  }

  lemma HistorySnoc(history: seq<Event>, mark: nat, kept: Folder, bound: nat, e: Event)
    requires mark <= |history| && AllProper(history, kept) && Rising(history, mark) && Below(history, mark, bound)
    requires Proper(e, kept) && (e.Spawned? ==> bound <= e.n && NotSpawned(history, e.n))
    ensures AllProper(history + [e], kept) && Rising(history + [e], mark)
    ensures Below(history + [e], mark, if e.Spawned? then e.n + 1 else bound)
  {
  }

  lemma RequestKeeps(s: Sys)
    requires Inv(s) && s.pc == Ask3
    ensures Inv(Request(s))
  {
    HistorySnoc(s.history, s.mark, s.kept, s.i, Requested(s.i, s.i in s.rx.disk));
    hide Proper, Rising, Below, AllProper;
  }

  lemma SpawnKeeps(s: Sys)
    requires Inv(s) && s.pc == Test3 && s.rx.flag == 3
    ensures Inv(Spawn(s))
  {
    var e := Spawn(s).history[|s.history|];
    HistorySnoc(s.history, s.mark, s.kept, s.i, e);
    hide Proper, Rising, Below, AllProper;
  }

  lemma DeleteKeeps(s: Sys)
    requires Inv(s) && s.pc == Finish1 && s.rx.flag == 2
    ensures AfterDelete(s.rx).disk == s.kept
  {
  }

  lemma BelowMore(history: seq<Event>, mark: nat, bound: nat, more: nat)
    requires Below(history, mark, bound) && bound <= more
    ensures Below(history, mark, more)
  {
  }

  predicate Quiet(s: Sys) {
    s.pc != Ask3 && !(s.pc == Test3 && s.rx.flag == 3)
  }

  lemma QuietRunKeepsLog(s: Sys, gone: bool)
    requires Inv(s) && Quiet(s)
    ensures Logged(OnRun(s, gone)) && OnRun(s, gone).kept == s.kept && OnRun(s, gone).history == s.history
  {
    BelowMore(s.history, s.mark, if s.pc == Advance1 then s.i + 1 else s.i, s.i + 1);
    hide AllProper, Rising, Below, NotSpawned, OnDisk, Whole;
  }

  lemma QuietRunKeepsFile(s: Sys, gone: bool)
    requires Inv(s) && Quiet(s)
    ensures OnDisk(OnRun(s, gone))
  {
    if s.pc == Finish1 && s.rx.flag == 2 {
      DeleteKeeps(s);
    }
    hide AllProper, Rising, Below, NotSpawned, AfterDelete;
  }

  lemma QuietRunKeepsPhase(s: Sys, gone: bool)
    requires Inv(s) && Quiet(s) && Allowed(s, Run(gone))
    ensures Phase(OnRun(s, gone).pc, OnRun(s, gone).rx.flag)
  {
    AfterDeleteKeepsFlag(s.rx);
    hide Logged, Whole, OnDisk, Reading, AfterDelete, Classify;
  }

  lemma QuietRunKeepsWaiting(s: Sys, gone: bool)
    requires Inv(s) && Quiet(s) && Allowed(s, Run(gone))
    ensures Waiting(OnRun(s, gone))
  {
    AfterDeleteKeepsFlag(s.rx);
    hide Logged, Whole, Reading, AfterDelete, Holds, Classify;
  }

  lemma QuietRunKeepsWhole(s: Sys, gone: bool)
    requires Inv(s) && Quiet(s) && Allowed(s, Run(gone))
    ensures Whole(OnRun(s, gone))
  {
    AfterDeleteKeepsFlag(s.rx);
    hide Logged, Waiting, Reading, OnDisk, NotSpawned, AfterDelete, Classify;
  }

  lemma QuietRunKeepsReading(s: Sys, gone: bool)
    requires Inv(s) && Quiet(s) && Allowed(s, Run(gone))
    ensures Reading(OnRun(s, gone))
  {
    AfterDeleteKeepsFlag(s.rx);
    hide Logged, Whole, Waiting, AfterDelete, Holds, Classify;
  }

  lemma AfterDeleteKeepsFlag(rx: Rx)
    ensures AfterDelete(rx).flag == rx.flag && AfterDelete(rx).dwName == rx.dwName
  {
  }

  lemma RunKeeps(s: Sys, gone: bool)
    requires Inv(s) && Allowed(s, Run(gone))
    ensures Inv(OnRun(s, gone)) && OnRun(s, gone).kept == s.kept
  {
    if s.pc == Ask3 {
      RequestKeeps(s);
    } else if s.pc == Test3 && s.rx.flag == 3 {
      SpawnKeeps(s);
    } else {
      QuietRunKeepsLog(s, gone);
      QuietRunKeepsFile(s, gone);
      QuietRunKeepsPhase(s, gone);
      QuietRunKeepsWaiting(s, gone);
      QuietRunKeepsWhole(s, gone);
      QuietRunKeepsReading(s, gone);
    }
    hide Logged, OnDisk, Reading, Waiting, Whole, Phase, Allowed;
  }

  lemma StartKeeps(s: Sys)
    requires Inv(s) && s.pc == Stopped
    ensures Inv(s.(pc := Test0, i := 1, open := true, mark := |s.history|))
  {
  }

  lemma ProperStays(history: seq<Event>, kept: Folder, more: Folder)
    requires AllProper(history, kept) && Grows(kept, more)
    ensures AllProper(history, more)
  {
    forall k | 0 <= k < |history|
      ensures Proper(history[k], more)
    {
      assert Proper(history[k], kept);
    }
  }

  /** A header that answers a request asks for an empty file, or reports that there is none. */
  lemma HeaderKeeps(s: Sys, data: seq<byte>, written: Option<nat>)
    requires Inv(s) && Allowed(s, Chunk(data, written)) && Classify(data).FileRead?
    ensures Inv(OnChunk(s, data, written)) && OnChunk(s, data, written).kept == s.kept
  {
    hide AllProper, Rising, Below, NotSpawned, Classify;
  }

  /** The file is ready. */
  lemma OpenKeeps(s: Sys, created: bool)
    requires Inv(s) && s.reader == OpenFile
    ensures Inv(OnResume(s, created)) && OnResume(s, created).kept == s.kept
  {
    hide AllProper, Rising, Below, NotSpawned;
  }

  /** The file is closed, whole. */
  lemma CloseKeeps(s: Sys, created: bool)
    requires Inv(s) && s.reader == CloseFile
    ensures Inv(OnResume(s, created)) && Grows(s.kept, OnResume(s, created).kept)
  {
    FreshName(s);
    ProperStays(s.history, s.kept, s.kept[s.rx.dwName := s.got]);
    hide AllProper, Rising, Below, NotSpawned;
  }

  lemma Appended(kept: Folder, name: nat, got: seq<byte>, more: seq<byte>)
    ensures kept[name := got][name := Contents(kept[name := got], name) + more] == kept[name := got + more]
  {
  }

  lemma FreshName(s: Sys)
    requires Inv(s) && s.rx.flag == 2 && s.pc != Finish2
    ensures NotSpawned(s.history, s.rx.dwName)
  {
    forall k | 0 <= k < |s.history| && s.history[k].Spawned?
      ensures s.history[k].n != s.rx.dwName
    {
      assert Proper(s.history[k], s.kept);
    }
  }

  /** What the state is after `w` octets were appended to the open file. */
  lemma ContentAdds(s: Sys, data: seq<byte>, w: nat)
    requires Inv(s) && s.reader == Nothing && s.rx.flag == 2 && s.rx.handle.Open? && w <= |data| <= CHUNK_LIMIT
    ensures s.pc != Finish2 && s.rx.dwName !in s.kept
    ensures var now := AfterAppend(s.rx, data, w);
            && now.disk == s.kept[s.rx.dwName := s.got + data[..w]]
            && now.total == |s.got| + w && now.fileSize > 0
  {
    Appended(s.kept, s.rx.dwName, s.got, data[..w]);
    hide AllProper, Rising, Below, NotSpawned;
  }

  /** A piece of the file, the last one included. */
  lemma ContentKeeps(s: Sys, data: seq<byte>, written: Option<nat>)
    requires Inv(s) && Allowed(s, Chunk(data, written)) && Classify(data).Content?
    ensures Inv(OnChunk(s, data, written)) && OnChunk(s, data, written).kept == s.kept
  {
    if s.rx.flag == 2 && s.rx.handle.Open? && written.Some? {
      ContentAdds(s, data, written.value);
      hide AllProper, Rising, Below, NotSpawned, Classify, AfterAppend;
    } else {
      hide AllProper, Rising, Below, NotSpawned, Classify;
    }
  }

  lemma OtherReplyKeeps(s: Sys, data: seq<byte>, written: Option<nat>)
    requires Inv(s) && Allowed(s, Chunk(data, written)) && (Classify(data).Ignored? || Classify(data).FileSize?)
    ensures Inv(OnChunk(s, data, written)) && OnChunk(s, data, written).kept == s.kept
  {
    hide AllProper, Rising, Below, NotSpawned, Classify;
  }

  /** One step of either thread. */
  lemma StepKeeps(s: Sys, input: Input)
    requires Inv(s) && Allowed(s, input)
    ensures Inv(Step(s, input)) && Grows(s.kept, Step(s, input).kept)
  {
    hide Inv, Classify, OnRun, OnChunk, OnResume;
    match input
    case Run(gone) => RunKeeps(s, gone);
    case Start => StartKeeps(s);
    case Resume(created) =>
      if s.reader == OpenFile {
        OpenKeeps(s, created);
      } else {
        CloseKeeps(s, created);
      }
    case Chunk(data, written) =>
      match Classify(data) {
        case FileRead(_) => HeaderKeeps(s, data, written);
        case Content => ContentKeeps(s, data, written);
        case FileSize(_) => OtherReplyKeeps(s, data, written);
        case Ignored => OtherReplyKeeps(s, data, written);
      }
  }

  lemma {:induction false} RunsKeep(s: Sys, inputs: seq<Input>)
    requires Inv(s) && Admissible(s, inputs)
    ensures Inv(After(s, inputs)) && Grows(s.kept, After(s, inputs).kept)
    decreases |inputs|
  {
    hide Inv, Step, Allowed;
    if inputs == [] {
    } else {
      StepKeeps(s, inputs[0]);
      RunsKeep(Step(s, inputs[0]), inputs[1..]);
    }
  }

  // ------------------------------------------------------------------ whole runs

  lemma BootInv(disk: Folder)
    ensures Inv(Boot(disk))
  {
  }

  lemma RunAgrees(s: Sys, sent: Sent, gone: bool)
    requires Inv(s) && Agrees(s, sent)
    ensures Agrees(OnRun(s, gone), sent)
  {
    AfterDeleteKeepsFlag(s.rx);
    hide Logged, Waiting, Whole, OnDisk, Reading, AfterDelete;
  }

  lemma ResumeAgrees(s: Sys, sent: Sent, created: bool)
    requires Inv(s) && Agrees(s, sent) && s.reader != Nothing
    ensures Agrees(OnResume(s, created), sent)
  {
    hide Logged, Waiting, Whole;
  }

  lemma ChunkAgrees(s: Sys, sent: Sent, data: seq<byte>, written: Option<nat>)
    requires Inv(s) && Agrees(s, sent) && Allowed(s, Chunk(data, written))
    ensures Agrees(OnChunk(s, data, written), Sending(sent, Chunk(data, written)))
  {
    hide Logged, Waiting, Classify;
  }

  lemma StepAgrees(s: Sys, sent: Sent, input: Input)
    requires Inv(s) && Agrees(s, sent) && Allowed(s, input)
    ensures Agrees(Step(s, input), Sending(sent, input))
  {
    match input
    case Run(gone) => RunAgrees(s, sent, gone);
    case Start => hide Logged, Waiting;
    case Resume(created) => ResumeAgrees(s, sent, created);
    case Chunk(data, written) => ChunkAgrees(s, sent, data, written);
  }

  /** The prefix of a run that leads to `history`, and what had been sent by then. */
  predicate Leads(disk: Folder, inputs: seq<Input>, p: nat, history: seq<Event>, e: Event) {
    && p <= |inputs| && Admissible(Boot(disk), inputs[..p]) && After(Boot(disk), inputs[..p]).history == history
    && e.Spawned? && e.got == SentBy(inputs[..p]).file && e.size == SentBy(inputs[..p]).size
  }

  /** When its parser was started, the file of event `k` was just what had been sent. */
  predicate WasSent(disk: Folder, inputs: seq<Input>, history: seq<Event>, k: nat)
    requires k < |history|
  {
    exists p :: 0 <= p <= |inputs| && Leads(disk, inputs, p, history[..k], history[k])
  }

  predicate AllWereSent(disk: Folder, inputs: seq<Input>, history: seq<Event>) {
    forall k :: 0 <= k < |history| && history[k].Spawned? ==> WasSent(disk, inputs, history, k)
  }

  /** The history grows by one event at most; a parser gets what was sent up to then. */
  lemma StepHistory(s: Sys, input: Input)
    requires Inv(s) && Allowed(s, input)
    ensures var now := Step(s, input);
            || now.history == s.history
            || (|now.history| == |s.history| + 1 && now.history[..|s.history|] == s.history
                && var e := now.history[|s.history|];
                   e.Spawned? ==> s.rx.flag == 3 && e.got == s.got && e.size == s.rx.fileSize)
  {
    hide Inv, Classify, Starts, Ends, AfterDelete;
  }

  lemma LeadsStill(disk: Folder, inputs: seq<Input>, p: nat, history: seq<Event>, e: Event)
    requires inputs != [] && Leads(disk, inputs[..|inputs| - 1], p, history, e)
    ensures Leads(disk, inputs, p, history, e)
  {
    assert inputs[..|inputs| - 1][..p] == inputs[..p];
    hide Boot, Admissible, After, SentBy;
  }

  lemma SentSnoc(disk: Folder, inputs: seq<Input>, history: seq<Event>, more: seq<Event>, s: Sys)
    requires inputs != [] && Admissible(Boot(disk), inputs[..|inputs| - 1])
    requires s == After(Boot(disk), inputs[..|inputs| - 1]) && s.history == history
    requires AllWereSent(disk, inputs[..|inputs| - 1], history) && Agrees(s, SentBy(inputs[..|inputs| - 1]))
    requires more == history ||
             (|more| == |history| + 1 && more[..|history|] == history
              && var e := more[|history|];
                 e.Spawned? ==> s.rx.flag == 3 && e.got == s.got && e.size == s.rx.fileSize)
    ensures AllWereSent(disk, inputs, more)
  {
    var init := inputs[..|inputs| - 1];
    forall k | 0 <= k < |more| && more[k].Spawned?
      ensures WasSent(disk, inputs, more, k)
    {
      if k < |history| {
        OldEvent(history, more, k);
        assert WasSent(disk, init, history, k);
        var p :| Leads(disk, init, p, history[..k], history[k]);
        LeadsStill(disk, inputs, p, history[..k], history[k]);
      } else {
        NewEvent(disk, inputs, more, k, s);
      }
    }
  }

  lemma OldEvent(history: seq<Event>, more: seq<Event>, k: nat)
    requires k < |history| <= |more| && more[..|history|] == history
    ensures more[..k] == history[..k] && more[k] == history[k]
  {
    assert more[k] == more[..|history|][k];
    assert more[..k] == more[..|history|][..k];
  }

  lemma NewEvent(disk: Folder, inputs: seq<Input>, more: seq<Event>, k: nat, s: Sys)
    requires inputs != [] && Admissible(Boot(disk), inputs[..|inputs| - 1])
    requires s == After(Boot(disk), inputs[..|inputs| - 1]) && Agrees(s, SentBy(inputs[..|inputs| - 1]))
    requires k < |more| && more[..k] == s.history && more[k].Spawned?
    requires s.rx.flag == 3 && more[k].got == s.got && more[k].size == s.rx.fileSize
    ensures WasSent(disk, inputs, more, k)
  {
    var p := |inputs| - 1;
    hide Boot, Admissible, After, SentBy;
    assert Leads(disk, inputs, p, more[..k], more[k]);
  }

  lemma {:induction false} RunsAgree(disk: Folder, inputs: seq<Input>)
    requires Admissible(Boot(disk), inputs)
    ensures var s := After(Boot(disk), inputs);
            Inv(s) && Agrees(s, SentBy(inputs)) && AllWereSent(disk, inputs, s.history)
    decreases |inputs|
  {
    if inputs == [] {
      BootInv(disk);
    } else {
      var init, last := inputs[..|inputs| - 1], inputs[|inputs| - 1];
      hide Inv, Agrees, Step, Sending, Allowed, After, Admissible, AllWereSent, Boot;
      AfterLast(Boot(disk), inputs);
      RunsAgree(disk, init);
      var s := After(Boot(disk), init);
      StepKeeps(s, last);
      StepAgrees(s, SentBy(init), last);
      StepHistory(s, last);
      SentSnoc(disk, inputs, s.history, Step(s, last).history, s);
    }
  }

  /**
   Every interleaving, any number of sessions: the reader never divides by zero; no file that
   was there, or was downloaded whole, is touched again; with no session running nothing
   partial is left; every number requested was not on disk; every file handed to the parser
   is the one last requested and holds just the untagged chunks the watch had sent for it, up to
   the piece that reached the size announced, which is less than a chunk more; and parsed numbers
   rise within a session and never repeat.
   */
  lemma SyncIsCorrect(disk: Folder, inputs: seq<Input>)
    requires Admissible(Boot(disk), inputs)
    ensures var s := After(Boot(disk), inputs);
            && s.pc != Crashed && Grows(disk, s.kept) && Grows(s.kept, s.rx.disk)
            && (s.pc == Stopped ==> s.rx.disk == s.kept && s.rx.handle == Null)
            && AllProper(s.history, s.kept) && Rising(s.history, s.mark) && AllWereSent(disk, inputs, s.history)
  {
    BootInv(disk);
    RunsKeep(Boot(disk), inputs);
    RunsAgree(disk, inputs);
    var s := After(Boot(disk), inputs);
    hide After, Admissible, AllProper, Rising, Below, NotSpawned, AllWereSent;
  }

  /** In every reachable state `flag` says what the file holds of the untagged chunks sent. */
  lemma FlagTellsFile(disk: Folder, inputs: seq<Input>)
    requires Admissible(Boot(disk), inputs)
    ensures var s, sent := After(Boot(disk), inputs), SentBy(inputs);
            && (s.rx.flag == 2 && s.pc != Finish2 ==> Downloading(s))
            && (s.rx.flag == 2 && s.pc != Finish2 && s.rx.handle.Open? ==>
                  Contents(s.rx.disk, s.rx.dwName) == sent.all && s.rx.fileSize == sent.size)
            && (s.rx.flag == 3 ==>
                  && s.rx.handle == Null && Contents(s.rx.disk, s.rx.dwName) == sent.file
                  && sent.file <= sent.all && sent.size <= |sent.file| < sent.size + 1024)
  {
    RunsAgree(disk, inputs);
    hide After, Admissible, Logged, Waiting, NotSpawned, SentBy;
  }

  /** The last piece written was counted, and is the last step of the run. */
  predicate JustWritten(s: Sys, input: Input) {
    && s.rx.flag == 2 && s.rx.handle.Open?
    && input.Chunk? && input.written.Some? && Classify(input.data) == Content
  }

  lemma WriteSetsRate(s: Sys, input: Input)
    requires Inv(s) && Allowed(s, input) && JustWritten(s, input)
    ensures var w := input.written.value;
            && w <= |input.data| && s.pc != Finish2 && s.rx.handle != Invalid
            && 0 < s.rx.fileSize < 0x1_0000_0000 && AfterAppend(s.rx, input.data, w).total == |s.got| + w
            && AfterAppend(s.rx, input.data, w).fileSize == s.rx.fileSize
            && Counted(AfterAppend(s.rx, input.data, w)).Some?
            && Step(s, input).rx == Counted(AfterAppend(s.rx, input.data, w)).value.rx
  {
    ContentAdds(s, input.data, input.written.value);
    hide Logged, Waiting, Classify;
  }

  /**
   The number shown after each piece is the true percentage of what has been sent in the size announced, exactly
   as long as a hundred times the octets sent fit 32 bits.
   */
  lemma RateTellsProgressIff(disk: Folder, inputs: seq<Input>)
    requires inputs != [] && Admissible(Boot(disk), inputs)
    requires Admissible(Boot(disk), inputs[..|inputs| - 1])
    requires JustWritten(After(Boot(disk), inputs[..|inputs| - 1]), inputs[|inputs| - 1])
    ensures var rate, sent := After(Boot(disk), inputs).rx.rate, SentBy(inputs);
            rate * sent.size <= 100 * |sent.all| < (rate + 1) * sent.size <==> 100 * |sent.all| < 0x1_0000_0000
  {
    var init, last := inputs[..|inputs| - 1], inputs[|inputs| - 1];
    hide *;
    AfterLast(Boot(disk), inputs);
    RunsAgree(disk, init);
    var s := After(Boot(disk), init);
    IsWrite(s, last);
    WriteSetsRate(s, last);
    RateTrueLater(s, last, init);
    SentLast(inputs);
    RateIsTrueIff(AfterAppend(s.rx, last.data, last.written.value));
  }

  lemma IsWrite(s: Sys, input: Input)
    requires JustWritten(s, input)
    ensures input.Chunk? && input.written.Some? && s.rx.handle.Open?
  {
  }

  lemma RateTrueLater(s: Sys, last: Input, init: seq<Input>)
    requires Agrees(s, SentBy(init)) && JustWritten(s, last) && s.pc != Finish2 && s.rx.handle != Invalid
    requires last.Chunk? && last.written.Some? && last.written.value <= |last.data|
    ensures var sent := Sending(SentBy(init), last);
            sent.size == s.rx.fileSize && |sent.all| == |s.got| + last.written.value
  {
    hide Classify, SentBy;
  }

  lemma SentLast(inputs: seq<Input>)
    requires inputs != []
    ensures SentBy(inputs) == Sending(SentBy(inputs[..|inputs| - 1]), inputs[|inputs| - 1])
  {
    hide Sending;
  }

  /** A file joins the kept ones only when it has come whole, under a number not among them. */
  lemma OnlyWholeFilesAreKept(s: Sys, input: Input)
    requires Inv(s) && Allowed(s, input)
    ensures var now := Step(s, input);
            now.kept != s.kept ==>
              && now.rx.flag == 3 && now.kept == s.kept[now.rx.dwName := now.got] && now.rx.dwName !in s.kept
              && now.rx.fileSize <= |now.got|
  {
    match input
    case Run(gone) => RunKeeps(s, gone);
    case Start =>
    case Resume(created) => hide Logged, Waiting;
    case Chunk(data, written) => hide Logged, Waiting, Classify;
  }

  // ------------------------------------------------------------------ the sync thread alone

  /** `k` steps of the sync thread. */
  function Runs(s: Sys, k: nat): Sys {
    if k == 0 then s else OnRun(Runs(s, k - 1), false)
  }

  lemma {:induction false} RunsAdd(s: Sys, j: nat, k: nat)
    ensures Runs(s, j + k) == Runs(Runs(s, j), k)
    decreases k
  {
    hide OnRun;
    if k == 0 {
    } else {
      RunsAdd(s, j, k - 1);
    }
  }

  lemma OneRun(s: Sys)
    ensures Runs(s, 1) == OnRun(s, false)
  {
    hide OnRun;
    assert Runs(s, 0) == s;
  }

  /** Number i is on disk: on to the next. */
  lemma PresentIsSkipped(s: Sys)
    requires s.pc == Test0 && s.rx.flag == 0 && s.i in s.rx.disk && s.i + 1 < FILE_LIMIT
    ensures Runs(s, 3) == s.(i := s.i + 1)
  {
    hide AfterDelete, Request, Spawn;
    assert Runs(s, 1) == s.(pc := Check);
    assert Runs(s, 2) == s.(i := s.i + 1, pc := EndIter);
  }

  function Asking(s: Sys, n: nat): Sys {
    s.(rx := s.rx.(flag := 1, dwName := n), i := n, pc := EndIter, pending := true,
       history := s.history + [Requested(n, false)])
  }

  lemma MissingIsAskedFor(s: Sys)
    requires s.pc == Test0 && s.rx.flag == 0 && s.i !in s.rx.disk
    ensures Runs(s, 5) == Asking(s, s.i)
  {
    hide AfterDelete, Spawn;
    assert Runs(s, 1) == s.(pc := Check);
    assert Runs(s, 2) == s.(pc := Ask1);
    assert Runs(s, 3) == s.(rx := s.rx.(flag := 1), pc := Ask2);
    assert Runs(s, 4) == s.(rx := s.rx.(flag := 1, dwName := s.i), pc := Ask3);
  }

  /** Left alone with flag 0, the loop passes over what is on disk and asks for the first number that is not. */
  lemma {:induction false} FirstMissingIsAskedFor(s: Sys, n: nat)
    requires s.pc == Test0 && s.rx.flag == 0 && s.i <= n < 1_000_000 && n !in s.rx.disk
    requires forall m :: s.i <= m < n ==> m in s.rx.disk
    ensures Runs(s, 3 * (n - s.i) + 5) == Asking(s, n)
    decreases n - s.i
  {
    hide OnRun, Runs;
    if s.i == n {
      MissingIsAskedFor(s);
    } else {
      var next, k := s.(i := s.i + 1), 3 * (n - s.i - 1) + 5;
      PresentIsSkipped(s);
      FirstMissingIsAskedFor(next, n);
      RunsAdd(s, 3, k);
      assert 3 + k == 3 * (n - s.i) + 5;
      hide Asking;
    }
  }

  lemma LastIsSkipped(s: Sys)
    requires s.pc == Test0 && s.rx.flag == 0 && s.i in s.rx.disk && s.i == 999_999
    ensures Runs(s, 3) == s.(i := 1_000_000, pc := Finish1)
  {
    hide AfterDelete, Request, Spawn;
    assert Runs(s, 1) == s.(pc := Check);
    assert Runs(s, 2) == s.(i := s.i + 1, pc := EndIter);
  }

  /** With every number on disk up to the last one there can be, the loop asks for nothing and ends. */
  lemma {:induction false} NothingMissingEnds(s: Sys)
    requires s.pc == Test0 && s.rx.flag == 0 && s.i < 1_000_000
    requires forall m :: s.i <= m < 1_000_000 ==> m in s.rx.disk
    ensures Runs(s, 3 * (1_000_000 - s.i)) == s.(i := 1_000_000, pc := Finish1)
    decreases 1_000_000 - s.i
  {
    hide OnRun, Runs;
    if s.i == 999_999 {
      LastIsSkipped(s);
    } else {
      var next, k := s.(i := s.i + 1), 3 * (1_000_000 - s.i - 1);
      PresentIsSkipped(s);
      NothingMissingEnds(next);
      RunsAdd(s, 3, k);
      assert 3 + k == 3 * (1_000_000 - s.i);
    }
  }

  // ------------------------------------------------------------------ the code

  /** doSync, stopped between any two of its steps; the ghost fields only record. */
  class SyncThread {
    const rProc: ReadProc
    var pc: Pc
    var i: nat
    var reader: Rest
    var open: bool
    ghost var pending: bool
    ghost var got: seq<byte>
    ghost var kept: Folder
    ghost var history: seq<Event>
    ghost var mark: nat

    ghost function System(): Sys
      reads this, rProc
    {
      Sys(rProc.State(), pc, i, reader, open, pending, got, kept, history, mark)
    }

    constructor (disk: Folder)
      ensures System() == Boot(disk) && fresh(rProc)
    {
      rProc := new ReadProc(disk);
      pc, i, reader, open := Stopped, 0, Nothing, false;
      pending, got, kept, history, mark := false, [], disk, [], 0;
    }

    /** checkFileExist */
    method FileExists(n: nat) returns (found: bool)
      ensures found <==> n in rProc.disk
    {
      found := n in rProc.disk;
    }

    method Begin()
      requires pc == Stopped
      modifies this
      ensures System() == Step(old(System()), Start)
    {
      pc, i, open := Test0, 1, true;
      mark := |history|;
    }

    /** The next step of the loop. */
    method Run(gone: bool)
      modifies this, rProc
      ensures System() == OnRun(old(System()), gone)
    {
      match pc
      case Test0 =>
        if gone {
          pc := Finish1;
          open, pending := false, false;
        } else {
          pc := if rProc.flag == 0 then Check else Test2;
        }
      case Check =>
        var found := FileExists(i);
        if !found {
          pc := Ask1;
        } else {
          i, pc := i + 1, EndIter;
        }
      case Ask1 =>
        rProc.flag := 1;
        pc := Ask2;
      case Ask2 =>
        rProc.dwName := i;
        pc := Ask3;
      case Ask3 =>
        pending, history := true, history + [Requested(i, i in rProc.disk)];
        pc := EndIter;
      case Test2 => pc := if rProc.flag == 2 then EndIter else Test3;
      case Test3 =>
        if rProc.flag == 3 {
          var file := if i in rProc.disk then Some(rProc.disk[i]) else None;
          history := history + [Spawned(i, rProc.dwName, file, got, rProc.fileSize)];
          pc := Advance1;
        } else {
          pc := Test1;
        }
      case Test1 => pc := Finish1;
      case Advance1 => i, pc := i + 1, Advance2;
      case Advance2 =>
        rProc.flag := 0;
        pc := EndIter;
      case EndIter => pc := if i < FILE_LIMIT then Test0 else Finish1;
      case Finish1 =>
        if rProc.flag == 2 {
          rProc.DeleteLastFile();
        }
        pc := Finish2;
      case Finish2 =>
        rProc.flag := 0;
        pc := Stopped;
      case Stopped =>
      case Crashed =>
    }

    /** The reader thread starts on a chunk. */
    method Receive(buf: array<byte>, len: nat, written: Option<nat>)
      requires len < buf.Length && (written.Some? ==> written.value <= len)
      modifies this, rProc, buf
      ensures var now := OnChunk(old(System()), old(buf[..len]), written);
              System() == now || (pc == now.pc == Crashed)
    {
      ghost var before, data := System(), buf[..len];
      var fault, rest := rProc.ProcStart(buf, len, written);
      hide Classify, Starts;
      if fault {
        pc := Crashed;
      } else {
        reader := rest;
        ghost var after := OnChunk(before, data, written);
        got, pending := after.got, after.pending;
      }
    }

    /** The reader thread ends with its chunk. */
    method FinishChunk(created: bool)
      modifies this, rProc
      ensures System() == OnResume(old(System()), created)
    {
      ghost var name := rProc.dwName;
      rProc.ProcEnd(reader, created);
      if reader == CloseFile {
        kept := kept[name := got];
      }
      reader := Nothing;
    }
  }
}
