/** What happens without the assumptions that Sync.Allowed makes, and exactly when. */
module SyncAssumptions {
  import opened Bytes
  import opened ReadComm
  import opened Sync

  /** A chunk dealt with start to end, its octets written whole and the file created. */
  function Handled(s: Sys, data: seq<byte>): Sys {
    OnResume(OnChunk(s, data, Some(|data|)), true)
  }

  // ------------------------------------------------------------------ why the assumptions are needed

  /**
   A header that comes after its session has ended leaves flag at 2 for the next one, which
   then parses file 1 whatever was downloaded: right only when number 1 had been asked for.
   */
  lemma LateHeaderParsesFileOne(s: Sys, header: seq<byte>, size: nat, content: seq<byte>)
    requires s.pc == Stopped
    requires Classify(header) == FileRead(size) && 0 < size <= |content| <= CHUNK_LIMIT && Classify(content) == Content
    ensures var begun := Step(Handled(s, header), Start);
            var parsed := Runs(Handled(begun, content), 3);
            && |parsed.history| == |s.history| + 1
            && var e := parsed.history[|s.history|];
               e.Spawned? && e.n == 1 && e.dwName == s.rx.dwName && (e.n == e.dwName <==> s.rx.dwName == 1)
  {
    hide *;
    LateHeaderOpens(s, header, size);
    var begun := Step(Handled(s, header), Start);
    SessionStarts(Handled(s, header));
    OneChunkFinishes(begun, content);
    FinishedIsParsed(Handled(begun, content));
  }

  lemma LateHeaderOpens(s: Sys, header: seq<byte>, size: nat)
    requires s.pc == Stopped && Classify(header) == FileRead(size) && 0 < size
    ensures var late := Handled(s, header);
            && late.rx.flag == 2 && late.rx.handle.Open? && late.rx.total == 0 && late.rx.fileSize == size
            && late.rx.dwName == s.rx.dwName && late.history == s.history && late.pc == Stopped
            && Allowed(late, Start)
  {
    hide Classify;
  }

  lemma SessionStarts(s: Sys)
    requires Allowed(s, Start)
    ensures var now := Step(s, Start);
            now.rx == s.rx && now.pc == Test0 && now.i == 1 && now.history == s.history
  {
  }

  lemma OneChunkFinishes(s: Sys, content: seq<byte>)
    requires s.rx.flag == 2 && s.rx.handle.Open? && s.rx.total == 0 && s.pc == Test0
    requires 0 < s.rx.fileSize <= |content| <= CHUNK_LIMIT && Classify(content) == Content
    ensures var done := Handled(s, content);
            && done.rx.flag == 3 && done.pc == Test0 && done.i == s.i && done.rx.dwName == s.rx.dwName
            && done.history == s.history
  {
    hide Classify;
  }

  lemma FinishedIsParsed(s: Sys)
    requires s.rx.flag == 3 && s.pc == Test0
    ensures var parsed := Runs(s, 3);
            && |parsed.history| == |s.history| + 1
            && var e := parsed.history[|s.history|];
               e.Spawned? && e.n == s.i && e.dwName == s.rx.dwName && (e.n !in s.rx.disk ==> e.file == None)
  {
    assert Runs(s, 1) == s.(pc := Test2);
    assert Runs(s, 2) == s.(pc := Test3);
  }

  /** A loop that looks before the header has come ends the session without the file. */
  lemma EarlyLookEndsSession(s: Sys)
    requires Inv(s) && s.pc == Test0 && s.pending
    ensures var end := Runs(s, 6);
            end.pc == Stopped && end.history == s.history && end.rx.disk == s.kept && s.i !in s.kept
  {
    hide *;
    PendingFacts(s);
    RunsAdd(s, 3, 3);
    assert 3 + 3 == 6;
    LoopFindsNothing(s);
    LoopEnds(s.(pc := Test1));
  }

  lemma LoopChecksDisk(s: Sys)
    requires s.pc == Test0 && s.rx.flag == 0
    ensures Runs(s, 3).pc != Test1
  {
    assert Runs(s, 1) == s.(pc := Check);
    assert Runs(s, 2) == (if s.i in s.rx.disk then s.(i := s.i + 1, pc := EndIter) else s.(pc := Ask1));
  }

  /** The loop, left alone, is about to give up exactly when it looks while flag is 1: header awaited, or no such file. */
  lemma GivesUpIff(s: Sys)
    requires Inv(s) && s.pc == Test0
    ensures Runs(s, 3).pc == Test1 <==> s.rx.flag == 1
  {
    assert s.rx.flag <= 3 by { hide Logged, Waiting, Whole, OnDisk, Reading; }
    hide Inv, AfterDelete;
    if s.rx.flag == 0 {
      LoopChecksDisk(s);
    } else if s.rx.flag == 2 {
      assert Runs(s, 1) == s.(pc := Test2);
      assert Runs(s, 2) == s.(pc := EndIter);
    } else if s.rx.flag == 3 {
      assert Runs(s, 1) == s.(pc := Test2);
      assert Runs(s, 2) == s.(pc := Test3);
    } else {
      LoopFindsNothing(s);
    }
  }

  lemma PendingFacts(s: Sys)
    requires Inv(s) && s.pending
    ensures s.rx.flag == 1 && s.rx.disk == s.kept && s.i !in s.kept
  {
    hide Logged, Whole, Reading;
  }

  lemma LoopFindsNothing(s: Sys)
    requires s.pc == Test0 && s.rx.flag == 1
    ensures Runs(s, 3) == s.(pc := Test1)
  {
    assert Runs(s, 1) == s.(pc := Test2);
    assert Runs(s, 2) == s.(pc := Test3);
  }

  lemma LoopEnds(s: Sys)
    requires s.pc == Test1 && s.rx.flag == 1
    ensures Runs(s, 3) == s.(rx := s.rx.(flag := 0), pc := Stopped)
  {
    assert Runs(s, 1) == s.(pc := Finish1);
    assert Runs(s, 2) == s.(pc := Finish2);
  }

  // ------------------------------------------------------------------ FSIZE during a download

  /** An FSIZE reply in the middle of a download makes the next piece divide by zero exactly if it says zero. */
  lemma FsizeCrashesIff(s: Sys, reply: seq<byte>, n: nat, content: seq<byte>, w: nat)
    requires Inv(s) && s.rx.flag == 2 && s.rx.handle.Open?
    requires Classify(reply) == FileSize(n) && Classify(content) == Content && w <= |content|
    ensures OnChunk(OnChunk(s, reply, None), content, Some(w)).pc == Crashed <==> n == 0
  {
    hide Logged, Waiting, Whole, OnDisk, Reading, Classify;
  }

  predicate Fits(input: Input) {
    input.Chunk? && input.written.Some? ==> input.written.value <= |input.data|
  }

  /** A step with nothing assumed of the watch or of the port; after the crash there are none. */
  function Go(s: Sys, input: Input): Sys
    requires Fits(input)
  {
    if s.pc == Crashed then s
    else
      match input
      case Run(gone) => OnRun(s, gone)
      case Start => if s.pc == Stopped then s.(pc := Test0, i := 1, open := true, mark := |s.history|) else s
      case Chunk(data, written) => OnChunk(s, data, written)
      case Resume(created) => OnResume(s, created)
  }

  predicate AllFit(inputs: seq<Input>) {
    forall k :: 0 <= k < |inputs| ==> Fits(inputs[k])
  }

  function Went(s: Sys, inputs: seq<Input>): Sys
    requires AllFit(inputs)
  {
    if inputs == [] then s else Go(Went(s, inputs[..|inputs| - 1]), inputs[|inputs| - 1])
  }

  lemma WentLast(s: Sys, inputs: seq<Input>)
    requires inputs != [] && AllFit(inputs)
    ensures AllFit(inputs[..|inputs| - 1]) && Fits(inputs[|inputs| - 1])
    ensures Went(s, inputs) == Go(Went(s, inputs[..|inputs| - 1]), inputs[|inputs| - 1])
  {
    hide Fits, Go;
  }

  lemma AllFitSnoc(inputs: seq<Input>)
    requires inputs != [] && AllFit(inputs[..|inputs| - 1]) && Fits(inputs[|inputs| - 1])
    ensures AllFit(inputs)
  {
    hide Fits;
    assert forall k :: 0 <= k < |inputs| - 1 ==> inputs[..|inputs| - 1][k] == inputs[k];
  }

  /** An admissible run is such a run. */
  lemma {:induction false} AfterIsWent(s: Sys, inputs: seq<Input>)
    requires Inv(s) && Admissible(s, inputs)
    ensures AllFit(inputs) && Went(s, inputs) == After(s, inputs)
    decreases |inputs|
  {
    if inputs == [] {
    } else {
      var init, last := inputs[..|inputs| - 1], inputs[|inputs| - 1];
      hide *;
      AfterLast(s, inputs);
      AfterIsWent(s, init);
      RunsKeep(s, init);
      GoIsStep(After(s, init), last);
      AllFitSnoc(inputs);
      WentLast(s, inputs);
    }
  }

  lemma GoIsStep(s: Sys, input: Input)
    requires Inv(s) && Allowed(s, input)
    ensures Fits(input) && Go(s, input) == Step(s, input)
  {
    assert s.pc != Crashed by { hide Logged, Waiting, Whole, OnDisk, Reading; }
    hide Inv, OnRun, OnChunk, OnResume, Classify;
  }

  predicate TellsSize(message: Message) {
    message.FileSize? || message.FileRead?
  }

  function Heard(before: Message, input: Input): Message {
    if input.Chunk? && TellsSize(Classify(input.data)) then Classify(input.data) else before
  }

  /** The last reply that told a size. */
  function LastSize(inputs: seq<Input>): Message {
    if inputs == [] then Ignored else Heard(LastSize(inputs[..|inputs| - 1]), inputs[|inputs| - 1])
  }

  /** The size the program goes by is the one last told, and a download begins with one that is not 0. */
  predicate Told(s: Sys, reply: Message) {
    && s.rx.fileSize == (match reply case FileSize(n) => n case FileRead(n) => n case Ignored => 0 case Content => 0)
    && (s.rx.flag == 2 ==> reply.FileSize? || (reply.FileRead? && reply.size > 0))
  }

  /** A piece is written while the last size told was that of an FSIZE 0. */
  predicate Fatal(s: Sys, reply: Message, input: Input) {
    && reply == FileSize(0) && s.rx.flag == 2 && s.rx.handle.Open?
    && input.Chunk? && input.written.Some? && Classify(input.data) == Content
  }

  lemma GoTold(s: Sys, reply: Message, input: Input)
    requires Fits(input) && Told(s, reply) && s.pc != Crashed
    ensures Go(s, input).pc == Crashed <==> Fatal(s, reply, input)
    ensures Go(s, input).pc != Crashed ==> Told(Go(s, input), Heard(reply, input))
  {
    hide Classify, OnChunk;
    if input.Chunk? {
      ChunkTold(s, reply, input.data, input.written);
    }
  }

  lemma ChunkTold(s: Sys, reply: Message, data: seq<byte>, written: Option<nat>)
    requires (written.Some? ==> written.value <= |data|) && Told(s, reply) && s.pc != Crashed
    ensures OnChunk(s, data, written).pc == Crashed <==> Fatal(s, reply, Chunk(data, written))
    ensures OnChunk(s, data, written).pc != Crashed ==>
              Told(OnChunk(s, data, written), Heard(reply, Chunk(data, written)))
  {
    AppendKeepsSize(s.rx, data, written);
    hide Classify, AfterAppend;
  }

  lemma AppendKeepsSize(rx: Rx, data: seq<byte>, written: Option<nat>)
    ensures rx.handle.Open? && written.Some? && written.value <= |data| ==>
              && AfterAppend(rx, data, written.value).fileSize == rx.fileSize
              && AfterAppend(rx, data, written.value).flag == rx.flag
  {
  }

  /** Some step of the run is fatal. */
  predicate SomeFatal(s: Sys, inputs: seq<Input>)
    requires AllFit(inputs)
  {
    exists p :: 0 <= p < |inputs| && FatalAt(s, inputs, p)
  }

  predicate FatalAt(s: Sys, inputs: seq<Input>, p: nat)
    requires AllFit(inputs) && p < |inputs|
  {
    AllFit(inputs[..p]) && Fatal(Went(s, inputs[..p]), LastSize(inputs[..p]), inputs[p])
  }

  /**
   With nothing at all assumed of the watch, the order of the steps and the port: the reader divides by zero
   exactly when a piece is written to an open file while the last size told was that of an FSIZE 0.
   */
  lemma {:induction false} CrashesIff(disk: Folder, inputs: seq<Input>)
    requires AllFit(inputs)
    ensures Went(Boot(disk), inputs).pc == Crashed <==> SomeFatal(Boot(disk), inputs)
    ensures Went(Boot(disk), inputs).pc != Crashed ==> Told(Went(Boot(disk), inputs), LastSize(inputs))
    decreases |inputs|
  {
    if inputs == [] {
    } else {
      var init, last := inputs[..|inputs| - 1], inputs[|inputs| - 1];
      hide *;
      WentLast(Boot(disk), inputs);
      LastSizeLast(inputs);
      CrashesIff(disk, init);
      SomeFatalSnoc(Boot(disk), inputs);
      if Went(Boot(disk), init).pc != Crashed {
        GoTold(Went(Boot(disk), init), LastSize(init), last);
      } else {
        CrashStays(Went(Boot(disk), init), last);
      }
    }
  }

  lemma CrashStays(s: Sys, input: Input)
    requires Fits(input) && s.pc == Crashed
    ensures Go(s, input) == s
  {
  }

  lemma LastSizeLast(inputs: seq<Input>)
    requires inputs != []
    ensures LastSize(inputs) == Heard(LastSize(inputs[..|inputs| - 1]), inputs[|inputs| - 1])
  {
    hide Heard;
  }

  lemma FatalAtPrefix(s: Sys, inputs: seq<Input>, p: nat)
    requires p < |inputs| - 1 && AllFit(inputs) && AllFit(inputs[..|inputs| - 1])
    ensures FatalAt(s, inputs[..|inputs| - 1], p) <==> FatalAt(s, inputs, p)
  {
    hide Fatal, Fits, Went, LastSize;
    assert inputs[..|inputs| - 1][..p] == inputs[..p];
  }

  lemma SomeFatalSnoc(s: Sys, inputs: seq<Input>)
    requires inputs != [] && AllFit(inputs) && AllFit(inputs[..|inputs| - 1])
    ensures var init, last := inputs[..|inputs| - 1], inputs[|inputs| - 1];
            SomeFatal(s, inputs) <==> SomeFatal(s, init) || Fatal(Went(s, init), LastSize(init), last)
  {
    hide Fatal, Fits, Went, LastSize;
    var n := |inputs| - 1;
    assert FatalAt(s, inputs, n) <==> Fatal(Went(s, inputs[..n]), LastSize(inputs[..n]), inputs[n]);
    forall p | 0 <= p < n
      ensures FatalAt(s, inputs[..n], p) <==> FatalAt(s, inputs, p)
    {
      FatalAtPrefix(s, inputs, p);
    }
    hide FatalAt;
  }

  /** What was written since the last header is counted modulo 2^32. */
  predicate CountsGot(s: Sys) {
    s.rx.total == |s.got| % 0x1_0000_0000
  }

  lemma WrappedSum(a: nat, b: nat)
    ensures (a % 0x1_0000_0000 + b) % 0x1_0000_0000 == (a + b) % 0x1_0000_0000
  {
  }

  lemma ChunkCounts(s: Sys, data: seq<byte>, written: Option<nat>)
    requires CountsGot(s) && (written.Some? ==> written.value <= |data|)
    ensures CountsGot(OnChunk(s, data, written))
  {
    if written.Some? {
      WrappedSum(|s.got|, written.value);
    }
    hide Classify;
  }

  lemma GoCounts(s: Sys, input: Input)
    requires Fits(input) && CountsGot(s)
    ensures CountsGot(Go(s, input))
  {
    hide Classify, OnChunk;
    if input.Chunk? {
      ChunkCounts(s, input.data, input.written);
    }
  }

  /** The count of octets wraps, in every run whatever. */
  lemma {:induction false} CountWraps(disk: Folder, inputs: seq<Input>)
    requires AllFit(inputs)
    ensures CountsGot(Went(Boot(disk), inputs))
    decreases |inputs|
  {
    if inputs == [] {
    } else {
      hide *;
      WentLast(Boot(disk), inputs);
      CountWraps(disk, inputs[..|inputs| - 1]);
      GoCounts(Went(Boot(disk), inputs[..|inputs| - 1]), inputs[|inputs| - 1]);
    }
  }

  // ------------------------------------------------------------------ closing the port

  /**
   A session that finds the port closed, with the reader's second half falling `when` the sync thread has
   found it (0), dropped a partial file (1), or cleared flag and ended (2).
   */
  function Closed(s: Sys, when: nat, created: bool): Sys {
    var found := Late(OnRun(s, true), when == 0, created);
    var dropped := Late(OnRun(found, false), when == 1, created);
    Late(OnRun(dropped, false), when >= 2, created)
  }

  function Late(s: Sys, now: bool, created: bool): Sys {
    if now && s.reader != Nothing then OnResume(s, created) else s
  }

  /** Ended with no file open, flag 0, and on disk just the files that have come whole. */
  predicate Clean(end: Sys) {
    end.pc == Stopped && end.rx.disk == end.kept && end.rx.flag == 0 && end.rx.handle == Null
  }

  /** Closing the port is harmless exactly when the reader has done with its chunk before flag is tested. */
  lemma ClosingIsCleanIff(s: Sys, when: nat, created: bool)
    requires Inv(s) && s.pc == Test0
    ensures Clean(Closed(s, when, created)) <==> s.reader == Nothing || when == 0
    ensures Clean(Closed(s, when, created)) ==> Grows(s.kept, Closed(s, when, created).rx.disk)
  {
    hide Inv, Closed, Clean;
    if s.reader == Nothing {
      IdleClosesCleanly(s, when, created);
    } else if when == 0 {
      FinishedReaderClosesCleanly(s, created);
    } else if s.reader == OpenFile {
      HeaderLeavesEmptyFile(s, when, created);
    } else {
      LastPieceIsDeleted(s, when, created);
    }
  }

  lemma IdleClosesCleanly(s: Sys, when: nat, created: bool)
    requires Inv(s) && s.pc == Test0 && s.reader == Nothing
    ensures Clean(Closed(s, when, created)) && Grows(s.kept, Closed(s, when, created).rx.disk)
  {
    hide Logged, Waiting, Whole, Reading;
  }

  lemma FinishedReaderClosesCleanly(s: Sys, created: bool)
    requires Inv(s) && s.pc == Test0 && s.reader != Nothing
    ensures Clean(Closed(s, 0, created)) && Grows(s.kept, Closed(s, 0, created).rx.disk)
  {
    hide Logged, Waiting, Whole;
  }

  /**
   The reader was about to open a file: flag is 2 already, but the name of the last file is still the one
   before, and that one, downloaded whole, is deleted. In its place an empty file is left under the number
   asked for, still open; so the next session asks for the first number without a file, never for that one.
   */
  lemma ClosingDuringHeader(s: Sys, when: nat, n: nat)
    requires Inv(s) && s.reader == OpenFile && s.pc == Test0 && when > 0
    requires 0 < n < 1_000_000
    ensures var end := Closed(s, when, true);
            && !Clean(end) && s.i !in s.kept && end.rx.handle == Open(s.i)
            && end.rx.disk == (if s.rx.last.Some? then s.kept - {s.rx.last.value} else s.kept)[s.i := []]
            && (FirstMissing(end.rx.disk, n) ==>
                  n != s.i && Runs(Step(end, Start), 3 * (n - 1) + 5) == Asking(Step(end, Start), n))
  {
    HeaderLeavesEmptyFile(s, when, true);
    var end := Closed(s, when, true);
    assert FirstMissing(end.rx.disk, n) ==> n != s.i by { hide Inv; }
    hide *;
    if FirstMissing(end.rx.disk, n) {
      SessionAsksFirst(end, n);
    }
  }

  predicate FirstMissing(disk: Folder, n: nat) {
    n !in disk && forall m :: 1 <= m < n ==> m in disk
  }

  lemma SessionAsksFirst(s: Sys, n: nat)
    requires Allowed(s, Start) && s.rx.flag == 0 && 0 < n < 1_000_000 && FirstMissing(s.rx.disk, n)
    ensures Runs(Step(s, Start), 3 * (n - 1) + 5) == Asking(Step(s, Start), n)
  {
    hide Runs, Allowed, Step, Asking, OnRun;
    SessionStarts(s);
    FirstMissingIsAskedFor(Step(s, Start), n);
  }

  lemma HeaderLeavesEmptyFile(s: Sys, when: nat, created: bool)
    requires Inv(s) && s.reader == OpenFile && s.pc == Test0 && when > 0
    ensures var end, rest := Closed(s, when, created), if s.rx.last.Some? then s.kept - {s.rx.last.value} else s.kept;
            && !Clean(end) && s.i !in s.kept && end.rx.handle == (if created then Open(s.i) else Invalid)
            && end.rx.disk == (if created then rest[s.i := []] else rest)
            && end.rx.flag == 0 && Allowed(end, Start)
  {
    hide Logged, Waiting, Whole;
  }

  /**
   The reader was about to close a whole file: it is deleted, and with flag 3, if that is stored after the
   session has ended, the next session parses file 1 although the number was another: right only if it was
   1, and then the file is gone.
   */
  lemma ClosingDuringLastPiece(s: Sys, when: nat, created: bool)
    requires Inv(s) && s.reader == CloseFile && s.pc == Test0 && when > 0
    ensures var end := Closed(s, when, created);
            && !Clean(end) && s.rx.dwName in end.kept && s.rx.dwName !in end.rx.disk
            && (end.rx.flag == 3 <==> when >= 2)
            && (when >= 2 ==>
                  var parsed := Runs(Step(end, Start), 3);
                  && |parsed.history| == |s.history| + 1
                  && var e := parsed.history[|s.history|];
                     e.Spawned? && e.n == 1 && e.dwName == s.rx.dwName && (e.n == e.dwName ==> e.file == None))
  {
    LastPieceIsDeleted(s, when, created);
    var end := Closed(s, when, created);
    hide *;
    if when >= 2 {
      SessionStarts(end);
      FinishedIsParsed(Step(end, Start));
    }
  }

  lemma LastPieceIsDeleted(s: Sys, when: nat, created: bool)
    requires Inv(s) && s.reader == CloseFile && s.pc == Test0 && when > 0
    ensures var end := Closed(s, when, created);
            && !Clean(end) && s.rx.dwName in end.kept && s.rx.dwName !in end.rx.disk
            && end.rx.flag == (if when >= 2 then 3 else 0) && end.history == s.history && Allowed(end, Start)
            && end.rx.dwName == s.rx.dwName
  {
    hide Logged, Waiting, Whole;
  }
}
