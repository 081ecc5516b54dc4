/**
 One file, from the request to the parser, in every interleaving of the loop with the header and
 the pieces of the file.
 */
module FileFetch {
  import opened Bytes
  import opened ReadComm
  import opened Sync

  /** The port stays open, files can be created and every octet is written. */
  predicate Smooth(input: Input) {
    match input
    case Run(gone) => !gone
    case Resume(created) => created
    case Chunk(data, written) => written == Some(|data|)
    case Start => false
  }

  /** The chunks of a run, in order. */
  function Chunks(inputs: seq<Input>): seq<seq<byte>> {
    if inputs == [] then [] else (if inputs[0].Chunk? then [inputs[0].data] else []) + Chunks(inputs[1..])
  }

  /** The pieces that are not taken for replies. */
  function Untagged(pieces: seq<seq<byte>>): seq<seq<byte>> {
    if pieces == [] then []
    else
      var n := |pieces| - 1;
      Untagged(pieces[..n]) + if Classify(pieces[n]) == Content then [pieces[n]] else []
  }

  /** The last piece is the one that reaches the announced size, and none is read as FREAD or FSIZE. */
  predicate ComesAs(pieces: seq<seq<byte>>, size: nat) {
    && pieces != [] && |Flatten(pieces[..|pieces| - 1])| < size <= |Flatten(pieces)|
    && forall k :: 0 <= k < |pieces| ==> Classify(pieces[k]) == Content || Classify(pieces[k]) == Ignored
  }

  predicate AllUntagged(pieces: seq<seq<byte>>) {
    forall k :: 0 <= k < |pieces| ==> Classify(pieces[k]) == Content
  }

  lemma UntaggedNext(pieces: seq<seq<byte>>, k: nat)
    requires k < |pieces|
    ensures Flatten(Untagged(pieces[..k + 1])) ==
            Flatten(Untagged(pieces[..k])) + if Classify(pieces[k]) == Content then pieces[k] else []
    ensures Flatten(pieces[..k + 1]) == Flatten(pieces[..k]) + pieces[k]
  {
    assert pieces[..k + 1][..k] == pieces[..k];
    hide Flatten, Classify;
    FlattenSnoc(Untagged(pieces[..k]), pieces[k]);
    assert pieces[..k + 1] == pieces[..k] + [pieces[k]];
    FlattenSnoc(pieces[..k], pieces[k]);
    assert Untagged(pieces[..k]) + [] == Untagged(pieces[..k]);
  }

  lemma NoPieces(pieces: seq<seq<byte>>)
    ensures Flatten(Untagged(pieces[..0])) == Flatten(pieces[..0]) == []
  {
  }

  lemma {:induction false} UntaggedIsLess(pieces: seq<seq<byte>>, k: nat)
    requires k <= |pieces|
    ensures |Flatten(Untagged(pieces[..k]))| <= |Flatten(pieces[..k])|
    ensures AllUntagged(pieces[..k]) ==> Flatten(Untagged(pieces[..k])) == Flatten(pieces[..k])
    decreases k
  {
    hide *;
    if k == 0 {
      NoPieces(pieces);
    } else {
      UntaggedIsLess(pieces, k - 1);
      UntaggedNext(pieces, k - 1);
      AllUntaggedNext(pieces, k - 1);
      assert k - 1 + 1 == k;
    }
  }

  lemma AllUntaggedNext(pieces: seq<seq<byte>>, k: nat)
    requires k < |pieces|
    ensures AllUntagged(pieces[..k + 1]) <==> AllUntagged(pieces[..k]) && Classify(pieces[k]) == Content
  {
    hide Classify;
    assert pieces[..k + 1][k] == pieces[k];
    assert forall j :: 0 <= j < k ==> pieces[..k + 1][j] == pieces[..k][j];
  }

  /** A fetch of file `i`: what was there when it began, and what the watch is going to send. */
  datatype Fetch = Fetch(i: nat, kept: Folder, history: seq<Event>, size: nat, pieces: seq<seq<byte>>)

  function Asked(f: Fetch): seq<Event> {
    f.history + [Requested(f.i, false)]
  }

  function Fetched(f: Fetch): seq<Event> {
    var file := Flatten(Untagged(f.pieces));
    Asked(f) + [Spawned(f.i, f.i, Some(file), file, f.size)]
  }

  /** The header has not come. */
  predicate Before(f: Fetch, s: Sys) {
    && s.rx.flag <= 1 && s.i == f.i && s.kept == f.kept && s.reader == Nothing
    && if s.pending then s.history == Asked(f)
       else s.history == f.history && if s.rx.flag == 0 then s.pc == EndIter || s.pc == Test0 || s.pc == Check || s.pc == Ask1
                                      else s.pc == Ask2 || s.pc == Ask3
  }

  /** The header and `k` pieces have come. */
  predicate During(f: Fetch, s: Sys, k: nat) {
    && k <= |f.pieces| && s.rx.flag == 2 && s.rx.handle != Invalid && s.i == f.i && s.history == Asked(f)
    && s.rx.fileSize == f.size && s.got == Flatten(Untagged(f.pieces[..k])) && s.kept == f.kept
    && (s.pc == EndIter || s.pc == Test0 || s.pc == Test2)
  }

  /** The whole file has come, and the loop has not seen it. */
  predicate Ready(f: Fetch, s: Sys) {
    && s.rx.flag == 3 && s.i == f.i && s.history == Asked(f)
    && s.rx.fileSize == f.size && s.got == Flatten(Untagged(f.pieces)) && s.kept == f.kept[f.i := s.got]
    && (s.pc == EndIter || s.pc == Test0 || s.pc == Test2 || s.pc == Test3)
  }

  /** The parser has been started on it. */
  predicate Parsed(f: Fetch, s: Sys) {
    Fetched(f) <= s.history
  }

  /** Where a fetch is once `c` chunks have come: the header and c - 1 pieces. */
  predicate At(f: Fetch, s: Sys, c: nat) {
    || (c == 0 && Before(f, s))
    || (c > 0 && During(f, s, c - 1))
    || (c == |f.pieces| + 1 && (Ready(f, s) || Parsed(f, s)))
  }

  predicate Wanted(f: Fetch) {
    f.i < FILE_LIMIT && f.i !in f.kept
  }

  predicate Fetchable(f: Fetch) {
    Wanted(f) && 0 < f.size && ComesAs(f.pieces, f.size)
  }

  lemma ParsedStays(f: Fetch, s: Sys, input: Input)
    requires Inv(s) && Allowed(s, input) && Parsed(f, s)
    ensures Parsed(f, Step(s, input))
  {
    StepHistory(s, input);
    var now := Step(s, input);
    hide Inv, Allowed, Step, Fetched;
    assert now.history != s.history ==> now.history[..|s.history|] == s.history;
  }

  lemma BeforeRuns(f: Fetch, s: Sys)
    requires Inv(s) && Allowed(s, Run(false)) && Before(f, s) && Wanted(f)
    ensures Before(f, OnRun(s, false))
  {
    assert s.rx.disk == s.kept;
    hide Logged, Whole, Reading, OnDisk;
  }

  lemma DuringRuns(f: Fetch, s: Sys, k: nat)
    requires Inv(s) && Allowed(s, Run(false)) && During(f, s, k) && Fetchable(f)
    ensures During(f, OnRun(s, false), k)
  {
    hide Logged, Whole, Reading, OnDisk, ComesAs;
  }

  /** How many steps before a whole file is seen. */
  function Rank(pc: Pc): (r: nat)
    ensures r <= 4
  {
    if pc == EndIter then 4 else if pc == Test0 then 3 else if pc == Test2 then 2 else if pc == Test3 then 1 else 0
  }

  lemma ReadyRuns(f: Fetch, s: Sys)
    requires Inv(s) && Ready(f, s) && Fetchable(f)
    ensures Rank(s.pc) > 0
    ensures if Rank(s.pc) == 1 then Parsed(f, OnRun(s, false))
            else Ready(f, OnRun(s, false)) && Rank(OnRun(s, false).pc) == Rank(s.pc) - 1
  {
    assert s.rx.disk == s.kept && s.rx.dwName == s.i && s.kept[s.i] == s.got;
    hide Logged, Reading, ComesAs, Flatten;
  }

  lemma RunKeepsFetch(f: Fetch, s: Sys, c: nat)
    requires Inv(s) && Allowed(s, Run(false)) && At(f, s, c) && Fetchable(f)
    ensures At(f, OnRun(s, false), c)
  {
    hide Inv, Allowed, ComesAs, Wanted, During, Before, Ready, Parsed;
    if c == 0 && Before(f, s) {
      BeforeRuns(f, s);
    } else if c > 0 && During(f, s, c - 1) {
      DuringRuns(f, s, c - 1);
    } else if Ready(f, s) {
      ReadyRuns(f, s);
    } else {
      ParsedStays(f, s, Run(false));
    }
  }

  lemma HeaderComes(f: Fetch, s: Sys, header: seq<byte>, written: Option<nat>)
    requires Inv(s) && Allowed(s, Chunk(header, written)) && Before(f, s) && Fetchable(f)
    requires Classify(header) == FileRead(f.size)
    ensures During(f, OnChunk(s, header, written), 0)
  {
    assert s.rx.handle == Null;
    assert f.pieces[..0] == [] && Untagged([]) == [];
    hide Logged, Whole, Reading, OnDisk, ComesAs, Classify;
  }

  lemma PieceComes(f: Fetch, s: Sys, k: nat, written: Option<nat>)
    requires Inv(s) && During(f, s, k) && k < |f.pieces| && Fetchable(f)
    requires Allowed(s, Chunk(f.pieces[k], written)) && written == Some(|f.pieces[k]|)
    ensures During(f, OnChunk(s, f.pieces[k], written), k + 1)
  {
    hide Inv, Allowed, Fetchable, ComesAs, Classify, AfterAppend, Flatten, Untagged;
    NextPiece(f, k);
    FileIsOpen(f, s, k, written);
    if Classify(f.pieces[k]) == Content {
      ContentAdds(s, f.pieces[k], |f.pieces[k]|);
      AppendKeeps(s.rx, f.pieces[k]);
    }
  }

  lemma AppendKeeps(rx: Rx, piece: seq<byte>)
    requires rx.handle.Open?
    ensures var now := AfterAppend(rx, piece, |piece|);
            now.flag == rx.flag && now.handle == rx.handle && now.fileSize == rx.fileSize
  {
  }

  lemma NextPiece(f: Fetch, k: nat)
    requires Fetchable(f) && k < |f.pieces|
    ensures Flatten(Untagged(f.pieces[..k + 1])) ==
            Flatten(Untagged(f.pieces[..k])) + if Classify(f.pieces[k]) == Content then f.pieces[k] else []
    ensures f.pieces[k][..|f.pieces[k]|] == f.pieces[k]
    ensures Classify(f.pieces[k]) == Content || Classify(f.pieces[k]) == Ignored
  {
    hide Flatten, Classify, Untagged;
    UntaggedNext(f.pieces, k);
  }

  lemma FileIsOpen(f: Fetch, s: Sys, k: nat, written: Option<nat>)
    requires Inv(s) && During(f, s, k) && k < |f.pieces| && Allowed(s, Chunk(f.pieces[k], written))
    ensures s.reader == Nothing && s.rx.handle.Open? && |f.pieces[k]| <= CHUNK_LIMIT
  {
    hide Logged, Whole, Waiting, Flatten, Classify;
  }

  lemma ChunkKeepsFetch(f: Fetch, s: Sys, c: nat, header: seq<byte>, data: seq<byte>, written: Option<nat>)
    requires Inv(s) && Allowed(s, Chunk(data, written)) && At(f, s, c) && Fetchable(f) && written == Some(|data|)
    requires Classify(header) == FileRead(f.size) && c <= |f.pieces| && data == ([header] + f.pieces)[c]
    ensures At(f, OnChunk(s, data, written), c + 1)
  {
    hide Inv, Allowed, Fetchable, During, Before, Ready, Parsed, Classify;
    if c == 0 {
      HeaderComes(f, s, header, written);
    } else {
      PieceComes(f, s, c - 1, written);
    }
  }

  /** Before the last piece the size is not reached. */
  lemma SizeNotReached(pieces: seq<seq<byte>>, size: nat, k: nat)
    requires ComesAs(pieces, size) && k < |pieces|
    ensures |Flatten(Untagged(pieces[..k]))| < size
  {
    var init, rest := pieces[..|pieces| - 1], pieces[..|pieces| - 1][k..];
    assert |Flatten(init)| < size by { hide Flatten, Classify; }
    hide *;
    assert pieces[..k] + rest == init;
    FlattenAppend(pieces[..k], rest);
    UntaggedIsLess(pieces, k);
  }

  lemma ResumeKeepsFetch(f: Fetch, s: Sys, c: nat)
    requires Inv(s) && s.reader != Nothing && At(f, s, c) && Fetchable(f)
    ensures At(f, OnResume(s, true), c)
  {
    if c == 0 && Before(f, s) {
    } else if c > 0 && During(f, s, c - 1) {
      if s.reader == CloseFile {
        LastPieceClosed(f, s, c - 1);
      } else {
        hide Logged, Whole, Waiting, ComesAs, Flatten;
      }
    } else {
      ReadyIsIdle(f, s);
      hide Inv, Flatten, Fetched;
    }
  }

  lemma ReadyIsIdle(f: Fetch, s: Sys)
    requires Inv(s)
    ensures Ready(f, s) ==> s.reader == Nothing
  {
    hide Logged, Whole, Waiting, OnDisk;
  }

  lemma LastPieceClosed(f: Fetch, s: Sys, k: nat)
    requires Inv(s) && s.reader == CloseFile && During(f, s, k) && Fetchable(f)
    ensures k == |f.pieces| && Ready(f, OnResume(s, true))
  {
    if k < |f.pieces| {
      SizeNotReached(f.pieces, f.size, k);
    }
    assert f.pieces[..|f.pieces|] == f.pieces;
    hide Logged, Whole, Waiting, ComesAs, Flatten;
  }

  lemma FetchStep(f: Fetch, s: Sys, c: nat, header: seq<byte>, input: Input)
    requires Inv(s) && Allowed(s, input) && Smooth(input) && At(f, s, c) && Fetchable(f)
    requires Classify(header) == FileRead(f.size)
    requires input.Chunk? ==> c <= |f.pieces| && input.data == ([header] + f.pieces)[c]
    ensures At(f, Step(s, input), if input.Chunk? then c + 1 else c)
  {
    hide Inv, At, Fetchable, Classify, OnRun, OnChunk, OnResume;
    match input
    case Run(gone) => RunKeepsFetch(f, s, c);
    case Resume(created) => ResumeKeepsFetch(f, s, c);
    case Chunk(data, written) => ChunkKeepsFetch(f, s, c, header, data, written);
  }

  lemma {:induction false} FetchGoesOn(f: Fetch, s: Sys, c: nat, header: seq<byte>, inputs: seq<Input>)
    requires Inv(s) && At(f, s, c) && Fetchable(f) && Admissible(s, inputs)
    requires forall k :: 0 <= k < |inputs| ==> Smooth(inputs[k])
    requires Classify(header) == FileRead(f.size)
    requires c <= |f.pieces| + 1 && Chunks(inputs) == ([header] + f.pieces)[c..]
    ensures Inv(After(s, inputs)) && At(f, After(s, inputs), |f.pieces| + 1)
    decreases |inputs|
  {
    var feed := [header] + f.pieces;
    if inputs == [] {
      assert |feed[c..]| == 0;
    } else {
      var input, rest := inputs[0], inputs[1..];
      if input.Chunk? {
        assert Chunks(inputs)[0] == input.data && Chunks(inputs)[1..] == Chunks(rest);
        assert feed[c..][1..] == feed[c + 1..];
      } else {
        assert Chunks(inputs) == Chunks(rest);
      }
      hide Inv, At, Fetchable, Classify, Step, Allowed, Smooth, Chunks;
      StepKeeps(s, input);
      FetchStep(f, s, c, header, input);
      FetchGoesOn(f, Step(s, input), if input.Chunk? then c + 1 else c, header, rest);
    }
  }

  /** A whole file is seen within four steps of the loop. */
  lemma {:induction false} LoopSeesFile(f: Fetch, s: Sys) returns (k: nat)
    requires Inv(s) && Ready(f, s) && Fetchable(f)
    ensures k <= Rank(s.pc) && Inv(Runs(s, k)) && Parsed(f, Runs(s, k))
    decreases Rank(s.pc)
  {
    hide *;
    var now := OnRun(s, false);
    ReadyAllows(f, s);
    RunKeeps(s, false);
    ReadyRuns(f, s);
    OneRun(s);
    if Rank(s.pc) == 1 {
      k := 1;
    } else {
      var rest := LoopSeesFile(f, now);
      k := rest + 1;
      RunsAdd(s, 1, rest);
      assert k == 1 + rest;
    }
  }

  lemma ReadyAllows(f: Fetch, s: Sys)
    requires Inv(s) && Ready(f, s)
    ensures Allowed(s, Run(false))
  {
    hide Logged, Whole, OnDisk;
  }

  /** A file that was handed to the parser is on disk. */
  lemma ParsedIsKept(f: Fetch, s: Sys)
    requires Inv(s) && Parsed(f, s)
    ensures Fetched(f) <= s.history && f.i in s.rx.disk && s.rx.disk[f.i] == Flatten(Untagged(f.pieces))
  {
    var k := |f.history| + 1;
    assert s.history[k] == Fetched(f)[k];
    assert Proper(s.history[k], s.kept);
    hide Waiting, Whole, Reading, Phase, Flatten;
  }

  /** Asked for, handed to the parser, and on disk. */
  predicate FileIsThere(s: Sys, end: Sys, size: nat, file: seq<byte>) {
    && s.history + [Requested(s.i, false), Spawned(s.i, s.i, Some(file), file, size)] <= end.history
    && s.i in end.rx.disk && end.rx.disk[s.i] == file
  }

  /**
   A file the watch has and this side has not, sent in pieces of any octets, in every admissible
   interleaving: the sync thread may look as often as it likes while the header and the pieces
   come. The file is with the parser octet for octet within four steps of the loop, and on disk,
   exactly when no piece is taken for a CHECK reply; else it never is.
   */
  lemma FileIsFetched(s: Sys, inputs: seq<Input>, header: seq<byte>, size: nat, pieces: seq<seq<byte>>)
    requires Inv(s) && s.pc == Test0 && s.rx.flag == 0 && s.i !in s.rx.disk
    requires Classify(header) == FileRead(size) && 0 < size && ComesAs(pieces, size)
    requires Admissible(s, inputs) && forall k :: 0 <= k < |inputs| ==> Smooth(inputs[k])
    requires Chunks(inputs) == [header] + pieces && After(s, inputs).reader == Nothing
    ensures (exists k :: 0 <= k <= 4 && FileIsThere(s, Runs(After(s, inputs), k), size, Flatten(pieces))) <==>
            AllUntagged(pieces)
    ensures !AllUntagged(pieces) ==>
              forall k: nat :: !FileIsThere(s, Runs(After(s, inputs), k), size, Flatten(pieces))
  {
    var f, end := Fetch(s.i, s.kept, s.history, size, pieces), After(s, inputs);
    IdleFacts(s);
    assert Before(f, s) && Fetchable(f);
    assert ([header] + pieces)[0..] == [header] + pieces;
    hide *;
    FetchBegins(f, s);
    FetchGoesOn(f, s, 0, header, inputs);
    assert pieces[..|pieces|] == pieces;
    UntaggedIsLess(pieces, |pieces|);
    if AllUntagged(pieces) {
      var k := FetchSucceeds(f, s, end);
    } else {
      FileIsShort(f);
      forall k: nat
        ensures !FileIsThere(s, Runs(end, k), size, Flatten(pieces))
      {
        FetchFails(f, s, end, k);
      }
    }
  }

  lemma FetchSucceeds(f: Fetch, s: Sys, end: Sys) returns (k: nat)
    requires Inv(end) && At(f, end, |f.pieces| + 1) && Fetchable(f) && end.reader == Nothing
    requires f == Fetch(s.i, s.kept, s.history, f.size, f.pieces)
    requires Flatten(Untagged(f.pieces)) == Flatten(f.pieces)
    ensures k <= 4 && FileIsThere(s, Runs(end, k), f.size, Flatten(f.pieces))
  {
    hide *;
    FetchEnds(f, end);
    if Ready(f, end) {
      k := LoopSeesFile(f, end);
    } else {
      NoRuns(end);
      k := 0;
    }
    ParsedIsKept(f, Runs(end, k));
    Delivered(f, s, Runs(end, k));
  }

  lemma Delivered(f: Fetch, s: Sys, end: Sys)
    requires f == Fetch(s.i, s.kept, s.history, f.size, f.pieces)
    requires Fetched(f) <= end.history && f.i in end.rx.disk && end.rx.disk[f.i] == Flatten(Untagged(f.pieces))
    ensures FileIsThere(s, end, f.size, Flatten(Untagged(f.pieces)))
  {
    var file := Flatten(Untagged(f.pieces));
    hide Flatten, Untagged;
    assert Fetched(f) == s.history + [Requested(s.i, false), Spawned(s.i, s.i, Some(file), file, f.size)];
  }

  /** With a piece lost the file is too short. */
  lemma FileIsShort(f: Fetch)
    requires Fetchable(f) && !AllUntagged(f.pieces)
    ensures Flatten(Untagged(f.pieces)) != Flatten(f.pieces)
  {
    forall j | 0 <= j < |f.pieces| && Classify(f.pieces[j]) == Ignored
      ensures f.pieces[j] != []
    {
      IgnoredIff(f.pieces[j]);
      hide Classify, Contains;
    }
    hide Classify, Flatten, Untagged;
    SomeLost(f.pieces, |f.pieces|);
    assert f.pieces[..|f.pieces|] == f.pieces;
  }

  lemma {:induction false} SomeLost(pieces: seq<seq<byte>>, k: nat)
    requires k <= |pieces| && !AllUntagged(pieces[..k])
    requires forall j :: 0 <= j < |pieces| && Classify(pieces[j]) != Content ==> pieces[j] != []
    ensures |Flatten(Untagged(pieces[..k]))| < |Flatten(pieces[..k])|
    decreases k
  {
    hide Flatten, Untagged, Classify;
    if k == 0 {
    } else {
      UntaggedNext(pieces, k - 1);
      AllUntaggedNext(pieces, k - 1);
      UntaggedIsLess(pieces, k - 1);
      if !AllUntagged(pieces[..k - 1]) {
        SomeLost(pieces, k - 1);
      }
    }
  }

  /** Nothing more comes: the download hangs, is ready, or is with the parser, and stays so. */
  predicate Settled(f: Fetch, s: Sys) {
    || (Inv(s) && s.reader == Nothing && During(f, s, |f.pieces|))
    || (Inv(s) && Ready(f, s))
    || Parsed(f, s)
  }

  lemma HistoryGrows(s: Sys)
    ensures s.history <= OnRun(s, false).history
  {
    hide AfterDelete;
    if s.pc != Ask3 && s.pc != Test3 {
      assert OnRun(s, false).history == s.history;
    }
  }

  lemma DuringAllows(f: Fetch, s: Sys, k: nat)
    requires Inv(s) && During(f, s, k) && s.reader == Nothing
    ensures Allowed(s, Run(false)) && OnRun(s, false).reader == Nothing
  {
    hide Logged, Whole, OnDisk;
  }

  lemma SettledRuns(f: Fetch, s: Sys)
    requires Settled(f, s) && Fetchable(f)
    ensures Settled(f, OnRun(s, false))
  {
    hide Inv, Allowed, Fetchable, During, Ready, Fetched, OnRun;
    if Parsed(f, s) {
      HistoryGrows(s);
    } else if Ready(f, s) {
      ReadyAllows(f, s);
      RunKeeps(s, false);
      ReadyRuns(f, s);
    } else {
      DuringAllows(f, s, |f.pieces|);
      RunKeeps(s, false);
      DuringRuns(f, s, |f.pieces|);
    }
  }

  lemma {:induction false} SettledStays(f: Fetch, s: Sys, k: nat)
    requires Settled(f, s) && Fetchable(f)
    ensures Settled(f, Runs(s, k))
    decreases k
  {
    hide Settled, Fetchable, OnRun;
    if k == 0 {
    } else {
      SettledStays(f, s, k - 1);
      SettledRuns(f, Runs(s, k - 1));
    }
  }

  lemma FetchFails(f: Fetch, s: Sys, end: Sys, k: nat)
    requires Inv(end) && At(f, end, |f.pieces| + 1) && Fetchable(f) && end.reader == Nothing
    requires f == Fetch(s.i, s.kept, s.history, f.size, f.pieces)
    requires Flatten(Untagged(f.pieces)) != Flatten(f.pieces)
    ensures !FileIsThere(s, Runs(end, k), f.size, Flatten(f.pieces))
  {
    assert Settled(f, end) by { hide Inv, During, Ready, Parsed; }
    hide *;
    SettledStays(f, end, k);
    NotThere(f, s, Runs(end, k), Flatten(f.pieces));
  }

  lemma NotThere(f: Fetch, s: Sys, now: Sys, file: seq<byte>)
    requires Settled(f, now) && f == Fetch(s.i, s.kept, s.history, f.size, f.pieces)
    requires Flatten(Untagged(f.pieces)) != file
    ensures !FileIsThere(s, now, f.size, file)
  {
    hide Inv, Flatten, Untagged;
    var wanted := s.history + [Requested(s.i, false), Spawned(s.i, s.i, Some(file), file, f.size)];
    var n := |s.history| + 1;
    assert wanted[n] == Spawned(s.i, s.i, Some(file), file, f.size);
    if Parsed(f, now) {
      assert now.history[n] == Fetched(f)[n];
    } else {
      assert |now.history| == n;
    }
  }

  lemma NoRuns(s: Sys)
    ensures Runs(s, 0) == s
  {
  }

  lemma FetchBegins(f: Fetch, s: Sys)
    requires Before(f, s)
    ensures At(f, s, 0)
  {
  }

  /** When all has come and none of it was lost, the file is ready or parsed. */
  lemma FetchEnds(f: Fetch, s: Sys)
    requires Inv(s) && At(f, s, |f.pieces| + 1) && Fetchable(f) && s.reader == Nothing
    requires Flatten(Untagged(f.pieces)) == Flatten(f.pieces)
    ensures Ready(f, s) || Parsed(f, s)
  {
    assert f.pieces[..|f.pieces|] == f.pieces;
    hide Logged, Whole, Waiting, Reading, Flatten, Untagged, Fetched;
  }

  lemma IdleFacts(s: Sys)
    requires Inv(s) && s.pc == Test0 && s.rx.flag == 0
    ensures s.rx.disk == s.kept && s.i < FILE_LIMIT && s.reader == Nothing && !s.pending
  {
    hide Logged, Whole;
  }

  lemma {:induction false} Extend(s: Sys, inputs: seq<Input>, input: Input)
    requires Admissible(s, inputs) && Allowed(After(s, inputs), input)
    ensures Admissible(s, inputs + [input]) && After(s, inputs + [input]) == Step(After(s, inputs), input)
    ensures Chunks(inputs + [input]) == Chunks(inputs) + if input.Chunk? then [input.data] else []
    decreases |inputs|
  {
    hide Step, Allowed;
    var longer := inputs + [input];
    if inputs == [] {
      assert longer == [input] && longer[1..] == [];
    } else {
      Extend(Step(s, inputs[0]), inputs[1..], input);
      assert longer[0] == inputs[0] && longer[1..] == inputs[1..] + [input];
    }
  }

  /** The run `inputs`, all smooth, leads from `s` to `now`. */
  predicate Reaches(s: Sys, inputs: seq<Input>, now: Sys) {
    Admissible(s, inputs) && After(s, inputs) == now && forall k :: 0 <= k < |inputs| ==> Smooth(inputs[k])
  }

  lemma ReachesMore(s: Sys, inputs: seq<Input>, now: Sys, input: Input, next: Sys)
    requires Reaches(s, inputs, now) && Allowed(now, input) && Smooth(input) && next == Step(now, input)
    ensures Reaches(s, inputs + [input], next)
    ensures Chunks(inputs + [input]) == Chunks(inputs) + if input.Chunk? then [input.data] else []
  {
    Extend(s, inputs, input);
    hide Admissible, After, Smooth, Allowed, Step;
  }

  lemma RequestGoesOut(s: Sys) returns (inputs: seq<Input>)
    requires s.pc == Test0 && s.rx.flag == 0 && s.i !in s.rx.disk && !s.pending && s.reader == Nothing
    ensures Chunks(inputs) == []
    ensures Reaches(s, inputs, s.(rx := s.rx.(flag := 1, dwName := s.i), pc := EndIter, pending := true,
                                  history := s.history + [Requested(s.i, false)]))
  {
    var r, asked := Run(false), s.rx.(flag := 1, dwName := s.i);
    var s1, s2 := s.(pc := Check), s.(pc := Ask1);
    var s3, s4 := s.(rx := s.rx.(flag := 1), pc := Ask2), s.(rx := asked, pc := Ask3);
    var s5 := s.(rx := asked, pc := EndIter, pending := true, history := s.history + [Requested(s.i, false)]);
    assert Reaches(s, [], s) && Smooth(r);
    assert s1 == Step(s, r) && Allowed(s, r) && s2 == Step(s1, r) && s3 == Step(s2, r);
    assert s4 == Step(s3, r) && s5 == Step(s4, r);
    assert Allowed(s1, r) && Allowed(s2, r) && Allowed(s3, r) && Allowed(s4, r);
    assert Chunks([]) == [];
    hide *;
    ReachesMore(s, [], s, r, s1);
    ReachesMore(s, [] + [r], s1, r, s2);
    ReachesMore(s, [] + [r] + [r], s2, r, s3);
    ReachesMore(s, [] + [r] + [r] + [r], s3, r, s4);
    ReachesMore(s, [] + [r] + [r] + [r] + [r], s4, r, s5);
    inputs := [] + [r] + [r] + [r] + [r] + [r];
  }

  /** Such runs exist: request, header and a file of one piece. */
  lemma OnePieceRun(s: Sys, header: seq<byte>, size: nat, piece: seq<byte>) returns (inputs: seq<Input>)
    requires Inv(s) && s.pc == Test0 && s.rx.flag == 0 && s.i !in s.rx.disk && s.open
    requires Classify(header) == FileRead(size) && |header| <= 1024
    requires Classify(piece) == Content && 0 < size <= |piece| <= 1024
    ensures Admissible(s, inputs) && forall k :: 0 <= k < |inputs| ==> Smooth(inputs[k])
    ensures Chunks(inputs) == [header] + [piece] && After(s, inputs).reader == Nothing
  {
    hide *;
    IdleFacts(s);
    inputs := RequestGoesOut(s);
    var asked := s.(rx := s.rx.(flag := 1, dwName := s.i), pc := EndIter, pending := true,
                    history := s.history + [Requested(s.i, false)]);
    var named := OnChunk(asked, header, Some(|header|));
    HeaderFlows(asked, header, size, named);
    ReachesMore(s, inputs, asked, Chunk(header, Some(|header|)), named);
    inputs := inputs + [Chunk(header, Some(|header|))];
    ReachesMore(s, inputs, named, Resume(true), OnResume(named, true));
    inputs := inputs + [Resume(true)];
    var ready := OnResume(named, true);
    var written := OnChunk(ready, piece, Some(|piece|));
    PieceFlows(ready, piece, written);
    ReachesMore(s, inputs, ready, Chunk(piece, Some(|piece|)), written);
    inputs := inputs + [Chunk(piece, Some(|piece|))];
    ReachesMore(s, inputs, written, Resume(true), OnResume(written, true));
    inputs := inputs + [Resume(true)];
    ReachesIs(s, inputs, OnResume(written, true));
  }

  lemma ReachesIs(s: Sys, inputs: seq<Input>, now: Sys)
    requires Reaches(s, inputs, now)
    ensures Admissible(s, inputs) && After(s, inputs) == now && forall k :: 0 <= k < |inputs| ==> Smooth(inputs[k])
  {
  }

  lemma HeaderFlows(s: Sys, header: seq<byte>, size: nat, named: Sys)
    requires s.open && s.pending && s.reader == Nothing && named == OnChunk(s, header, Some(|header|))
    requires Classify(header) == FileRead(size) && 0 < size <= 1024 && |header| <= 1024
    ensures var input := Chunk(header, Some(|header|));
            Allowed(s, input) && Smooth(input) && named == Step(s, input)
    ensures Allowed(named, Resume(true)) && Smooth(Resume(true)) && OnResume(named, true) == Step(named, Resume(true))
    ensures var ready := OnResume(named, true);
            && ready.open && ready.reader == Nothing && ready.rx.flag == 2 && ready.rx.handle.Open?
            && ready.rx.total == 0 && ready.rx.fileSize == size
  {
    hide Classify;
  }

  lemma PieceFlows(s: Sys, piece: seq<byte>, written: Sys)
    requires s.open && s.reader == Nothing && s.rx.flag == 2 && s.rx.handle.Open? && s.rx.total == 0
    requires Classify(piece) == Content && 0 < s.rx.fileSize <= |piece| <= 1024
    requires written == OnChunk(s, piece, Some(|piece|))
    ensures var input := Chunk(piece, Some(|piece|));
            Allowed(s, input) && Smooth(input) && written == Step(s, input)
    ensures Allowed(written, Resume(true)) && Smooth(Resume(true)) && OnResume(written, true) == Step(written, Resume(true))
    ensures OnResume(written, true).reader == Nothing
  {
    hide Classify;
  }
}
