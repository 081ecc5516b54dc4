/**
 A whole session against a watch that answers every request: what is missing on this side, up to the
 first number that neither side has, is fetched and parsed in order.
 */
module Session {
  import opened Bytes
  import opened ReadComm
  import opened Sync
  import opened FileFetch

  /** A file on the watch: its header and the pieces it is sent in. */
  datatype File = File(header: seq<byte>, size: nat, pieces: seq<seq<byte>>)

  predicate Sendable(file: File) {
    && Classify(file.header) == FileRead(file.size) && 0 < file.size
    && ComesAs(file.pieces, file.size) && AllUntagged(file.pieces)
  }

  /**
   What is on disk and was done before, the files on the watch, its answer to a request for a file it has
   not, and the first number that neither side has.
   */
  datatype Plan = Plan(kept: Folder, history: seq<Event>, watch: map<nat, File>, refusal: seq<byte>, end: nat)

  predicate ToFetch(p: Plan, n: nat) {
    n !in p.kept && n in p.watch
  }

  predicate Fair(p: Plan) {
    && 1 <= p.end < FILE_LIMIT && p.end !in p.kept && p.end !in p.watch && Classify(p.refusal) == FileRead(0)
    && (forall n :: 1 <= n < p.end ==> n in p.kept || n in p.watch)
    && (forall n :: 1 <= n < p.end && n in p.watch ==> Sendable(p.watch[n]))
  }

  /** Disk and history when all before number n is done. */
  function KeptAt(p: Plan, n: nat): Folder {
    if n <= 1 then p.kept
    else if ToFetch(p, n - 1) then KeptAt(p, n - 1)[n - 1 := Flatten(p.watch[n - 1].pieces)]
    else KeptAt(p, n - 1)
  }

  function LogAt(p: Plan, n: nat): seq<Event> {
    if n <= 1 then p.history
    else if ToFetch(p, n - 1) then
      var file := Flatten(p.watch[n - 1].pieces);
      LogAt(p, n - 1) + [Requested(n - 1, false), Spawned(n - 1, n - 1, Some(file), file, p.watch[n - 1].size)]
    else LogAt(p, n - 1)
  }

  /** What the watch sends for number n, and from number n on. */
  function Answer(p: Plan, n: nat): seq<seq<byte>> {
    if n == p.end then [p.refusal]
    else if ToFetch(p, n) then [p.watch[n].header] + p.watch[n].pieces
    else []
  }

  function Feed(p: Plan, n: nat): seq<seq<byte>>
    decreases p.end - n
  {
    if n >= p.end then Answer(p, n) else Answer(p, n) + Feed(p, n + 1)
  }

  function FetchOf(p: Plan, n: nat): Fetch {
    if n in p.watch then Fetch(n, KeptAt(p, n), LogAt(p, n), p.watch[n].size, p.watch[n].pieces)
    else Fetch(n, KeptAt(p, n), LogAt(p, n), 0, [])
  }

  // ------------------------------------------------------------------ stages

  /** The parser was started; the loop is about to go on. */
  predicate Leaving(f: Fetch, s: Sys) {
    && s.rx.flag == 3 && s.history == Fetched(f) && s.kept == f.kept[f.i := Flatten(Untagged(f.pieces))]
    && ((s.pc == Advance1 && s.i == f.i) || (s.pc == Advance2 && s.i == f.i + 1))
  }

  /** The watch has not got the file: the loop is about to end, or has. */
  predicate Refused(f: Fetch, s: Sys) {
    && s.history == Asked(f) && s.kept == f.kept && !s.pending && s.reader == Nothing
    && if s.pc == Stopped then s.rx.flag == 0
       else s.rx.flag == 1 && (s.pc == EndIter || s.pc == Test0 || s.pc == Test2 || s.pc == Test3 || s.pc == Test1 ||
                               s.pc == Finish1 || s.pc == Finish2)
  }

  /** `c` chunks of the file have come. */
  predicate Working(f: Fetch, s: Sys, c: nat) {
    || (c == 0 && Before(f, s))
    || (c > 0 && During(f, s, c - 1))
    || (c == |f.pieces| + 1 && (Ready(f, s) || Leaving(f, s)))
  }

  /** The session has come to number n, and `c` chunks of the answer have come. */
  predicate Stage(p: Plan, s: Sys, n: nat, c: nat) {
    && 1 <= n <= p.end && c <= |Answer(p, n)|
    && if n < p.end && ToFetch(p, n) then Working(FetchOf(p, n), s, c)
       else if c == 0 then Before(FetchOf(p, n), s)
       else Refused(FetchOf(p, n), s)
  }

  /** What is still to come. */
  function Rest(p: Plan, n: nat, c: nat): seq<seq<byte>>
    requires c <= |Answer(p, n)|
  {
    Feed(p, n)[c..]
  }

  // ------------------------------------------------------------------ the plan

  lemma {:induction false} KeptAtHas(p: Plan, n: nat, m: nat)
    requires Fair(p) && 1 <= n <= p.end
    ensures m in KeptAt(p, n) <==> m in p.kept || 1 <= m < n
    ensures m in p.kept ==> KeptAt(p, n)[m] == p.kept[m]
    ensures m !in p.kept && 1 <= m < n ==> KeptAt(p, n)[m] == Flatten(p.watch[m].pieces)
    decreases n
  {
    hide Sendable, Flatten;
    if n == 1 {
    } else {
      KeptAtHas(p, n - 1, m);
    }
  }

  lemma Unharmed(pieces: seq<seq<byte>>)
    requires AllUntagged(pieces)
    ensures Flatten(Untagged(pieces)) == Flatten(pieces)
  {
    hide *;
    assert pieces[..|pieces|] == pieces;
    UntaggedIsLess(pieces, |pieces|);
  }

  /** A file that is done leaves disk and history as the next number finds them. */
  lemma Advances(p: Plan, n: nat)
    requires Fair(p) && 1 <= n < p.end
    ensures ToFetch(p, n) ==>
              && Fetched(FetchOf(p, n)) == LogAt(p, n + 1)
              && KeptAt(p, n + 1) == KeptAt(p, n)[n := Flatten(Untagged(FetchOf(p, n).pieces))]
    ensures !ToFetch(p, n) ==> LogAt(p, n + 1) == LogAt(p, n) && KeptAt(p, n + 1) == KeptAt(p, n)
  {
    if ToFetch(p, n) {
      assert Sendable(p.watch[n]);
      Unharmed(p.watch[n].pieces);
      hide Flatten, Untagged, Sendable;
    }
  }

  lemma FetchIsFetchable(p: Plan, n: nat)
    requires Fair(p) && 1 <= n < p.end && ToFetch(p, n)
    ensures Fetchable(FetchOf(p, n)) && Answer(p, n) == [p.watch[n].header] + FetchOf(p, n).pieces
    ensures Classify(p.watch[n].header) == FileRead(FetchOf(p, n).size)
  {
    KeptAtHas(p, n, n);
    assert Sendable(p.watch[n]);
    hide Fair, ComesAs, Classify, AllUntagged, KeptAt, LogAt;
  }

  /** After the answer for one number comes that for the next. */
  lemma FeedGoesOn(p: Plan, n: nat)
    requires 1 <= n < p.end
    ensures Rest(p, n, |Answer(p, n)|) == Rest(p, n + 1, 0)
  {
    hide Answer;
  }

  /** What comes first for any number is a header. */
  lemma {:induction false} FeedStartsWithHeader(p: Plan, n: nat)
    requires Fair(p) && 1 <= n <= p.end
    ensures Feed(p, n) != [] && Classify(Feed(p, n)[0]).FileRead?
    decreases p.end - n
  {
    hide Classify, ComesAs, AllUntagged;
    if n == p.end || ToFetch(p, n) {
    } else {
      FeedStartsWithHeader(p, n + 1);
      assert [] + Feed(p, n + 1) == Feed(p, n + 1);
    }
  }

  /** A header can only come while one is awaited. */
  lemma HeaderIsAwaited(s: Sys, data: seq<byte>, written: Option<nat>)
    requires Allowed(s, Chunk(data, written)) && Classify(data).FileRead?
    ensures s.pending
  {
    hide Classify;
  }

  // ------------------------------------------------------------------ steps

  lemma NothingPending(p: Plan, s: Sys, n: nat, c: nat)
    requires Inv(s) && Fair(p) && Stage(p, s, n, c) && c == |Answer(p, n)|
    ensures !s.pending
  {
    KeptAtHas(p, n, n);
    hide Logged, Whole, OnDisk, Reading, Fair, KeptAt, LogAt, Flatten, Untagged, Fetched;
  }

  lemma RestHead(p: Plan, n: nat, c: nat)
    requires n <= p.end && c <= |Answer(p, n)|
    ensures c < |Answer(p, n)| ==> Rest(p, n, c) != [] && Rest(p, n, c)[0] == Answer(p, n)[c]
    ensures c < |Answer(p, n)| ==> Rest(p, n, c)[1..] == Rest(p, n, c + 1)
    ensures n == p.end && c == |Answer(p, n)| ==> Rest(p, n, c) == []
  {
    hide Answer;
  }

  lemma ChunkIsOfAnswer(p: Plan, s: Sys, n: nat, c: nat, data: seq<byte>, written: Option<nat>)
    requires Inv(s) && Fair(p) && Stage(p, s, n, c) && Allowed(s, Chunk(data, written))
    requires 1 <= n <= p.end && c <= |Answer(p, n)| && Rest(p, n, c) != [] && data == Rest(p, n, c)[0]
    ensures c < |Answer(p, n)| && data == Answer(p, n)[c] && Rest(p, n, c)[1..] == Rest(p, n, c + 1)
  {
    hide Inv, Allowed, Fair, Classify, Stage, Answer, Feed, Rest;
    RestHead(p, n, c);
    if c == |Answer(p, n)| {
      NothingPending(p, s, n, c);
      NextIsHeader(p, n);
      HeaderIsAwaited(s, data, written);
    }
  }

  lemma NextIsHeader(p: Plan, n: nat)
    requires Fair(p) && 1 <= n < p.end
    ensures Rest(p, n, |Answer(p, n)|) != [] && Classify(Rest(p, n, |Answer(p, n)|)[0]).FileRead?
  {
    hide Classify, Fair, Answer;
    FeedGoesOn(p, n);
    FeedStartsWithHeader(p, n + 1);
  }

  lemma WorkingTakesChunk(f: Fetch, s: Sys, c: nat, header: seq<byte>, data: seq<byte>, written: Option<nat>)
    requires Inv(s) && Allowed(s, Chunk(data, written)) && Working(f, s, c) && Fetchable(f) && written == Some(|data|)
    requires Classify(header) == FileRead(f.size) && c <= |f.pieces| && data == ([header] + f.pieces)[c]
    ensures Working(f, OnChunk(s, data, written), c + 1)
  {
    hide Inv, Allowed, Fetchable, During, Before, Ready, Leaving, Classify;
    if c == 0 {
      HeaderComes(f, s, header, written);
    } else {
      PieceComes(f, s, c - 1, written);
    }
  }

  lemma RefusalComes(f: Fetch, s: Sys, data: seq<byte>, written: Option<nat>)
    requires Inv(s) && Allowed(s, Chunk(data, written)) && Before(f, s) && Classify(data) == FileRead(0)
    ensures Refused(f, OnChunk(s, data, written))
  {
    hide Logged, Whole, Reading, OnDisk, Classify;
  }

  lemma StageTakesChunk(p: Plan, s: Sys, n: nat, c: nat, data: seq<byte>, written: Option<nat>)
    requires Inv(s) && Fair(p) && Stage(p, s, n, c) && Allowed(s, Chunk(data, written)) && written == Some(|data|)
    requires c < |Answer(p, n)| && data == Answer(p, n)[c]
    ensures Stage(p, OnChunk(s, data, written), n, c + 1)
  {
    hide Inv, Allowed, Fair, Classify, Working, Before, Refused, OnChunk;
    if n < p.end && ToFetch(p, n) {
      FetchIsFetchable(p, n);
      WorkingTakesChunk(FetchOf(p, n), s, c, p.watch[n].header, data, written);
    } else {
      assert n == p.end && c == 0;
      assert Classify(p.refusal) == FileRead(0) by { PlanRefuses(p); }
      RefusalComes(FetchOf(p, n), s, data, written);
    }
  }

  lemma PlanRefuses(p: Plan)
    requires Fair(p)
    ensures Classify(p.refusal) == FileRead(0) && p.end !in p.kept && p.end !in p.watch && p.end < FILE_LIMIT
  {
    hide Classify;
  }

  lemma WorkingResumes(f: Fetch, s: Sys, c: nat)
    requires Inv(s) && s.reader != Nothing && Working(f, s, c) && Fetchable(f)
    ensures Working(f, OnResume(s, true), c)
  {
    if c > 0 && During(f, s, c - 1) {
      if s.reader == CloseFile {
        LastPieceClosed(f, s, c - 1);
      } else {
        hide Logged, Whole, Waiting, ComesAs, Flatten;
      }
    } else {
      ReadyIsIdle(f, s);
      hide Logged, Whole, Waiting, OnDisk, Flatten, Fetched;
    }
  }

  lemma StageResumes(p: Plan, s: Sys, n: nat, c: nat)
    requires Inv(s) && Fair(p) && Stage(p, s, n, c) && s.reader != Nothing
    ensures Stage(p, OnResume(s, true), n, c)
  {
    hide Inv, Fair, Working, OnResume;
    if n < p.end && ToFetch(p, n) {
      FetchIsFetchable(p, n);
      WorkingResumes(FetchOf(p, n), s, c);
    }
  }

  // ------------------------------------------------------------------ steps of the loop

  lemma ReadyLeaves(f: Fetch, s: Sys)
    requires Inv(s) && Ready(f, s) && Fetchable(f)
    ensures if s.pc == Test3 then Leaving(f, OnRun(s, false)) else Ready(f, OnRun(s, false))
  {
    assert s.rx.disk == s.kept && s.rx.dwName == s.i && s.kept[s.i] == s.got;
    hide Logged, Reading, ComesAs, Flatten;
  }

  lemma WorkingRuns(f: Fetch, s: Sys, c: nat)
    requires Inv(s) && Allowed(s, Run(false)) && Working(f, s, c) && Fetchable(f) && s.pc != Advance2
    ensures Working(f, OnRun(s, false), c)
  {
    hide Inv, Allowed, ComesAs, Wanted, During, Before, Ready;
    if c == 0 && Before(f, s) {
      BeforeRuns(f, s);
    } else if c > 0 && During(f, s, c - 1) {
      DuringRuns(f, s, c - 1);
    } else if Ready(f, s) {
      ReadyLeaves(f, s);
    } else {
      hide Fetched, Flatten;
    }
  }

  /** The loop clears flag: the next number is up. */
  lemma LeavesForNext(f: Fetch, s: Sys, next: Fetch)
    requires Inv(s) && Leaving(f, s) && s.pc == Advance2
    requires next.i == f.i + 1 && next.history == Fetched(f) && next.kept == f.kept[f.i := Flatten(Untagged(f.pieces))]
    ensures Before(next, OnRun(s, false))
  {
    hide Logged, Whole, OnDisk, Flatten, Untagged, Fetched;
  }

  /** What is on disk already is passed over. */
  lemma PresentRuns(f: Fetch, s: Sys, next: Fetch)
    requires Inv(s) && Allowed(s, Run(false)) && Before(f, s) && f.i in f.kept && f.i + 1 < FILE_LIMIT
    requires next.i == f.i + 1 && next.history == f.history && next.kept == f.kept
    ensures if s.pc == Check then Before(next, OnRun(s, false)) else Before(f, OnRun(s, false))
  {
    assert s.rx.disk == s.kept;
    hide Logged, Whole, Reading, OnDisk;
  }

  lemma RefusedRuns(f: Fetch, s: Sys)
    requires Inv(s) && Allowed(s, Run(false)) && Refused(f, s)
    ensures Refused(f, OnRun(s, false))
  {
    hide Logged, Whole, Waiting, Reading, OnDisk;
  }

  lemma NextBegins(p: Plan, s: Sys, n: nat)
    requires 1 <= n <= p.end && Before(FetchOf(p, n), s)
    ensures Stage(p, s, n, 0)
  {
    hide Before, FetchOf;
  }

  lemma OnlyLeavingAdvances(f: Fetch, s: Sys, c: nat)
    requires Inv(s) && Working(f, s, c) && s.pc == Advance2
    ensures Leaving(f, s) && c == |f.pieces| + 1
  {
    hide Logged, Whole, OnDisk, Flatten, Untagged, Fetched;
  }

  lemma FetchStageRuns(p: Plan, s: Sys, n: nat, c: nat)
    requires Inv(s) && Fair(p) && Allowed(s, Run(false))
    requires 1 <= n < p.end && ToFetch(p, n) && c <= |Answer(p, n)| && Working(FetchOf(p, n), s, c)
    ensures || Working(FetchOf(p, n), OnRun(s, false), c)
            || (c == |Answer(p, n)| && Stage(p, OnRun(s, false), n + 1, 0))
  {
    hide Inv, Fair, Allowed, Working, Leaving, Before, Fetchable, Fetched, Flatten, Untagged, KeptAt, LogAt, OnRun, Stage;
    FetchIsFetchable(p, n);
    if s.pc == Advance2 {
      OnlyLeavingAdvances(FetchOf(p, n), s, c);
      Advances(p, n);
      LeavesForNext(FetchOf(p, n), s, FetchOf(p, n + 1));
      NextBegins(p, OnRun(s, false), n + 1);
    } else {
      WorkingRuns(FetchOf(p, n), s, c);
    }
  }

  lemma PresentStageRuns(p: Plan, s: Sys, n: nat)
    requires Inv(s) && Fair(p) && Allowed(s, Run(false)) && 1 <= n < p.end && !ToFetch(p, n) && Before(FetchOf(p, n), s)
    ensures Before(FetchOf(p, n), OnRun(s, false)) || Stage(p, OnRun(s, false), n + 1, 0)
  {
    hide Inv, Allowed, Before, KeptAt, LogAt, OnRun, Stage, Sendable, Flatten;
    Advances(p, n);
    KeptAtHas(p, n, n);
    PresentRuns(FetchOf(p, n), s, FetchOf(p, n + 1));
    if s.pc == Check {
      NextBegins(p, OnRun(s, false), n + 1);
    }
  }

  lemma LastStageRuns(p: Plan, s: Sys, c: nat)
    requires Inv(s) && Fair(p) && Allowed(s, Run(false)) && Stage(p, s, p.end, c)
    ensures Stage(p, OnRun(s, false), p.end, c)
  {
    hide Inv, Allowed, Fair, Before, Refused, KeptAt, LogAt, OnRun;
    if c == 0 {
      PlanRefuses(p);
      EndIsWanted(p);
      BeforeRuns(FetchOf(p, p.end), s);
    } else {
      RefusedRuns(FetchOf(p, p.end), s);
    }
  }

  lemma EndIsWanted(p: Plan)
    requires Fair(p)
    ensures Wanted(FetchOf(p, p.end))
  {
    KeptAtHas(p, p.end, p.end);
    hide Sendable, Classify, KeptAt, LogAt;
  }

  /** One step of the loop: the stage stays, or number n is done. */
  lemma StageRuns(p: Plan, s: Sys, n: nat, c: nat)
    requires Inv(s) && Fair(p) && Stage(p, s, n, c) && Allowed(s, Run(false))
    ensures || Stage(p, OnRun(s, false), n, c)
            || (n < p.end && c == |Answer(p, n)| && Stage(p, OnRun(s, false), n + 1, 0))
  {
    hide Inv, Fair, Allowed, Working, Before, Refused, OnRun, FetchOf;
    if n == p.end {
      LastStageRuns(p, s, c);
    } else if ToFetch(p, n) {
      FetchStageRuns(p, s, n, c);
    } else {
      PresentStageRuns(p, s, n);
    }
  }

  // ------------------------------------------------------------------ whole sessions

  /** After a step, where the session is and what is still to come. */
  lemma SessionStep(p: Plan, s: Sys, n: nat, c: nat, input: Input) returns (n': nat, c': nat)
    requires Inv(s) && Fair(p) && Stage(p, s, n, c) && Allowed(s, input) && Smooth(input)
    requires 1 <= n <= p.end && c <= |Answer(p, n)|
    requires input.Chunk? ==> Rest(p, n, c) != [] && input.data == Rest(p, n, c)[0]
    ensures 1 <= n' <= p.end && c' <= |Answer(p, n')| && Stage(p, Step(s, input), n', c')
    ensures Rest(p, n', c') == if input.Chunk? then Rest(p, n, c)[1..] else Rest(p, n, c)
    ensures n' == n + 1 || (n' == n && c' == if input.Chunk? then c + 1 else c)
  {
    n', c' := n, c;
    hide Inv, Fair, Stage, Answer, Rest, Classify, OnRun, OnChunk, OnResume;
    match input
    case Run(gone) =>
      StageRuns(p, s, n, c);
      if !Stage(p, OnRun(s, false), n, c) {
        n', c' := n + 1, 0;
        FeedGoesOn(p, n);
      }
    case Resume(created) => StageResumes(p, s, n, c);
    case Chunk(data, written) =>
      ChunkIsOfAnswer(p, s, n, c, data, written);
      StageTakesChunk(p, s, n, c, data, written);
      c' := c + 1;
  }

  lemma RunHead(s: Sys, inputs: seq<Input>)
    requires inputs != [] && Admissible(s, inputs)
    ensures Allowed(s, inputs[0]) && Admissible(Step(s, inputs[0]), inputs[1..])
    ensures After(s, inputs) == After(Step(s, inputs[0]), inputs[1..])
    ensures Chunks(inputs) == (if inputs[0].Chunk? then [inputs[0].data] else []) + Chunks(inputs[1..])
  {
    hide Allowed, Step;
  }

  lemma PrefixHead<T>(first: T, some: seq<T>, all: seq<T>)
    requires [first] + some <= all
    ensures all != [] && all[0] == first && some <= all[1..]
    ensures forall rest :: all[1..] == some + rest ==> all == [first] + some + rest
  {
    assert all == [all[0]] + all[1..];
  }

  lemma {:induction false} SessionGoesOn(p: Plan, s: Sys, n: nat, c: nat, inputs: seq<Input>) returns (n': nat, c': nat)
    requires Inv(s) && Fair(p) && Stage(p, s, n, c) && 1 <= n <= p.end && c <= |Answer(p, n)|
    requires Admissible(s, inputs) && forall k :: 0 <= k < |inputs| ==> Smooth(inputs[k])
    requires Chunks(inputs) <= Rest(p, n, c)
    ensures Inv(After(s, inputs)) && 1 <= n' <= p.end && c' <= |Answer(p, n')| && Stage(p, After(s, inputs), n', c')
    ensures Rest(p, n, c) == Chunks(inputs) + Rest(p, n', c')
    decreases |inputs|
  {
    if inputs == [] {
      n', c' := n, c;
      hide Inv, Fair, Stage, Answer, Rest;
    } else {
      hide *;
      RunHead(s, inputs);
      if inputs[0].Chunk? {
        PrefixHead(inputs[0].data, Chunks(inputs[1..]), Rest(p, n, c));
      }
      StepKeeps(s, inputs[0]);
      n', c' := SessionStep(p, s, n, c, inputs[0]);
      n', c' := SessionGoesOn(p, Step(s, inputs[0]), n', c', inputs[1..]);
    }
  }

  /** The plan of a session that starts in `s`. */
  predicate Begins(p: Plan, s: Sys) {
    Fair(p) && Inv(s) && s.pc == Stopped && p.kept == s.rx.disk && p.history == s.history
  }

  lemma SessionBegins(p: Plan, s: Sys)
    requires Begins(p, s)
    ensures Allowed(s, Start) && Inv(Step(s, Start)) && Stage(p, Step(s, Start), 1, 0)
    ensures Rest(p, 1, 0) == Feed(p, 1) && 1 <= p.end
  {
    StepKeeps(s, Start);
    hide Fair, Logged, Whole;
  }

  lemma SessionEnds(p: Plan, s: Sys, n: nat, c: nat)
    requires Inv(s) && Fair(p) && Stage(p, s, n, c) && s.pc == Stopped
    ensures n == p.end && c == |Answer(p, n)| && Rest(p, n, c) == []
    ensures s.history == LogAt(p, p.end) + [Requested(p.end, false)] && s.rx.disk == KeptAt(p, p.end)
  {
    hide Logged, Whole, Fair, LogAt, KeptAt, Flatten, Untagged, Fetched;
  }

  /**
   Every admissible, smooth interleaving of the loop with a watch that answers each request: a session that
   ends has taken all that was sent; it has asked for and parsed just the numbers missing here, in order and
   each once, and last asked for the first number that neither side has; every number before that is on
   disk, octet for octet as the watch sent it or as it was before.
   */
  lemma SessionFetchesAll(p: Plan, s: Sys, inputs: seq<Input>)
    requires Begins(p, s) && Allowed(s, Start) && Admissible(Step(s, Start), inputs)
    requires (forall k :: 0 <= k < |inputs| ==> Smooth(inputs[k])) && Chunks(inputs) <= Feed(p, 1)
    requires After(Step(s, Start), inputs).pc == Stopped
    ensures var end := After(Step(s, Start), inputs);
            && Chunks(inputs) == Feed(p, 1)
            && end.history == LogAt(p, p.end) + [Requested(p.end, false)]
            && (forall n: nat :: n in end.rx.disk <==> n in s.rx.disk || 1 <= n < p.end)
            && (forall n :: n in s.rx.disk ==> end.rx.disk[n] == s.rx.disk[n])
            && (forall n :: 1 <= n < p.end && n !in s.rx.disk ==> end.rx.disk[n] == Flatten(p.watch[n].pieces))
  {
    var begun, end := Step(s, Start), After(Step(s, Start), inputs);
    assert Fair(p) && p.kept == s.rx.disk by { hide Fair, Inv; }
    hide *;
    SessionBegins(p, s);
    var n, c := SessionGoesOn(p, begun, 1, 0, inputs);
    SessionEnds(p, end, n, c);
    forall m: nat
      ensures m in end.rx.disk <==> m in s.rx.disk || 1 <= m < p.end
      ensures m in s.rx.disk ==> end.rx.disk[m] == s.rx.disk[m]
      ensures 1 <= m < p.end && m !in s.rx.disk ==> end.rx.disk[m] == Flatten(p.watch[m].pieces)
    {
      KeptAtHas(p, p.end, m);
    }
  }

  // ------------------------------------------------------------------ there are such sessions

  /** Every chunk fits the buffer of the reader thread, every size a long. */
  predicate Deliverable(p: Plan) {
    && |p.refusal| <= 1024
    && (forall n :: n in p.watch ==> |p.watch[n].header| <= 1024 && p.watch[n].size <= LONG_MAX)
    && (forall n, k :: n in p.watch && 0 <= k < |p.watch[n].pieces| ==> |p.watch[n].pieces[k]| <= 1024)
  }

  /** How far the loop is from the next chunk or its end. */
  function Distance(pc: Pc): nat {
    match pc
    case EndIter => 13
    case Test0 => 12
    case Check => 11
    case Ask1 => 10
    case Ask2 => 9
    case Ask3 => 8
    case Test2 => 7
    case Test3 => 6
    case Advance1 => 5
    case Advance2 => 4
    case Test1 => 3
    case Finish1 => 2
    case Finish2 => 1
    case Stopped => 0
    case Crashed => 0
  }

  function Countdown(s: Sys): nat {
    (if s.reader != Nothing then 20 else 0) + (if s.pending then 0 else Distance(s.pc))
  }

  /** What may come next: the reader ends its chunk, the next chunk comes, or the loop goes on. */
  function Next(p: Plan, s: Sys, n: nat, c: nat): Input
    requires c <= |Answer(p, n)|
  {
    if s.reader != Nothing then Resume(true)
    else if (s.pending || s.rx.flag == 2) && Rest(p, n, c) != [] then Chunk(Rest(p, n, c)[0], Some(|Rest(p, n, c)[0]|))
    else Run(false)
  }

  lemma RunCountsDown(p: Plan, s: Sys, n: nat, c: nat)
    requires Inv(s) && Stage(p, s, n, c) && s.pc != Stopped && !s.pending && s.rx.flag != 2
    requires Stage(p, OnRun(s, false), n, c)
    ensures Countdown(OnRun(s, false)) < Countdown(s)
  {
    hide Logged, Whole, OnDisk, LogAt, KeptAt, Flatten, Untagged, Fetched, Asked;
  }

  lemma ResumeCountsDown(s: Sys)
    requires s.reader != Nothing
    ensures Countdown(OnResume(s, true)) < Countdown(s)
  {
  }

  /** A chunk is awaited while there is one. */
  lemma AwaitedIsThere(p: Plan, s: Sys, n: nat, c: nat)
    requires Inv(s) && Fair(p) && Stage(p, s, n, c) && s.reader == Nothing && (s.pending || s.rx.flag == 2)
    ensures c < |Answer(p, n)|
    ensures if s.pending then c == 0 else n < p.end && ToFetch(p, n) && c > 0
  {
    if c == |Answer(p, n)| {
      NothingPending(p, s, n, c);
      if n < p.end && ToFetch(p, n) {
        FetchIsFetchable(p, n);
        AllCame(FetchOf(p, n), s, c);
      }
    }
    hide Logged, Whole, OnDisk, Reading, Fair, LogAt, KeptAt, Flatten, Untagged, Fetched;
  }

  /** When all pieces have come the file is no longer being written. */
  lemma AllCame(f: Fetch, s: Sys, c: nat)
    requires Inv(s) && s.reader == Nothing && Fetchable(f) && Working(f, s, c) && c == |f.pieces| + 1
    requires AllUntagged(f.pieces)
    ensures s.rx.flag != 2
  {
    if During(f, s, c - 1) {
      Unharmed(f.pieces);
      FetchEnds(f, s);
    }
  }

  lemma ChunkIsAllowed(p: Plan, s: Sys, n: nat, c: nat)
    requires Inv(s) && Fair(p) && Deliverable(p) && Stage(p, s, n, c) && s.open && s.reader == Nothing
    requires c < |Answer(p, n)| && if s.pending then c == 0 else n < p.end && ToFetch(p, n) && c > 0
    ensures var data := Answer(p, n)[c]; Allowed(s, Chunk(data, Some(|data|)))
  {
    hide Inv, Classify, Working, Before, Refused, LogAt, KeptAt, ComesAs;
  }

  /** What may come next is allowed, and is a chunk only if that is the one the watch sends. */
  lemma NextIsAllowed(p: Plan, s: Sys, n: nat, c: nat)
    requires Inv(s) && Fair(p) && Deliverable(p) && Stage(p, s, n, c) && s.open && c <= |Answer(p, n)|
    ensures Allowed(s, Next(p, s, n, c)) && Smooth(Next(p, s, n, c))
    ensures var input := Next(p, s, n, c);
            && (input.Chunk? ==> c < |Answer(p, n)| && Rest(p, n, c) != [] && input.data == Rest(p, n, c)[0])
            && (input.Run? ==> !s.pending && s.rx.flag != 2)
            && (input.Resume? ==> s.reader != Nothing)
  {
    if s.reader == Nothing && (s.pending || s.rx.flag == 2) {
      AwaitedIsThere(p, s, n, c);
      assert n <= p.end;
      RestHead(p, n, c);
      ChunkIsAllowed(p, s, n, c);
    }
    hide Inv, Fair, Deliverable, Stage, Answer, Feed, Rest, Classify;
  }

  lemma SmoothKeepsOpen(s: Sys, input: Input)
    requires s.open && Smooth(input) && Allowed(s, input)
    ensures Step(s, input).open
  {
    hide Classify, Starts, Ends, AfterDelete;
  }

  lemma RunCons(s: Sys, input: Input, inputs: seq<Input>)
    requires Allowed(s, input) && Smooth(input) && Admissible(Step(s, input), inputs)
    requires forall k :: 0 <= k < |inputs| ==> Smooth(inputs[k])
    ensures var longer := [input] + inputs;
            && Admissible(s, longer) && After(s, longer) == After(Step(s, input), inputs)
            && (forall k :: 0 <= k < |longer| ==> Smooth(longer[k]))
            && Chunks(longer) == (if input.Chunk? then [input.data] else []) + Chunks(inputs)
  {
    hide Allowed, Step, Smooth;
    var longer := [input] + inputs;
    assert longer[0] == input && longer[1..] == inputs;
  }

  /** Without a chunk and without a new number, such a step comes nearer to the end. */
  lemma NextIsNearer(p: Plan, s: Sys, n: nat, c: nat)
    requires Inv(s) && Fair(p) && Deliverable(p) && Stage(p, s, n, c) && s.open && s.pc != Stopped
    requires c <= |Answer(p, n)| && !Next(p, s, n, c).Chunk?
    requires Allowed(s, Next(p, s, n, c)) && Stage(p, Step(s, Next(p, s, n, c)), n, c)
    ensures Countdown(Step(s, Next(p, s, n, c))) < Countdown(s)
  {
    NextIsAllowed(p, s, n, c);
    hide Inv, Fair, Deliverable, Stage, Answer, Rest, Classify, Countdown, OnRun, OnChunk, OnResume;
    if Next(p, s, n, c).Run? {
      RunCountsDown(p, s, n, c);
    } else {
      ResumeCountsDown(s);
    }
  }

  lemma {:induction false} SessionCanEnd(p: Plan, s: Sys, n: nat, c: nat) returns (inputs: seq<Input>)
    requires Inv(s) && Fair(p) && Deliverable(p) && Stage(p, s, n, c) && s.open && 1 <= n <= p.end && c <= |Answer(p, n)|
    ensures Admissible(s, inputs) && (forall k :: 0 <= k < |inputs| ==> Smooth(inputs[k]))
    ensures Chunks(inputs) <= Rest(p, n, c) && After(s, inputs).pc == Stopped
    decreases p.end - n, |Answer(p, n)| - c, Countdown(s)
  {
    if s.pc == Stopped {
      inputs := [];
    } else {
      hide *;
      var input := Next(p, s, n, c);
      NextIsAllowed(p, s, n, c);
      StepKeeps(s, input);
      SmoothKeepsOpen(s, input);
      var n', c' := SessionStep(p, s, n, c, input);
      if n' == n && !input.Chunk? {
        NextIsNearer(p, s, n, c);
      }
      var rest := SessionCanEnd(p, Step(s, input), n', c');
      RunCons(s, input, rest);
      if input.Chunk? {
        PrefixCons(Rest(p, n, c), Chunks(rest));
      }
      inputs := [input] + rest;
    }
  }

  lemma PrefixCons<T>(all: seq<T>, some: seq<T>)
    requires all != [] && some <= all[1..]
    ensures [all[0]] + some <= all
  {
    assert all == [all[0]] + all[1..];
  }

  lemma {:induction false} OpenStays(s: Sys, inputs: seq<Input>)
    requires s.open && Admissible(s, inputs) && forall k :: 0 <= k < |inputs| ==> Smooth(inputs[k])
    ensures After(s, inputs).open
    decreases |inputs|
  {
    hide Allowed, Step, Smooth;
    if inputs == [] {
    } else {
      SmoothKeepsOpen(s, inputs[0]);
      OpenStays(Step(s, inputs[0]), inputs[1..]);
    }
  }

  /** Against every such watch, wherever a session is, it can go on to its end. */
  lemma SessionsNeverStick(p: Plan, s: Sys, inputs: seq<Input>) returns (more: seq<Input>)
    requires Begins(p, s) && Deliverable(p) && Allowed(s, Start) && Admissible(Step(s, Start), inputs)
    requires (forall k :: 0 <= k < |inputs| ==> Smooth(inputs[k])) && Chunks(inputs) <= Feed(p, 1)
    ensures var now := After(Step(s, Start), inputs);
            && Admissible(now, more) && (forall k :: 0 <= k < |more| ==> Smooth(more[k]))
            && Chunks(inputs) + Chunks(more) <= Feed(p, 1) && After(now, more).pc == Stopped
  {
    assert Fair(p) by { hide Inv, Fair; }
    assert Step(s, Start).open by { hide Fair, Inv; }
    hide *;
    SessionBegins(p, s);
    OpenStays(Step(s, Start), inputs);
    var n, c := SessionGoesOn(p, Step(s, Start), 1, 0, inputs);
    more := SessionCanEnd(p, After(Step(s, Start), inputs), n, c);
  }
}
