// What the parallel scan promises: without a slice it is the sequential scan;
// with one the predicate is applied to the rows of all workers together.
module ParallelLaws {
  import opened Text
  import opened Utf8
  import opened LogfmtParser
  import opened SchemaProbe
  import opened Table
  import opened Chunks
  import opened FrameCutting
  import opened FrameLines
  import opened RowBudget
  import opened FirstRows
  import opened SequentialScan
  import opened SequentialLaws
  import opened BatchLaws
  import opened UniformScan
  import opened WorkerFrames
  import opened ParallelScan
  import opened FileOrder

  // ---- one attempt on lines that are all alike

  ghost predicate PartFrames(q: Query, keys: set<Key>, lists: seq<seq<Line>>, frames: seq<Frame>) {
    && |frames| == |lists|
    && forall w :: 0 <= w < |frames| ==>
         frames[w] == var part := PartOf(q, keys, lists[w]);
                      if part == [] then EMPTY else Frame(PartFields(q, keys), part)
  }

  lemma CombineParts(q: Query, keys: set<Key>, lists: seq<seq<Line>>, frames: seq<Frame>)
    requires PartFrames(q, keys, lists, frames)
    ensures
      var all := PartOf(q, keys, Flatten(lists));
      Combine(q, frames)
      == (if all == [] then Ok(None)
          else
            var whole := Frame(PartFields(q, keys), all);
            var out := if q.limit.Some? then Pushdown(whole, q.pred, q.columns) else Ok(whole);
            if out.Err? then Err else Ok(Some(out.value)))
  {
    hide PartOf, PartFields, Pushdown, StackAll, Filter, Flatten;
    PartsJoin(q, keys, lists);
    StackParts(PartFields(q, keys), PartsOf(q, keys, lists), frames);
  }

  // What the lines that were pushed come to.
  function Gathered(q: Query, keys: set<Key>, lines: seq<Line>): Result<Frame> {
    UniformFrame(q, RowsOf(q, lines), keys)
  }

  lemma CombineAlike(q: Query, keys: set<Key>, lists: seq<seq<Line>>, frames: seq<Frame>)
    requires q.aligned && keys != {} && AllAlike(q, keys, Flatten(lists))
    requires PartFrames(q, keys, lists, frames)
    requires q.limit.None? && Flatten(lists) != [] ==> CanPush(q, keys)
    ensures
      var joined := Flatten(lists);
      || Combine(q, frames) == Ok(None)
      || (joined != []
          && (q.limit.None? && Gathered(q, keys, joined).Ok? ==> Gathered(q, keys, joined).value.rows != [])
          && Combine(q, frames) == var f := Gathered(q, keys, joined); if f.Err? then Err else Ok(Some(f.value)))
  {
    hide Combine, Pushdown, Flatten, AllAlike, OutRows, RowOf, CellRow, CanPush, KeysOf, OutKeys, FieldsFor, RowsOf;
    var joined := Flatten(lists);
    CombineParts(q, keys, lists, frames);
    if joined == [] {
      NoLinesNoPart(q, keys);
    } else {
      AlikeFrame(q, keys, joined);
      PartIs(q, keys, joined);
    }
  }

  // The outcome of one worker whose lines are alike.
  lemma AlikeOutcome(q: Query, keys: set<Key>, k: Worker<Line>, handle: bool)
    requires q.aligned && keys != {} && AllAlike(q, keys, k.pushed)
    ensures
      var o := OutcomeOf(q, k, handle);
      && (o.Failed? ==>
            || (handle && k.phase.Broken?)
            || (q.limit.None? && k.pushed != [] && !CanPush(q, keys)))
      && (o.Made? ==>
            && !k.phase.Broken?
            && (q.limit.None? && k.pushed != [] ==> CanPush(q, keys))
            && o.frame == (var part := PartOf(q, keys, k.pushed);
                           if part == [] then EMPTY else Frame(PartFields(q, keys), part)))
      && (handle && k.phase.Broken? ==> o.Failed?)
  {
    hide WorkerFrame, PartOf, PartFields, CanPush, AllAlike;
    AlikeWorker(q, keys, k.pushed);
  }

  lemma {:induction false} FlattenSome<T>(lists: seq<seq<T>>)
    ensures Flatten(lists) != [] ==> exists w :: 0 <= w < |lists| && lists[w] != []
  {
    if Flatten(lists) != [] {
      var b := LastBusy(lists);
    }
  }

  // The lines the workers pushed, for an attempt on an alike text.
  lemma AlikePushed(q: Query, keys: set<Key>, texts: seq<Bytes>, threads: nat, text: Bytes, run: seq<State<Line>>)
    requires q.aligned && threads > 0 && LinesOfAll(texts) == Lines(text) && TextAlike(q, keys, text)
    requires IsRun(JobOf(q, texts, threads), run) && Finished(run[|run| - 1])
    ensures
      var s := run[|run| - 1];
      && ChunksNonEmpty(JobOf(q, texts, threads))
      && AllAlike(q, keys, Joined(s))
      && forall w :: 0 <= w < |s.workers| ==> AllAlike(q, keys, s.workers[w].pushed)
  {
    hide Flatten, Filter, Lines, ChunksOf, IsRun, Alike, AcceptedOf, AcceptedLists, TextAlike;
    RunIsNotEmpty(JobOf(q, texts, threads), run);
    var job, s := JobOf(q, texts, threads), run[|run| - 1];
    JobAccepts(q, texts, threads, text);
    AlikeJob(q, keys, texts, threads, text);
    FinishedRunFillsSlice(job, run);
    AcceptedInOrder(q, texts, threads);
    AcceptedListsAre(job);
    PrefixesInOrder(AcceptedLists(job), PushedLists(s));
    var joined, all := Joined(s), AllAccepted(job);
    forall i | 0 <= i < |joined|
      ensures Alike(q, keys, joined[i].text)
    {
      assert joined[i] in joined;
      assert joined[i] in all;
      var k :| 0 <= k < |all| && all[k] == joined[i];
    }
    forall w | 0 <= w < |s.workers|
      ensures AllAlike(q, keys, s.workers[w].pushed)
    {
      AlikeList(q, keys, PushedLists(s), w);
    }
  }

  lemma AcceptedListsAre(job: Job<Line>)
    ensures |AcceptedLists(job)| == |job.chunks|
    ensures forall w :: 0 <= w < |job.chunks| ==> AcceptedLists(job)[w] == AcceptedOf(job, w)
  {
  }

  // What an attempt on an alike text comes to: a fallback, an error that a
  // worker met, or what the joined lines come to.
  ghost predicate ComesTo(q: Query, keys: set<Key>, s: State<Line>, handles: seq<bool>, r: Result<Option<Frame>>)
    requires |handles| == |s.workers|
  {
    var joined := Joined(s);
    || r == Ok(None)
    || (r == Err && MetBadLine(s, handles))
    || (r == Err && q.limit.None? && joined != [] && !CanPush(q, keys))
    || (!MetBadLine(s, handles) && NoneBroken(s) && joined != []
        && (q.limit.None? && Gathered(q, keys, joined).Ok? ==> Gathered(q, keys, joined).value.rows != [])
        && r == (var f := Gathered(q, keys, joined); if f.Err? then Err else Ok(Some(f.value))))
  }

  lemma AlikeAttempt(q: Query, keys: set<Key>, texts: seq<Bytes>, threads: nat, text: Bytes,
                     run: seq<State<Line>>, handles: seq<bool>, r: Result<Option<Frame>>)
    requires q.aligned && threads > 0 && LinesOfAll(texts) == Lines(text) && TextAlike(q, keys, text)
    requires Attempt(q, texts, threads, run, handles, r)
    ensures run != [] && |handles| == |run[|run| - 1].workers|
    ensures ComesTo(q, keys, run[|run| - 1], handles, r)
    ensures MetBadLine(run[|run| - 1], handles) ==> r == Err || r == Ok(None)
  {
    hide Flatten, Filter, Lines, JobOf, IsRun, AllAlike, TextAlike, WellFormed, Finished, CanPush, Combine,
      OutcomeOf, PartOf, PartFields, Gathered;
    RunIsNotEmpty(JobOf(q, texts, threads), run);
    var job, s := JobOf(q, texts, threads), run[|run| - 1];
    var lists, outcomes := PushedLists(s), OutcomesOf(q, s, handles);
    AlikePushed(q, keys, texts, threads, text, run);
    KeysNotEmpty(q, keys, text);
    forall w | 0 <= w < |outcomes|
      ensures outcomes[w].Failed? ==>
                (handles[w] && s.workers[w].phase.Broken?)
                || (q.limit.None? && Joined(s) != [] && !CanPush(q, keys))
      ensures handles[w] && s.workers[w].phase.Broken? ==> outcomes[w].Failed? && outcomes[w] in outcomes
      ensures outcomes[w].Made? ==>
                && !s.workers[w].phase.Broken?
                && (q.limit.None? && lists[w] != [] ==> CanPush(q, keys))
                && outcomes[w].frame == (var part := PartOf(q, keys, lists[w]);
                                         if part == [] then EMPTY else Frame(PartFields(q, keys), part))
    {
      AlikeOutcome(q, keys, s.workers[w], handles[w]);
      PartNotEmpty(lists, w);
    }
    if forall w :: 0 <= w < |outcomes| ==> outcomes[w].Made? {
      FlattenSome(lists);
      CombineAlike(q, keys, lists, FramesIn(outcomes));
      GatheredErr(q, keys, Joined(s));
    }
  }

  // With a handle for every worker the scan falls back only if no line stopped
  // one and the lines that were pushed give no row; without a slice, the
  // pushdown is then possible if there are such lines.
  lemma FallbackMeansNoRows(q: Query, keys: set<Key>, texts: seq<Bytes>, threads: nat, text: Bytes,
                            run: seq<State<Line>>, handles: seq<bool>, r: Result<Option<Frame>>)
    requires q.aligned && threads > 0 && LinesOfAll(texts) == Lines(text) && TextAlike(q, keys, text)
    requires Attempt(q, texts, threads, run, handles, r) && AllTrue(handles) && r == Ok(None)
    ensures run != [] && NoneBroken(run[|run| - 1]) && PartOf(q, keys, Joined(run[|run| - 1])) == []
    ensures q.limit.None? && Joined(run[|run| - 1]) != [] ==> CanPush(q, keys)
  {
    hide Flatten, Filter, Lines, JobOf, IsRun, AllAlike, TextAlike, Finished, CanPush, Combine, PartOf, PartFields,
      WorkerFrame, Pushdown;
    RunIsNotEmpty(JobOf(q, texts, threads), run);
    var s := run[|run| - 1];
    var lists, outcomes := PushedLists(s), OutcomesOf(q, s, handles);
    AlikePushed(q, keys, texts, threads, text, run);
    KeysNotEmpty(q, keys, text);
    forall w | 0 <= w < |outcomes|
      ensures !outcomes[w].NoHandle?
      ensures outcomes[w].Made? ==>
                && !s.workers[w].phase.Broken?
                && (q.limit.None? && lists[w] != [] ==> CanPush(q, keys))
                && outcomes[w].frame == (var part := PartOf(q, keys, lists[w]);
                                         if part == [] then EMPTY else Frame(PartFields(q, keys), part))
    {
      AlikeOutcome(q, keys, s.workers[w], handles[w]);
    }
    FlattenSome(lists);
    CombineParts(q, keys, lists, FramesIn(outcomes));
  }

  lemma PartNotEmpty<T>(lists: seq<seq<T>>, w: nat)
    requires w < |lists|
    ensures lists[w] != [] ==> Flatten(lists) != []
  {
    if lists[w] != [] {
      SomethingBefore(lists, w);
    }
  }

  lemma GatheredErr(q: Query, keys: set<Key>, lines: seq<Line>)
    ensures Gathered(q, keys, lines).Err? <==> !CanPush(q, keys)
  {
  }

  // ---- parallel refines sequential

  // Without a slice, on lines that all carry the same keys once each, no
  // duration and no date that does not parse, the parallel scan of any frames
  // that keep the lines of the text is the sequential scan of the text: the same
  // columns, rows and order, or both an error, for any number of threads,
  // any interleaving, any batch size, filter, predicate and projection.
  lemma ParallelRefinesSequential(q: Query, keys: set<Key>, texts: seq<Bytes>, threads: nat, text: Bytes,
                                  run: seq<State<Line>>, handles: seq<bool>, r: Result<Option<Frame>>)
    requires q.aligned && q.useParallel && q.limit.None? && q.batch != Some(0)
    requires LinesOfAll(texts) == Lines(text) && TextAlike(q, keys, text)
    requires Attempt(q, texts, threads, run, handles, r)
    ensures Scan(q, text, r) == ScanInOrder(q, text)
  {
    hide Lines, LinesOfAll, JobOf, IsRun, WellFormed, Gives, Scan, AcceptedRows, TextAlike, AllAccepted,
      UniformFrame, Uniform, JobReadable, CanPush;
    if threads == 0 {
      NoThreads(q, texts, run, handles, r);
      ScanOfNone(q, text);
      return;
    }
    AlikeAttempt(q, keys, texts, threads, text, run, handles, r);
    var job, s := JobOf(q, texts, threads), run[|run| - 1];
    var joined := Joined(s);
    JobAccepts(q, texts, threads, text);
    AlikeJob(q, keys, texts, threads, text);
    JobLimit(q, texts, threads);
    JobReadableIff(q, texts, threads, text);
    KeysNotEmpty(q, keys, text);
    UniformScanIs(q, text, keys);
    if WellFormed(text) {
      ReadableNeverBreaks(job, run);
    }
    if NoneBroken(s) {
      NoLimitJoinsAll(job, run);
      NeverBrokeIsReadable(job, run);
    }
    GatheredErr(q, keys, joined);
    if r == Err {
      ScanOfError(q, text);
    } else if r.value.Some? {
      UniformFields(q, AcceptedRows(q, text), keys);
      ScanOfFrame(q, text, Gathered(q, keys, joined).value);
    } else {
      ScanOfNone(q, text);
    }
  }

  // Without a slice the workers read all lines, unless one stops them.
  lemma NeverBrokeIsReadable<T>(job: Job<T>, run: seq<State<T>>)
    requires ChunksNonEmpty(job) && Completes(job, run) && job.limit.None?
    ensures JobReadable(job)
  {
    hide AllReadable, Flatten;
    FinishedRunFillsSlice(job, run);
    var s := run[|run| - 1];
    forall w | 0 <= w < |job.chunks|
      ensures AllReadable(job.readable, Flatten(job.chunks[w]))
    {
      assert Ended(s.workers[w]) && !s.workers[w].phase.Broken?;
    }
  }

  lemma NoThreads(q: Query, texts: seq<Bytes>, run: seq<State<Line>>, handles: seq<bool>, r: Result<Option<Frame>>)
    requires Attempt(q, texts, 0, run, handles, r)
    ensures r == Ok(None)
  {
    hide IsRun;
    RunIsNotEmpty(JobOf(q, texts, 0), run);
    assert |OutcomesOf(q, run[|run| - 1], handles)| == 0;
  }

  lemma JobLimit(q: Query, texts: seq<Bytes>, threads: nat)
    ensures JobOf(q, texts, threads).limit == q.limit
  {
  }

  lemma KeysNotEmpty(q: Query, keys: set<Key>, text: Bytes)
    requires TextAlike(q, keys, text)
    ensures keys != {}
  {
  }

  lemma ScanOfNone(q: Query, text: Bytes)
    ensures Scan(q, text, Ok(None)) == ScanInOrder(q, text)
  {
  }

  // The same for the frames cut from a file whose lines fit their window.
  lemma ParallelFileScan(q: Query, keys: set<Key>, data: Bytes, frames: seq<FrameRange>, threads: nat,
                         run: seq<State<Line>>, handles: seq<bool>, r: Result<Option<Frame>>)
    requires q.aligned && q.useParallel && q.limit.None? && q.batch != Some(0)
    requires Partition(frames, |data|) && InFile(data, frames) && CutAtLastNewlines(data, frames) && LinesFit(data)
    requires TextAlike(q, keys, data)
    requires Attempt(q, FrameTexts(data, frames), threads, run, handles, r)
    ensures Scan(q, data, r) == ScanInOrder(q, data)
  {
    hide Attempt, TextAlike, LinesFit, CutAtLastNewlines, Scan, Lines, LinesOfAll, CutsOnLines;
    CutsOnLinesIffLinesFit(data, frames);
    FramesKeepLines(data, frames);
    ParallelRefinesSequential(q, keys, FrameTexts(data, frames), threads, data, run, handles, r);
  }

  // The same for the frames of a seek table, as long as none starts inside a
  // line.
  lemma ParallelTableScan(q: Query, keys: set<Key>, data: Bytes, frames: seq<FrameRange>, threads: nat,
                          run: seq<State<Line>>, handles: seq<bool>, r: Result<Option<Frame>>)
    requires q.aligned && q.useParallel && q.limit.None? && q.batch != Some(0)
    requires Contiguous(frames, |data|) && InFile(data, frames) && FramesStartLines(data, frames)
    requires TextAlike(q, keys, data)
    requires Attempt(q, FrameTexts(data, frames), threads, run, handles, r)
    ensures Scan(q, data, r) == ScanInOrder(q, data)
  {
    hide Attempt, TextAlike, Scan, Lines, LinesOfAll, FramesStartLines;
    FramesKeepLinesIff(data, frames);
    ParallelRefinesSequential(q, keys, FrameTexts(data, frames), threads, data, run, handles, r);
  }

  // Without `aligned_cols_cnt` and without a slice the scan is the sequential one
  // on every text.
  lemma UnalignedScanIsSequential(q: Query, texts: seq<Bytes>, threads: nat, text: Bytes,
                                  run: seq<State<Line>>, handles: seq<bool>, r: Result<Option<Frame>>)
    requires !q.aligned && q.useParallel && q.limit.None? && q.batch != Some(0)
    requires LinesOfAll(texts) == Lines(text) && Attempt(q, texts, threads, run, handles, r)
    ensures Scan(q, text, r) == ScanInOrder(q, text)
  {
    hide Lines, LinesOfAll, JobOf, IsRun, WellFormed, Gives, Scan, JobReadable, ScanInOrder;
    UnalignedYieldsNothing(q, texts, threads, run, handles, r);
    ScanOfNone(q, text);
    if r == Err {
      if threads == 0 {
        NoThreads(q, texts, run, handles, r);
      }
      JobHasNoEmptyChunk(q, texts, threads);
      if JobReadable(JobOf(q, texts, threads)) {
        ReadableNeverBreaks(JobOf(q, texts, threads), run);
      }
      JobReadableIff(q, texts, threads, text);
      ScanOfError(q, text);
      UnreadableScanFails(q, text);
    }
  }

  lemma UnreadableScanFails(q: Query, text: Bytes)
    requires !q.aligned && q.limit.None? && q.batch != Some(0) && !WellFormed(text)
    ensures ScanInOrder(q, text) == Err
  {
    hide ScanInOrder, WellFormed;
    if q.batch.None? {
      UnbatchedScan(q, text);
    } else {
      BatchedScanSucceedsIff(q, text);
    }
  }

  // ---- with a slice

  // With a slice, the predicate and the projection are applied once, to the
  // rows of all lines the workers pushed put together, or the scan falls back,
  // or it fails on a line that is not UTF-8 that a worker got to.
  lemma SlicedParallelScan(q: Query, keys: set<Key>, texts: seq<Bytes>, threads: nat, text: Bytes,
                           run: seq<State<Line>>, handles: seq<bool>, r: Result<Option<Frame>>)
    requires q.aligned && q.useParallel && q.limit.Some? && threads > 0
    requires LinesOfAll(texts) == Lines(text) && TextAlike(q, keys, text)
    requires Attempt(q, texts, threads, run, handles, r)
    ensures run != [] && |handles| == |run[|run| - 1].workers|
    ensures if r == Ok(None) then Scan(q, text, r) == ScanInOrder(q, text)
            else if MetBadLine(run[|run| - 1], handles) then Scan(q, text, r) == Err
            else
              && Joined(run[|run| - 1]) != [] && NoneBroken(run[|run| - 1])
              && Scan(q, text, r) == PushedFrame(q, RowsOf(q, Joined(run[|run| - 1])))
              && PushedFrame(q, RowsOf(q, Joined(run[|run| - 1]))) == Gathered(q, keys, Joined(run[|run| - 1]))
  {
    hide Lines, LinesOfAll, JobOf, IsRun, WellFormed, Gives, Scan, TextAlike, UniformFrame, Uniform,
      Joined, PushedFrame, AllAlike, AllAccepted;
    AlikeAttempt(q, keys, texts, threads, text, run, handles, r);
    KeysNotEmpty(q, keys, text);
    var joined := Joined(run[|run| - 1]);
    if r == Ok(None) {
      ScanOfNone(q, text);
    } else if r == Err {
      ScanOfError(q, text);
    }
    if r != Ok(None) && !MetBadLine(run[|run| - 1], handles) {
      AlikePushed(q, keys, texts, threads, text, run);
      AlikeUniform(q, keys, joined);
      UniformPushed(q, RowsOf(q, joined), keys);
      JobLimit(q, texts, threads);
      JoinedLength(JobOf(q, texts, threads), run);
      if r != Err {
        UniformFields(q, RowsOf(q, joined), keys);
        UniformFrameSize(q, RowsOf(q, joined), keys);
        ScanOfFrame(q, text, Gathered(q, keys, joined).value);
      }
    }
  }

  // Whenever the workers have nothing to choose, the scan with a slice is the
  // sequential one, if and only if both or neither of them meet a line that is
  // not UTF-8, or both fail on the pushdown; or the scan falls back.
  lemma SlicedMatchesSequentialIff(q: Query, keys: set<Key>, texts: seq<Bytes>, threads: nat, text: Bytes,
                                   run: seq<State<Line>>, handles: seq<bool>, r: Result<Option<Frame>>)
    requires q.aligned && q.useParallel && q.limit.Some? && threads > 0
    requires LinesOfAll(texts) == Lines(text) && TextAlike(q, keys, text)
    requires Attempt(q, texts, threads, run, handles, r)
    requires var job := JobOf(q, texts, threads);
             q.limit.value == 0 || |AllAccepted(job)| <= q.limit.value || OneBusyChunk(job)
    ensures run != [] && |handles| == |run[|run| - 1].workers|
    ensures Scan(q, text, r) == ScanInOrder(q, text)
            <==> || r == Ok(None)
                 || (MetBadLine(run[|run| - 1], handles) <==> FailsBefore(q, text, q.limit.value))
                 || !CanPush(q, keys)
  {
    hide Lines, LinesOfAll, JobOf, WellFormed, Gives, Scan, TextAlike, UniformFrame, Uniform, OneBusyChunk,
      PushedFrame, AllAlike, AllAccepted, AcceptedRows, IsRun, Joined, CanPush, FailsBefore, RowsRead;
    var n := q.limit.value;
    SlicedParallelScan(q, keys, texts, threads, text, run, handles, r);
    var job, s := JobOf(q, texts, threads), run[|run| - 1];
    var joined := Joined(s);
    if r != Ok(None) {
      JobLimit(q, texts, threads);
      JobAccepts(q, texts, threads, text);
      AlikeJob(q, keys, texts, threads, text);
      KeysNotEmpty(q, keys, text);
      if n == 0 {
        EmptySliceJoinsNothing(job, run);
      }
      assert n > 0;
      UniformSlice(q, text, keys);
      var rows := Take(AcceptedRows(q, text), n);
      UniformErr(q, rows, keys);
      if !MetBadLine(s, handles) {
        NothingToChoose(job, run);
        assert RowsOf(q, joined) == rows;
      } else if !FailsBefore(q, text, n) {
        JobReadableIff(q, texts, threads, text);
        if WellFormed(text) {
          ReadableNeverBreaks(job, run);
        }
        EnoughRows(q, text, n);
      }
    }
  }

  // A slice of no rows joins nothing, and no worker fails.
  lemma EmptySliceJoinsNothing<T>(job: Job<T>, run: seq<State<T>>)
    requires ChunksNonEmpty(job) && IsRun(job, run) && job.limit == Some(0)
    ensures NoneBroken(run[|run| - 1]) && Joined(run[|run| - 1]) == []
  {
    hide Flatten, IsRun;
    EmptySliceReadsNothing(job, run);
    RunIsNotEmpty(job, run);
    FlattenEmpties(PushedLists(run[|run| - 1]));
  }

  lemma UniformErr(q: Query, rows: seq<Row>, keys: set<Key>)
    ensures UniformFrame(q, rows, keys).Err? <==> !CanPush(q, keys)
  {
  }

  lemma EnoughRows(q: Query, text: Bytes, n: nat)
    requires !WellFormed(text) && !FailsBefore(q, text, n) && n > 0
    ensures AcceptedRows(q, text) != []
  {
    hide WellFormed, AcceptedRows, ReadBatch, AlignAll;
    ReadIsAligned(q, text, {});
  }
}
