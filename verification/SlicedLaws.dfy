// The scan with a slice against the sequential scan with the same slice, on
// texts that need not be UTF-8: when every attempt at the parallel batch leads
// to the same answer.
module SlicedLaws {
  import opened Text
  import opened Utf8
  import opened LogfmtParser
  import opened SchemaProbe
  import opened Table
  import opened FrameLines
  import opened RowBudget
  import opened FirstRows
  import opened StoppedWorkers
  import opened SequentialScan
  import opened SequentialLaws
  import opened BatchLaws
  import opened WorkerFrames
  import opened ParallelScan
  import opened ParallelLaws

  // No worker can be stopped by a line that is not UTF-8 in any run.
  predicate NeverStopped<T(==)>(job: Job<T>) {
    forall w :: 0 <= w < |job.chunks| ==> !CanBeStopped(job, w)
  }

  // Whatever the workers do, the scan returns what the sequential scan returns.
  ghost predicate AlwaysSequential(q: Query, texts: seq<Bytes>, threads: nat, text: Bytes) {
    forall run: seq<State<Line>>, handles: seq<bool>, r: Result<Option<Frame>> ::
      Attempt(q, texts, threads, run, handles, r) ==> Scan(q, text, r) == ScanInOrder(q, text)
  }

  lemma StoppedByLine(q: Query, texts: seq<Bytes>, threads: nat, run: seq<State<Line>>, handles: seq<bool>,
                      r: Result<Option<Frame>>)
    requires q.limit.Some? && Attempt(q, texts, threads, run, handles, r)
    requires run != [] && |handles| == |run[|run| - 1].workers| && MetBadLine(run[|run| - 1], handles)
    ensures !NeverStopped(JobOf(q, texts, threads))
  {
    hide IsRun, Finished, Gives, SafeRows, AllReadable, JobOf, Flatten;
    var w :| 0 <= w < |handles| && handles[w] && run[|run| - 1].workers[w].phase.Broken?;
    JobHasNoEmptyChunk(q, texts, threads);
    JobLimit(q, texts, threads);
    BrokenIsBelow(JobOf(q, texts, threads), run, w);
    assert CanBeStopped(JobOf(q, texts, threads), w);
  }

  // An attempt that a line ends.
  lemma AttemptStopped(q: Query, texts: seq<Bytes>, threads: nat)
    returns (run: seq<State<Line>>, handles: seq<bool>, r: Result<Option<Frame>>)
    requires !NeverStopped(JobOf(q, texts, threads))
    ensures Attempt(q, texts, threads, run, handles, r) && r == Err
    ensures run != [] && |handles| == |run[|run| - 1].workers| && MetBadLine(run[|run| - 1], handles)
  {
    hide IsRun, Finished, OutcomeOf, Combine, CanBeStopped, JobOf;
    var job := JobOf(q, texts, threads);
    var w :| 0 <= w < |job.chunks| && CanBeStopped(job, w);
    JobHasNoEmptyChunk(q, texts, threads);
    run := StoppingRun(job, w);
    RunIsNotEmpty(job, run);
    handles, r := AttemptOf(q, texts, threads, run);
    StoppedFails(q, run[|run| - 1], handles, w, r);
  }

  lemma StoppedFails(q: Query, s: State<Line>, handles: seq<bool>, w: nat, r: Result<Option<Frame>>)
    requires |handles| == |s.workers| && w < |handles| && AllTrue(handles) && s.workers[w].phase.Broken?
    requires Gives(q, OutcomesOf(q, s, handles), r)
    ensures r == Err && MetBadLine(s, handles)
  {
    hide Combine, WorkerFrame;
    var outcomes := OutcomesOf(q, s, handles);
    assert outcomes[w] == Failed;
    forall x | 0 <= x < |outcomes|
      ensures !outcomes[x].NoHandle?
    {
      assert handles[x];
    }
  }

  // ---- without `aligned_cols_cnt`

  // The sequential scan of the slice fails: a line that is not UTF-8 comes
  // before its last row, or the pushdown is impossible on its rows.
  predicate SliceFails(q: Query, text: Bytes)
    requires q.limit.Some?
  {
    var n, rows := q.limit.value, Take(RowsRead(q, text), q.limit.value);
    || FailsBefore(q, text, n)
    || ((rows != [] || n == 0) && !CanPush(q, KeysOf(rows)))
  }

  lemma SliceFailsIff(q: Query, text: Bytes)
    requires q.limit.Some?
    ensures ScanInOrder(q, text) == Err <==> SliceFails(q, text)
  {
    hide ScanInOrder, RowsRead, FailsBefore, CanPush, KeysOf, PushedFrame;
    SliceThenFilter(q, text);
    PushedOkIff(q, Take(RowsRead(q, text), q.limit.value));
  }

  // With a slice and without `aligned_cols_cnt`, every attempt leads to the
  // answer of the sequential scan exactly when that fails or no worker can be
  // stopped by a line that is not UTF-8.
  lemma UnalignedSliceIff(q: Query, texts: seq<Bytes>, threads: nat, text: Bytes)
    requires !q.aligned && q.useParallel && q.limit.Some?
    ensures AlwaysSequential(q, texts, threads, text)
            <==> SliceFails(q, text) || NeverStopped(JobOf(q, texts, threads))
  {
    hide Scan, ScanInOrder, SliceFails, NeverStopped, Attempt, JobOf;
    SliceFailsIff(q, text);
    ScanOfNone(q, text);
    ScanOfError(q, text);
    if SliceFails(q, text) || NeverStopped(JobOf(q, texts, threads)) {
      forall run, handles, r | Attempt(q, texts, threads, run, handles, r)
        ensures Scan(q, text, r) == ScanInOrder(q, text)
      {
        UnalignedYieldsNothing(q, texts, threads, run, handles, r);
        if r == Err && NeverStopped(JobOf(q, texts, threads)) {
          StoppedByLine(q, texts, threads, run, handles, r);
        }
      }
    } else {
      var run, handles, r := AttemptStopped(q, texts, threads);
      assert Scan(q, text, r) != ScanInOrder(q, text);
    }
  }

  // ---- on lines that are all alike

  // The workers have nothing to choose.
  ghost predicate NoChoice(job: Job<Line>) {
    job.limit.Some? ==>
      job.limit.value == 0 || |AllAccepted(job)| <= job.limit.value || OneBusyChunk(job)
  }

  // Some attempt gets by all lines that are not UTF-8, and joins rows.
  lemma AttemptThrough(q: Query, keys: set<Key>, texts: seq<Bytes>, threads: nat, text: Bytes)
    returns (run: seq<State<Line>>, handles: seq<bool>, r: Result<Option<Frame>>)
    requires q.aligned && q.limit.Some? && q.limit.value > 0 && threads > 0
    requires LinesOfAll(texts) == Lines(text) && TextAlike(q, keys, text) && !WellFormed(text)
    requires q.limit.value <= Sum(SafeCounts(JobOf(q, texts, threads)))
    ensures Attempt(q, texts, threads, run, handles, r) && r != Ok(None)
    ensures run != [] && |handles| == |run[|run| - 1].workers| && !MetBadLine(run[|run| - 1], handles)
  {
    hide IsRun, Finished, Gives, SafeRows, WellFormed, Lines, LinesOfAll, TextAlike, PartOf, JobOf, AllAccepted,
      Joined, Sum, JobReadable;
    var job := JobOf(q, texts, threads);
    JobHasNoEmptyChunk(q, texts, threads);
    JobLimit(q, texts, threads);
    JobReadableIff(q, texts, threads, text);
    run := SafeRun(job);
    CompletingNeedsRows(job, run);
    JoinedLength(job, run);
    FinishedRunFillsSlice(job, run);
    handles, r := AttemptOf(q, texts, threads, run);
    if r == Ok(None) {
      FallbackMeansNoRows(q, keys, texts, threads, text, run, handles, r);
      SlicedPart(q, keys, Joined(run[|run| - 1]));
    }
  }

  lemma SlicedPart(q: Query, keys: set<Key>, lines: seq<Line>)
    requires q.limit.Some?
    ensures |PartOf(q, keys, lines)| == |lines|
  {
  }

  lemma SafeOfNoThreads(q: Query, texts: seq<Bytes>)
    ensures var job := JobOf(q, texts, 0);
            NeverStopped(job) && Sum(SafeCounts(job)) == 0
  {
    assert |JobOf(q, texts, 0).chunks| == 0;
  }

  // When the pushdown is possible and the workers have nothing to choose: if the
  // sequential scan fails, every attempt has to fail or to fall back, and can
  // get to rows exactly when the safe rows of the workers fill the slice; if it
  // does not, no worker may be stopped.
  ghost predicate SlicesAgree(q: Query, keys: set<Key>, text: Bytes, job: Job<Line>)
    requires q.limit.Some?
  {
    || !CanPush(q, keys)
    || (if FailsBefore(q, text, q.limit.value) then Sum(SafeCounts(job)) < q.limit.value else NeverStopped(job))
  }

  // With a slice, on lines that are all alike and leave the workers nothing to
  // choose, exactly that decides whether every attempt leads to the answer of
  // the sequential scan.
  lemma AlignedSliceIff(q: Query, keys: set<Key>, texts: seq<Bytes>, threads: nat, text: Bytes)
    requires q.aligned && q.useParallel && q.limit.Some?
    requires LinesOfAll(texts) == Lines(text) && TextAlike(q, keys, text) && NoChoice(JobOf(q, texts, threads))
    ensures AlwaysSequential(q, texts, threads, text) <==> SlicesAgree(q, keys, text, JobOf(q, texts, threads))
  {
    hide Scan, ScanInOrder, SlicesAgree, Attempt, JobOf, TextAlike, Lines, LinesOfAll;
    if SlicesAgree(q, keys, text, JobOf(q, texts, threads)) {
      forall run, handles, r | Attempt(q, texts, threads, run, handles, r)
        ensures Scan(q, text, r) == ScanInOrder(q, text)
      {
        AgreeingAttempt(q, keys, texts, threads, text, run, handles, r);
      }
    } else {
      var run, handles, r := DifferingAttempt(q, keys, texts, threads, text);
      assert Scan(q, text, r) != ScanInOrder(q, text);
    }
  }

  lemma AgreeingAttempt(q: Query, keys: set<Key>, texts: seq<Bytes>, threads: nat, text: Bytes,
                        run: seq<State<Line>>, handles: seq<bool>, r: Result<Option<Frame>>)
    requires q.aligned && q.useParallel && q.limit.Some?
    requires LinesOfAll(texts) == Lines(text) && TextAlike(q, keys, text) && NoChoice(JobOf(q, texts, threads))
    requires SlicesAgree(q, keys, text, JobOf(q, texts, threads))
    requires Attempt(q, texts, threads, run, handles, r)
    ensures Scan(q, text, r) == ScanInOrder(q, text)
  {
    hide Scan, ScanInOrder, NeverStopped, JobOf, TextAlike, Lines, LinesOfAll, MetBadLine, IsRun, Gives,
      CanPush, RowsRead, WellFormed, Sum, SafeCounts, PushedFrame, OneBusyChunk, AllAccepted, JobReadable, Joined,
      Gathered;
    JobLimit(q, texts, threads);
    if threads == 0 {
      NoThreads(q, texts, run, handles, r);
      ScanOfNone(q, text);
      return;
    }
    SlicedMatchesSequentialIff(q, keys, texts, threads, text, run, handles, r);
    SlicedParallelScan(q, keys, texts, threads, text, run, handles, r);
    var s := run[|run| - 1];
    if r != Ok(None) && CanPush(q, keys) {
      if FailsBefore(q, text, q.limit.value) {
        if !MetBadLine(s, handles) {
          JobHasNoEmptyChunk(q, texts, threads);
          JobReadableIff(q, texts, threads, text);
          CompletingNeedsRows(JobOf(q, texts, threads), run);
        }
      } else if MetBadLine(s, handles) {
        StoppedByLine(q, texts, threads, run, handles, r);
      }
    }
  }

  lemma DifferingAttempt(q: Query, keys: set<Key>, texts: seq<Bytes>, threads: nat, text: Bytes)
    returns (run: seq<State<Line>>, handles: seq<bool>, r: Result<Option<Frame>>)
    requires q.aligned && q.useParallel && q.limit.Some?
    requires LinesOfAll(texts) == Lines(text) && TextAlike(q, keys, text) && NoChoice(JobOf(q, texts, threads))
    requires !SlicesAgree(q, keys, text, JobOf(q, texts, threads))
    ensures Attempt(q, texts, threads, run, handles, r) && Scan(q, text, r) != ScanInOrder(q, text)
  {
    hide Scan, ScanInOrder, NeverStopped, JobOf, TextAlike, Lines, LinesOfAll, MetBadLine, Attempt,
      CanPush, RowsRead, WellFormed, Sum, SafeCounts, OneBusyChunk, AllAccepted;
    JobLimit(q, texts, threads);
    if threads == 0 {
      SafeOfNoThreads(q, texts);
    }
    if FailsBefore(q, text, q.limit.value) {
      run, handles, r := AttemptThrough(q, keys, texts, threads, text);
    } else {
      run, handles, r := AttemptStopped(q, texts, threads);
    }
    SlicedMatchesSequentialIff(q, keys, texts, threads, text, run, handles, r);
  }

  // On a UTF-8 text the sliced scan of alike lines is the sequential one
  // whenever there is nothing to choose.
  lemma ReadableSliceIsSequential(q: Query, keys: set<Key>, texts: seq<Bytes>, threads: nat, text: Bytes)
    requires q.aligned && q.useParallel && q.limit.Some? && WellFormed(text)
    requires LinesOfAll(texts) == Lines(text) && TextAlike(q, keys, text) && NoChoice(JobOf(q, texts, threads))
    ensures AlwaysSequential(q, texts, threads, text)
  {
    hide AlwaysSequential, JobOf, TextAlike, Lines, LinesOfAll, WellFormed, Sum, SafeCounts, NoChoice, CanPush,
      AllReadable, SafeRows;
    AlignedSliceIff(q, keys, texts, threads, text);
    if threads == 0 {
      SafeOfNoThreads(q, texts);
    } else {
      JobReadableIff(q, texts, threads, text);
    }
  }
}
