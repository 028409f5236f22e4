// The parallel scan: frames of lines shared out among workers that run in any
// interleaving, their frames put together, and the scan around it.
module ParallelScan {
  import opened Text
  import opened Utf8
  import opened LogfmtParser
  import opened SchemaProbe
  import opened Table
  import opened Chunks
  import opened FrameLines
  import opened RowBudget
  import opened FirstRows
  import opened RowTable
  import opened SequentialScan
  import opened SequentialLaws
  import opened UniformScan
  import opened WorkerFrames

  // ---- the job of a text cut into frames

  function Tagged(frame: nat, lines: seq<Bytes>): (tagged: seq<Line>)
    ensures |tagged| == |lines|
    ensures forall i :: 0 <= i < |lines| ==> tagged[i] == Line(frame, i, lines[i])
  {
    seq(|lines|, i requires 0 <= i < |lines| => Line(frame, i, lines[i]))
  }

  function TaggedFrames(texts: seq<Bytes>): (frames: seq<seq<Line>>)
    ensures |frames| == |texts|
    ensures forall f :: 0 <= f < |texts| ==> frames[f] == Tagged(f, Lines(texts[f]))
  {
    seq(|texts|, f requires 0 <= f < |texts| => Tagged(f, Lines(texts[f])))
  }

  // `read_line` fails on a line that is not UTF-8.
  predicate ReadableLine(line: Line) {
    WellFormed(line.text)
  }

  function AcceptLine(filter: Bytes -> bool): Line -> bool {
    (line: Line) => Accepts(filter)(line.text)
  }

  function JobOf(q: Query, texts: seq<Bytes>, threads: nat): (job: Job<Line>) {
    Job(q.limit, ChunksOf(TaggedFrames(texts), threads), ReadableLine, AcceptLine(q.filter))
  }

  function TextsOf(lines: seq<Line>): (texts: seq<Bytes>)
    ensures |texts| == |lines|
    ensures forall i :: 0 <= i < |lines| ==> texts[i] == lines[i].text
  {
    seq(|lines|, i requires 0 <= i < |lines| => lines[i].text)
  }

  lemma TextsOfConcat(a: seq<Line>, b: seq<Line>)
    ensures TextsOf(a + b) == TextsOf(a) + TextsOf(b)
  {
  }

  lemma {:induction false} TextsOfFrames(texts: seq<Bytes>)
    ensures TextsOf(Flatten(TaggedFrames(texts))) == LinesOfAll(texts)
  {
    hide Flatten, Lines;
    var frames := TaggedFrames(texts);
    if texts == [] {
      assert frames == [];
      FlattenNone<Line>();
    } else {
      var front, last := texts[..|texts| - 1], |texts| - 1;
      TextsOfFrames(front);
      assert frames == TaggedFrames(front) + [Tagged(last, Lines(texts[last]))];
      FlattenLast(TaggedFrames(front), Tagged(last, Lines(texts[last])));
      TextsOfConcat(Flatten(TaggedFrames(front)), Tagged(last, Lines(texts[last])));
      assert TextsOf(Tagged(last, Lines(texts[last]))) == Lines(texts[last]);
    }
  }

  lemma {:induction false} TextsOfAccepted(q: Query, lines: seq<Line>)
    ensures TextsOf(Filter(AcceptLine(q.filter), lines)) == Filter(Accepts(q.filter), TextsOf(lines))
  {
    hide Accepts;
    if lines != [] {
      TextsOfAccepted(q, lines[1..]);
      assert TextsOf(lines)[1..] == TextsOf(lines[1..]);
      var accept := AcceptLine(q.filter);
      TextsOfConcat(if accept(lines[0]) then [lines[0]] else [], Filter(accept, lines[1..]));
    }
  }

  lemma {:induction false} FilterFlatten<T>(keep: T -> bool, lists: seq<seq<T>>, kept: seq<seq<T>>)
    requires |kept| == |lists| && forall i :: 0 <= i < |lists| ==> kept[i] == Filter(keep, lists[i])
    ensures Flatten(kept) == Filter(keep, Flatten(lists))
  {
    hide Filter;
    if lists != [] {
      FilterFlatten(keep, lists[1..], kept[1..]);
      FilterConcat(keep, lists[0], Flatten(lists[1..]));
    } else {
      FilterNothing(keep);
    }
  }

  lemma FilterNothing<T>(keep: T -> bool)
    ensures Filter(keep, []) == []
  {
  }

  function FlattenEach<T>(chunks: seq<seq<seq<T>>>): (lists: seq<seq<T>>)
    ensures |lists| == |chunks|
    ensures forall i :: 0 <= i < |chunks| ==> lists[i] == Flatten(chunks[i])
  {
    seq(|chunks|, i requires 0 <= i < |chunks| => Flatten(chunks[i]))
  }

  lemma {:induction false} FlattenTwice<T>(chunks: seq<seq<seq<T>>>)
    ensures Flatten(FlattenEach(chunks)) == Flatten(Flatten(chunks))
  {
    if chunks != [] {
      FlattenTwice(chunks[1..]);
      assert FlattenEach(chunks)[1..] == FlattenEach(chunks[1..]);
      FlattenConcat(chunks[0], Flatten(chunks[1..]));
    }
  }

  // The accepted lines of all chunks are the accepted lines of the text.
  lemma JobAccepts(q: Query, texts: seq<Bytes>, threads: nat, text: Bytes)
    requires threads > 0 && LinesOfAll(texts) == Lines(text)
    ensures var job := JobOf(q, texts, threads);
            && ChunksNonEmpty(job)
            && TextsOf(Flatten(FlattenEach(job.chunks))) == Lines(text)
            && TextsOf(AllAccepted(job)) == Accepted(q.filter, text)
  {
    hide Flatten, Filter, Lines, ChunksOf;
    var job := JobOf(q, texts, threads);
    ChunksCover(TaggedFrames(texts), threads);
    FlattenTwice(job.chunks);
    TextsOfFrames(texts);
    FilterFlatten(AcceptLine(q.filter), FlattenEach(job.chunks), AcceptedLists(job));
    TextsOfAccepted(q, Flatten(FlattenEach(job.chunks)));
  }

  // ---- what the workers give, and what is made of it

  datatype WorkerOutcome = NoHandle | Failed | Made(frame: Frame)

  // A worker that gets no file handle, one that was stopped by a line that is
  // not UTF-8 or whose frame cannot be made, and one that makes a frame.
  function OutcomeOf(q: Query, k: Worker<Line>, handle: bool): (o: WorkerOutcome) {
    if !handle then NoHandle
    else if k.phase.Broken? then Failed
    else var f := WorkerFrame(q, k.pushed); if f.Err? then Failed else Made(f.value)
  }

  function OutcomesOf(q: Query, s: State<Line>, handles: seq<bool>): (outcomes: seq<WorkerOutcome>)
    requires |handles| == |s.workers|
    ensures |outcomes| == |s.workers|
    ensures forall w :: 0 <= w < |s.workers| ==> outcomes[w] == OutcomeOf(q, s.workers[w], handles[w])
  {
    seq(|s.workers|, w requires 0 <= w < |s.workers| => OutcomeOf(q, s.workers[w], handles[w]))
  }

  predicate HasRows(f: Frame) {
    f.rows != []
  }

  function StackAll(frames: seq<Frame>): (r: Result<Frame>)
    requires frames != []
  {
    if |frames| == 1 then Ok(frames[0])
    else
      var front := StackAll(frames[..|frames| - 1]);
      if front.Err? then Err else Stack(front.value, frames[|frames| - 1])
  }

  // Frames without rows are dropped; if none is left, or they do not stack,
  // the scan falls back. With a slice the pushdown comes now.
  function Combine(q: Query, frames: seq<Frame>): (r: Result<Option<Frame>>) {
    var kept := Filter(HasRows, frames);
    if kept == [] then Ok(None)
    else
      var all := StackAll(kept);
      if all.Err? then Ok(None)
      else
        var out := if q.limit.Some? then Pushdown(all.value, q.pred, q.columns) else all;
        if out.Err? then Err else Ok(Some(out.value))
  }

  function FramesIn(outcomes: seq<WorkerOutcome>): (frames: seq<Frame>)
    requires forall w :: 0 <= w < |outcomes| ==> outcomes[w].Made?
    ensures |frames| == |outcomes|
    ensures forall w :: 0 <= w < |outcomes| ==> frames[w] == outcomes[w].frame
  {
    seq(|outcomes|, w requires 0 <= w < |outcomes| => outcomes[w].frame)
  }

  // What the batch returns: any of the errors met, if there are some.
  ghost predicate Gives(q: Query, outcomes: seq<WorkerOutcome>, r: Result<Option<Frame>>) {
    || (Failed in outcomes && r == Err)
    || (NoHandle in outcomes && r == Ok(None))
    || ((forall w :: 0 <= w < |outcomes| ==> outcomes[w].Made?) && r == Combine(q, FramesIn(outcomes)))
  }

  // One attempt at the parallel batch: some finished run of the workers on the
  // frames, whatever the interleaving and whichever of them get a handle.
  ghost predicate Attempt(q: Query, texts: seq<Bytes>, threads: nat, run: seq<State<Line>>, handles: seq<bool>,
                          r: Result<Option<Frame>>)
  {
    var job := JobOf(q, texts, threads);
    && IsRun(job, run) && Finished(run[|run| - 1])
    && |handles| == |run[|run| - 1].workers| == |job.chunks|
    && Gives(q, OutcomesOf(q, run[|run| - 1], handles), r)
  }

  predicate AllTrue(handles: seq<bool>) {
    forall w :: 0 <= w < |handles| ==> handles[w]
  }

  // Any finished run is one of an attempt, with a handle for every worker.
  lemma AttemptOf(q: Query, texts: seq<Bytes>, threads: nat, run: seq<State<Line>>)
    returns (handles: seq<bool>, r: Result<Option<Frame>>)
    requires IsRun(JobOf(q, texts, threads), run) && Finished(run[|run| - 1])
    ensures AllTrue(handles) && Attempt(q, texts, threads, run, handles, r)
  {
    hide IsRun, OutcomeOf, Combine;
    var job := JobOf(q, texts, threads);
    JobHasNoEmptyChunk(q, texts, threads);
    RunIsNotEmpty(job, run);
    RunsAreBounded(job, run);
    handles := seq(|job.chunks|, _ => true);
    var outcomes := OutcomesOf(q, run[|run| - 1], handles);
    if Failed in outcomes {
      r := Err;
    } else if NoHandle in outcomes {
      r := Ok(None);
    } else {
      forall w | 0 <= w < |outcomes|
        ensures outcomes[w].Made?
      {
        assert outcomes[w] in outcomes;
      }
      r := Combine(q, FramesIn(outcomes));
    }
  }

  // Whoever is without a handle: that alone lets the scan fall back, and a worker
  // that has one and was stopped lets it fail, whichever comes first.
  lemma AttemptsWithout(q: Query, texts: seq<Bytes>, threads: nat, run: seq<State<Line>>, handles: seq<bool>)
    requires IsRun(JobOf(q, texts, threads), run) && Finished(run[|run| - 1])
    requires run != [] && |handles| == |run[|run| - 1].workers| == |JobOf(q, texts, threads).chunks|
    ensures !AllTrue(handles) ==> Attempt(q, texts, threads, run, handles, Ok(None))
    ensures MetBadLine(run[|run| - 1], handles) ==> Attempt(q, texts, threads, run, handles, Err)
  {
    hide IsRun, Finished, Combine, WorkerFrame;
    var s := run[|run| - 1];
    var outcomes := OutcomesOf(q, s, handles);
    if !AllTrue(handles) {
      var w :| 0 <= w < |handles| && !handles[w];
      assert outcomes[w] == NoHandle;
    }
    if MetBadLine(s, handles) {
      var w :| 0 <= w < |handles| && handles[w] && s.workers[w].phase.Broken?;
      assert outcomes[w] == Failed;
    }
  }

  // Every scan can be attempted: the workers always have a run that finishes.
  lemma AnAttempt(q: Query, texts: seq<Bytes>, threads: nat)
    returns (run: seq<State<Line>>, handles: seq<bool>, r: Result<Option<Frame>>)
    ensures AllTrue(handles) && Attempt(q, texts, threads, run, handles, r)
  {
    hide IsRun;
    JobHasNoEmptyChunk(q, texts, threads);
    StartIsRun(JobOf(q, texts, threads));
    run := FinishAll(JobOf(q, texts, threads), [Init(JobOf(q, texts, threads))], 0);
    handles, r := AttemptOf(q, texts, threads, run);
  }

  lemma JobHasNoEmptyChunk(q: Query, texts: seq<Bytes>, threads: nat)
    ensures ChunksNonEmpty(JobOf(q, texts, threads))
  {
    if threads > 0 {
      ChunksCover(TaggedFrames(texts), threads);
    }
  }

  // ---- without `aligned_cols_cnt`

  lemma NoColumnsNoRows(q: Query, pushed: seq<Line>)
    requires !q.aligned
    ensures WorkerFrame(q, pushed) == Ok(EMPTY)
  {
  }

  lemma {:induction false} NothingKept(frames: seq<Frame>)
    requires forall w :: 0 <= w < |frames| ==> frames[w] == EMPTY
    ensures Filter(HasRows, frames) == []
  {
    if frames != [] {
      NothingKept(frames[1..]);
    }
  }

  // Some worker with a handle was stopped by a line that is not UTF-8.
  ghost predicate MetBadLine(s: State<Line>, handles: seq<bool>)
    requires |handles| == |s.workers|
  {
    exists w :: 0 <= w < |handles| && handles[w] && s.workers[w].phase.Broken?
  }

  // The parallel scan yields no rows unless the columns are aligned; it fails
  // only on a line that is not UTF-8.
  lemma UnalignedYieldsNothing(q: Query, texts: seq<Bytes>, threads: nat, run: seq<State<Line>>, handles: seq<bool>,
                               r: Result<Option<Frame>>)
    requires Attempt(q, texts, threads, run, handles, r) && !q.aligned
    ensures run != [] && |handles| == |run[|run| - 1].workers|
    ensures r == Ok(None) || (r == Err && MetBadLine(run[|run| - 1], handles))
  {
    hide WorkerFrame, IsRun, Finished, JobOf;
    RunIsNotEmpty(JobOf(q, texts, threads), run);
    var job, s := JobOf(q, texts, threads), run[|run| - 1];
    var outcomes := OutcomesOf(q, s, handles);
    forall w | 0 <= w < |outcomes|
      ensures outcomes[w].Made? ==> outcomes[w].frame == EMPTY
      ensures outcomes[w].Failed? ==> handles[w] && s.workers[w].phase.Broken?
    {
      NoColumnsNoRows(q, s.workers[w].pushed);
    }
    if forall w :: 0 <= w < |outcomes| ==> outcomes[w].Made? {
      NothingKept(FramesIn(outcomes));
    }
  }

  // ---- stacking the frames of the workers

  // The frames are those of some parts of one table.
  predicate Parts(fields: seq<Field>, parts: seq<seq<Cells>>, frames: seq<Frame>) {
    && |parts| == |frames|
    && forall w :: 0 <= w < |frames| ==> frames[w] == if parts[w] == [] then EMPTY else Frame(fields, parts[w])
  }

  lemma {:induction false} StackParts(fields: seq<Field>, parts: seq<seq<Cells>>, frames: seq<Frame>)
    requires Parts(fields, parts, frames)
    ensures var kept, all := Filter(HasRows, frames), Flatten(parts);
            && (kept == [] <==> all == [])
            && (kept != [] ==> StackAll(kept) == Ok(Frame(fields, all)))
  {
    hide Flatten;
    FlattenNone<Cells>();
    if frames != [] {
      var last := |frames| - 1;
      var front, f := frames[..last], frames[last];
      StackParts(fields, parts[..last], front);
      assert frames == front + [f] && parts == parts[..last] + [parts[last]];
      FlattenLast(parts[..last], parts[last]);
      FilterConcat(HasRows, front, [f]);
      FilterOne(HasRows, f);
      var kept := Filter(HasRows, front);
      hide Filter;
      if f.rows == [] {
        assert kept + [] == kept;
        assert Flatten(parts[..last]) + [] == Flatten(parts[..last]);
      } else if kept == [] {
        assert kept + [f] == [f];
        assert [] + parts[last] == parts[last];
      } else {
        StackOneMore(kept, f);
      }
    }
  }

  lemma StackOneMore(frames: seq<Frame>, f: Frame)
    requires frames != []
    ensures StackAll(frames + [f])
            == if StackAll(frames).Err? then Err else Stack(StackAll(frames).value, f)
  {
    assert (frames + [f])[..|frames|] == frames;
  }

  // ---- lines that are all alike

  ghost predicate TextAlike(q: Query, keys: set<Key>, text: Bytes) {
    && keys != {}
    && forall line :: line in Accepted(q.filter, text) ==> Alike(q, keys, line) && q.rowFilter(RowOf(q, line))
  }

  lemma {:induction false} AllRowsPass(q: Query, lines: seq<Line>)
    requires forall i :: 0 <= i < |lines| ==> q.rowFilter(RowOf(q, lines[i].text))
    ensures PassingRows(q, TextsOf(lines)) == RowsOf(q, lines)
  {
    hide RowOf;
    if lines != [] {
      AllRowsPass(q, lines[1..]);
      assert TextsOf(lines)[1..] == TextsOf(lines[1..]);
      assert RowsOf(q, lines) == [RowOf(q, lines[0].text)] + RowsOf(q, lines[1..]);
    }
  }

  lemma RowsOfConcat(q: Query, a: seq<Line>, b: seq<Line>)
    ensures RowsOf(q, a + b) == RowsOf(q, a) + RowsOf(q, b)
  {
    hide RowOf;
  }

  lemma AlikeUniform(q: Query, keys: set<Key>, lines: seq<Line>)
    requires AllAlike(q, keys, lines)
    ensures Uniform(RowsOf(q, lines), keys)
  {
    hide ParsePairs, RowOfPairs, SameCell, DistinctKeys;
    forall i | 0 <= i < |lines|
      ensures RowsOf(q, lines)[i].Keys == keys
    {
      assert Alike(q, keys, lines[i].text);
      RowHolds(q, ParsePairs(lines[i].text));
    }
  }

  // The accepted lines of an alike text, seen by the workers and by the
  // sequential scan.
  lemma AlikeJob(q: Query, keys: set<Key>, texts: seq<Bytes>, threads: nat, text: Bytes)
    requires threads > 0 && LinesOfAll(texts) == Lines(text) && TextAlike(q, keys, text)
    ensures var all := AllAccepted(JobOf(q, texts, threads));
            && AllAlike(q, keys, all)
            && AcceptedRows(q, text) == RowsOf(q, all)
            && Uniform(AcceptedRows(q, text), keys)
  {
    hide Alike, RowOf, Lines, Filter, ChunksNonEmpty, AllAccepted;
    JobAccepts(q, texts, threads, text);
    var all := AllAccepted(JobOf(q, texts, threads));
    forall i | 0 <= i < |all|
      ensures Alike(q, keys, all[i].text) && q.rowFilter(RowOf(q, all[i].text))
    {
      assert TextsOf(all)[i] in Accepted(q.filter, text);
    }
    AllRowsPass(q, all);
    AlikeUniform(q, keys, all);
  }

  // The cells of one worker's rows before they are stacked.
  function PartOf(q: Query, keys: set<Key>, lines: seq<Line>): (cells: seq<Cells>) {
    if q.limit.None? then OutRows(q, RowsOf(q, lines), ToSet(OutKeys(q, keys)))
    else CellRows(q, RowsOf(q, lines), keys)
  }

  function PartFields(q: Query, keys: set<Key>): (fields: seq<Field>) {
    FieldsFor(q, if q.limit.None? then OutKeys(q, keys) else SortedKeys(keys))
  }

  lemma PartOfConcat(q: Query, keys: set<Key>, a: seq<Line>, b: seq<Line>)
    ensures PartOf(q, keys, a + b) == PartOf(q, keys, a) + PartOf(q, keys, b)
  {
    hide OutRows, RowOf, CellRow;
    RowsOfConcat(q, a, b);
    OutRowsConcat(q, RowsOf(q, a), RowsOf(q, b), ToSet(OutKeys(q, keys)));
    assert CellRows(q, RowsOf(q, a) + RowsOf(q, b), keys)
        == CellRows(q, RowsOf(q, a), keys) + CellRows(q, RowsOf(q, b), keys);
  }

  function PartsOf(q: Query, keys: set<Key>, lists: seq<seq<Line>>): (parts: seq<seq<Cells>>)
    ensures |parts| == |lists|
    ensures forall w :: 0 <= w < |lists| ==> parts[w] == PartOf(q, keys, lists[w])
  {
    seq(|lists|, w requires 0 <= w < |lists| => PartOf(q, keys, lists[w]))
  }

  lemma {:induction false} PartsJoin(q: Query, keys: set<Key>, lists: seq<seq<Line>>)
    ensures Flatten(PartsOf(q, keys, lists)) == PartOf(q, keys, Flatten(lists))
  {
    hide OutRows, RowOf, CellRow, PartOf;
    if lists == [] {
      NoLinesNoPart(q, keys);
    } else {
      PartsJoin(q, keys, lists[1..]);
      assert PartsOf(q, keys, lists)[1..] == PartsOf(q, keys, lists[1..]);
      PartOfConcat(q, keys, lists[0], Flatten(lists[1..]));
    }
  }

  lemma NoLinesNoPart(q: Query, keys: set<Key>)
    ensures PartOf(q, keys, []) == []
  {
  }

  lemma NothingPushedNoFrame(q: Query)
    ensures WorkerFrame(q, []) == Ok(EMPTY)
  {
  }

  // The frame of one worker whose lines are alike.
  lemma AlikeWorker(q: Query, keys: set<Key>, lines: seq<Line>)
    requires q.aligned && keys != {} && AllAlike(q, keys, lines)
    ensures WorkerFrame(q, lines)
            == (if lines != [] && q.limit.None? && !CanPush(q, keys) then Err
                else if PartOf(q, keys, lines) == [] then Ok(EMPTY)
                else Ok(Frame(PartFields(q, keys), PartOf(q, keys, lines))))
  {
    hide MadeFrame, OutRows, RowOf, CellRow, CanPush, SortedKeys, AllAlike, KeysOf, PushedFrame, PartOf, OutKeys;
    if lines == [] {
      NothingPushedNoFrame(q);
      NoLinesNoPart(q, keys);
    } else {
      BuilderMakesSameFrame(q, keys, lines);
      AlikeFrame(q, keys, lines);
      PartIs(q, keys, lines);
    }
  }

  lemma PartIs(q: Query, keys: set<Key>, lines: seq<Line>)
    ensures PartOf(q, keys, lines)
            == if q.limit.None? then OutRows(q, RowsOf(q, lines), ToSet(OutKeys(q, keys)))
               else CellRows(q, RowsOf(q, lines), keys)
  {
  }

  lemma AlikeFrame(q: Query, keys: set<Key>, lines: seq<Line>)
    requires keys != {} && lines != [] && AllAlike(q, keys, lines)
    ensures
      var rows := RowsOf(q, lines);
      var f := FrameOf(q, rows);
      && f.fields == FieldsFor(q, SortedKeys(keys)) != [] && f.rows == CellRows(q, rows, keys) != []
      && Pushdown(f, q.pred, q.columns) == UniformFrame(q, rows, keys)
      && FieldsFor(q, OutKeys(q, keys)) != []
  {
    hide OutRows, RowOf, CellRow, CanPush, SortedKeys, AllAlike, KeysOf, Pushdown, UniformFrame;
    var rows := RowsOf(q, lines);
    AlikeUniform(q, keys, lines);
    UniformKeys(rows, keys);
    UniformPushed(q, rows, keys);
    var k :| k in keys;
    assert k in SortedKeys(keys);
    assert |CellRows(q, rows, keys)| == |rows|;
  }

  // ---- parallel refines sequential

  lemma ScanOfFrame(q: Query, text: Bytes, f: Frame)
    requires q.useParallel && f.fields != [] && (q.limit.Some? ==> |f.rows| <= q.limit.value)
    ensures Scan(q, text, Ok(Some(f))) == Ok(f)
  {
    hide SingleBatch;
    var par := Ok(Some(f));
    var done := FRESH.(finished := true);
    assert NextBatch(q, text, par, FRESH) == (par, done);
    assert ScanFrom(q, text, par, done, Some(f)) == Ok(Finish(q, Some(f)));
  }

  lemma ScanOfError(q: Query, text: Bytes)
    requires q.useParallel
    ensures Scan(q, text, Err) == Err
  {
  }

  // The workers can read all lines of their chunks exactly when the text is
  // UTF-8.
  lemma JobReadableIff(q: Query, texts: seq<Bytes>, threads: nat, text: Bytes)
    requires threads > 0 && LinesOfAll(texts) == Lines(text)
    ensures JobReadable(JobOf(q, texts, threads)) <==> WellFormed(text)
  {
    hide WellFormed, Flatten, Lines, ChunksOf, AllAccepted;
    var job := JobOf(q, texts, threads);
    JobAccepts(q, texts, threads, text);
    LinesWellFormed(text);
    var lists := FlattenEach(job.chunks);
    var all := Flatten(lists);
    if WellFormed(text) {
      forall w | 0 <= w < |lists|
        ensures AllReadable(ReadableLine, lists[w])
      {
        forall i | 0 <= i < |lists[w]|
          ensures WellFormed(lists[w][i].text)
        {
          InFlatten(lists, w, lists[w][i]);
          var k :| 0 <= k < |all| && all[k] == lists[w][i];
          assert TextsOf(all)[k] in Lines(text);
        }
      }
    }
    if JobReadable(job) {
      forall t | t in Lines(text)
        ensures WellFormed(t)
      {
        var k :| 0 <= k < |all| && TextsOf(all)[k] == t;
        var w := OfFlatten(lists, all[k]);
        assert lists[w] == Flatten(job.chunks[w]) && AllReadable(ReadableLine, lists[w]);
      }
    }
  }

  lemma {:induction false} InFlatten<T>(lists: seq<seq<T>>, w: nat, x: T)
    requires w < |lists| && x in lists[w]
    ensures x in Flatten(lists)
  {
    if w > 0 {
      InFlatten(lists[1..], w - 1, x);
    }
  }

  lemma {:induction false} OfFlatten<T>(lists: seq<seq<T>>, x: T) returns (w: nat)
    requires x in Flatten(lists)
    ensures w < |lists| && x in lists[w]
  {
    if x in lists[0] {
      return 0;
    }
    w := OfFlatten(lists[1..], x);
    w := w + 1;
  }

  lemma AlikeList(q: Query, keys: set<Key>, lists: seq<seq<Line>>, w: nat)
    requires AllAlike(q, keys, Flatten(lists)) && w < |lists|
    ensures AllAlike(q, keys, lists[w])
  {
    hide Flatten, Alike;
    forall i | 0 <= i < |lists[w]|
      ensures Alike(q, keys, lists[w][i].text)
    {
      InFlatten(lists, w, lists[w][i]);
      var k :| 0 <= k < |Flatten(lists)| && Flatten(lists)[k] == lists[w][i];
    }
  }
}
