// The parallel scan on lines that need not carry the same keys: what
// `aligned_cols_cnt` makes of them.
module RaggedScan {
  import opened Text
  import opened Utf8
  import opened LogfmtParser
  import opened SchemaProbe
  import opened Table
  import opened RowTable
  import opened FrameLines
  import opened RowBudget
  import opened FirstRows
  import opened SequentialScan
  import opened WorkerFrames
  import opened ParallelScan
  import opened ParallelLaws
  import opened SlicedLaws

  // ---- the table of some keys, filtered and projected

  predicate LinePasses(q: Query, line: Line) {
    q.pred.None? || q.pred.value.holds(TableRow(q, q.pred.value.uses, line.text))
  }

  function Passing(q: Query, lines: seq<Line>): (kept: seq<Line>) {
    Filter((line: Line) => LinePasses(q, line), lines)
  }

  function TableFrame(q: Query, keys: set<Key>, lines: seq<Line>): (f: Frame) {
    Frame(BuiltFields(q, SortedKeys(keys)), TableRows(q, keys, lines))
  }

  // The lines that pass, with the columns that are asked for.
  function PassedFrame(q: Query, columns: seq<Key>, lines: seq<Line>): (f: Frame) {
    Frame(BuiltFields(q, columns), TableRows(q, ToSet(columns), Passing(q, lines)))
  }

  lemma FewerCells(q: Query, keys: set<Key>, fewer: set<Key>, text: Bytes)
    requires fewer <= keys
    ensures Restrict(TableRow(q, keys, text), fewer) == TableRow(q, fewer, text)
  {
    hide TableCell, KindOfKey, ParsePairs;
  }

  lemma TableRowsConcat(q: Query, keys: set<Key>, a: seq<Line>, b: seq<Line>)
    ensures TableRows(q, keys, a + b) == TableRows(q, keys, a) + TableRows(q, keys, b)
  {
    hide TableRow;
  }

  lemma NoTableRows(q: Query, keys: set<Key>)
    ensures TableRows(q, keys, []) == [] && Passing(q, []) == []
  {
  }

  lemma {:induction false} TableRowsPass(q: Query, keys: set<Key>, lines: seq<Line>)
    requires q.pred.Some? && q.pred.value.uses <= keys
    ensures Filter(Passes(q.pred.value), TableRows(q, keys, lines)) == TableRows(q, keys, Passing(q, lines))
  {
    hide TableRow, TableRows, Filter;
    NoTableRows(q, keys);
    if lines == [] {
      FilterNothing(Passes(q.pred.value));
    } else {
      var first, rest := lines[0], lines[1..];
      TableRowsPass(q, keys, rest);
      assert lines == [first] + rest;
      TableRowsConcat(q, keys, [first], rest);
      OneTableRow(q, keys, first);
      FilterConcat(Passes(q.pred.value), [TableRow(q, keys, first.text)], TableRows(q, keys, rest));
      FilterOne(Passes(q.pred.value), TableRow(q, keys, first.text));
      OnePassing(q, keys, first);
      FilterConcat((line: Line) => LinePasses(q, line), [first], rest);
      TableRowsConcat(q, keys, Passing(q, [first]), Passing(q, rest));
    }
  }

  lemma OneTableRow(q: Query, keys: set<Key>, line: Line)
    ensures TableRows(q, keys, [line]) == [TableRow(q, keys, line.text)]
  {
  }

  lemma OnePassing(q: Query, keys: set<Key>, line: Line)
    requires q.pred.Some? && q.pred.value.uses <= keys
    ensures Passing(q, [line]) == if Passes(q.pred.value)(TableRow(q, keys, line.text)) then [line] else []
  {
    hide TableRow, Filter;
    FewerCells(q, keys, q.pred.value.uses, line.text);
    FilterOne((x: Line) => LinePasses(q, x), line);
  }

  lemma {:induction false} AllPass(q: Query, lines: seq<Line>)
    requires q.pred.None?
    ensures Passing(q, lines) == lines
  {
    if lines != [] {
      AllPass(q, lines[1..]);
    }
  }

  lemma BuiltNamed(q: Query, keys: set<Key>, name: Key)
    requires name in keys
    ensures name in Names(BuiltFields(q, SortedKeys(keys)))
    ensures FieldNamed(BuiltFields(q, SortedKeys(keys)), name) == Field(name, BuiltType(KindOfKey(q, name)))
  {
    hide SortedKeys, KindOfKey;
    BuiltNames(q, keys);
    var f := FieldNamed(BuiltFields(q, SortedKeys(keys)), name);
    var i :| 0 <= i < |SortedKeys(keys)| && BuiltFields(q, SortedKeys(keys))[i] == f;
  }

  lemma TablePicked(q: Query, keys: set<Key>, columns: seq<Key>, lines: seq<Line>)
    requires forall i :: 0 <= i < |columns| ==> columns[i] in keys
    requires Names(BuiltFields(q, SortedKeys(keys))) == keys
    ensures Pick(TableFrame(q, keys, lines), columns)
            == Frame(BuiltFields(q, columns), TableRows(q, ToSet(columns), lines))
  {
    hide SortedKeys, KindOfKey, TableRow;
    var picked := Pick(TableFrame(q, keys, lines), columns);
    forall i | 0 <= i < |columns|
      ensures picked.fields[i] == BuiltFields(q, columns)[i]
    {
      BuiltNamed(q, keys, columns[i]);
    }
    assert (set k | k in columns) == ToSet(columns);
    forall i | 0 <= i < |lines|
      ensures picked.rows[i] == TableRow(q, ToSet(columns), lines[i].text)
    {
      FewerCells(q, keys, ToSet(columns), lines[i].text);
    }
    assert picked.rows == TableRows(q, ToSet(columns), lines);
  }

  // The pushdown of a table of some keys, row by row.
  lemma TablePushed(q: Query, keys: set<Key>, lines: seq<Line>)
    ensures Pushdown(TableFrame(q, keys, lines), q.pred, q.columns)
            == if CanPush(q, keys) then Ok(PassedFrame(q, OutKeys(q, keys), lines)) else Err
  {
    hide SortedKeys, KindOfKey, TableRow, Filter, LinePasses;
    BuiltNames(q, keys);
    if q.pred.None? {
      AllPass(q, lines);
    } else if q.pred.value.uses <= keys {
      TableRowsPass(q, keys, lines);
    }
    if CanPush(q, keys) {
      var kept := TableFrame(q, keys, Passing(q, lines));
      assert Where(TableFrame(q, keys, lines), q.pred) == Ok(kept);
      if q.columns.Some? && q.columns.value != [] {
        TablePicked(q, keys, q.columns.value, Passing(q, lines));
      } else {
        assert ToSet(SortedKeys(keys)) == keys;
      }
    }
  }

  lemma OutKeysNotEmpty(q: Query, keys: set<Key>)
    requires keys != {}
    ensures OutKeys(q, keys) != []
  {
    SortedNone(keys);
  }

  // ---- one worker

  function LeadKeys(lines: seq<Line>): (keys: set<Key>)
    requires lines != []
  {
    KeySet(ParsePairs(lines[0].text))
  }

  lemma RaggedWorker(q: Query, lines: seq<Line>)
    requires q.aligned && q.limit.None? && lines != [] && Led(LeadKeys(lines), lines)
    ensures var keys := LeadKeys(lines);
            WorkerFrame(q, lines)
            == (if !CanPush(q, keys) then Err
                else if Passing(q, lines) == [] then Ok(EMPTY)
                else Ok(PassedFrame(q, OutKeys(q, keys), lines)))
  {
    hide MadeFrame, Pushdown, ParsePairs, KeySet, CanPush, TableRow, OutKeys, SortedKeys, Passing, DistinctKeys;
    var keys := LeadKeys(lines);
    FirstLineTable(q, keys, lines);
    SortedNone(keys);
    OutKeysNotEmpty(q, keys);
    TablePushed(q, keys, lines);
  }

  // ---- all workers

  // The first accepted line of every chunk that has one carries a key, and no
  // accepted line repeats one.
  ghost predicate ChunksLed(job: Job<Line>) {
    forall w :: 0 <= w < |job.chunks| && AcceptedOf(job, w) != [] ==>
      Led(LeadKeys(AcceptedOf(job, w)), AcceptedOf(job, w))
  }

  // The columns the worker of a chunk ends up with.
  function LeadColumns(q: Query, job: Job<Line>, w: nat): (columns: seq<Key>)
    requires w < |job.chunks| && AcceptedOf(job, w) != []
  {
    OutKeys(q, LeadKeys(AcceptedOf(job, w)))
  }

  ghost predicate AllCanPush(q: Query, job: Job<Line>) {
    forall w :: 0 <= w < |job.chunks| && AcceptedOf(job, w) != [] ==> CanPush(q, LeadKeys(AcceptedOf(job, w)))
  }

  // The chunk has an accepted line that the predicate lets through.
  predicate Live(q: Query, job: Job<Line>, w: nat) {
    w < |job.chunks| && AcceptedOf(job, w) != [] && Passing(q, AcceptedOf(job, w)) != []
  }

  ghost predicate ColumnsAgree(q: Query, job: Job<Line>) {
    forall v: nat, w: nat :: Live(q, job, v) && Live(q, job, w) ==> LeadColumns(q, job, v) == LeadColumns(q, job, w)
  }

  // What the worker of a chunk makes.
  function ChunkFrame(q: Query, job: Job<Line>, w: nat): (f: Frame)
    requires w < |job.chunks|
  {
    if Live(q, job, w) then PassedFrame(q, LeadColumns(q, job, w), AcceptedOf(job, w)) else EMPTY
  }

  function ChunkFrames(q: Query, job: Job<Line>): (frames: seq<Frame>)
    ensures |frames| == |job.chunks|
    ensures forall w :: 0 <= w < |frames| ==> frames[w] == ChunkFrame(q, job, w)
  {
    seq(|job.chunks|, w requires 0 <= w < |job.chunks| => ChunkFrame(q, job, w))
  }

  lemma LiveHasRows(q: Query, job: Job<Line>, w: nat)
    requires w < |job.chunks|
    ensures HasRows(ChunkFrame(q, job, w)) <==> Live(q, job, w)
  {
    hide Passing, OutKeys, AcceptedOf, TableRow;
  }

  // ---- stacking

  lemma {:induction false} StackedFields(frames: seq<Frame>)
    requires frames != [] && StackAll(frames).Ok?
    ensures forall i :: 0 <= i < |frames| ==> frames[i].fields == StackAll(frames).value.fields
  {
    if |frames| > 1 {
      StackedFields(frames[..|frames| - 1]);
    }
  }

  lemma {:induction false} KeptInFilter<T>(keep: T -> bool, xs: seq<T>, i: nat)
    requires i < |xs| && keep(xs[i])
    ensures xs[i] in Filter(keep, xs)
  {
    if i > 0 {
      KeptInFilter(keep, xs[1..], i - 1);
    }
  }

  lemma SameBuiltSameKeys(q: Query, a: seq<Key>, b: seq<Key>)
    requires BuiltFields(q, a) == BuiltFields(q, b)
    ensures a == b
  {
    hide KindOfKey, BuiltType;
    assert |BuiltFields(q, a)| == |BuiltFields(q, b)|;
    forall i | 0 <= i < |a|
      ensures a[i] == b[i]
    {
      assert BuiltFields(q, a)[i].name == BuiltFields(q, b)[i].name;
    }
  }

  // Frames with different columns do not stack.
  lemma DifferentColumns(q: Query, job: Job<Line>)
    requires !ColumnsAgree(q, job)
    ensures Combine(q, ChunkFrames(q, job)) == Ok(None)
  {
    hide Passing, OutKeys, AcceptedOf, TableRow, Filter, StackAll, Pushdown, LeadColumns, BuiltFields, ChunkFrame;
    var v: nat, w: nat :| Live(q, job, v) && Live(q, job, w) && LeadColumns(q, job, v) != LeadColumns(q, job, w);
    var frames := ChunkFrames(q, job);
    LiveFrame(q, job, v);
    LiveFrame(q, job, w);
    KeptInFilter(HasRows, frames, v);
    KeptInFilter(HasRows, frames, w);
    var kept := Filter(HasRows, frames);
    if StackAll(kept).Ok? {
      StackedFields(kept);
      SameBuiltSameKeys(q, LeadColumns(q, job, v), LeadColumns(q, job, w));
    }
  }

  lemma LiveFrame(q: Query, job: Job<Line>, w: nat)
    requires Live(q, job, w)
    ensures w < |job.chunks| && AcceptedOf(job, w) != []
    ensures HasRows(ChunkFrames(q, job)[w])
    ensures ChunkFrames(q, job)[w].fields == BuiltFields(q, LeadColumns(q, job, w))
  {
    hide Passing, OutKeys, AcceptedOf, TableRow, LeadColumns, BuiltFields;
    LiveHasRows(q, job, w);
  }

  function PartsUnder(q: Query, columns: seq<Key>, lists: seq<seq<Line>>): (parts: seq<seq<Cells>>)
    ensures |parts| == |lists|
    ensures forall w :: 0 <= w < |lists| ==> parts[w] == TableRows(q, ToSet(columns), Passing(q, lists[w]))
  {
    seq(|lists|, w requires 0 <= w < |lists| => TableRows(q, ToSet(columns), Passing(q, lists[w])))
  }

  lemma {:induction false} PartsUnderJoin(q: Query, columns: seq<Key>, lists: seq<seq<Line>>)
    ensures Flatten(PartsUnder(q, columns, lists)) == TableRows(q, ToSet(columns), Passing(q, Flatten(lists)))
  {
    hide TableRow, LinePasses, TableRows, Filter;
    if lists == [] {
      NoTableRows(q, ToSet(columns));
    } else {
      PartsUnderJoin(q, columns, lists[1..]);
      assert PartsUnder(q, columns, lists)[1..] == PartsUnder(q, columns, lists[1..]);
      FilterConcat((line: Line) => LinePasses(q, line), lists[0], Flatten(lists[1..]));
      TableRowsConcat(q, ToSet(columns), Passing(q, lists[0]), Passing(q, Flatten(lists[1..])));
    }
  }

  // Frames with the same columns stack to the table of all lines.
  lemma SameColumns(q: Query, job: Job<Line>, w: nat)
    requires q.limit.None? && ColumnsAgree(q, job) && Live(q, job, w)
    ensures Combine(q, ChunkFrames(q, job)) == Ok(Some(PassedFrame(q, LeadColumns(q, job, w), AllAccepted(job))))
    ensures Passing(q, AllAccepted(job)) != []
  {
    hide Passing, OutKeys, AcceptedOf, TableRow, Filter, StackAll, Pushdown, LeadColumns, BuiltFields, ChunkFrame,
      Flatten;
    var columns, frames, lists := LeadColumns(q, job, w), ChunkFrames(q, job), AcceptedLists(job);
    var parts := PartsUnder(q, columns, lists);
    forall x | 0 <= x < |frames|
      ensures frames[x] == if parts[x] == [] then EMPTY else Frame(BuiltFields(q, columns), parts[x])
    {
      NoTableRows(q, ToSet(columns));
      ChunkPart(q, job, columns, x);
    }
    PartsUnderJoin(q, columns, lists);
    StackParts(BuiltFields(q, columns), parts, frames);
    LiveFrame(q, job, w);
    KeptInFilter(HasRows, frames, w);
  }

  lemma ChunkPart(q: Query, job: Job<Line>, columns: seq<Key>, w: nat)
    requires w < |job.chunks| && (Live(q, job, w) ==> LeadColumns(q, job, w) == columns)
    ensures var part := TableRows(q, ToSet(columns), Passing(q, AcceptedOf(job, w)));
            ChunkFrame(q, job, w) == if part == [] then EMPTY else Frame(BuiltFields(q, columns), part)
  {
    hide Passing, OutKeys, AcceptedOf, TableRow, LeadColumns, BuiltFields;
    NoTableRows(q, ToSet(columns));
    if AcceptedOf(job, w) == [] {
      assert Passing(q, AcceptedOf(job, w)) == [];
    }
  }

  lemma NothingLive(q: Query, job: Job<Line>)
    requires forall w: nat :: !Live(q, job, w)
    ensures Combine(q, ChunkFrames(q, job)) == Ok(None)
  {
    hide Live;
    NothingKept(ChunkFrames(q, job));
  }

  // ---- the scan

  // Without a slice a worker that is not stopped makes the frame of its chunk.
  lemma ChunkOutcome(q: Query, job: Job<Line>, run: seq<State<Line>>, w: nat)
    requires q.aligned && q.limit.None? && job.limit.None? && ChunksNonEmpty(job) && ChunksLed(job)
    requires Completes(job, run) && w < |job.chunks|
    ensures |run[|run| - 1].workers| == |job.chunks|
    ensures OutcomeOf(q, run[|run| - 1].workers[w], true)
            == if AcceptedOf(job, w) != [] && !CanPush(q, LeadKeys(AcceptedOf(job, w))) then Failed
               else Made(ChunkFrame(q, job, w))
  {
    hide Passing, OutKeys, AcceptedOf, WorkerFrame, IsRun, Led, CanPush, LeadKeys, Flatten, BuiltFields, TableRows;
    RunIsNotEmpty(job, run);
    FinishedRunFillsSlice(job, run);
    var k := run[|run| - 1].workers[w];
    assert Ended(k) && !k.phase.Broken?;
    NothingPushedNoFrame(q);
    if AcceptedOf(job, w) != [] {
      RaggedWorker(q, AcceptedOf(job, w));
    }
  }

  // A text that is not UTF-8 stops some worker.
  lemma UnreadableStops(q: Query, texts: seq<Bytes>, threads: nat, text: Bytes, run: seq<State<Line>>,
                        handles: seq<bool>, r: Result<Option<Frame>>)
    requires q.limit.None? && threads > 0 && LinesOfAll(texts) == Lines(text) && !WellFormed(text)
    requires Attempt(q, texts, threads, run, handles, r) && AllTrue(handles)
    ensures r == Err
  {
    hide Lines, LinesOfAll, JobOf, IsRun, Finished, Gives, WellFormed, JobReadable;
    var job := JobOf(q, texts, threads);
    RunIsNotEmpty(job, run);
    var s := run[|run| - 1];
    JobHasNoEmptyChunk(q, texts, threads);
    JobLimit(q, texts, threads);
    JobReadableIff(q, texts, threads, text);
    if NoneBroken(s) {
      NeverBrokeIsReadable(job, run);
    } else {
      var w :| 0 <= w < |s.workers| && s.workers[w].phase.Broken?;
      StoppedFails(q, s, handles, w, r);
    }
  }

  // What the parallel batch gives on a UTF-8 text.
  lemma RaggedAttempt(q: Query, texts: seq<Bytes>, threads: nat, text: Bytes, run: seq<State<Line>>,
                      handles: seq<bool>, r: Result<Option<Frame>>)
    requires q.aligned && q.limit.None? && threads > 0 && LinesOfAll(texts) == Lines(text) && WellFormed(text)
    requires ChunksLed(JobOf(q, texts, threads))
    requires Attempt(q, texts, threads, run, handles, r) && AllTrue(handles)
    ensures var job := JobOf(q, texts, threads);
            r == if AllCanPush(q, job) then Combine(q, ChunkFrames(q, job)) else Err
  {
    hide Lines, LinesOfAll, JobOf, IsRun, Finished, WellFormed, JobReadable, Combine, ChunkFrame, CanPush, AcceptedOf,
      ChunksLed, LeadKeys, OutcomeOf;
    var job := JobOf(q, texts, threads);
    RunIsNotEmpty(job, run);
    var s := run[|run| - 1];
    JobHasNoEmptyChunk(q, texts, threads);
    JobLimit(q, texts, threads);
    JobReadableIff(q, texts, threads, text);
    ReadableNeverBreaks(job, run);
    var outcomes := OutcomesOf(q, s, handles);
    forall w | 0 <= w < |outcomes|
      ensures outcomes[w] == if AcceptedOf(job, w) != [] && !CanPush(q, LeadKeys(AcceptedOf(job, w))) then Failed
                             else Made(ChunkFrame(q, job, w))
    {
      assert handles[w];
      ChunkOutcome(q, job, run, w);
    }
    if AllCanPush(q, job) {
      assert FramesIn(outcomes) == ChunkFrames(q, job);
    } else {
      var w :| 0 <= w < |job.chunks| && AcceptedOf(job, w) != [] && !CanPush(q, LeadKeys(AcceptedOf(job, w)));
      assert outcomes[w] == Failed;
    }
  }

  // With `aligned_cols_cnt`, without a slice and with a handle for every worker,
  // for lines that repeat no key and need not carry the same ones: an error if
  // the text is not UTF-8 or the pushdown is impossible for the first line of
  // some chunk. Otherwise, if the chunks with rows that pass lead to the same
  // columns, one row for every line that passes, in file order, with a null
  // where it lacks a column; and the sequential scan if they do not, or if no
  // row passes.
  lemma RaggedScanIs(q: Query, texts: seq<Bytes>, threads: nat, text: Bytes, run: seq<State<Line>>,
                     handles: seq<bool>, r: Result<Option<Frame>>)
    requires q.aligned && q.useParallel && q.limit.None? && threads > 0 && LinesOfAll(texts) == Lines(text)
    requires ChunksLed(JobOf(q, texts, threads))
    requires Attempt(q, texts, threads, run, handles, r) && AllTrue(handles)
    ensures
      var job := JobOf(q, texts, threads);
      && TextsOf(AllAccepted(job)) == Accepted(q.filter, text)
      && if !WellFormed(text) || !AllCanPush(q, job) then Scan(q, text, r) == Err
         else if ColumnsAgree(q, job) && exists w: nat :: Live(q, job, w) then
           forall w: nat :: Live(q, job, w) ==>
             Scan(q, text, r) == Ok(PassedFrame(q, LeadColumns(q, job, w), AllAccepted(job)))
         else Scan(q, text, r) == ScanInOrder(q, text)
  {
    hide Lines, LinesOfAll, JobOf, WellFormed, Combine, AllCanPush, Attempt, Scan, ScanInOrder, ColumnsAgree,
      AllAccepted, LeadColumns, ChunkFrames, PassedFrame, Passing, AcceptedOf;
    var job := JobOf(q, texts, threads);
    JobAccepts(q, texts, threads, text);
    ScanOfNone(q, text);
    ScanOfError(q, text);
    if !WellFormed(text) {
      UnreadableStops(q, texts, threads, text, run, handles, r);
    } else {
      RaggedAttempt(q, texts, threads, text, run, handles, r);
      if AllCanPush(q, job) && !ColumnsAgree(q, job) {
        DifferentColumns(q, job);
      } else if AllCanPush(q, job) && exists w: nat :: Live(q, job, w) {
        forall w: nat | Live(q, job, w)
          ensures Scan(q, text, r) == Ok(PassedFrame(q, LeadColumns(q, job, w), AllAccepted(job)))
        {
          SameColumns(q, job, w);
          LeadsSomewhere(q, job, w);
          ScanOfFrame(q, text, PassedFrame(q, LeadColumns(q, job, w), AllAccepted(job)));
        }
      } else if AllCanPush(q, job) {
        NothingLive(q, job);
      }
    }
  }

  lemma LeadsSomewhere(q: Query, job: Job<Line>, w: nat)
    requires ChunksLed(job) && Live(q, job, w)
    ensures PassedFrame(q, LeadColumns(q, job, w), AllAccepted(job)).fields != []
  {
    hide OutKeys, AcceptedOf, Passing, LeadKeys, AllAccepted, TableRows;
    OutKeysNotEmpty(q, LeadKeys(AcceptedOf(job, w)));
  }

  // ---- when the first lines carry the same keys

  ghost predicate LedBy(keys: set<Key>, job: Job<Line>) {
    forall w :: 0 <= w < |job.chunks| && AcceptedOf(job, w) != [] ==> Led(keys, AcceptedOf(job, w))
  }

  lemma LedBySame(keys: set<Key>, job: Job<Line>)
    requires LedBy(keys, job)
    ensures ChunksLed(job)
    ensures forall w :: 0 <= w < |job.chunks| && AcceptedOf(job, w) != [] ==> LeadKeys(AcceptedOf(job, w)) == keys
  {
    hide AcceptedOf, ParsePairs, DistinctKeys, KeySet;
  }

  // Where those first lines carry the same keys, the scan is the table of these
  // keys with all accepted lines, whatever keys the others carry, filtered and
  // projected; it goes back to the sequential scan if that has no row, and
  // fails on a text that is not UTF-8.
  lemma FirstLinesDecide(q: Query, keys: set<Key>, texts: seq<Bytes>, threads: nat, text: Bytes,
                         run: seq<State<Line>>, handles: seq<bool>, r: Result<Option<Frame>>)
    requires q.aligned && q.useParallel && q.limit.None? && threads > 0 && LinesOfAll(texts) == Lines(text)
    requires LedBy(keys, JobOf(q, texts, threads))
    requires Attempt(q, texts, threads, run, handles, r) && AllTrue(handles)
    ensures
      var whole := Pushdown(TableFrame(q, keys, AllAccepted(JobOf(q, texts, threads))), q.pred, q.columns);
      Scan(q, text, r)
      == (if !WellFormed(text) then Err
          else if Accepted(q.filter, text) == [] || (whole.Ok? && whole.value.rows == []) then ScanInOrder(q, text)
          else whole)
  {
    hide Lines, LinesOfAll, JobOf, WellFormed, Attempt, Scan, ScanInOrder, Passing, AcceptedOf, LeadKeys, CanPush,
      Pushdown, OutKeys, BuiltFields, TableRow, LedBy, ChunksLed, Flatten;
    var job := JobOf(q, texts, threads);
    LedBySame(keys, job);
    RaggedScanIs(q, texts, threads, text, run, handles, r);
    TablePushed(q, keys, AllAccepted(job));
    JobAccepts(q, texts, threads, text);
    FlattenSome(AcceptedLists(job));
    forall w | 0 <= w < |job.chunks| && AcceptedOf(job, w) != []
      ensures AllAccepted(job) != []
    {
      PartNotEmpty(AcceptedLists(job), w);
    }
    LiveIffPassing(q, job);
  }

  lemma {:induction false} NonePasses(q: Query, lists: seq<seq<Line>>)
    ensures Passing(q, Flatten(lists)) != [] <==> exists w :: 0 <= w < |lists| && Passing(q, lists[w]) != []
  {
    hide LinePasses, Filter;
    if lists == [] {
      FilterNothing((line: Line) => LinePasses(q, line));
    } else {
      NonePasses(q, lists[1..]);
      FilterConcat((line: Line) => LinePasses(q, line), lists[0], Flatten(lists[1..]));
      assert forall w :: 1 <= w < |lists| ==> lists[w] == lists[1..][w - 1];
      assert forall w :: 0 <= w < |lists| - 1 ==> lists[1..][w] == lists[w + 1];
    }
  }

  lemma LiveIffPassing(q: Query, job: Job<Line>)
    ensures Passing(q, AllAccepted(job)) != [] <==> exists w: nat :: Live(q, job, w)
  {
    hide Passing, AcceptedOf, Flatten;
    var lists := AcceptedLists(job);
    NonePasses(q, lists);
    NoTableRows(q, {});
    if exists w: nat :: Live(q, job, w) {
      var w: nat :| Live(q, job, w);
      assert Passing(q, lists[w]) != [];
    }
    if Passing(q, AllAccepted(job)) != [] {
      var w :| 0 <= w < |lists| && Passing(q, lists[w]) != [];
      assert Live(q, job, w);
    }
  }
}
