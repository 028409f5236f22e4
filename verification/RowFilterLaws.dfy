// The row filter, of which the parallel scan takes no notice.
module RowFilterLaws {
  import opened Text
  import opened Utf8
  import opened LogfmtParser
  import opened SchemaProbe
  import opened Table
  import opened Builder
  import opened FrameLines
  import opened RowBudget
  import opened FirstRows
  import opened SequentialScan
  import opened SequentialLaws
  import opened UniformScan
  import opened WorkerFrames
  import opened ParallelScan
  import opened ParallelLaws

  ghost predicate SameButRowFilter(q: Query, q': Query) {
    q' == q.(rowFilter := q'.rowFilter)
  }

  function Unfiltered(q: Query): Query {
    q.(rowFilter := _ => true)
  }

  lemma {:induction false} SameOpening(q: Query, q': Query, lines: seq<Line>)
    requires SameButRowFilter(q, q')
    ensures OpeningOf(q, lines) == OpeningOf(q', lines) && HistoryOf(q, lines) == HistoryOf(q', lines)
  {
    if lines != [] {
      SameOpening(q, q', lines[..|lines| - 1]);
    }
  }

  lemma SameAttempt(q: Query, q': Query, texts: seq<Bytes>, threads: nat, run: seq<State<Line>>, handles: seq<bool>,
                    r: Result<Option<Frame>>)
    requires SameButRowFilter(q, q') && Attempt(q, texts, threads, run, handles, r)
    ensures Attempt(q', texts, threads, run, handles, r)
  {
    hide IsRun, Finished, Emit, FromColumns, OpeningOf, HistoryOf, Combine;
    RunIsNotEmpty(JobOf(q, texts, threads), run);
    assert JobOf(q, texts, threads) == JobOf(q', texts, threads);
    var s := run[|run| - 1];
    forall w | 0 <= w < |s.workers|
      ensures OutcomeOf(q, s.workers[w], handles[w]) == OutcomeOf(q', s.workers[w], handles[w])
    {
      SameOpening(q, q', s.workers[w].pushed);
    }
    var outcomes := OutcomesOf(q, s, handles);
    assert outcomes == OutcomesOf(q', s, handles);
    if forall w :: 0 <= w < |outcomes| ==> outcomes[w].Made? {
      SameCombine(q, q', outcomes);
    }
  }

  lemma SameCombine(q: Query, q': Query, outcomes: seq<WorkerOutcome>)
    requires SameButRowFilter(q, q') && forall w :: 0 <= w < |outcomes| ==> outcomes[w].Made?
    ensures Combine(q, FramesIn(outcomes)) == Combine(q', FramesIn(outcomes))
  {
  }

  // A parallel scan that does not fall back takes no notice of the row filter:
  // it is the sequential scan without one.
  lemma ParallelIgnoresRowFilter(q: Query, keys: set<Key>, texts: seq<Bytes>, threads: nat, text: Bytes,
                                 run: seq<State<Line>>, handles: seq<bool>, r: Result<Option<Frame>>)
    requires q.aligned && q.useParallel && q.limit.None? && q.batch != Some(0)
    requires LinesOfAll(texts) == Lines(text) && TextAlike(Unfiltered(q), keys, text)
    requires Attempt(q, texts, threads, run, handles, r) && r != Ok(None)
    ensures Scan(q, text, r) == ScanInOrder(Unfiltered(q), text)
  {
    hide Lines, LinesOfAll, TextAlike, Attempt, Scan;
    var q' := Unfiltered(q);
    SameAttempt(q, q', texts, threads, run, handles, r);
    ParallelRefinesSequential(q', keys, texts, threads, text, run, handles, r);
    ParallelAnswer(q, text, r);
    ParallelAnswer(q', text, r);
  }

  // A parallel answer is the answer of the scan.
  lemma ParallelAnswer(q: Query, text: Bytes, r: Result<Option<Frame>>)
    requires q.useParallel && q.limit.None? && r != Ok(None)
    ensures Scan(q, text, r) == if r.Err? then Err else Ok(if r.value.value.fields == [] then EMPTY else r.value.value)
  {
    hide SingleBatch;
    if r.Ok? {
      var f, done := r.value.value, FRESH.(finished := true);
      assert NextBatch(q, text, r, FRESH) == (r, done);
      var acc := if f.fields == [] then None else Some(f);
      assert ScanFrom(q, text, r, done, acc) == Ok(Finish(q, acc));
    }
  }

  // ---- when that makes a difference

  // How many of the lines have a row that the filter drops and the predicate
  // would let through.
  function DroppedPassing(q: Query, lines: seq<Bytes>): (n: nat) {
    if lines == [] then 0
    else
      var row := RowOf(q, lines[0]);
      (if !q.rowFilter(row) && RowPasses(q, row) then 1 else 0) + DroppedPassing(q, lines[1..])
  }

  function RowsOfLines(q: Query, lines: seq<Bytes>): (rows: seq<Row>)
    ensures |rows| == |lines|
    ensures forall i :: 0 <= i < |lines| ==> rows[i] == RowOf(q, lines[i])
  {
    seq(|lines|, i requires 0 <= i < |lines| => RowOf(q, lines[i]))
  }

  lemma {:induction false} UnfilteredRows(q: Query, lines: seq<Bytes>)
    ensures PassingRows(Unfiltered(q), lines) == RowsOfLines(q, lines)
  {
    hide RowOfPairs, ParsePairs;
    if lines != [] {
      UnfilteredRows(q, lines[1..]);
      hide RowsOfLines;
      SameRow(q, Unfiltered(q), ParsePairs(lines[0]));
      RowsOfOneMore(q, lines[0], lines[1..]);
      assert lines == [lines[0]] + lines[1..];
    }
  }

  lemma RowsOfOneMore(q: Query, line: Bytes, lines: seq<Bytes>)
    ensures RowsOfLines(q, [line] + lines) == [RowOf(q, line)] + RowsOfLines(q, lines)
  {
    hide RowOf;
  }

  lemma {:induction false} FilteredAreUniform(q: Query, lines: seq<Bytes>, keys: set<Key>)
    requires Uniform(RowsOfLines(q, lines), keys)
    ensures Uniform(PassingRows(q, lines), keys)
  {
    hide RowOf;
    if lines != [] {
      var all := RowsOfLines(q, lines);
      assert forall i :: 0 <= i < |lines| - 1 ==> RowsOfLines(q, lines[1..])[i] == all[i + 1];
      assert all[0] == RowOf(q, lines[0]);
      FilteredAreUniform(q, lines[1..], keys);
    }
  }

  // What the dropped rows would have added.
  lemma {:induction false} DroppedOut(q: Query, lines: seq<Bytes>, keys: set<Key>)
    ensures var all, kept := OutRows(q, RowsOfLines(q, lines), keys), OutRows(q, PassingRows(q, lines), keys);
            && |all| == |kept| + DroppedPassing(q, lines)
            && (DroppedPassing(q, lines) == 0 ==> all == kept)
  {
    hide RowOf, RowPasses, CellRow;
    if lines != [] {
      DroppedOut(q, lines[1..], keys);
      var row, rest := RowOf(q, lines[0]), RowsOfLines(q, lines[1..]);
      RowsOfOneMore(q, lines[0], lines[1..]);
      assert lines == [lines[0]] + lines[1..];
      OutOneMore(q, row, rest, keys);
      OutOneMore(q, row, PassingRows(q, lines[1..]), keys);
      assert [] + PassingRows(q, lines[1..]) == PassingRows(q, lines[1..]);
    }
  }

  lemma OutOneMore(q: Query, row: Row, rows: seq<Row>, keys: set<Key>)
    ensures OutRows(q, [row] + rows, keys)
            == (if RowPasses(q, row) then [CellRow(q, row, keys)] else []) + OutRows(q, rows, keys)
  {
    hide RowPasses, CellRow;
    assert ([row] + rows)[1..] == rows;
  }

  lemma {:induction false} SameOut(q: Query, q': Query, rows: seq<Row>, keys: set<Key>)
    requires SameButRowFilter(q, q')
    ensures OutRows(q, rows, keys) == OutRows(q', rows, keys)
  {
    if rows != [] {
      SameOut(q, q', rows[1..], keys);
      assert CellRow(q, rows[0], keys) == CellRow(q', rows[0], keys);
      assert q.pred.Some? ==> CellRow(q, rows[0], q.pred.value.uses) == CellRow(q', rows[0], q.pred.value.uses);
    }
  }

  lemma SameUniformFrame(q: Query, q': Query, rows: seq<Row>, keys: set<Key>)
    requires SameButRowFilter(q, q')
    ensures UniformFrame(q, rows, keys) == UniformFrame(q', rows, keys)
  {
    hide OutRows, SortedKeys;
    SameOut(q, q', rows, ToSet(OutKeys(q, keys)));
    assert FieldsFor(q, OutKeys(q, keys)) == FieldsFor(q', OutKeys(q, keys));
  }

  // Both scans of a text whose lines are alike, told by its lines.
  lemma FilteredScans(q: Query, keys: set<Key>, text: Bytes)
    requires q.limit.None? && q.batch != Some(0) && TextAlike(Unfiltered(q), keys, text)
    ensures var lines := Accepted(q.filter, text);
            && ScanInOrder(q, text)
               == (if WellFormed(text) then WholeFrame(q, PassingRows(q, lines), keys) else Err)
            && ScanInOrder(Unfiltered(q), text)
               == (if WellFormed(text) then WholeFrame(q, RowsOfLines(q, lines), keys) else Err)
            && PassingRows(q, lines) == AcceptedRows(q, text)
  {
    hide ScanInOrder, WellFormed, UniformFrame, Accepted, Uniform, PassingRows, RowsOfLines;
    var q', lines := Unfiltered(q), Accepted(q.filter, text);
    UnfilteredRows(q, lines);
    AlikeLines(q, keys, text);
    FilteredAreUniform(q, lines, keys);
    UniformScanIs(q, text, keys);
    UniformScanIs(q', text, keys);
    SameUniformFrame(q, q', RowsOfLines(q, lines), keys);
  }

  lemma AlikeLines(q: Query, keys: set<Key>, text: Bytes)
    requires TextAlike(Unfiltered(q), keys, text)
    ensures keys != {} && Uniform(RowsOfLines(q, Accepted(q.filter, text)), keys)
  {
    hide ParsePairs, RowOfPairs, SameCell, Accepted;
    var lines := Accepted(q.filter, text);
    forall i | 0 <= i < |lines|
      ensures RowsOfLines(q, lines)[i].Keys == keys
    {
      assert lines[i] in lines;
      assert Alike(Unfiltered(q), keys, lines[i]);
      RowHolds(q, ParsePairs(lines[i]));
    }
  }

  // As long as some row comes out without the filter, the scan with it returns
  // the same if and only if it drops no row that the predicate lets through.
  lemma RowFilterTellsIff(q: Query, keys: set<Key>, text: Bytes)
    requires q.limit.None? && q.batch != Some(0) && TextAlike(Unfiltered(q), keys, text)
    requires WellFormed(text) && CanPush(q, keys)
    requires ScanInOrder(Unfiltered(q), text).Ok? && ScanInOrder(Unfiltered(q), text).value.rows != []
    ensures ScanInOrder(Unfiltered(q), text) == ScanInOrder(q, text)
            <==> DroppedPassing(q, Accepted(q.filter, text)) == 0
  {
    hide ScanInOrder, WellFormed, Accepted, PassingRows, RowsOfLines, DroppedPassing, CanPush, OutRows, TextAlike;
    FilteredScans(q, keys, text);
    DroppedOut(q, Accepted(q.filter, text), ToSet(OutKeys(q, keys)));
    EmptyOut(q, keys);
  }

  lemma EmptyOut(q: Query, keys: set<Key>)
    ensures OutRows(q, [], ToSet(OutKeys(q, keys))) == []
  {
  }

  // When the parallel scan yields rows, it is what was asked for if and only if
  // no accepted line has a row that the row filter drops and the predicate lets
  // through.
  lemma ParallelHonoursRowFilterIff(q: Query, keys: set<Key>, texts: seq<Bytes>, threads: nat, text: Bytes,
                                    run: seq<State<Line>>, handles: seq<bool>, r: Result<Option<Frame>>)
    requires q.aligned && q.useParallel && q.limit.None? && q.batch != Some(0)
    requires LinesOfAll(texts) == Lines(text) && TextAlike(Unfiltered(q), keys, text)
    requires Attempt(q, texts, threads, run, handles, r) && r.Ok? && r.value.Some?
    ensures Scan(q, text, r) == ScanInOrder(q, text)
            <==> DroppedPassing(q, Accepted(q.filter, text)) == 0
  {
    hide Lines, LinesOfAll, TextAlike, Attempt, Scan, ScanInOrder, CanPush, Accepted, WellFormed, DroppedPassing;
    ParallelIgnoresRowFilter(q, keys, texts, threads, text, run, handles, r);
    ParallelAnswer(q, text, r);
    AnswerHasRows(q, keys, texts, threads, text, run, handles, r);
    RowFilterTellsIff(q, keys, text);
  }

  lemma AnswerHasRows(q: Query, keys: set<Key>, texts: seq<Bytes>, threads: nat, text: Bytes,
                      run: seq<State<Line>>, handles: seq<bool>, r: Result<Option<Frame>>)
    requires q.aligned && q.useParallel && q.limit.None? && q.batch != Some(0)
    requires LinesOfAll(texts) == Lines(text) && TextAlike(Unfiltered(q), keys, text)
    requires Attempt(q, texts, threads, run, handles, r) && r.Ok? && r.value.Some?
    ensures CanPush(q, keys) && WellFormed(text)
    ensures ScanInOrder(Unfiltered(q), text).Ok? && ScanInOrder(Unfiltered(q), text).value.rows != []
  {
    hide Lines, LinesOfAll, TextAlike, Scan, ScanInOrder, WellFormed, Attempt, CanPush;
    var q' := Unfiltered(q);
    SameAttempt(q, q', texts, threads, run, handles, r);
    AlikeAnswer(q', keys, texts, threads, text, run, handles, r);
    ParallelRefinesSequential(q', keys, texts, threads, text, run, handles, r);
    ParallelAnswer(q', text, r);
    assert CanPush(q', keys) == CanPush(q, keys) by { SamePush(q, q', keys); }
  }

  lemma SamePush(q: Query, q': Query, keys: set<Key>)
    requires SameButRowFilter(q, q')
    ensures CanPush(q, keys) == CanPush(q', keys)
  {
  }

  // A parallel answer has rows and columns, and comes from a UTF-8 text.
  lemma AlikeAnswer(q: Query, keys: set<Key>, texts: seq<Bytes>, threads: nat, text: Bytes,
                    run: seq<State<Line>>, handles: seq<bool>, r: Result<Option<Frame>>)
    requires q.aligned && q.limit.None?
    requires LinesOfAll(texts) == Lines(text) && TextAlike(q, keys, text)
    requires Attempt(q, texts, threads, run, handles, r) && r.Ok? && r.value.Some?
    ensures CanPush(q, keys) && WellFormed(text)
    ensures r.value.value.rows != [] && r.value.value.fields != []
  {
    hide Lines, LinesOfAll, TextAlike, WellFormed, IsRun, AllAccepted, JobReadable, OutRows, CanPush, UniformFrame,
      Gives;
    if threads == 0 {
      NoThreads(q, texts, run, handles, r);
    }
    AlikeAttempt(q, keys, texts, threads, text, run, handles, r);
    var joined := Joined(run[|run| - 1]);
    GatheredErr(q, keys, joined);
    JobAccepts(q, texts, threads, text);
    JobLimit(q, texts, threads);
    NeverBrokeIsReadable(JobOf(q, texts, threads), run);
    JobReadableIff(q, texts, threads, text);
    KeysNotEmpty(q, keys, text);
    FrameHasFields(q, RowsOf(q, joined), keys);
  }

  lemma FrameHasFields(q: Query, rows: seq<Row>, keys: set<Key>)
    requires keys != {} && UniformFrame(q, rows, keys).Ok?
    ensures UniformFrame(q, rows, keys).value.fields != []
  {
    hide OutRows, ComesBefore;
    var k :| k in keys;
    assert k in SortedKeys(keys);
  }

  // When it fails, the scan that was asked for fails too, unless the row filter
  // drops all rows of a text that is UTF-8.
  lemma FailingHonoursRowFilterIff(q: Query, keys: set<Key>, texts: seq<Bytes>, threads: nat, text: Bytes,
                                   run: seq<State<Line>>, handles: seq<bool>, r: Result<Option<Frame>>)
    requires q.aligned && q.useParallel && q.limit.None? && q.batch != Some(0)
    requires LinesOfAll(texts) == Lines(text) && TextAlike(Unfiltered(q), keys, text)
    requires Attempt(q, texts, threads, run, handles, r) && r == Err
    ensures Scan(q, text, r) == ScanInOrder(q, text) <==> !WellFormed(text) || AcceptedRows(q, text) != []
  {
    hide Lines, LinesOfAll, TextAlike, Attempt, Scan, ScanInOrder, CanPush, Accepted, WellFormed, OutRows;
    ParallelIgnoresRowFilter(q, keys, texts, threads, text, run, handles, r);
    ParallelAnswer(q, text, r);
    FilteredScans(q, keys, text);
  }

  // What a scan that falls back says of the text.
  lemma FallbackDropsNothing(q: Query, keys: set<Key>, texts: seq<Bytes>, threads: nat, text: Bytes,
                             run: seq<State<Line>>, handles: seq<bool>)
    requires q.aligned && q.limit.None? && threads > 0
    requires LinesOfAll(texts) == Lines(text) && TextAlike(Unfiltered(q), keys, text)
    requires Attempt(q, texts, threads, run, handles, Ok(None)) && AllTrue(handles)
    ensures var lines := Accepted(q.filter, text);
            WellFormed(text) && DroppedPassing(q, lines) == 0 && (lines != [] ==> CanPush(q, keys))
  {
    hide Lines, LinesOfAll, TextAlike, IsRun, Finished, Gives, CanPush, Accepted, WellFormed, OutRows, PassingRows,
      RowsOf, RowsOfLines, Joined, AllAccepted, JobReadable, NoneBroken, DroppedPassing, Uniform, AllAlike;
    var q', lines := Unfiltered(q), Accepted(q.filter, text);
    SameAttempt(q, q', texts, threads, run, handles, Ok(None));
    FallbackMeansNoRows(q', keys, texts, threads, text, run, handles, Ok(None));
    var job := JobOf(q', texts, threads);
    JobAccepts(q', texts, threads, text);
    JobLimit(q', texts, threads);
    NeverBrokeIsReadable(job, run);
    JobReadableIff(q', texts, threads, text);
    NoLimitJoinsAll(job, run);
    AlikeJob(q', keys, texts, threads, text);
    UnfilteredRows(q, lines);
    SameOut(q, q', RowsOfLines(q, lines), ToSet(OutKeys(q, keys)));
    PartIs(q', keys, AllAccepted(job));
    DroppedOut(q, lines, ToSet(OutKeys(q, keys)));
    SamePush(q, q', keys);
  }

  // Told from the text alone, for every attempt in which all workers get a
  // handle: the scan is what was asked for if and only if the text is not UTF-8,
  // or the row filter drops no row that the predicate lets through; where the
  // pushdown is impossible, if it keeps some row or there is no line.
  lemma RowFilterHonouredIff(q: Query, keys: set<Key>, texts: seq<Bytes>, threads: nat, text: Bytes,
                             run: seq<State<Line>>, handles: seq<bool>, r: Result<Option<Frame>>)
    requires q.aligned && q.useParallel && q.limit.None? && q.batch != Some(0) && threads > 0
    requires LinesOfAll(texts) == Lines(text) && TextAlike(Unfiltered(q), keys, text)
    requires Attempt(q, texts, threads, run, handles, r) && AllTrue(handles)
    ensures var lines := Accepted(q.filter, text);
            Scan(q, text, r) == ScanInOrder(q, text)
            <==> || !WellFormed(text)
                 || (if CanPush(q, keys) then DroppedPassing(q, lines) == 0
                     else AcceptedRows(q, text) != [] || lines == [])
  {
    hide Lines, LinesOfAll, TextAlike, Attempt, Scan, ScanInOrder, CanPush, Accepted, WellFormed, OutRows,
      DroppedPassing, PassingRows, RowsOfLines, UniformFrame;
    if r == Ok(None) {
      ScanOfNone(q, text);
      FallbackDropsNothing(q, keys, texts, threads, text, run, handles);
    } else if r == Err {
      FailingHonoursRowFilterIff(q, keys, texts, threads, text, run, handles, r);
      ParallelIgnoresRowFilter(q, keys, texts, threads, text, run, handles, r);
      ParallelAnswer(q, text, r);
      FilteredScans(q, keys, text);
      UniformErr(q, RowsOfLines(q, Accepted(q.filter, text)), keys);
    } else {
      ParallelHonoursRowFilterIff(q, keys, texts, threads, text, run, handles, r);
      AnswerHasRows(q, keys, texts, threads, text, run, handles, r);
    }
  }
}
