// Inputs on which the scan does not do what it looks like.
module Departures {
  import opened Text
  import opened Utf8
  import opened LogfmtParser
  import opened RoundTrip
  import opened SchemaProbe
  import opened Table
  import opened Builder
  import opened RowTable
  import opened Chunks
  import opened FrameLines
  import opened RowBudget
  import opened FirstRows
  import opened StoppedWorkers
  import opened SequentialScan
  import opened SequentialLaws
  import opened AlignedBatches
  import opened BatchLaws
  import opened UniformScan
  import opened WorkerFrames
  import opened ParallelScan
  import opened ParallelLaws
  import opened RowFilterLaws
  import opened SlicedLaws
  import opened RaggedScan

  const KEY_A: Key := [97]
  const KEY_B: Key := [98]

  // A query that asks for everything, as strings.
  function Everything(conv: Conversions): Query {
    Query(conv, map[], (_: Bytes) => true, (_: Row) => true, false, None, None, None, None, true)
  }

  // ---- short lines

  predicate IsLetterOrDigit(b: Byte) {
    48 <= b < 58 || 97 <= b < 123
  }

  function PairLine(k: Byte, v: Byte): (line: Bytes) {
    [k, EQUALS, v, NEWLINE]
  }

  function WordLine(k: Byte): (line: Bytes) {
    [k, NEWLINE]
  }

  lemma {:induction false} AsciiIsWellFormed(s: Bytes)
    requires forall i :: 0 <= i < |s| ==> s[i] < 0x80
    ensures WellFormed(s)
    decreases |s|
  {
    if s != [] {
      AsciiIsWellFormed(s[1..]);
      assert CharLength(s) == 1;
    }
  }

  lemma PairOfLine(k: Byte, v: Byte)
    requires IsLetterOrDigit(k) && IsLetterOrDigit(v)
    ensures ParsePairs(PairLine(k, v)) == [Pair([k], [v])]
  {
    hide ParsePairs;
    var items := [Item([], [k], [], Bare([v]))];
    AsciiIsWellFormed([k]);
    assert PrintableAll(items, false) by {
      assert items[1..] == [];
    }
    assert Print(items, [NEWLINE]) == PairLine(k, v) by {
      assert items[1..] == [];
    }
    PrintThenParse(items, [NEWLINE]);
    var pairs := ParsePairs(PairLine(k, v));
    assert pairs[0].key == items[0].key && pairs[0].value == [v];
  }

  lemma NoPairOfWord(k: Byte)
    requires IsLetterOrDigit(k)
    ensures ParsePairs(WordLine(k)) == []
  {
    var b := WordLine(k);
    AsciiIsWellFormed(b[0..1]);
    assert SkipSpace(b, 0) == 0;
    assert SkipKey(b, 1) == 1 && SkipKey(b, 0) == 1;
    assert SkipSpace(b, 2) == 2 && SkipSpace(b, 1) == 2;
    assert ParseAfterKey(b, 0, 1) == Round(None, 2);
    assert ParseRound(b, 0) == Round(None, 2);
    assert Spans(b, 2) == [];
    assert Spans(b, 0) == [];
  }

  // An ASCII line that is not blank.
  predicate IsShort(line: Bytes) {
    && |line| > 1 && IsLetterOrDigit(line[0]) && line[|line| - 1] == NEWLINE
    && (forall i :: 0 <= i < |line| ==> line[i] < 0x80)
    && (forall i :: 0 <= i < |line| - 1 ==> line[i] != NEWLINE)
  }

  lemma ShortIsAccepted(filter: Bytes -> bool, line: Bytes)
    requires IsShort(line) && filter(line)
    ensures WellFormed(line) && Accepts(filter)(line)
  {
    AsciiIsWellFormed(line);
    assert SpaceLength(line) == 0;
  }

  lemma ShortThen(line: Bytes, rest: Bytes)
    requires IsShort(line)
    ensures Lines(line + rest) == [line] + Lines(rest)
  {
    LinesCons(line, rest);
  }

  // ---- two lines

  lemma OneLine(line: Bytes)
    requires IsShort(line)
    ensures Lines(line) == [line]
  {
    hide Lines, IsShort;
    ShortThen(line, []);
    NoLines();
    assert line + [] == line && [line] + [] == [line];
  }

  lemma KeepBoth<T>(keep: T -> bool, a: T, b: T)
    requires keep(a) && keep(b)
    ensures Filter(keep, [a, b]) == [a, b] && Filter(keep, [a]) == [a]
  {
    assert [a, b][1..] == [b] && [b][1..] == [] && [a][1..] == [];
  }

  lemma TwoLines(q: Query, a: Bytes, b: Bytes)
    requires IsShort(a) && IsShort(b) && q.filter(a) && q.filter(b)
    ensures WellFormed(a + b) && Lines(a + b) == [a, b]
    ensures Accepted(q.filter, a + b) == [a, b] && Accepted(q.filter, a) == [a]
  {
    hide WellFormed, Lines, IsShort, IsBlank;
    ShortIsAccepted(q.filter, a);
    ShortIsAccepted(q.filter, b);
    ConcatWellFormed(a, b);
    ShortThen(a, b);
    OneLine(a);
    OneLine(b);
    assert [a] + [b] == [a, b];
    KeepBoth(Accepts(q.filter), a, b);
  }

  lemma TwoRows(q: Query, a: Bytes, b: Bytes)
    requires IsShort(a) && IsShort(b) && q.filter(a) && q.filter(b)
    requires q.rowFilter(RowOf(q, a)) && q.rowFilter(RowOf(q, b))
    ensures AcceptedRows(q, a + b) == [RowOf(q, a), RowOf(q, b)]
  {
    hide RowOf, IsShort, Accepted;
    TwoLines(q, a, b);
    assert [a, b][1..] == [b] && [b][1..] == [];
    assert PassingRows(q, []) == [];
    assert PassingRows(q, [b]) == [RowOf(q, b)] + PassingRows(q, []);
    assert PassingRows(q, [a, b]) == [RowOf(q, a)] + PassingRows(q, [b]);
  }

  function TextRow(k: Byte, v: Byte): Row {
    map[[k] := Table.Value.Text([v])]
  }

  lemma RowOfLine(q: Query, k: Byte, v: Byte)
    requires IsLetterOrDigit(k) && IsLetterOrDigit(v) && q.schema == map[]
    ensures RowOf(q, PairLine(k, v)) == TextRow(k, v)
  {
    hide ParsePairs;
    PairOfLine(k, v);
    var pairs := [Pair([k], [v])];
    assert pairs[..0] == [];
    assert RowOfPairs(q, pairs[..0]) == map[];
  }

  lemma RowOfWord(q: Query, k: Byte)
    requires IsLetterOrDigit(k)
    ensures RowOf(q, WordLine(k)) == map[]
  {
    NoPairOfWord(k);
  }

  // ---- an aligned batch with a column its first row does not have

  lemma AlignTwo(q: Query, a: Row, b: Row)
    requires q.aligned && |a| == |b| > 0
    ensures AlignAll(q, {}, [a, b]) == [a, b]
  {
    assert [a, b][1..] == [b] && [b][1..] == [];
    assert |a.Keys| == |a|;
    assert NextKeys(q, {}, a) == a.Keys != {};
    assert Align(q, a.Keys, b) == b;
    assert AlignAll(q, NextKeys(q, a.Keys, b), []) == [];
    assert AlignAll(q, a.Keys, [b]) == [b] + AlignAll(q, NextKeys(q, a.Keys, b), []);
    assert AlignAll(q, {}, [a, b]) == [a] + AlignAll(q, a.Keys, [b]);
  }

  lemma KeysOfTwo(a: Row, b: Row)
    ensures KeysOf([a, b]) == a.Keys + b.Keys
  {
    assert [a, b][0] == a && [a, b][1] == b;
  }

  lemma TextRowKeys(k: Byte, v: Byte)
    ensures TextRow(k, v).Keys == {[k]} && |TextRow(k, v)| == 1
  {
    assert |TextRow(k, v)| == |TextRow(k, v).Keys|;
  }

  lemma AlignedBatchWithOtherColumn(conv: Conversions)
    ensures var q, text := Everything(conv).(aligned := true), PairLine(97, 49) + PairLine(98, 50);
            KeysOf(RowsRead(q, text)) == {KEY_A, KEY_B}
  {
    hide ReadBatch, WellFormed, RowOf, AcceptedRows, AlignAll, KeysOf, TextRow, Accepted;
    var q := Everything(conv).(aligned := true);
    var a, b := PairLine(97, 49), PairLine(98, 50);
    TwoLines(q, a, b);
    TwoRows(q, a, b);
    RowOfLine(q, 97, 49);
    RowOfLine(q, 98, 50);
    TextRowKeys(97, 49);
    TextRowKeys(98, 50);
    AlignTwo(q, TextRow(97, 49), TextRow(98, 50));
    KeysOfTwo(TextRow(97, 49), TextRow(98, 50));
    ReadIsAligned(q, a + b, {});
    var rows := [TextRow(97, 49), TextRow(98, 50)];
    assert rows[..2] == rows;
  }

  // ---- a row filter that is not asked

  lemma OneLineIsAlike(q: Query, k: Byte, v: Byte)
    requires IsLetterOrDigit(k) && IsLetterOrDigit(v) && q.schema == map[]
    ensures Alike(q, {[k]}, PairLine(k, v))
  {
    hide ParsePairs;
    PairOfLine(k, v);
    var pairs := [Pair([k], [v])];
    assert pairs[..0] == [] && KeySet(pairs[..0]) == {};
    assert KeySet(pairs) == {[k]};
  }

  lemma OneTextAlike(q: Query, k: Byte, v: Byte)
    requires IsLetterOrDigit(k) && IsLetterOrDigit(v) && q.schema == map[]
    requires q.filter(PairLine(k, v)) && q.rowFilter(RowOf(q, PairLine(k, v)))
    ensures TextAlike(q, {[k]}, PairLine(k, v))
  {
    hide Alike, Accepted, RowOf;
    var line := PairLine(k, v);
    TwoLines(q, line, line);
    OneLineIsAlike(q, k, v);
  }

  // One worker on a text of one line pushes it.
  lemma OneWorkerJoins(q: Query, text: Bytes, run: seq<State<Line>>)
    requires q.limit.None? && IsRun(JobOf(q, [text], 1), run) && Finished(run[|run| - 1])
    requires WellFormed(text) && Accepted(q.filter, text) != []
    ensures run != [] && NoneBroken(run[|run| - 1]) && Joined(run[|run| - 1]) != []
  {
    hide WellFormed, Lines, IsRun, AllAccepted, JobReadable, ChunksOf, Accepted, Joined;
    var job := JobOf(q, [text], 1);
    LinesOfOne(text);
    JobAccepts(q, [text], 1, text);
    JobReadableIff(q, [text], 1, text);
    RunIsNotEmpty(job, run);
    ReadableNeverBreaks(job, run);
    NoLimitJoinsAll(job, run);
  }

  lemma OneDropped(q: Query, text: Bytes)
    requires q.pred.None? && !q.rowFilter(RowOf(q, text))
    ensures DroppedPassing(q, [text]) == 1
  {
    hide RowOf;
    assert [text][1..] == [];
  }

  // One line, and a row filter that drops its row: the parallel scan returns it
  // all the same.
  lemma RowFilterNotAsked(conv: Conversions)
    returns (run: seq<State<Line>>, handles: seq<bool>, r: Result<Option<Frame>>)
    ensures var q, text := Everything(conv).(aligned := true, rowFilter := _ => false), PairLine(97, 49);
            && Attempt(q, [text], 1, run, handles, r)
            && Scan(q, text, r) != ScanInOrder(q, text)
  {
    hide WellFormed, Lines, LinesOfAll, RowOf, IsRun, Finished, Scan, ScanInOrder, PartOf, JobOf, Gives, TextAlike,
      Accepted, Joined, NoneBroken;
    var q, text := Everything(conv).(aligned := true, rowFilter := _ => false), PairLine(97, 49);
    var keys: set<Key> := {KEY_A};
    run, handles, r := AnAttempt(q, [text], 1);
    TwoLines(q, text, text);
    ShortIsAccepted(q.filter, text);
    LinesOfOne(text);
    OneTextAlike(Unfiltered(q), 97, 49);
    OneWorkerJoins(q, text, run);
    OneLineOut(q, Joined(run[|run| - 1]), keys);
    AttemptUnfiltered(q, keys, text, run, handles, r);
    OneDropped(q, text);
    ParallelHonoursRowFilterIff(q, keys, [text], 1, text, run, handles, r);
  }

  lemma LinesOfOne(text: Bytes)
    ensures LinesOfAll([text]) == Lines(text)
  {
    assert [text][..0] == [];
    assert LinesOfAll([text][..0]) + Lines(text) == Lines(text);
  }

  lemma OneLineOut(q: Query, lines: seq<Line>, keys: set<Key>)
    requires q.pred.None? && lines != []
    ensures PartOf(q, keys, lines) != []
  {
    if q.limit.None? {
      AllRowsKept(q, RowsOf(q, lines), ToSet(OutKeys(q, keys)));
    }
    assert |CellRows(q, RowsOf(q, lines), if q.limit.None? then ToSet(OutKeys(q, keys)) else keys)| == |lines|;
  }

  // The attempt yields the row.
  lemma AttemptUnfiltered(q: Query, keys: set<Key>, text: Bytes, run: seq<State<Line>>, handles: seq<bool>,
                          r: Result<Option<Frame>>)
    requires q.aligned && q.limit.None? && q.pred.None? && q.columns.None?
    requires LinesOfAll([text]) == Lines(text) && TextAlike(Unfiltered(q), keys, text)
    requires Attempt(q, [text], 1, run, handles, r) && AllTrue(handles)
    requires run != [] && NoneBroken(run[|run| - 1]) && PartOf(q, keys, Joined(run[|run| - 1])) != []
    ensures r.Ok? && r.value.Some?
  {
    hide Lines, LinesOfAll, TextAlike, Attempt, IsRun, PartOf, Gives;
    var q', joined := Unfiltered(q), Joined(run[|run| - 1]);
    SameAttempt(q, q', [text], 1, run, handles, r);
    SamePart(q, q', joined, keys);
    AlikeAttempt(q', keys, [text], 1, text, run, handles, r);
    GatheredErr(q', keys, joined);
    if r == Ok(None) {
      FallbackMeansNoRows(q', keys, [text], 1, text, run, handles, r);
    }
  }

  lemma SamePart(q: Query, q': Query, lines: seq<Line>, keys: set<Key>)
    requires SameButRowFilter(q, q') && q.limit.None?
    ensures PartOf(q, keys, lines) == PartOf(q', keys, lines)
  {
    hide OutRows;
    forall i | 0 <= i < |lines|
      ensures RowsOf(q, lines)[i] == RowsOf(q', lines)[i]
    {
      SameRow(q, q', ParsePairs(lines[i].text));
    }
    assert RowsOf(q, lines) == RowsOf(q', lines);
    SameOut(q, q', RowsOf(q, lines), ToSet(OutKeys(q, keys)));
  }

  // ---- a batch that is skipped

  lemma SolidOfHollow(row: Row)
    requires row != map[]
    ensures var rows: seq<Row> := [map[], row];
            Solid(rows, 1) == [row] && BatchesOf(rows, 1) == [[map[]], [row]] && KeysOf(rows) == row.Keys
  {
    var rows: seq<Row> := [map[], row];
    KeysOfTwo(map[], row);
    assert KeysOf([map[]]) == {};
    var k :| k in row;
    assert k in [row][0] && k in KeysOf([row]);
    hide KeysOf;
    assert Take(rows, 1) == [map[]] && Drop(rows, 1) == [row];
    assert Take([row], 1) == [row] && Drop([row], 1) == [];
    assert Solid([], 1) == [] && BatchesOf([], 1) == [];
    assert Solid([row], 1) == [row] + Solid([], 1);
    assert BatchesOf([row], 1) == [[row]] + BatchesOf([], 1);
  }

  lemma HollowScans(q: Query, text: Bytes, row: Row)
    requires q.limit.None? && !q.aligned && q.batch == Some(1) && q.pred.None? && q.columns.None?
    requires WellFormed(text) && row != map[] && AcceptedRows(q, text) == [map[], row]
    ensures ScanInOrder(q, text).Ok? && ScanInOrder(q.(batch := None), text) != ScanInOrder(q, text)
  {
    hide WellFormed, ScanInOrder, AcceptedRows, Solid, BatchesOf, KeysOf;
    SolidOfHollow(row);
    BatchedScanSucceedsIff(q, text);
    BatchSizeLeavesNoTraceIff(q, text);
    assert row.Keys != {};
  }

  // One line without a pair, then one with: in batches of one line the first is
  // skipped, at once it is a row.
  lemma HollowBatchSkipped(conv: Conversions)
    ensures var q, text := Everything(conv).(batch := Some(1)), WordLine(120) + PairLine(97, 49);
            && ScanInOrder(q, text).Ok?
            && ScanInOrder(q.(batch := None), text) != ScanInOrder(q, text)
  {
    hide WellFormed, RowOf, ScanInOrder, Accepted, AcceptedRows, TextRow;
    var q := Everything(conv).(batch := Some(1));
    var a, b := WordLine(120), PairLine(97, 49);
    TwoLines(q, a, b);
    TwoRows(q, a, b);
    RowOfWord(q, 120);
    RowOfLine(q, 97, 49);
    TextRowKeys(97, 49);
    HollowScans(q, a + b, TextRow(97, 49));
  }

  // ---- a slice that is not the first row

  lemma TwoTextAlike(q: Query, k: Byte, v: Byte, w: Byte)
    requires IsLetterOrDigit(k) && IsLetterOrDigit(v) && IsLetterOrDigit(w) && q.schema == map[]
    requires q.filter(PairLine(k, v)) && q.filter(PairLine(k, w))
    requires q.rowFilter(RowOf(q, PairLine(k, v))) && q.rowFilter(RowOf(q, PairLine(k, w)))
    ensures TextAlike(q, {[k]}, PairLine(k, v) + PairLine(k, w))
  {
    hide Alike, Accepted, RowOf;
    TwoLines(q, PairLine(k, v), PairLine(k, w));
    OneLineIsAlike(q, k, v);
    OneLineIsAlike(q, k, w);
  }

  // The run in which the second of two workers takes the only slot.
  lemma SecondFirst(q: Query, a: Bytes, b: Bytes) returns (run: seq<State<Line>>)
    requires IsShort(a) && IsShort(b) && q.filter(a) && q.filter(b) && q.limit == Some(1)
    ensures IsRun(JobOf(q, [a, b], 2), run) && run != [] && Finished(run[|run| - 1]) && NoneBroken(run[|run| - 1])
    ensures Joined(run[|run| - 1]) == [Line(1, 0, b)]
  {
    hide IsShort, WellFormed, Lines, Accepted, JobOf, AcceptedOf, JobReadable, Joined, AllAccepted, IsRun;
    TwoLines(q, a, b);
    OneLine(a);
    OneLine(b);
    ShortIsAccepted(q.filter, a);
    ShortIsAccepted(q.filter, b);
    LinesOfTwo(a, b);
    var job := JobOf(q, [a, b], 2);
    TwoChunks(q, a, b);
    JobHasNoEmptyChunk(q, [a, b], 2);
    assert LinesOfAll([a, b]) == Lines(a + b) by { assert [a] + [b] == [a, b]; }
    JobReadableIff(q, [a, b], 2, a + b);
    run := BackwardsRun(job, 1);
    RunIsNotEmpty(job, run);
    LaterRowJoined(job, run, Line(1, 0, b));
  }

  lemma SliceFrames(q: Query, a: Bytes, b: Bytes, keys: set<Key>)
    requires q.limit == Some(1) && keys != {} && WellFormed(a + b)
    requires AcceptedRows(q, a + b) == [RowOf(q, a), RowOf(q, b)] && Uniform(AcceptedRows(q, a + b), keys)
    ensures ScanInOrder(q, a + b) == UniformFrame(q, [RowOf(q, a)], keys)
  {
    hide WellFormed, RowOf, AcceptedRows, UniformFrame, ScanInOrder, Uniform, RowsRead;
    UniformSlice(q, a + b, keys);
    assert Take([RowOf(q, a), RowOf(q, b)], 1) == [RowOf(q, a)];
  }

  // Two units of one line each, two threads and a slice of one row: the parallel
  // scan may return the second line.
  lemma SliceOfLaterRow(conv: Conversions)
    returns (run: seq<State<Line>>, handles: seq<bool>, r: Result<Option<Frame>>)
    ensures var q, a, b := Everything(conv).(aligned := true, limit := Some(1)), PairLine(97, 49), PairLine(97, 50);
            && Attempt(q, [a, b], 2, run, handles, r)
            && Scan(q, a + b, r) != ScanInOrder(q, a + b)
  {
    hide WellFormed, Lines, LinesOfAll, RowOf, IsRun, Finished, Scan, ScanInOrder, JobOf, PartOf, Attempt, TextAlike,
      Joined, NoneBroken, PushedFrame, UniformFrame, AcceptedRows, AllAccepted, Uniform, MetBadLine;
    var q, a, b := Everything(conv).(aligned := true, limit := Some(1)), PairLine(97, 49), PairLine(97, 50);
    var keys, texts: seq<Bytes> := {KEY_A}, [a, b];
    TwoLines(q, a, b);
    TwoRows(q, a, b);
    TwoTextAlike(q, 97, 49, 50);
    OneLine(a);
    OneLine(b);
    LinesOfTwo(a, b);
    assert [a] + [b] == [a, b];
    run := SecondFirst(q, a, b);
    handles, r := AttemptOf(q, texts, 2, run);
    var joined := Joined(run[|run| - 1]);
    OneLineOut(q, joined, keys);
    if r == Ok(None) {
      FallbackMeansNoRows(q, keys, texts, 2, a + b, run, handles, r);
    }
    SlicedParallelScan(q, keys, texts, 2, a + b, run, handles, r);
    NeverMetBadLine(run[|run| - 1], handles);
    AlikeJob(q, keys, texts, 2, a + b);
    SliceFrames(q, a, b, keys);
    RowOfLine(q, 97, 49);
    RowOfLine(q, 97, 50);
    assert RowsOf(q, [Line(1, 0, b)]) == [RowOf(q, b)];
    DifferentFrames(q, 49, 50);
  }

  lemma LinesOfTwo(a: Bytes, b: Bytes)
    ensures LinesOfAll([a, b]) == Lines(a) + Lines(b)
  {
    hide Lines;
    assert [a, b][..1] == [a];
    LinesOfOne(a);
  }

  lemma NeverMetBadLine(s: State<Line>, handles: seq<bool>)
    requires |handles| == |s.workers| && NoneBroken(s)
    ensures !MetBadLine(s, handles)
  {
  }

  lemma TwoSingles<T>(x: T, y: T)
    ensures ChunksOf([x, y], 2) == [[x], [y]]
  {
    var xs := [x, y];
    assert ChunkSize(2, 2) == 1;
    assert ChunksFrom(xs, 2, 2, 1) == [];
    assert xs[1..2] == [y] && xs[0..1] == [x];
    assert ChunksFrom(xs, 1, 2, 1) == [[y]] + ChunksFrom(xs, 2, 2, 1);
    assert ChunksFrom(xs, 0, 2, 1) == [[x]] + ChunksFrom(xs, 1, 2, 1);
  }

  // Two units of one line each, for two threads.
  lemma TwoChunks(q: Query, a: Bytes, b: Bytes)
    requires Lines(a) == [a] && Lines(b) == [b] && Accepts(q.filter)(a) && Accepts(q.filter)(b)
    requires q.limit == Some(1)
    ensures var job := JobOf(q, [a, b], 2);
            && job.limit == Some(1) && |job.chunks| == 2
            && AcceptedOf(job, 1) == [Line(1, 0, b)]
            && |AllAccepted(job)| == 2
  {
    hide Lines, Accepts, ChunksOf;
    var x, y := Line(0, 0, a), Line(1, 0, b);
    assert Tagged(0, [a]) == [x] && Tagged(1, [b]) == [y];
    assert TaggedFrames([a, b]) == [[x], [y]];
    var job := JobOf(q, [a, b], 2);
    TwoSingles([x], [y]);
    assert job.chunks == [[[x]], [[y]]];
    FlattenOne([x]);
    FlattenOne([y]);
    FilterOne(job.accept, x);
    FilterOne(job.accept, y);
    var lists := AcceptedLists(job);
    assert lists[0] == [x] && lists[1] == [y];
    assert lists == [[x]] + [[y]];
    FlattenLast([[x]], [y]);
  }

  // The second worker took the only slot.
  lemma LaterRowJoined(job: Job<Line>, run: seq<State<Line>>, line: Line)
    requires ChunksNonEmpty(job) && Completes(job, run) && job.limit == Some(1)
    requires |job.chunks| == |run[|run| - 1].workers| == 2 && AcceptedOf(job, 1) == [line]
    requires |run[|run| - 1].workers[1].pushed| == 1 && |AllAccepted(job)| == 2
    ensures Joined(run[|run| - 1]) == [line]
  {
    hide AcceptedOf, AllAccepted;
    FinishedRunFillsSlice(job, run);
    JoinedLength(job, run);
    var lists := PushedLists(run[|run| - 1]);
    assert lists == [lists[0]] + [lists[1]];
    FlattenLast([lists[0]], lists[1]);
    FlattenOne(lists[0]);
    assert lists[1] == [line];
    assert |lists[0]| == 0;
  }

  lemma DifferentFrames(q: Query, v: Byte, w: Byte)
    requires v != w && q.pred.None? && q.columns.None? && q.schema == map[]
    ensures var keys: set<Key> := {KEY_A};
            && UniformFrame(q, [TextRow(97, v)], keys).Ok? && UniformFrame(q, [TextRow(97, w)], keys).Ok?
            && UniformFrame(q, [TextRow(97, v)], keys) != UniformFrame(q, [TextRow(97, w)], keys)
  {
    var keys: set<Key> := {KEY_A};
    var out := ToSet(OutKeys(q, keys));
    assert KEY_A in out;
    AllRowsKept(q, [TextRow(97, v)], out);
    AllRowsKept(q, [TextRow(97, w)], out);
    assert CellRow(q, TextRow(97, v), out)[KEY_A] == StrCell([v]);
    assert CellRow(q, TextRow(97, w), out)[KEY_A] == StrCell([w]);
    assert CellRows(q, [TextRow(97, v)], out)[0] != CellRows(q, [TextRow(97, w)], out)[0];
  }

  // ---- a slice in front of a line that is not UTF-8

  const BAD_LINE: Bytes := [0xFF, NEWLINE]

  lemma BadLineIsBad()
    ensures !WellFormed(BAD_LINE) && Lines(BAD_LINE) == [BAD_LINE]
    ensures forall filter :: !Accepts(filter)(BAD_LINE)
  {
    assert CharLength(BAD_LINE) == 0;
    LinesCons(BAD_LINE, []);
    NoLines();
    assert BAD_LINE + [] == BAD_LINE && [BAD_LINE] + [] == [BAD_LINE];
  }

  lemma RowsReadOfOne(q: Query, a: Bytes, rest: Bytes)
    requires IsShort(a) && q.filter(a) && q.rowFilter(RowOf(q, a))
    ensures RowsRead(q, a + rest) != []
  {
    hide ReadBatch, RowOf, Accepts, WellFormed, LineLength, Align, NextKeys;
    var text := a + rest;
    ShortThen(a, rest);
    ShortIsAccepted(q.filter, a);
    assert |a| > 0;
    assert Lines(text)[0] == text[..LineLength(text)];
    ReadOneLine(q, text, None, {});
  }

  lemma ChunksOfTwo(q: Query, a: Bytes, b: Bytes)
    requires Lines(a) == [a] && Lines(b) == [b]
    ensures JobOf(q, [a, b], 2).chunks == [[[Line(0, 0, a)]], [[Line(1, 0, b)]]]
  {
    hide Lines, ChunksOf;
    assert Tagged(0, [a]) == [Line(0, 0, a)] && Tagged(1, [b]) == [Line(1, 0, b)];
    assert TaggedFrames([a, b]) == [[Line(0, 0, a)], [Line(1, 0, b)]];
    TwoSingles([Line(0, 0, a)], [Line(1, 0, b)]);
  }

  // A worker whose only line is not UTF-8 has no safe row.
  lemma NothingSafe(job: Job<Line>, w: nat)
    requires w < |job.chunks| && |job.chunks[w]| == 1 && |job.chunks[w][0]| == 1
    requires job.limit == Some(1) && !job.readable(job.chunks[w][0][0])
    ensures CanBeStopped(job, w)
  {
    var line := job.chunks[w][0][0];
    FlattenOne(job.chunks[w][0]);
    assert job.chunks[w] == [job.chunks[w][0]];
    assert Flatten(job.chunks[w])[0] == line;
    assert ReadablePart(job.readable, job.chunks[w][0]) == [];
  }

  // Two units of one line each, the second not UTF-8, two threads and a slice
  // of one row, aligned or not: the sequential scan returns the first line, and
  // the scan may fail.
  lemma SliceStopped(conv: Conversions, aligned: bool)
    returns (run: seq<State<Line>>, handles: seq<bool>, r: Result<Option<Frame>>)
    ensures
      var q, a := Everything(conv).(aligned := aligned, limit := Some(1)), PairLine(97, 49);
      && Attempt(q, [a, BAD_LINE], 2, run, handles, r)
      && Scan(q, a + BAD_LINE, r) == Err && ScanInOrder(q, a + BAD_LINE).Ok?
  {
    hide WellFormed, Lines, RowOf, Attempt, Scan, ScanInOrder, JobOf, RowsRead, SafeRows, CanBeStopped, CanPush, KeysOf;
    var q, a := Everything(conv).(aligned := aligned, limit := Some(1)), PairLine(97, 49);
    var job := JobOf(q, [a, BAD_LINE], 2);
    BadLineIsBad();
    OneLine(a);
    ChunksOfTwo(q, a, BAD_LINE);
    LimitOfJob(q, [a, BAD_LINE], 2);
    NothingSafe(job, 1);
    run, handles, r := AttemptStopped(q, [a, BAD_LINE], 2);
    ScanOfError(q, a + BAD_LINE);
    RowsReadOfOne(q, a, BAD_LINE);
    EverythingPushes(q, KeysOf(Take(RowsRead(q, a + BAD_LINE), 1)));
    SliceFailsIff(q, a + BAD_LINE);
  }

  lemma LimitOfJob(q: Query, texts: seq<Bytes>, threads: nat)
    ensures JobOf(q, texts, threads).limit == q.limit && JobOf(q, texts, threads).readable == ReadableLine
  {
  }

  lemma EverythingPushes(q: Query, keys: set<Key>)
    requires q.pred.None? && q.columns.None?
    ensures CanPush(q, keys)
  {
  }

  // ---- a slice past a line that is not UTF-8

  lemma BadThenShort(q: Query, a: Bytes)
    requires IsShort(a) && q.filter(a) && q.limit == Some(1)
    ensures Lines(BAD_LINE + a) == [BAD_LINE, a] == LinesOfAll([BAD_LINE, a])
    ensures Accepted(q.filter, BAD_LINE + a) == [a] && FailsBefore(q, BAD_LINE + a, 1)
  {
    hide WellFormed, Accepts, RowOf, IsShort, LineLength;
    var text := BAD_LINE + a;
    BadLineIsBad();
    LinesCons(BAD_LINE, a);
    OneLine(a);
    assert [BAD_LINE] + [a] == [BAD_LINE, a];
    LinesOfTwo(BAD_LINE, a);
    ShortIsAccepted(q.filter, a);
    OneOfTwo(Accepts(q.filter), BAD_LINE, a);
    assert Lines(text)[0] == text[..LineLength(text)];
    ReadOneLine(q, text, None, {});
    LinesWellFormed(text);
    assert BAD_LINE in Lines(text);
  }

  lemma OneOfTwo<T>(keep: T -> bool, a: T, b: T)
    requires !keep(a) && keep(b)
    ensures Filter(keep, [a, b]) == [b]
  {
    assert [a, b][1..] == [b] && [b][1..] == [];
  }

  lemma SafeOfTwo(q: Query, a: Bytes)
    requires Lines(a) == [a] && Accepts(q.filter)(a)
    ensures Sum(SafeCounts(JobOf(q, [BAD_LINE, a], 2))) >= 1
  {
    hide Lines, SafeRows, WellFormed;
    var job := JobOf(q, [BAD_LINE, a], 2);
    BadLineIsBad();
    ChunksOfTwo(q, BAD_LINE, a);
    var line := Line(1, 0, a);
    FlattenOne([line]);
    FilterOne(job.accept, line);
    assert job.chunks[1] == [[line]] && job.readable(line);
    assert Flatten([[line]]) == [line];
    SafeOfReadable(job, [[line]]);
    var counts := SafeCounts(job);
    assert |counts| == 2 && counts[1] == 1;
  }

  // The same units the other way round, aligned: the sequential scan fails on
  // the first line, and the scan may return the second.
  lemma SlicePastBadLine(conv: Conversions)
    returns (run: seq<State<Line>>, handles: seq<bool>, r: Result<Option<Frame>>)
    ensures
      var q, a := Everything(conv).(aligned := true, limit := Some(1)), PairLine(97, 49);
      && Attempt(q, [BAD_LINE, a], 2, run, handles, r)
      && Scan(q, BAD_LINE + a, r).Ok? && ScanInOrder(q, BAD_LINE + a) == Err
  {
    hide WellFormed, Lines, LinesOfAll, RowOf, Attempt, Scan, ScanInOrder, JobOf, Sum, SafeCounts, CanPush, Alike,
      FailsBefore, AllAccepted, OneBusyChunk, Accepted, NeverStopped;
    var q, a := Everything(conv).(aligned := true, limit := Some(1)), PairLine(97, 49);
    var texts, keys: set<Key> := [BAD_LINE, a], {KEY_A};
    BadThenShort(q, a);
    OneLine(a);
    ShortIsAccepted(q.filter, a);
    OneLineIsAlike(q, 97, 49);
    JobAccepts(q, texts, 2, BAD_LINE + a);
    LimitOfJob(q, texts, 2);
    SafeOfTwo(q, a);
    EverythingPushes(q, keys);
    SliceThenFilter(q, BAD_LINE + a);
    run, handles, r := DifferingAttempt(q, keys, texts, 2, BAD_LINE + a);
  }

  // ---- lines with other keys

  lemma LedByOne(q: Query, k: Byte, v: Byte, line: Line)
    requires IsLetterOrDigit(k) && IsLetterOrDigit(v) && line.text == PairLine(k, v)
    ensures Led({[k]}, [line]) && LeadKeys([line]) == {[k]}
  {
    hide ParsePairs;
    PairOfLine(k, v);
    var pairs := [Pair([k], [v])];
    assert pairs[..0] == [] && KeySet(pairs[..0]) == {};
    assert KeySet(pairs) == {[k]};
  }

  lemma OnePasses(q: Query, line: Line)
    requires q.pred.None?
    ensures Passing(q, [line]) == [line]
  {
    AllPass(q, [line]);
  }

  lemma TwoAccepted(q: Query, x: Bytes, y: Bytes)
    requires IsShort(x) && IsShort(y) && q.filter(x) && q.filter(y)
    ensures var job := JobOf(q, [x, y], 2);
            && |job.chunks| == 2
            && AcceptedOf(job, 0) == [Line(0, 0, x)] && AcceptedOf(job, 1) == [Line(1, 0, y)]
  {
    hide Lines, IsShort, Accepts;
    var job := JobOf(q, [x, y], 2);
    ShortIsAccepted(q.filter, x);
    ShortIsAccepted(q.filter, y);
    OneLine(x);
    OneLine(y);
    ChunksOfTwo(q, x, y);
    FlattenOne([Line(0, 0, x)]);
    FlattenOne([Line(1, 0, y)]);
    FilterOne(job.accept, Line(0, 0, x));
    FilterOne(job.accept, Line(1, 0, y));
  }

  // Two units of one line each with other keys lead to other columns.
  lemma TwoLeads(q: Query, a: Byte, v: Byte, b: Byte, w: Byte)
    requires IsLetterOrDigit(a) && IsLetterOrDigit(v) && IsLetterOrDigit(b) && IsLetterOrDigit(w) && a != b
    requires q.filter(PairLine(a, v)) && q.filter(PairLine(b, w)) && q.pred.None? && q.columns.None?
    ensures var job := JobOf(q, [PairLine(a, v), PairLine(b, w)], 2);
            ChunksLed(job) && AllCanPush(q, job) && !ColumnsAgree(q, job)
  {
    hide JobOf, AcceptedOf, Passing, Led, LeadKeys, SortedKeys, CanPush;
    var x, y := Line(0, 0, PairLine(a, v)), Line(1, 0, PairLine(b, w));
    var job := JobOf(q, [x.text, y.text], 2);
    TwoAccepted(q, x.text, y.text);
    LedByOne(q, a, v, x);
    LedByOne(q, b, w, y);
    OnePasses(q, x);
    OnePasses(q, y);
    EverythingPushes(q, {[a]});
    EverythingPushes(q, {[b]});
    OtherColumns(a, b);
    assert Live(q, job, 0) && Live(q, job, 1);
    assert LeadColumns(q, job, 0) == SortedKeys({[a]}) && LeadColumns(q, job, 1) == SortedKeys({[b]});
  }

  lemma OtherColumns(a: Byte, b: Byte)
    requires a != b
    ensures SortedKeys({[a]}) != SortedKeys({[b]})
  {
    assert [a] in SortedKeys({[a]});
    assert [a] !in {[b]};
  }

  lemma ColumnsRead(q: Query, text: Bytes)
    requires q.limit.None? && q.batch.None? && q.pred.None? && q.columns.None? && WellFormed(text)
    requires KeysOf(RowsRead(q, text)) != {}
    ensures ScanInOrder(q, text).Ok? && Names(ScanInOrder(q, text).value.fields) == KeysOf(RowsRead(q, text))
  {
    hide ReadBatch, WellFormed, KeysOf, PushedFrame, SortedKeys, ScanInOrder, FieldsFor;
    OneBatchScan(q, text);
    FailsIff(q, text, {});
    NoRowsNoKeys();
    var keys := KeysOf(RowsRead(q, text));
    PushedFrameIs(q, RowsRead(q, text));
    EverythingPushes(q, keys);
    NamesOfFields(q, SortedKeys(keys));
    assert ToSet(SortedKeys(keys)) == keys;
    SortedNone(keys);
  }

  lemma NoRowsNoKeys()
    ensures KeysOf([]) == {}
  {
  }

  // Two units of one line each that carry different keys, two threads, aligned:
  // the scan has both columns, though the first line has only one of them.
  lemma OtherColumnNotDropped(conv: Conversions)
    returns (run: seq<State<Line>>, handles: seq<bool>, r: Result<Option<Frame>>)
    ensures
      var q, a, b := Everything(conv).(aligned := true), PairLine(97, 49), PairLine(98, 50);
      && Attempt(q, [a, b], 2, run, handles, r)
      && Scan(q, a + b, r).Ok? && Names(Scan(q, a + b, r).value.fields) == {KEY_A, KEY_B}
  {
    hide WellFormed, Lines, LinesOfAll, Attempt, Scan, ScanInOrder, JobOf, ChunksLed, AllCanPush, ColumnsAgree, Live,
      RowsRead, KeysOf, AllAccepted, Accepted;
    var q, a, b := Everything(conv).(aligned := true), PairLine(97, 49), PairLine(98, 50);
    var texts: seq<Bytes> := [a, b];
    run, handles, r := AnAttempt(q, texts, 2);
    TwoLines(q, a, b);
    OneLine(a);
    OneLine(b);
    LinesOfTwo(a, b);
    assert [a] + [b] == [a, b];
    TwoLeads(q, 97, 49, 98, 50);
    RaggedScanIs(q, texts, 2, a + b, run, handles, r);
    AlignedBatchWithOtherColumn(conv);
    ColumnsRead(q, a + b);
  }
}
