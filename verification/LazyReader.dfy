// The reader that a scan pulls batches from: its state, its calls and the loop.
module LazyReader {
  import opened Text
  import opened Utf8
  import opened LogfmtParser
  import opened SchemaProbe
  import opened Table
  import opened ColumnFrames
  import opened SequentialScan
  import opened SequentialLaws

  // ---- rows to a frame

  // Some row has a value of this sort for the key.
  ghost predicate Holds(rows: seq<Row>, key: Key, sort: Value -> bool) {
    exists i :: 0 <= i < |rows| && key in rows[i] && sort(rows[i][key])
  }

  lemma HoldsOneMore(rows: seq<Row>, i: nat, key: Key, sort: Value -> bool)
    requires i < |rows|
    ensures Holds(rows[..i + 1], key, sort)
            <==> Holds(rows[..i], key, sort) || (key in rows[i] && sort(rows[i][key]))
  {
    var more, fewer := rows[..i + 1], rows[..i];
    if Holds(fewer, key, sort) {
      var j :| 0 <= j < |fewer| && key in fewer[j] && sort(fewer[j][key]);
      assert more[j] == fewer[j];
    }
    if Holds(more, key, sort) {
      var j :| 0 <= j < |more| && key in more[j] && sort(more[j][key]);
      assert j < i ==> fewer[j] == more[j];
    }
    assert more[i] == rows[i];
  }

  // The sort of a column that the schema leaves open: the first of these sorts
  // that some row has.
  ghost function InferredKind(rows: seq<Row>, key: Key): Kind {
    if Holds(rows, key, (v: Value) => v.DateTime?) then DateTimeKind
    else if Holds(rows, key, (v: Value) => v.Duration?) then DurationKind
    else if Holds(rows, key, (v: Value) => v.Text?) then StringKind
    else if Holds(rows, key, (v: Value) => v.Float?) then FloatKind
    else if Holds(rows, key, (v: Value) => v.Integer?) then IntKind
    else if Holds(rows, key, (v: Value) => v.Boolean?) then BoolKind
    else StringKind
  }

  function SortOf(v: Value): Kind {
    match v
    case Text(_) => StringKind
    case Integer(_) => IntKind
    case Float(_) => FloatKind
    case Boolean(_) => BoolKind
    case DateTime(_) => DateTimeKind
    case Duration(_) => DurationKind
  }

  // The sort of some value of the key that comes before the sorts of all others
  // in this order, and a string if there is no value.
  lemma InferredIsFirst(rows: seq<Row>, key: Key)
    ensures var order := [DateTimeKind, DurationKind, StringKind, FloatKind, IntKind, BoolKind];
            var held := set row | row in rows && key in row :: SortOf(row[key]);
            var kind := InferredKind(rows, key);
            && (held == {} ==> kind == StringKind)
            && (held != {} ==> kind in held)
            && forall i, j :: 0 <= i < j < |order| && order[j] == kind && held != {} ==> order[i] !in held
  {
    var held := set row | row in rows && key in row :: SortOf(row[key]);
    forall row | row in rows && key in row
      ensures exists i :: 0 <= i < |rows| && rows[i] == row
    {
    }
    assert forall i :: 0 <= i < |rows| && key in rows[i] ==> SortOf(rows[i][key]) in held;
  }

  predicate LeftOpen(field: Option<SchemaField>) {
    field.None? || field.value.Auto?
  }

  method KindFor(q: Query, rows: seq<Row>, key: Key) returns (kind: Kind)
    ensures kind == if LeftOpen(Lookup(q.schema, key)) then InferredKind(rows, key) else KindOfKey(q, key)
  {
    var hasString, hasInt, hasFloat, hasBool, hasDateTime, hasDuration := false, false, false, false, false, false;
    for i := 0 to |rows|
      invariant hasString == Holds(rows[..i], key, (v: Value) => v.Text?)
      invariant hasInt == Holds(rows[..i], key, (v: Value) => v.Integer?)
      invariant hasFloat == Holds(rows[..i], key, (v: Value) => v.Float?)
      invariant hasBool == Holds(rows[..i], key, (v: Value) => v.Boolean?)
      invariant hasDateTime == Holds(rows[..i], key, (v: Value) => v.DateTime?)
      invariant hasDuration == Holds(rows[..i], key, (v: Value) => v.Duration?)
    {
      hide Holds;
      HoldsOneMore(rows, i, key, (v: Value) => v.Text?);
      HoldsOneMore(rows, i, key, (v: Value) => v.Integer?);
      HoldsOneMore(rows, i, key, (v: Value) => v.Float?);
      HoldsOneMore(rows, i, key, (v: Value) => v.Boolean?);
      HoldsOneMore(rows, i, key, (v: Value) => v.DateTime?);
      HoldsOneMore(rows, i, key, (v: Value) => v.Duration?);
      if key in rows[i] {
        match rows[i][key] {
          case Text(_) => hasString := true;
          case Integer(_) => hasInt := true;
          case Float(_) => hasFloat := true;
          case Boolean(_) => hasBool := true;
          case DateTime(_) => hasDateTime := true;
          case Duration(_) => hasDuration := true;
        }
      }
    }
    assert rows[..|rows|] == rows;
    var field := Lookup(q.schema, key);
    if !LeftOpen(field) {
      return KindOf(field);
    }
    kind := if hasDateTime then DateTimeKind
      else if hasDuration then DurationKind
      else if hasString then StringKind
      else if hasFloat then FloatKind
      else if hasInt then IntKind
      else if hasBool then BoolKind
      else StringKind;
  }

  // Rows parsed under the schema never make it guess.
  lemma TypedKind(q: Query, rows: seq<Row>, key: Key)
    requires AllTyped(q, rows) && LeftOpen(Lookup(q.schema, key))
    ensures InferredKind(rows, key) == KindOfKey(q, key) == StringKind
  {
    forall i | 0 <= i < |rows| && key in rows[i]
      ensures rows[i][key].Text?
    {
      assert Typed(q, rows[i]);
    }
  }

  method ColumnFor(q: Query, rows: seq<Row>, key: Key, ghost keys: set<Key>) returns (column: Column)
    requires AllTyped(q, rows) && key in keys
    ensures ColumnOf(column, Field(key, FilledType(KindOfKey(q, key))), CellRows(q, rows, keys))
  {
    var kind := KindFor(q, rows, key);
    if LeftOpen(Lookup(q.schema, key)) {
      TypedKind(q, rows, key);
    }
    var cells: seq<Cell> := [];
    for i := 0 to |rows|
      invariant |cells| == i && forall j :: 0 <= j < i ==> cells[j] == CellOf(q, rows[j], key)
    {
      cells := cells + [FilledCell(q.conv, kind, Lookup(rows[i], key))];
    }
    column := Column(key, FilledType(kind), cells);
  }

  ghost predicate ColumnsFor(q: Query, rows: seq<Row>, keys: set<Key>, columns: seq<Column>, names: seq<Key>) {
    && |columns| == |names|
    && forall c :: 0 <= c < |columns| ==>
         ColumnOf(columns[c], Field(names[c], FilledType(KindOfKey(q, names[c]))), CellRows(q, rows, keys))
  }

  lemma RowColumnsAreTable(q: Query, rows: seq<Row>, keys: set<Key>, columns: seq<Column>)
    requires keys != {} && ColumnsFor(q, rows, keys, columns, SortedKeys(keys))
    ensures ColumnsOfTable(columns, FieldsFor(q, SortedKeys(keys)), CellRows(q, rows, keys))
  {
    hide SortedKeys, ColumnOf;
    SortedFields(q, keys);
  }

  lemma RowColumnsMakeFrame(q: Query, rows: seq<Row>, columns: seq<Column>)
    requires KeysOf(rows) != {} && ColumnsFor(q, rows, KeysOf(rows), columns, SortedKeys(KeysOf(rows)))
    ensures FromColumns(columns) == Ok(FrameOf(q, rows))
  {
    hide FromColumns, SortedKeys, KeysOf, ColumnsFor, ColumnsOfTable, FieldsFor, CellRows;
    var keys := KeysOf(rows);
    RowColumnsAreTable(q, rows, keys, columns);
    ColumnsMakeFrame(columns, FieldsFor(q, SortedKeys(keys)), CellRows(q, rows, keys));
  }

  lemma NoKeysNoColumns(q: Query, rows: seq<Row>)
    requires KeysOf(rows) == {}
    ensures FrameOf(q, rows) == EMPTY
  {
  }

  // `rows_to_dataframe_filled`.
  method RowsToFrame(q: Query, rows: seq<Row>) returns (r: Result<Frame>)
    requires AllTyped(q, rows)
    ensures r == Ok(FrameOf(q, rows))
  {
    hide ColumnsFor, FromColumns, SortedKeys, KeysOf, AllTyped, FrameOf, ColumnOf, ComesBefore;
    var keys := KeysOf(rows);
    if keys == {} {
      NoKeysNoColumns(q, rows);
      return Ok(EMPTY);
    }
    var sorted := SortedKeys(keys);
    var columns: seq<Column> := [];
    NoColumns(q, rows, keys);
    for i := 0 to |sorted|
      invariant ColumnsFor(q, rows, keys, columns, sorted[..i])
    {
      var column := ColumnFor(q, rows, sorted[i], keys);
      OneColumnMore(q, rows, keys, columns, sorted[..i], column, sorted[i]);
      TakeOneMore(sorted, i + 1);
      columns := columns + [column];
    }
    assert sorted[..|sorted|] == sorted;
    RowColumnsMakeFrame(q, rows, columns);
    r := FromColumns(columns);
  }

  lemma NoColumns(q: Query, rows: seq<Row>, keys: set<Key>)
    ensures ColumnsFor(q, rows, keys, [], [])
  {
  }

  lemma OneColumnMore(q: Query, rows: seq<Row>, keys: set<Key>, columns: seq<Column>, names: seq<Key>,
                      column: Column, name: Key)
    requires ColumnsFor(q, rows, keys, columns, names)
    requires ColumnOf(column, Field(name, FilledType(KindOfKey(q, name))), CellRows(q, rows, keys))
    ensures ColumnsFor(q, rows, keys, columns + [column], names + [name])
  {
    hide ColumnOf;
  }

  lemma SortedFields(q: Query, keys: set<Key>)
    requires keys != {}
    ensures var fields := FieldsFor(q, SortedKeys(keys));
            && |fields| > 0 && Names(fields) == keys
            && forall c, d :: 0 <= c < d < |fields| ==> fields[c].name != fields[d].name
  {
    hide SortedKeys;
    NamesOfFields(q, SortedKeys(keys));
    var k :| k in keys;
    assert k in SortedKeys(keys);
    assert ToSet(SortedKeys(keys)) == keys;
  }

  // ---- the reader

  class LazyLogFmtReader {
    const q: Query
    const text: Bytes
    // what the open stream has left to read, and how far the scan came
    var reader: Option<Bytes>
    var offset: nat
    var finished: bool

    // A reader of a source with this text, on the stream a probe left, if any.
    constructor (q: Query, text: Bytes, probe: Option<Bytes>)
      ensures this.q == q && this.text == text && State() == FRESH.(reader := probe)
    {
      this.q, this.text := q, text;
      reader, offset, finished := probe, 0, false;
    }

    function State(): ReaderState
      reads this
    {
      ReaderState(reader, offset, finished)
    }

    predicate Full(b: Batch, size: Option<nat>) {
      size.Some? && |b.rows| >= size.value
    }

    // The loop of `single_batch` that reads until the batch is full.
    method Accumulate(from: Bytes, size: Option<nat>) returns (b: Batch)
      ensures b == ReadBatch(q, from, size, {})
    {
      hide ReadBatch;
      b := Batch([], 0, from, false, false);
      NothingAccumulated(q, from);
      while !b.failed && !b.eof && !Full(b, size)
        invariant b == Batch([], 0, from, false, false) || b == ReadBatch(q, from, size, {})
        invariant b == Batch([], 0, from, false, false) || b.failed || b.eof || Full(b, size)
        invariant size == Some(0) ==> b == ReadBatch(q, from, size, {})
        decreases if b.failed || b.eof || Full(b, size) then 0 else 1
      {
        var more := ParseBatch(q, b.rest, Minus(size, |b.rows|));
        BatchReadsUpTo(q, from, size, {});
        assert [] + more.rows == more.rows;
        b := Before(b.rows, b.linesRead, more);
      }
    }

    // `single_batch`.
    method SingleBatch() returns (r: Result<Option<Frame>>)
      modifies this
      ensures (r, State()) == SequentialScan.SingleBatch(q, text, old(State()))
    {
      hide ReadBatch, FrameOf, Pushdown;
      if reader.None? {
        reader := Some(text);
      }
      var size := BatchSize(q);
      var b := Accumulate(reader.value, size);
      reader := Some(b.rest);
      if b.failed {
        return Err;
      }
      if b.eof && b.rows == [] {
        offset, finished := offset + b.linesRead, true;
        return Ok(None);
      }
      if q.limit.Some? && |b.rows| >= q.limit.value {
        finished := true;
      }
      BatchIsTyped(q, GetOr(old(reader), text), size, {});
      var made := RowsToFrame(q, b.rows);
      var pushed := Pushdown(made.value, q.pred, q.columns);
      if pushed.Err? {
        return Err;
      }
      var out := pushed.value;
      if size.Some? && |out.rows| > size.value {
        out := Frame(out.fields, out.rows[..size.value]);
      }
      offset := offset + b.linesRead;
      if b.linesRead == 0 {
        finished := true;
      }
      r := Ok(Some(out));
    }

    // `wrrap_next_batch`.
    method NextBatch(par: Result<Option<Frame>>) returns (r: Result<Option<Frame>>)
      modifies this
      ensures (r, State()) == SequentialScan.NextBatch(q, text, par, old(State()))
    {
      hide ReadBatch, SequentialScan.SingleBatch;
      if finished {
        return Ok(None);
      }
      if reader.None? && q.useParallel && offset == 0 {
        if par.Err? {
          return Err;
        }
        if par.value.Some? {
          finished := true;
          return par;
        }
      }
      r := SingleBatch();
    }

    // The loop of `scan`.
    method ScanAll(par: Result<Option<Frame>>) returns (r: Result<Frame>)
      modifies this
      ensures r == ScanFrom(q, text, par, old(State()), None)
      ensures old(State()) == FRESH ==> r == Scan(q, text, par)
    {
      hide SequentialScan.NextBatch, Work;
      var acc: Option<Frame> := None;
      while true
        invariant ScanFrom(q, text, par, State(), acc) == ScanFrom(q, text, par, old(State()), None)
        decreases Work(text, State())
      {
        BatchMakesProgress(q, text, par, State());
        var next := NextBatch(par);
        if next.Err? {
          return Err;
        }
        if next.value.None? {
          break;
        }
        var df := next.value.value;
        if df.fields == [] {
          continue;
        }
        if acc.Some? {
          var stacked := Stack(acc.value, df);
          if stacked.Err? {
            return Err;
          }
          acc := Some(stacked.value);
        } else {
          acc := Some(df);
        }
        if q.limit.Some? && |acc.value.rows| >= q.limit.value {
          break;
        }
      }
      var out := if acc.Some? then acc.value else EMPTY;
      if q.limit.Some? && |out.rows| > q.limit.value {
        out := Frame(out.fields, out.rows[..q.limit.value]);
      }
      r := Ok(out);
    }
  }

  lemma NothingAccumulated(q: Query, from: Bytes)
    ensures ReadBatch(q, from, Some(0), {}) == Batch([], 0, from, false, false)
  {
  }

  // ---- the first collect

  // A scan on a stream that was opened reads it, and tries no parallel batch.
  lemma ScanOfStream(q: Query, text: Bytes, par: Result<Option<Frame>>)
    ensures ScanFrom(q, text, par, FRESH.(reader := Some(text)), None) == ScanInOrder(q, text)
  {
    hide ReadBatch, PushedFrame;
    ParallelIsOver(q, text, par, FRESH.(reader := Some(text)), None);
    var first, second := FRESH, FRESH.(reader := Some(text));
    assert NextBatch(q, text, Ok(None), first) == NextBatch(q, text, Ok(None), second);
    BatchMakesProgress(q, text, Ok(None), first);
  }

  lemma {:induction false} ParallelIsOver(q: Query, text: Bytes, par: Result<Option<Frame>>, st: ReaderState,
                                          acc: Option<Frame>)
    requires st.reader.Some?
    ensures ScanFrom(q, text, par, st, acc) == ScanFrom(q, text, Ok(None), st, acc)
    decreases Work(text, st)
  {
    hide ReadBatch, PushedFrame;
    BatchMakesProgress(q, text, par, st);
    var (r, st') := NextBatch(q, text, par, st);
    if r.Ok? && r.value.Some? {
      var df := r.value.value;
      if df.fields == [] {
        ParallelIsOver(q, text, par, st', acc);
      } else {
        var stacked := if acc.None? then Ok(df) else Stack(acc.value, df);
        if stacked.Ok? {
          ParallelIsOver(q, text, par, st', Some(stacked.value));
        }
      }
    }
  }

  // The first collect on a command's output: the schema is probed, and the
  // scan goes on with the probe's stream, what it took put back in front. It
  // returns what a scan of the whole text with that schema returns.
  method FirstCollect(q: Query, text: Bytes, n: nat, infer: Bytes -> SchemaField, par: Result<Option<Frame>>)
    returns (r: Result<Frame>)
    ensures var rows := RowSchemas(infer, Take(Accepted(q.filter, text), n));
            r == if BadLineBefore(q.filter, text, n) || rows == [] then Err
                 else ScanInOrder(q.(schema := JoinAll(rows)), text)
  {
    hide Accepted, ScanFrom, JoinAll, RowSchemas, WellFormed, BadLineBefore;
    var probed, consumed, rest := InferSchema(text, q.filter, n, infer);
    if probed.Err? || probed.value.None? {
      return Err;
    }
    var q' := q.(schema := probed.value.value);
    var reader := new LazyLogFmtReader(q', text, Some(consumed + rest));
    ScanOfStream(q', text, par);
    r := reader.ScanAll(par);
  }

  // ---- runs of calls

  // A call of `wrrap_next_batch`: the state it starts in, and what an attempt
  // at the parallel batch would give in it.
  datatype Call = Call(before: ReaderState, par: Result<Option<Frame>>)

  function ResultOf(q: Query, text: Bytes, c: Call): Result<Option<Frame>> {
    NextBatch(q, text, c.par, c.before).0
  }

  function After(q: Query, text: Bytes, c: Call): ReaderState {
    NextBatch(q, text, c.par, c.before).1
  }

  // Any run of calls on a fresh reader.
  ghost predicate IsCalls(q: Query, text: Bytes, calls: seq<Call>) {
    && (calls != [] ==> calls[0].before == FRESH)
    && forall i, j :: 0 <= i < j == i + 1 < |calls| ==> calls[j].before == After(q, text, calls[i])
  }

  // Where the rows of a call come from.
  datatype Path = ParallelRows | SequentialRows | NoRows

  function PathOf(q: Query, text: Bytes, c: Call): Path {
    var r := ResultOf(q, text, c);
    if r.Err? || r.value.None? then NoRows
    else if c.before.reader.None? && q.useParallel && c.before.offset == 0 && c.par.Ok? && c.par.value.Some?
    then ParallelRows
    else SequentialRows
  }

  // What holds of the state at a later call.
  ghost predicate LaterState(q: Query, text: Bytes, c: Call, later: ReaderState) {
    && (c.before.finished ==> later == c.before)
    && (PathOf(q, text, c) == ParallelRows ==> later.finished)
    && (PathOf(q, text, c) == SequentialRows ==> later.finished || later.reader.Some?)
    && (FillsSlice(q, text, c) ==> later.finished)
  }

  // The call reads as many rows as the slice has.
  predicate FillsSlice(q: Query, text: Bytes, c: Call) {
    && q.limit.Some? && ReadsBatch(q, c)
    && (var b := ReadBatch(q, GetOr(c.before.reader, text), q.limit, {});
        !b.failed && !b.eof && |b.rows| == q.limit.value)
  }

  // The call gets to a sequential batch.
  predicate ReadsBatch(q: Query, c: Call) {
    && !c.before.finished
    && (c.before.reader.None? && q.useParallel && c.before.offset == 0 ==> c.par == Ok(None))
  }

  lemma {:induction false} StateLater(q: Query, text: Bytes, calls: seq<Call>, i: nat, j: nat)
    requires IsCalls(q, text, calls) && i < j < |calls|
    ensures LaterState(q, text, calls[i], calls[j].before)
    decreases j
  {
    hide ReadBatch, PushedFrame;
    if j == i + 1 {
      assert calls[j].before == After(q, text, calls[i]);
    } else {
      StateLater(q, text, calls, i, j - 1);
      var c := calls[j - 1];
      assert calls[j].before == After(q, text, c);
    }
  }

  // In any run of calls rows come from the parallel batch or from sequential
  // batches, never from both; after the parallel batch, and once the reader is
  // finished, every later call returns nothing and changes nothing.
  lemma OnePathOnly(q: Query, text: Bytes, calls: seq<Call>, i: nat, j: nat)
    requires IsCalls(q, text, calls) && i < j < |calls|
    ensures PathOf(q, text, calls[i]) == ParallelRows || calls[i].before.finished ==>
              ResultOf(q, text, calls[j]) == Ok(None) && After(q, text, calls[j]) == calls[j].before
    ensures PathOf(q, text, calls[i]) == SequentialRows ==> PathOf(q, text, calls[j]) != ParallelRows
  {
    hide ReadBatch, PushedFrame;
    StateLater(q, text, calls, i, j);
  }

  // A slice is read once: after a call that read all its rows every later call
  // returns nothing, also when the pushdown failed on them.
  lemma SliceIsReadOnce(q: Query, text: Bytes, calls: seq<Call>, i: nat, j: nat)
    requires IsCalls(q, text, calls) && i < j < |calls| && FillsSlice(q, text, calls[i])
    ensures ResultOf(q, text, calls[j]) == Ok(None) && After(q, text, calls[j]) == calls[j].before
  {
    hide ReadBatch, PushedFrame, FillsSlice;
    StateLater(q, text, calls, i, j);
  }

  // A call that fails counts no line; a failed attempt at the parallel batch and
  // a call on a finished reader change nothing at all.
  lemma FailedCallCountsNothing(q: Query, text: Bytes, c: Call)
    ensures ResultOf(q, text, c).Err? ==> After(q, text, c).offset == c.before.offset
    ensures ResultOf(q, text, c).Err? && !ReadsBatch(q, c) ==> After(q, text, c) == c.before
  {
    hide ReadBatch, PushedFrame;
  }

  // A call that returns nothing leaves the reader finished.
  lemma NothingMeansFinished(q: Query, text: Bytes, c: Call)
    ensures ResultOf(q, text, c) == Ok(None) ==> After(q, text, c).finished
  {
    hide ReadBatch, PushedFrame;
  }

  // ---- sequential batches read on where the last one stopped

  function Position(text: Bytes, st: ReaderState): int {
    |text| - |GetOr(st.reader, text)|
  }

  predicate IsRest(text: Bytes, left: Bytes) {
    |left| <= |text| && left == text[|text| - |left|..]
  }

  predicate ReadsOn(text: Bytes, st: ReaderState) {
    IsRest(text, GetOr(st.reader, text))
  }

  lemma {:induction false} RestIsSuffix(q: Query, text: Bytes, want: Option<nat>, keys: set<Key>)
    ensures IsRest(text, ReadBatch(q, text, want, keys).rest)
    decreases |text|
  {
    hide WellFormed, Accepts, RowOf, Align, NextKeys, LineLength, ReadBatch;
    if want == Some(0) || text == [] {
      EmptyBatch(q, text, want, keys);
    } else {
      var line, after := text[..LineLength(text)], text[LineLength(text)..];
      var kept := Align(q, keys, RowOf(q, line));
      ReadOneLine(q, text, want, keys);
      RestIsSuffix(q, after, want, keys);
      RestIsSuffix(q, after, Minus(want, 1), NextKeys(q, keys, kept));
      SuffixOfSuffix(text, after, ReadBatch(q, text, want, keys).rest);
    }
  }

  // One call: the stream moves on by what the batch took, or stays.
  lemma CallReadsOn(q: Query, text: Bytes, c: Call)
    requires ReadsOn(text, c.before)
    ensures ReadsOn(text, After(q, text, c))
    ensures Position(text, c.before) <= Position(text, After(q, text, c))
  {
    hide ReadBatch, After, PathOf, IsRest;
    var left := GetOr(c.before.reader, text);
    var rest := ReadBatch(q, left, BatchSize(q), {}).rest;
    RestIsSuffix(q, left, BatchSize(q), {});
    StreamAfter(q, text, c);
    SuffixOfSuffix(text, left, rest);
  }

  lemma CallLeaves(q: Query, text: Bytes, c: Call)
    requires ReadsOn(text, c.before) && PathOf(q, text, c) == SequentialRows
    ensures After(q, text, c).reader
            == Some(ReadBatch(q, text[Position(text, c.before)..], BatchSize(q), {}).rest)
  {
    hide ReadBatch, After, PathOf;
    StreamAfter(q, text, c);
  }

  lemma SuffixOfSuffix(text: Bytes, left: Bytes, rest: Bytes)
    requires IsRest(text, left) && IsRest(left, rest)
    ensures IsRest(text, rest) && |rest| <= |left|
  {
  }

  lemma StreamAfter(q: Query, text: Bytes, c: Call)
    ensures
      var after, read := After(q, text, c).reader,
        Some(ReadBatch(q, GetOr(c.before.reader, text), BatchSize(q), {}).rest);
      && (after == c.before.reader || after == read)
      && (PathOf(q, text, c) == SequentialRows ==> after == read)
  {
    hide ReadBatch, PushedFrame;
  }

  // A fallback reads from the start of the text; every later batch reads on
  // from where the last one stopped, and no call skips or repeats a byte.
  lemma {:induction false} CallsReadOn(q: Query, text: Bytes, calls: seq<Call>, i: nat)
    requires IsCalls(q, text, calls) && i < |calls|
    ensures ReadsOn(text, calls[i].before)
    ensures calls[i].before.reader.None? ==> Position(text, calls[i].before) == 0
    ensures Position(text, calls[i].before) <= Position(text, After(q, text, calls[i]))
    ensures PathOf(q, text, calls[i]) == SequentialRows ==>
              After(q, text, calls[i]).reader
              == Some(ReadBatch(q, text[Position(text, calls[i].before)..], BatchSize(q), {}).rest)
  {
    hide PathOf, After;
    if i > 0 {
      CallsReadOn(q, text, calls, i - 1);
      assert calls[i].before == After(q, text, calls[i - 1]);
      CallReadsOn(q, text, calls[i - 1]);
    }
    CallReadsOn(q, text, calls[i]);
    if PathOf(q, text, calls[i]) == SequentialRows {
      CallLeaves(q, text, calls[i]);
    }
  }

  // ---- what the offset counts

  ghost predicate OffsetIs(q: Query, text: Bytes, st: ReaderState) {
    st.offset + |Accepted(q.filter, GetOr(st.reader, text))| == |Accepted(q.filter, text)|
  }

  lemma CallCountsLines(q: Query, text: Bytes, c: Call)
    requires OffsetIs(q, text, c.before) && ResultOf(q, text, c).Ok?
    ensures OffsetIs(q, text, After(q, text, c))
  {
    hide ReadBatch, PushedFrame, Accepted;
    BatchCountsLines(q, GetOr(c.before.reader, text), BatchSize(q), {});
  }

  // As long as no call fails, the offset is the number of lines read so far
  // that passed the line filter.
  lemma {:induction false} OffsetCountsLines(q: Query, text: Bytes, calls: seq<Call>, i: nat)
    requires IsCalls(q, text, calls) && i < |calls|
    requires forall j :: 0 <= j < i ==> ResultOf(q, text, calls[j]).Ok?
    ensures OffsetIs(q, text, calls[i].before)
  {
    hide After, ResultOf, OffsetIs;
    if i > 0 {
      OffsetCountsLines(q, text, calls, i - 1);
      assert calls[i].before == After(q, text, calls[i - 1]);
      CallCountsLines(q, text, calls[i - 1]);
    } else {
      FreshOffset(q, text);
    }
  }

  lemma FreshOffset(q: Query, text: Bytes)
    ensures OffsetIs(q, text, FRESH)
  {
  }
}
