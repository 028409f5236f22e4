// The sequential scan: rows read a batch at a time, turned into a frame,
// filtered and projected.
module SequentialScan {
  import opened Text
  import opened Utf8
  import opened LogfmtParser
  import opened SchemaProbe
  import opened Table

  // What a scan is asked for. The schema is always present.
  datatype Query = Query(
    conv: Conversions, schema: Schema, filter: Bytes -> bool, rowFilter: Row -> bool, aligned: bool,
    pred: Option<Predicate>, columns: Option<seq<Key>>, batch: Option<nat>, limit: Option<nat>,
    useParallel: bool)

  // ---- rows

  // `parse_logfmt_line_with_schema`: the last value of a repeated key stays.
  function RowOfPairs(q: Query, pairs: seq<Pair>): (row: Row)
    ensures Typed(q, row)
  {
    if pairs == [] then map[]
    else
      var last := pairs[|pairs| - 1];
      RowOfPairs(q, pairs[..|pairs| - 1])[last.key := ParseValueAs(q.conv, Lookup(q.schema, last.key), last.value)]
  }

  predicate Typed(q: Query, row: Row) {
    forall k :: k in row ==> Fits(Lookup(q.schema, k), row[k])
  }

  function RowOf(q: Query, line: Bytes): (row: Row)
    ensures Typed(q, row)
  {
    RowOfPairs(q, ParsePairs(line))
  }

  method ParseRow(q: Query, line: Bytes) returns (row: Row)
    ensures row == RowOf(q, line)
  {
    hide ParsePairs, RowOfPairs;
    row := map[];
    var pairs := ParsePairs(line);
    NoPairsNoKeys(q, pairs);
    for i := 0 to |pairs|
      invariant row == RowOfPairs(q, pairs[..i])
    {
      RowOneMore(q, pairs, i);
      row := row[pairs[i].key := ParseValueAs(q.conv, Lookup(q.schema, pairs[i].key), pairs[i].value)];
    }
    assert pairs[..|pairs|] == pairs;
  }

  lemma NoPairsNoKeys(q: Query, pairs: seq<Pair>)
    ensures RowOfPairs(q, pairs[..0]) == map[]
  {
  }

  lemma RowOneMore(q: Query, pairs: seq<Pair>, i: nat)
    requires i < |pairs|
    ensures RowOfPairs(q, pairs[..i + 1])
            == RowOfPairs(q, pairs[..i])
                 [pairs[i].key := ParseValueAs(q.conv, Lookup(q.schema, pairs[i].key), pairs[i].value)]
  {
    assert pairs[..i + 1][..i] == pairs[..i];
  }

  // With `aligned_cols_cnt` a row with another number of keys than the first
  // one of its batch loses the keys the first one did not have.
  function Align(q: Query, keys: set<Key>, row: Row): (r: Row) {
    if q.aligned && keys != {} && |row| != |keys| then map k | k in row && k in keys :: row[k] else row
  }

  function NextKeys(q: Query, keys: set<Key>, row: Row): (next: set<Key>) {
    if q.aligned && keys == {} then row.Keys else keys
  }

  // What reading a batch yields: its rows, how many lines passed the line
  // filter, what is left to read, whether the end was met, and whether a line
  // that is not UTF-8 was.
  datatype Batch = Batch(rows: seq<Row>, linesRead: nat, rest: Bytes, eof: bool, failed: bool)

  function Minus(want: Option<nat>, n: nat): Option<nat> {
    if want.None? then None else Some(if n < want.value then want.value - n else 0)
  }

  function ReadBatch(q: Query, text: Bytes, want: Option<nat>, keys: set<Key>): (b: Batch)
    ensures |b.rest| <= |text|
    decreases |text|
  {
    if want == Some(0) then Batch([], 0, text, false, false)
    else if text == [] then Batch([], 0, [], true, false)
    else
      var line, rest := text[..LineLength(text)], text[LineLength(text)..];
      if !WellFormed(line) then Batch([], 0, rest, false, true)
      else if !Accepts(q.filter)(line) then ReadBatch(q, rest, want, keys)
      else
        var row := RowOf(q, line);
        if !q.rowFilter(row) then
          var b := ReadBatch(q, rest, want, keys);
          b.(linesRead := b.linesRead + 1)
        else
          var kept := Align(q, keys, row);
          var b := ReadBatch(q, rest, Minus(want, 1), NextKeys(q, keys, kept));
          b.(rows := [kept] + b.rows, linesRead := b.linesRead + 1)
  }

  function Before(rows: seq<Row>, lines: nat, b: Batch): Batch {
    b.(rows := rows + b.rows, linesRead := lines + b.linesRead)
  }

  // One line of a batch.
  lemma ReadOneLine(q: Query, text: Bytes, want: Option<nat>, keys: set<Key>)
    requires text != [] && want != Some(0)
    ensures
      var line, after := text[..LineLength(text)], text[LineLength(text)..];
      var b := ReadBatch(q, text, want, keys);
      if !WellFormed(line) then b == Batch([], 0, after, false, true)
      else if !Accepts(q.filter)(line) then b == ReadBatch(q, after, want, keys)
      else if !q.rowFilter(RowOf(q, line)) then b == Before([], 1, ReadBatch(q, after, want, keys))
      else
        var kept := Align(q, keys, RowOf(q, line));
        b == Before([kept], 1, ReadBatch(q, after, Minus(want, 1), NextKeys(q, keys, kept)))
  {
    hide WellFormed, Accepts, RowOf, Align, NextKeys, LineLength;
    var line, after := text[..LineLength(text)], text[LineLength(text)..];
    if WellFormed(line) && Accepts(q.filter)(line) && !q.rowFilter(RowOf(q, line)) {
      var b := ReadBatch(q, after, want, keys);
      assert [] + b.rows == b.rows;
    }
  }

  lemma EmptyBatch(q: Query, text: Bytes, want: Option<nat>, known: set<Key>)
    requires want == Some(0) || text == []
    ensures ReadBatch(q, text, want, known) == Batch([], 0, text, want != Some(0), false)
  {
  }

  // How far a batch goes: to the end, to its size, or to a line that is not
  // UTF-8; rows cost text.
  ghost predicate ReadsUpTo(text: Bytes, want: Option<nat>, b: Batch) {
    && (b.rows != [] ==> |b.rest| < |text| && b.linesRead > 0)
    && (b.eof ==> b.rest == [])
    && (!b.failed ==> b.eof || (want.Some? && |b.rows| == want.value))
    && (want.Some? ==> |b.rows| <= want.value)
    && (want == Some(0) ==> b.linesRead == 0 && !b.eof && !b.failed)
  }

  lemma {:induction false} BatchReadsUpTo(q: Query, text: Bytes, want: Option<nat>, keys: set<Key>)
    ensures ReadsUpTo(text, want, ReadBatch(q, text, want, keys))
    decreases |text|
  {
    hide WellFormed, Accepts, RowOf, Align, NextKeys, LineLength, ReadBatch;
    if want == Some(0) || text == [] {
      EmptyBatch(q, text, want, keys);
    } else {
      var after := text[LineLength(text)..];
      var next := NextKeys(q, keys, Align(q, keys, RowOf(q, text[..LineLength(text)])));
      ReadOneLine(q, text, want, keys);
      BatchReadsUpTo(q, after, want, keys);
      BatchReadsUpTo(q, after, Minus(want, 1), next);
    }
  }

  ghost predicate AllTyped(q: Query, rows: seq<Row>) {
    forall i :: 0 <= i < |rows| ==> Typed(q, rows[i])
  }

  lemma OneMoreTyped(q: Query, keys: set<Key>, line: Bytes, rows: seq<Row>)
    requires AllTyped(q, rows)
    ensures AllTyped(q, [Align(q, keys, RowOf(q, line))] + rows)
  {
    hide RowOfPairs;
  }

  // Every value of a batch is one its field lets through.
  lemma {:induction false} BatchIsTyped(q: Query, text: Bytes, want: Option<nat>, keys: set<Key>)
    ensures AllTyped(q, ReadBatch(q, text, want, keys).rows)
    decreases |text|
  {
    hide WellFormed, Accepts, RowOf, Align, NextKeys, LineLength, Typed;
    if want != Some(0) && text != [] {
      var line, after := text[..LineLength(text)], text[LineLength(text)..];
      ReadOneLine(q, text, want, keys);
      hide ReadBatch, AllTyped;
      var next := NextKeys(q, keys, Align(q, keys, RowOf(q, line)));
      BatchIsTyped(q, after, want, keys);
      BatchIsTyped(q, after, Minus(want, 1), next);
      OneMoreTyped(q, keys, line, ReadBatch(q, after, Minus(want, 1), next).rows);
      NoneTyped(q);
      assert [] + ReadBatch(q, after, want, keys).rows == ReadBatch(q, after, want, keys).rows;
    }
  }

  lemma NoneTyped(q: Query)
    ensures AllTyped(q, [])
  {
  }

  // The same, with the rows read before it.
  lemma ReadLineStep(q: Query, rest: Bytes, want: Option<nat>, keys: set<Key>, rows: seq<Row>, lines: nat)
    requires rest != [] && (want.Some? ==> |rows| < want.value)
    ensures
      var line, after := rest[..LineLength(rest)], rest[LineLength(rest)..];
      var whole := Before(rows, lines, ReadBatch(q, rest, Minus(want, |rows|), keys));
      if !WellFormed(line) then whole == Batch(rows, lines, after, false, true)
      else if !Accepts(q.filter)(line) then
        whole == Before(rows, lines, ReadBatch(q, after, Minus(want, |rows|), keys))
      else if !q.rowFilter(RowOf(q, line)) then
        whole == Before(rows, lines + 1, ReadBatch(q, after, Minus(want, |rows|), keys))
      else
        var kept := Align(q, keys, RowOf(q, line));
        whole == Before(rows + [kept], lines + 1,
                        ReadBatch(q, after, Minus(want, |rows| + 1), NextKeys(q, keys, kept)))
  {
    hide WellFormed, Accepts, RowOf, Align, NextKeys, LineLength, ReadBatch;
    ReadOneLine(q, rest, Minus(want, |rows|), keys);
    var line, after := rest[..LineLength(rest)], rest[LineLength(rest)..];
    var kept := Align(q, keys, RowOf(q, line));
    var b := ReadBatch(q, after, Minus(want, |rows| + 1), NextKeys(q, keys, kept));
    assert Minus(Minus(want, |rows|), 1) == Minus(want, |rows| + 1);
    Associative(rows, [kept], b.rows);
    assert rows + [] == rows;
    var skipped := ReadBatch(q, after, Minus(want, |rows|), keys);
    assert [] + skipped.rows == skipped.rows;
  }

  lemma ReadNoMore(q: Query, rest: Bytes, want: Option<nat>, keys: set<Key>, rows: seq<Row>, lines: nat)
    requires rest == [] || want == Some(|rows|)
    requires want.Some? ==> |rows| <= want.value
    ensures Before(rows, lines, ReadBatch(q, rest, Minus(want, |rows|), keys))
            == Batch(rows, lines, rest, rest == [] && (want.Some? ==> |rows| < want.value), false)
  {
    assert rows + [] == rows;
  }

  // `parse_batch_from_reader`.
  method ParseBatch(q: Query, text: Bytes, want: Option<nat>) returns (b: Batch)
    ensures b == ReadBatch(q, text, want, {})
  {
    hide WellFormed, RowOf, Accepts, ReadBatch, Align, NextKeys;
    var rows: seq<Row> := [];
    var linesRead := 0;
    var keys: set<Key> := {};
    var rest := text;
    while rest != [] && (want.Some? ==> |rows| < want.value)
      invariant want.Some? ==> |rows| <= want.value
      invariant Before(rows, linesRead, ReadBatch(q, rest, Minus(want, |rows|), keys))
                == ReadBatch(q, text, want, {})
      decreases |rest|
    {
      ReadLineStep(q, rest, want, keys, rows, linesRead);
      var line := rest[..LineLength(rest)];
      rest := rest[LineLength(rest)..];
      if !WellFormed(line) {
        return Batch(rows, linesRead, rest, false, true);
      }
      if Accepts(q.filter)(line) {
        linesRead := linesRead + 1;
        var row := ParseRow(q, line);
        if q.rowFilter(row) {
          row := Align(q, keys, row);
          keys := NextKeys(q, keys, row);
          rows := rows + [row];
        }
      }
    }
    ReadNoMore(q, rest, want, keys, rows, linesRead);
    b := Batch(rows, linesRead, rest, rest == [] && (want.Some? ==> |rows| < want.value), false);
  }

  // ---- frames

  function KeysOf(rows: seq<Row>): (keys: set<Key>)
    ensures forall i, k :: 0 <= i < |rows| && k in rows[i] ==> k in keys
    ensures forall k :: k in keys ==> exists i :: 0 <= i < |rows| && k in rows[i]
  {
    set row, k | row in rows && k in row :: k
  }

  function KindOfKey(q: Query, k: Key): Kind {
    KindOf(Lookup(q.schema, k))
  }

  function CellOf(q: Query, row: Row, k: Key): Cell {
    FilledCell(q.conv, KindOfKey(q, k), Lookup(row, k))
  }

  function CellRow(q: Query, row: Row, keys: set<Key>): (cells: Cells) {
    map k | k in keys :: CellOf(q, row, k)
  }

  function FieldsFor(q: Query, keys: seq<Key>): (fields: seq<Field>)
    ensures |fields| == |keys|
    ensures forall i :: 0 <= i < |keys| ==> fields[i] == Field(keys[i], FilledType(KindOfKey(q, keys[i])))
  {
    seq(|keys|, i requires 0 <= i < |keys| => Field(keys[i], FilledType(KindOfKey(q, keys[i]))))
  }

  function CellRows(q: Query, rows: seq<Row>, keys: set<Key>): (out: seq<Cells>)
    ensures |out| == |rows|
    ensures forall i :: 0 <= i < |rows| ==> out[i] == CellRow(q, rows[i], keys)
  {
    seq(|rows|, i requires 0 <= i < |rows| => CellRow(q, rows[i], keys))
  }

  // The frame of some rows: a column for every key of any of them.
  function FrameOf(q: Query, rows: seq<Row>): (f: Frame) {
    var keys := KeysOf(rows);
    if keys == {} then EMPTY
    else Frame(FieldsFor(q, SortedKeys(keys)), CellRows(q, rows, keys))
  }

  // ---- the pull loop

  datatype ReaderState = ReaderState(reader: Option<Bytes>, offset: nat, finished: bool)

  const FRESH: ReaderState := ReaderState(None, 0, false)

  function BatchSize(q: Query): Option<nat> {
    if q.limit.Some? then q.limit else q.batch
  }

  function Head(f: Frame, n: nat): Frame {
    if |f.rows| > n then Frame(f.fields, f.rows[..n]) else f
  }

  function PushedFrame(q: Query, rows: seq<Row>): Result<Frame> {
    Pushdown(FrameOf(q, rows), q.pred, q.columns)
  }

  // `single_batch` on a source with this text.
  function SingleBatch(q: Query, text: Bytes, st: ReaderState): (r: (Result<Option<Frame>>, ReaderState)) {
    var size := BatchSize(q);
    var b := ReadBatch(q, GetOr(st.reader, text), size, {});
    if b.failed then (Err, st.(reader := Some(b.rest)))
    else if b.eof && b.rows == [] then
      (Ok(None), ReaderState(Some(b.rest), st.offset + b.linesRead, true))
    else
      var full := q.limit.Some? && |b.rows| >= q.limit.value;
      var f := PushedFrame(q, b.rows);
      if f.Err? then (Err, ReaderState(Some(b.rest), st.offset, st.finished || full))
      else
        var out := if size.Some? then Head(f.value, size.value) else f.value;
        (Ok(Some(out)),
         ReaderState(Some(b.rest), st.offset + b.linesRead, st.finished || full || b.linesRead == 0))
  }

  // `wrrap_next_batch`; `par` is what an attempt at the parallel batch gives.
  function NextBatch(q: Query, text: Bytes, par: Result<Option<Frame>>, st: ReaderState)
    : (r: (Result<Option<Frame>>, ReaderState))
  {
    if st.finished then (Ok(None), st)
    else if st.reader.None? && q.useParallel && st.offset == 0 then
      if par.Err? then (Err, st)
      else if par.value.Some? then (par, st.(finished := true))
      else SingleBatch(q, text, st)
    else SingleBatch(q, text, st)
  }

  // What there is left to do for the loop of `scan`.
  function Work(text: Bytes, st: ReaderState): nat {
    if st.finished then 0 else 1 + |GetOr(st.reader, text)|
  }

  lemma BatchMakesProgress(q: Query, text: Bytes, par: Result<Option<Frame>>, st: ReaderState)
    ensures var (r, st') := NextBatch(q, text, par, st);
            r.Ok? && r.value.Some? ==> Work(text, st') < Work(text, st)
  {
    hide ReadBatch, PushedFrame;
    BatchReadsUpTo(q, GetOr(st.reader, text), BatchSize(q), {});
  }

  function Finish(q: Query, acc: Option<Frame>): Frame {
    var out := GetOr(acc, EMPTY);
    if q.limit.Some? then Head(out, q.limit.value) else out
  }

  // The loop of `scan` from a state and what was stacked so far.
  function ScanFrom(q: Query, text: Bytes, par: Result<Option<Frame>>, st: ReaderState, acc: Option<Frame>)
    : (r: Result<Frame>)
    decreases Work(text, st)
  {
    BatchMakesProgress(q, text, par, st);
    var (r, st') := NextBatch(q, text, par, st);
    if r.Err? then Err
    else if r.value.None? then Ok(Finish(q, acc))
    else if r.value.value.fields == [] then ScanFrom(q, text, par, st', acc)
    else
      var stacked := if acc.None? then Ok(r.value.value) else Stack(acc.value, r.value.value);
      if stacked.Err? then Err
      else if q.limit.Some? && |stacked.value.rows| >= q.limit.value then Ok(Finish(q, Some(stacked.value)))
      else ScanFrom(q, text, par, st', Some(stacked.value))
  }

  function Scan(q: Query, text: Bytes, par: Result<Option<Frame>>): (r: Result<Frame>) {
    ScanFrom(q, text, par, FRESH, None)
  }

  // A scan that never gets rows from the parallel batch.
  function ScanInOrder(q: Query, text: Bytes): (r: Result<Frame>) {
    Scan(q, text, Ok(None))
  }

  // ---- what a pushed-down frame is, row by row

  function RowPasses(q: Query, row: Row): bool {
    q.pred.None? || q.pred.value.holds(CellRow(q, row, q.pred.value.uses))
  }

  function OutKeys(q: Query, keys: set<Key>): (out: seq<Key>) {
    if q.columns.None? || q.columns.value == [] then SortedKeys(keys) else q.columns.value
  }

  predicate CanPush(q: Query, keys: set<Key>) {
    && (q.pred.Some? ==> q.pred.value.uses <= keys)
    && (q.columns.Some? && q.columns.value != [] ==>
          Distinct(q.columns.value)
          && forall i :: 0 <= i < |q.columns.value| ==> q.columns.value[i] in keys)
  }

  function OutRows(q: Query, rows: seq<Row>, keys: set<Key>): (out: seq<Cells>) {
    if rows == [] then []
    else (if RowPasses(q, rows[0]) then [CellRow(q, rows[0], keys)] else []) + OutRows(q, rows[1..], keys)
  }

  lemma {:induction false} OutRowsConcat(q: Query, a: seq<Row>, b: seq<Row>, keys: set<Key>)
    ensures OutRows(q, a + b, keys) == OutRows(q, a, keys) + OutRows(q, b, keys)
  {
    if a == [] {
      assert a + b == b;
    } else {
      assert (a + b)[1..] == a[1..] + b;
      OutRowsConcat(q, a[1..], b, keys);
      Associative(if RowPasses(q, a[0]) then [CellRow(q, a[0], keys)] else [],
                  OutRows(q, a[1..], keys), OutRows(q, b, keys));
    }
  }

  lemma {:induction false} KeptRows(q: Query, rows: seq<Row>, keys: set<Key>)
    requires q.pred.Some? && q.pred.value.uses <= keys
    ensures Filter(Passes(q.pred.value), CellRows(q, rows, keys)) == OutRows(q, rows, keys)
  {
    if rows != [] {
      KeptRows(q, rows[1..], keys);
      var all := CellRows(q, rows, keys);
      assert all[1..] == CellRows(q, rows[1..], keys);
      assert Restrict(CellRow(q, rows[0], keys), q.pred.value.uses) == CellRow(q, rows[0], q.pred.value.uses);
    }
  }

  lemma CellRowsOneMore(q: Query, row: Row, rows: seq<Row>, keys: set<Key>)
    ensures CellRows(q, [row] + rows, keys) == [CellRow(q, row, keys)] + CellRows(q, rows, keys)
  {
    hide CellRow;
    var all := [row] + rows;
    forall i | 0 <= i < |all|
      ensures CellRows(q, all, keys)[i] == ([CellRow(q, row, keys)] + CellRows(q, rows, keys))[i]
    {
      assert i > 0 ==> all[i] == rows[i - 1];
    }
  }

  lemma {:induction false} AllRowsKept(q: Query, rows: seq<Row>, keys: set<Key>)
    requires q.pred.None?
    ensures OutRows(q, rows, keys) == CellRows(q, rows, keys)
  {
    hide CellRow;
    if rows != [] {
      AllRowsKept(q, rows[1..], keys);
      hide CellRows;
      CellRowsOneMore(q, rows[0], rows[1..], keys);
      assert rows == [rows[0]] + rows[1..];
    }
  }

  lemma {:induction false} RestrictRows(q: Query, rows: seq<Row>, keys: set<Key>, fewer: set<Key>)
    requires fewer <= keys
    ensures var all, out := OutRows(q, rows, keys), OutRows(q, rows, fewer);
            |all| == |out| && forall i :: 0 <= i < |all| ==> Restrict(all[i], fewer) == out[i]
  {
    if rows != [] {
      RestrictRows(q, rows[1..], keys, fewer);
      assert Restrict(CellRow(q, rows[0], keys), fewer) == CellRow(q, rows[0], fewer);
    }
  }

  lemma NamesOfFields(q: Query, keys: seq<Key>)
    ensures Names(FieldsFor(q, keys)) == ToSet(keys)
  {
    var fields := FieldsFor(q, keys);
    forall k | k in keys
      ensures k in Names(fields)
    {
      var i :| 0 <= i < |keys| && keys[i] == k;
      assert fields[i] in fields && fields[i].name == k;
    }
  }

  lemma {:induction false} NamedField(q: Query, keys: seq<Key>, name: Key)
    requires name in keys
    ensures name in Names(FieldsFor(q, keys))
    ensures FieldNamed(FieldsFor(q, keys), name) == Field(name, FilledType(KindOfKey(q, name)))
  {
    NamesOfFields(q, keys);
    var f := FieldNamed(FieldsFor(q, keys), name);
    var i :| 0 <= i < |keys| && FieldsFor(q, keys)[i] == f;
  }

  lemma NoKeysPushed(q: Query)
    ensures Pushdown(EMPTY, q.pred, q.columns) == if CanPush(q, {}) then Ok(EMPTY) else Err
  {
    if q.columns.Some? && q.columns.value != [] {
      assert q.columns.value[0] !in Names(EMPTY.fields);
    }
    assert Filter<Cells>(if q.pred.Some? then Passes(q.pred.value) else _ => true, []) == [];
  }

  // The frame of some rows, filtered and projected, told row by row. Rows
  // without any key make the frame without columns.
  lemma PushedFrameIs(q: Query, rows: seq<Row>)
    ensures PushedFrame(q, rows)
            == (var keys := KeysOf(rows);
                if !CanPush(q, keys) then Err
                else if keys == {} then Ok(EMPTY)
                else Ok(Frame(FieldsFor(q, OutKeys(q, keys)), OutRows(q, rows, ToSet(OutKeys(q, keys))))))
  {
    hide KeysOf, RowPasses, CellRow, ComesBefore;
    var keys := KeysOf(rows);
    if keys == {} {
      NoKeysPushed(q);
    } else {
      var sorted := SortedKeys(keys);
      var f := FrameOf(q, rows);
      NamesOfFields(q, sorted);
      assert ToSet(sorted) == keys;
      if q.pred.Some? && q.pred.value.uses <= keys {
        KeptRows(q, rows, keys);
      } else if q.pred.None? {
        AllRowsKept(q, rows, keys);
      }
      if CanPush(q, keys) {
        var kept := Frame(f.fields, OutRows(q, rows, keys));
        assert Where(f, q.pred) == Ok(kept);
        if q.columns.Some? && q.columns.value != [] {
          PickIs(q, rows, keys, q.columns.value);
        }
      }
    }
  }

  lemma PickIs(q: Query, rows: seq<Row>, keys: set<Key>, columns: seq<Key>)
    requires forall i :: 0 <= i < |columns| ==> columns[i] in keys
    requires Names(FieldsFor(q, SortedKeys(keys))) == keys
    ensures Pick(Frame(FieldsFor(q, SortedKeys(keys)), OutRows(q, rows, keys)), columns)
            == Frame(FieldsFor(q, columns), OutRows(q, rows, ToSet(columns)))
  {
    hide OutRows;
    var sorted := SortedKeys(keys);
    var f := Frame(FieldsFor(q, sorted), OutRows(q, rows, keys));
    var picked := Pick(f, columns);
    forall i | 0 <= i < |columns|
      ensures picked.fields[i] == FieldsFor(q, columns)[i]
    {
      NamedField(q, sorted, columns[i]);
    }
    assert (set k | k in columns) == ToSet(columns);
    RestrictRows(q, rows, keys, ToSet(columns));
    assert picked.rows == OutRows(q, rows, ToSet(columns));
  }
}
