// What one worker of the parallel scan makes of the lines it pushed.
module WorkerFrames {
  import opened Text
  import opened LogfmtParser
  import opened SchemaProbe
  import opened Table
  import opened Builder
  import opened RowTable
  import opened SequentialScan
  import opened ColumnFrames

  // A line and where it is from.
  datatype Line = Line(frame: nat, index: nat, text: Bytes)

  // Which columns a worker keeps: the keys of the first line it pushed, looked
  // for anew in every frame until a line with keys was met.
  datatype Opening = Opening(frame: Option<nat>, first: Option<set<Key>>, keys: seq<Key>)

  function Open(q: Query, o: Opening, line: Line): (next: Opening)
    ensures Distinct(o.keys) ==> Distinct(next.keys)
  {
    var before := if o.frame == Some(line.frame) then o.first else None;
    var first := if before.None? && o.keys == [] then Some(KeySet(ParsePairs(line.text))) else before;
    var keys := if q.aligned && o.keys == [] && first.Some? then SortedKeys(first.value) else o.keys;
    Opening(Some(line.frame), first, keys)
  }

  function OpeningOf(q: Query, lines: seq<Line>): (o: Opening)
    ensures Distinct(o.keys)
    ensures !q.aligned ==> o.keys == []
  {
    if lines == [] then Opening(None, None, []) else Open(q, OpeningOf(q, lines[..|lines| - 1]), lines[|lines| - 1])
  }

  // The pairs the builder looked at, line by line.
  function HistoryOf(q: Query, lines: seq<Line>): (h: History)
    ensures |h| == |lines|
  {
    if lines == [] then []
    else
      HistoryOf(q, lines[..|lines| - 1])
      + [Kept(OpeningOf(q, lines).keys, ParsePairs(lines[|lines| - 1].text))]
  }

  function MadeFrame(q: Query, lines: seq<Line>): (r: Result<Frame>) {
    FromColumns(Emit(q.schema, q.conv, HistoryOf(q, lines), OpeningOf(q, lines).keys))
  }

  // Without a slice the predicate and the projection are applied here; a frame
  // without rows is dropped.
  function WorkerFrame(q: Query, lines: seq<Line>): (r: Result<Frame>) {
    var made := MadeFrame(q, lines);
    var out := if made.Ok? && made.value.fields != [] && q.limit.None?
      then Pushdown(made.value, q.pred, q.columns) else made;
    if out.Err? then Err
    else if out.value.fields != [] && out.value.rows != [] then out
    else Ok(EMPTY)
  }

  // The part of `parse_frames` that comes after a line was accepted and claimed.
  method ParseFrames(q: Query, lines: seq<Line>) returns (r: Result<Frame>)
    ensures r == WorkerFrame(q, lines)
  {
    hide ParsePairs, Kept, Emit, FromColumns, Pushdown, Mid;
    var maker := new DataFrameMaker(q.schema, q.conv);
    var columnKeys: seq<Key> := [];
    var firstRow: Option<set<Key>> := None;
    var frame: Option<nat> := None;
    for i := 0 to |lines|
      invariant fresh(maker) && maker.Valid() && maker.schema == q.schema && maker.conv == q.conv
      invariant Opening(frame, firstRow, columnKeys) == OpeningOf(q, lines[..i])
      invariant maker.columnKeys == columnKeys && maker.history == HistoryOf(q, lines[..i])
    {
      OneLineMore(q, lines, i);
      var line := lines[i];
      if frame != Some(line.frame) {
        frame, firstRow := Some(line.frame), None;
      }
      if firstRow.None? && columnKeys == [] {
        firstRow := Some(KeySet(ParsePairs(line.text)));
      }
      if q.aligned && columnKeys == [] && firstRow.Some? {
        columnKeys := SortedKeys(firstRow.value);
      }
      if q.aligned && maker.columnKeys == [] && columnKeys != [] {
        maker.columnKeys := columnKeys;
      }
      maker.PushLine(line.text);
    }
    assert lines[..|lines|] == lines;
    var columns := maker.ToColumns();
    r := FromColumns(columns);
    if r.Err? {
      return;
    }
    if r.value.fields != [] && q.limit.None? {
      r := Pushdown(r.value, q.pred, q.columns);
      if r.Err? {
        return;
      }
    }
    if !(r.value.fields != [] && r.value.rows != []) {
      r := Ok(EMPTY);
    }
  }

  lemma OneLineMore(q: Query, lines: seq<Line>, i: nat)
    requires i < |lines|
    ensures OpeningOf(q, lines[..i + 1]) == Open(q, OpeningOf(q, lines[..i]), lines[i])
    ensures HistoryOf(q, lines[..i + 1])
            == HistoryOf(q, lines[..i]) + [Kept(OpeningOf(q, lines[..i + 1]).keys, ParsePairs(lines[i].text))]
  {
    assert lines[..i + 1][..i] == lines[..i];
  }

  // ---- lines that are all alike

  // The line carries exactly these keys, once each, and no value on which the
  // two scans differ.
  ghost predicate Alike(q: Query, keys: set<Key>, text: Bytes) {
    var pairs := ParsePairs(text);
    && KeySet(pairs) == keys && DistinctKeys(pairs)
    && forall i :: 0 <= i < |pairs| ==> SameCell(q.conv, Lookup(q.schema, pairs[i].key), pairs[i].value)
  }

  ghost predicate AllAlike(q: Query, keys: set<Key>, lines: seq<Line>) {
    forall i :: 0 <= i < |lines| ==> Alike(q, keys, lines[i].text)
  }

  function RowsOf(q: Query, lines: seq<Line>): (rows: seq<Row>)
    ensures |rows| == |lines|
    ensures forall i :: 0 <= i < |lines| ==> rows[i] == RowOf(q, lines[i].text)
  {
    seq(|lines|, i requires 0 <= i < |lines| => RowOf(q, lines[i].text))
  }

  // A row holds the last value of each of its keys.
  lemma {:induction false} RowHolds(q: Query, pairs: seq<Pair>)
    ensures var row := RowOfPairs(q, pairs);
            && row.Keys == KeySet(pairs)
            && forall k :: k in row ==>
                 && ValueIn(pairs, k).Some?
                 && row[k] == ParseValueAs(q.conv, Lookup(q.schema, k), ValueIn(pairs, k).value)
  {
    hide ParseValueAs;
    if pairs != [] {
      RowHolds(q, pairs[..|pairs| - 1]);
    }
  }

  lemma {:induction false} ValueOfPair(pairs: seq<Pair>, k: Key) returns (i: nat)
    requires HasKey(pairs, k)
    ensures i < |pairs| && pairs[i].key == k && ValueIn(pairs, k) == Some(pairs[i].value)
  {
    var front, last := pairs[..|pairs| - 1], pairs[|pairs| - 1];
    if last.key == k {
      return |pairs| - 1;
    }
    assert pairs == front + [last];
    HasKeyOneMore(front, last);
    i := ValueOfPair(front, k);
  }

  lemma AlikeCell(q: Query, keys: set<Key>, text: Bytes, k: Key)
    requires Alike(q, keys, text) && k in keys
    ensures RowOf(q, text).Keys == keys
    ensures TableCell(q.conv, KindOfKey(q, k), ParsePairs(text), k) == CellOf(q, RowOf(q, text), k)
    ensures BuiltType(KindOfKey(q, k)) == FilledType(KindOfKey(q, k))
  {
    hide ParsePairs, RowOfPairs, ParseValueAs, BuiltCell, FilledCell, ValueIn, SameCell;
    var pairs := ParsePairs(text);
    RowHolds(q, pairs);
    var i := ValueOfPair(pairs, k);
    CellsAgreeIff(q.conv, Lookup(q.schema, k), pairs[i].value);
    SameCellIsNoDuration(q.conv, Lookup(q.schema, k), pairs[i].value);
  }

  lemma SameCellIsNoDuration(conv: Conversions, field: Option<SchemaField>, text: Bytes)
    requires SameCell(conv, field, text)
    ensures field != Some(SchemaField.Duration)
  {
  }

  // ---- what a worker's columns hold

  // A line that opens: the first one pushed, or the first one of its frame.
  predicate OpensFrame(lines: seq<Line>, i: nat)
    requires i < |lines|
  {
    i == 0 || lines[i - 1].frame != lines[i].frame
  }

  predicate KeyedOpening(lines: seq<Line>, f: nat) {
    f < |lines| && OpensFrame(lines, f) && KeySet(ParsePairs(lines[f].text)) != {}
  }

  ghost predicate FirstKeyedOpening(lines: seq<Line>, f: nat) {
    KeyedOpening(lines, f) && forall i: nat :: i < f ==> !KeyedOpening(lines, i)
  }

  ghost predicate KeptKeys(lines: seq<Line>, o: Opening) {
    && (lines != [] ==> o.frame == Some(lines[|lines| - 1].frame))
    && (o.keys == [] ==>
          && (forall i: nat :: !KeyedOpening(lines, i))
          && (lines != [] ==> o.first == Some({})))
    && (o.keys != [] ==>
          exists f: nat :: FirstKeyedOpening(lines, f) && o.keys == SortedKeys(KeySet(ParsePairs(lines[f].text))))
  }

  lemma SameOpenings(front: seq<Line>, last: Line)
    ensures forall i: nat :: i < |front| ==> (KeyedOpening(front + [last], i) <==> KeyedOpening(front, i))
    ensures forall f: nat :: FirstKeyedOpening(front, f) ==> FirstKeyedOpening(front + [last], f)
  {
    hide ParsePairs, KeySet;
    var lines := front + [last];
    forall i: nat | i < |front|
      ensures KeyedOpening(lines, i) <==> KeyedOpening(front, i)
    {
      assert front[i] == lines[i] && (i > 0 ==> front[i - 1] == lines[i - 1]);
    }
  }

  // Which keys a worker keeps: those of the first opening line that has any;
  // until then it keeps them all, but would move out no column.
  lemma {:induction false} OpeningIs(q: Query, lines: seq<Line>)
    requires q.aligned
    ensures KeptKeys(lines, OpeningOf(q, lines))
  {
    hide ParsePairs, KeySet, KeptKeys, SortedKeys, ComesBefore, Open, Distinct;
    if lines == [] {
      NothingOpened();
    } else {
      var front, last := lines[..|lines| - 1], lines[|lines| - 1];
      OpeningIs(q, front);
      assert lines == front + [last];
      OneOpeningMore(q, front, last, OpeningOf(q, front));
    }
  }

  lemma NothingOpened()
    ensures KeptKeys([], Opening(None, None, []))
  {
  }

  lemma OneOpeningMore(q: Query, front: seq<Line>, last: Line, o: Opening)
    requires q.aligned && KeptKeys(front, o)
    requires front == [] ==> o == Opening(None, None, [])
    ensures KeptKeys(front + [last], Open(q, o, last))
  {
    hide ParsePairs, KeySet, SortedKeys, ComesBefore;
    var lines, keys := front + [last], KeySet(ParsePairs(last.text));
    SameOpenings(front, last);
    SortedNone(keys);
    SortedNone({});
    LastOpening(front, last);
    if o.keys != [] {
      var f: nat :| FirstKeyedOpening(front, f) && o.keys == SortedKeys(KeySet(ParsePairs(front[f].text)));
      KeyedWithin(front, f);
      assert lines[f] == front[f];
    } else {
      NoneKeyed(front, last);
    }
  }

  lemma KeyedWithin(lines: seq<Line>, f: nat)
    requires FirstKeyedOpening(lines, f)
    ensures f < |lines|
  {
  }

  lemma LastOpening(front: seq<Line>, last: Line)
    ensures KeyedOpening(front + [last], |front|)
            <==> (front == [] || front[|front| - 1].frame != last.frame) && KeySet(ParsePairs(last.text)) != {}
  {
    hide ParsePairs, KeySet;
    assert front != [] ==> (front + [last])[|front| - 1] == front[|front| - 1];
  }

  lemma NoneKeyed(front: seq<Line>, last: Line)
    requires forall i: nat :: !KeyedOpening(front, i)
    ensures KeyedOpening(front + [last], |front|) ==> FirstKeyedOpening(front + [last], |front|)
    ensures !KeyedOpening(front + [last], |front|) ==> forall i: nat :: !KeyedOpening(front + [last], i)
  {
    hide ParsePairs, KeySet;
    SameOpenings(front, last);
  }

  lemma SortedNone(keys: set<Key>)
    ensures SortedKeys(keys) == [] <==> keys == {}
  {
    if keys != {} {
      var k :| k in keys;
      assert k in SortedKeys(keys);
    }
  }

  // The first line pushed decides when it has a key.
  lemma FirstLineOpens(q: Query, lines: seq<Line>)
    requires q.aligned && lines != [] && KeySet(ParsePairs(lines[0].text)) != {}
    ensures OpeningOf(q, lines).keys == SortedKeys(KeySet(ParsePairs(lines[0].text)))
  {
    hide ParsePairs, KeySet, OpeningOf, SortedKeys;
    OpeningIs(q, lines);
    assert KeyedOpening(lines, 0);
  }

  // What is looked at: the pairs of the columns, in order.
  lemma {:induction false} KeptInOrder(columnKeys: seq<Key>, pairs: seq<Pair>)
    requires columnKeys != []
    ensures Kept(columnKeys, pairs) == Filter((p: Pair) => p.key in columnKeys, pairs)
  {
    if pairs != [] {
      var front, last := pairs[..|pairs| - 1], pairs[|pairs| - 1];
      KeptInOrder(columnKeys, front);
      assert pairs == front + [last];
      FilterConcat((p: Pair) => p.key in columnKeys, front, [last]);
      FilterOne((p: Pair) => p.key in columnKeys, last);
    }
  }

  // So the columns find their values, and a line that repeats no key still
  // repeats none.
  lemma {:induction false} KeptIs(columnKeys: seq<Key>, pairs: seq<Pair>)
    requires columnKeys != []
    ensures var kept := Kept(columnKeys, pairs);
            && (forall k :: HasKey(kept, k) <==> k in columnKeys && HasKey(pairs, k))
            && (forall k :: k in columnKeys ==> ValueIn(kept, k) == ValueIn(pairs, k))
            && (DistinctKeys(pairs) ==> DistinctKeys(kept))
  {
    if pairs != [] {
      var front, last := pairs[..|pairs| - 1], pairs[|pairs| - 1];
      KeptIs(columnKeys, front);
      HasKeyOneMore(front, last);
      assert pairs == front + [last];
      hide Kept;
      KeptOneMore(columnKeys, pairs, |front|);
      assert pairs[..|front| + 1] == pairs && pairs[..|front|] == front;
      KeptLast(columnKeys, Kept(columnKeys, front), front, last);
    }
  }

  lemma KeptLast(columnKeys: seq<Key>, kept: seq<Pair>, front: seq<Pair>, last: Pair)
    requires forall k :: HasKey(kept, k) <==> k in columnKeys && HasKey(front, k)
    requires forall k :: k in columnKeys ==> ValueIn(kept, k) == ValueIn(front, k)
    requires DistinctKeys(front) ==> DistinctKeys(kept)
    ensures var pairs, more := front + [last], kept + if last.key in columnKeys then [last] else [];
            && (forall k :: HasKey(more, k) <==> k in columnKeys && HasKey(pairs, k))
            && (forall k :: k in columnKeys ==> ValueIn(more, k) == ValueIn(pairs, k))
            && (DistinctKeys(pairs) ==> DistinctKeys(more))
  {
    hide HasKey;
    var pairs, more := front + [last], kept + if last.key in columnKeys then [last] else [];
    HasKeyOneMore(front, last);
    HasKeyOneMore(kept, last);
    ValueOneMore(front, last);
    ValueOneMore(kept, last);
    assert kept + [] == kept;
    if DistinctKeys(pairs) {
      DistinctOneMore(front, last);
      DistinctOneMore(kept, last);
    }
  }

  lemma ValueOneMore(pairs: seq<Pair>, p: Pair)
    ensures forall k :: ValueIn(pairs + [p], k) == if k == p.key then Some(p.value) else ValueIn(pairs, k)
  {
    assert (pairs + [p])[..|pairs|] == pairs;
  }

  lemma DistinctOneMore(pairs: seq<Pair>, p: Pair)
    ensures DistinctKeys(pairs + [p]) <==> DistinctKeys(pairs) && !HasKey(pairs, p.key)
  {
    var more := pairs + [p];
    if DistinctKeys(more) {
      assert forall i :: 0 <= i < |pairs| ==> more[i] == pairs[i];
      assert forall i :: 0 <= i < |pairs| ==> more[i].key != more[|pairs|].key;
    }
  }

  // Lines of which the first carries these keys, and none repeats a key.
  ghost predicate Led(keys: set<Key>, lines: seq<Line>) {
    && lines != [] && keys != {} && KeySet(ParsePairs(lines[0].text)) == keys
    && forall i :: 0 <= i < |lines| ==> DistinctKeys(ParsePairs(lines[i].text))
  }

  lemma LedFront(keys: set<Key>, lines: seq<Line>)
    requires Led(keys, lines) && |lines| > 1
    ensures Led(keys, lines[..|lines| - 1])
  {
    hide ParsePairs, KeySet, DistinctKeys;
    assert lines[..|lines| - 1][0] == lines[0];
  }

  lemma {:induction false} LedHistory(q: Query, keys: set<Key>, lines: seq<Line>)
    requires q.aligned && Led(keys, lines)
    ensures forall i :: 0 <= i < |lines| ==>
              HistoryOf(q, lines)[i] == Kept(SortedKeys(keys), ParsePairs(lines[i].text))
  {
    hide SortedKeys, ParsePairs, Kept, OpeningOf, KeySet, DistinctKeys;
    FirstLineOpens(q, lines);
    if |lines| > 1 {
      LedFront(keys, lines);
      LedHistory(q, keys, lines[..|lines| - 1]);
    }
  }

  lemma {:induction false} ColumnsWithin(h: History, keys: set<Key>)
    requires forall i, k :: 0 <= i < |h| && HasKey(h[i], k) ==> k in keys
    ensures forall k :: k in ColumnsOf(h) ==> k in keys
  {
    if h != [] {
      ColumnsWithin(h[..|h| - 1], keys);
    }
  }

  // So the builder holds the table of those keys.
  lemma LedIsTable(q: Query, keys: set<Key>, lines: seq<Line>)
    requires q.aligned && Led(keys, lines)
    ensures var h := HistoryOf(q, lines);
            && IsTable(q.schema, q.conv, h)
            && forall k :: k in ColumnsOf(h) <==> k in keys
  {
    hide ParsePairs, SortedKeys, Kept, IsTable, ColumnsOf, HasKey;
    var h, sorted := HistoryOf(q, lines), SortedKeys(keys);
    LedHistory(q, keys, lines);
    SortedNone(keys);
    forall i | 0 <= i < |h|
      ensures DistinctKeys(h[i]) && forall k :: HasKey(h[i], k) ==> k in keys
      ensures i == 0 ==> forall k :: k in keys ==> HasKey(h[0], k)
    {
      KeptIs(sorted, ParsePairs(lines[i].text));
    }
    ColumnsWithin(h, keys);
    ColumnsHaveKeys(h, 0);
    BuilderIsTableIff(q.schema, q.conv, h);
  }

  lemma {:induction false} EmitAll(schema: Schema, conv: Conversions, h: History, keys: seq<Key>)
    requires forall i :: 0 <= i < |keys| ==> keys[i] in ColumnsOf(h)
    ensures var columns := Emit(schema, conv, h, keys);
            && |columns| == |keys|
            && forall i :: 0 <= i < |keys| ==>
                 columns[i] == Column(keys[i], BuiltType(KindOf(Lookup(schema, keys[i]))),
                                      CellsOfKey(schema, conv, h, keys[i]))
  {
    hide ColumnsOf, CellsOf;
    if keys != [] {
      EmitAll(schema, conv, h, keys[..|keys| - 1]);
    }
  }

  function BuiltFields(q: Query, keys: seq<Key>): (fields: seq<Field>)
    ensures |fields| == |keys|
    ensures forall i :: 0 <= i < |keys| ==> fields[i] == Field(keys[i], BuiltType(KindOfKey(q, keys[i])))
  {
    seq(|keys|, i requires 0 <= i < |keys| => Field(keys[i], BuiltType(KindOfKey(q, keys[i]))))
  }

  // One line as a row of the table: null where it lacks a key.
  function TableRow(q: Query, keys: set<Key>, text: Bytes): (cells: Cells)
    ensures cells.Keys == keys
  {
    map k | k in keys :: TableCell(q.conv, KindOfKey(q, k), ParsePairs(text), k)
  }

  function TableRows(q: Query, keys: set<Key>, lines: seq<Line>): (rows: seq<Cells>)
    ensures |rows| == |lines|
    ensures forall i :: 0 <= i < |lines| ==> rows[i] == TableRow(q, keys, lines[i].text)
  {
    seq(|lines|, i requires 0 <= i < |lines| => TableRow(q, keys, lines[i].text))
  }

  lemma LedColumn(q: Query, keys: set<Key>, lines: seq<Line>, k: Key)
    requires q.aligned && Led(keys, lines) && k in keys
    ensures CellsOfKey(q.schema, q.conv, HistoryOf(q, lines), k)
            == TableColumn(q.conv, KindOfKey(q, k), HistoryOf(q, lines), k)
    ensures forall i :: 0 <= i < |lines| ==>
              TableCell(q.conv, KindOfKey(q, k), HistoryOf(q, lines)[i], k) == TableRow(q, keys, lines[i].text)[k]
  {
    hide ParsePairs, SortedKeys, Kept, ColumnsOf, HasKey, CellsOf, ValueIn, BuiltCell, Led;
    var h, sorted := HistoryOf(q, lines), SortedKeys(keys);
    LedHistory(q, keys, lines);
    LedIsTable(q, keys, lines);
    SortedNone(keys);
    assert k in sorted;
    forall i | 0 <= i < |lines|
      ensures ValueIn(h[i], k) == ValueIn(ParsePairs(lines[i].text), k)
    {
      KeptIs(sorted, ParsePairs(lines[i].text));
    }
  }

  // For any lines of which the first has a key and none repeats one, a worker's
  // frame is the table of the first line's keys: one row per line in order, null
  // where a line lacks a key, and keys the first line lacks left out.
  lemma FirstLineTable(q: Query, keys: set<Key>, lines: seq<Line>)
    requires q.aligned && Led(keys, lines)
    ensures MadeFrame(q, lines) == Ok(Frame(BuiltFields(q, SortedKeys(keys)), TableRows(q, keys, lines)))
  {
    hide ParsePairs, SortedKeys, OpeningOf, HistoryOf, Emit, CellsOf, ColumnsOf, TableCell, FromColumns, Led;
    var h, sorted := HistoryOf(q, lines), SortedKeys(keys);
    var fields, table := BuiltFields(q, sorted), TableRows(q, keys, lines);
    LedOpens(q, keys, lines);
    LedIsTable(q, keys, lines);
    EmitAll(q.schema, q.conv, h, sorted);
    var columns := Emit(q.schema, q.conv, h, sorted);
    forall c | 0 <= c < |columns|
      ensures ColumnOf(columns[c], fields[c], table)
    {
      assert sorted[c] in keys;
      LedColumn(q, keys, lines, sorted[c]);
    }
    BuiltNames(q, keys);
    ColumnsMakeFrame(columns, fields, table);
  }

  lemma LedOpens(q: Query, keys: set<Key>, lines: seq<Line>)
    requires q.aligned && Led(keys, lines)
    ensures OpeningOf(q, lines).keys == SortedKeys(keys) != []
  {
    hide ParsePairs, SortedKeys, OpeningOf, KeySet, DistinctKeys;
    FirstLineOpens(q, lines);
    SortedNone(keys);
  }

  lemma BuiltNames(q: Query, keys: set<Key>)
    ensures Names(BuiltFields(q, SortedKeys(keys))) == keys
  {
    hide SortedKeys;
    var sorted := SortedKeys(keys);
    var fields := BuiltFields(q, sorted);
    forall k | k in keys
      ensures k in Names(fields)
    {
      var i :| 0 <= i < |sorted| && sorted[i] == k;
      assert fields[i] in fields && fields[i].name == k;
    }
    forall k | k in Names(fields)
      ensures k in keys
    {
      var f :| f in fields && f.name == k;
      var i :| 0 <= i < |fields| && fields[i] == f;
      assert sorted[i] in sorted;
    }
  }

  ghost predicate SameKeys(keys: set<Key>, lines: seq<Line>) {
    forall i :: 0 <= i < |lines| ==>
      KeySet(ParsePairs(lines[i].text)) == keys && DistinctKeys(ParsePairs(lines[i].text))
  }

  lemma RowsHaveKeys(q: Query, keys: set<Key>, lines: seq<Line>)
    requires lines != [] && SameKeys(keys, lines)
    ensures KeysOf(RowsOf(q, lines)) == keys
  {
    hide ParsePairs, DistinctKeys, RowOfPairs;
    var rows := RowsOf(q, lines);
    forall i | 0 <= i < |rows|
      ensures rows[i].Keys == keys
    {
      RowHolds(q, ParsePairs(lines[i].text));
    }
    assert rows[0].Keys == keys;
  }

  lemma AlikeSameKeys(q: Query, keys: set<Key>, lines: seq<Line>)
    requires AllAlike(q, keys, lines)
    ensures SameKeys(keys, lines)
  {
    hide ParsePairs, SameCell, DistinctKeys, KeySet;
    forall i | 0 <= i < |lines|
      ensures KeySet(ParsePairs(lines[i].text)) == keys && DistinctKeys(ParsePairs(lines[i].text))
    {
      assert Alike(q, keys, lines[i].text);
    }
  }

  lemma SameKeysLed(keys: set<Key>, lines: seq<Line>)
    requires keys != {} && lines != [] && SameKeys(keys, lines)
    ensures Led(keys, lines)
  {
    hide ParsePairs, DistinctKeys, KeySet;
  }

  lemma AlikeRow(q: Query, keys: set<Key>, text: Bytes)
    requires Alike(q, keys, text)
    ensures TableRow(q, keys, text) == CellRow(q, RowOf(q, text), keys)
  {
    hide TableCell, CellOf, KindOfKey, Alike, RowOf;
    forall k | k in keys
      ensures TableCell(q.conv, KindOfKey(q, k), ParsePairs(text), k) == CellOf(q, RowOf(q, text), k)
    {
      AlikeCell(q, keys, text, k);
    }
  }

  lemma AlikeFields(q: Query, keys: set<Key>, text: Bytes)
    requires Alike(q, keys, text)
    ensures BuiltFields(q, SortedKeys(keys)) == FieldsFor(q, SortedKeys(keys))
  {
    hide KindOfKey, Alike, RowOf, SortedKeys, BuiltType, FilledType;
    var sorted := SortedKeys(keys);
    forall c | 0 <= c < |sorted|
      ensures BuiltType(KindOfKey(q, sorted[c])) == FilledType(KindOfKey(q, sorted[c]))
    {
      assert sorted[c] in keys;
      AlikeCell(q, keys, text, sorted[c]);
    }
  }

  // On lines with the same keys and no value on which the two scans differ, the
  // columnar builder makes the frame that the sequential scan makes of them,
  // cell by cell.
  lemma BuilderMakesSameFrame(q: Query, keys: set<Key>, lines: seq<Line>)
    requires q.aligned && keys != {} && lines != [] && AllAlike(q, keys, lines)
    ensures MadeFrame(q, lines) == Ok(FrameOf(q, RowsOf(q, lines)))
  {
    hide MadeFrame, TableRow, CellRow, Alike, RowOf, SortedKeys, KeysOf, BuiltFields, FieldsFor, ComesBefore, Led,
      SameKeys;
    AlikeSameKeys(q, keys, lines);
    SameKeysLed(keys, lines);
    FirstLineTable(q, keys, lines);
    RowsHaveKeys(q, keys, lines);
    AlikeFields(q, keys, lines[0].text);
    forall i | 0 <= i < |lines|
      ensures TableRow(q, keys, lines[i].text) == CellRow(q, RowsOf(q, lines)[i], keys)
    {
      AlikeRow(q, keys, lines[i].text);
    }
    assert TableRows(q, keys, lines) == CellRows(q, RowsOf(q, lines), keys);
  }

  // A cell on which the two scans agree comes from a value on which they do.
  lemma AgreeingCell(q: Query, keys: set<Key>, text: Bytes, i: nat)
    requires KeySet(ParsePairs(text)) == keys && DistinctKeys(ParsePairs(text)) && i < |ParsePairs(text)|
    requires TableRow(q, keys, text) == CellRow(q, RowOf(q, text), keys)
    ensures var p := ParsePairs(text)[i]; SameCell(q.conv, Lookup(q.schema, p.key), p.value)
  {
    hide ParsePairs, RowOfPairs, ParseValueAs, BuiltCell, FilledCell, ValueIn, SameCell;
    var pairs := ParsePairs(text);
    var k := pairs[i].key;
    assert HasKey(pairs, k);
    RowHolds(q, pairs);
    var j := ValueOfPair(pairs, k);
    assert j == i;
    assert TableRow(q, keys, text)[k] == CellRow(q, RowOf(q, text), keys)[k];
    CellsAgreeIff(q.conv, Lookup(q.schema, k), pairs[i].value);
  }

  // On lines with the same keys, once each, the two scans make the same frame
  // if and only if they convert every value alike.
  lemma SameFrameIffAlike(q: Query, keys: set<Key>, lines: seq<Line>)
    requires q.aligned && keys != {} && lines != [] && SameKeys(keys, lines)
    ensures MadeFrame(q, lines) == Ok(FrameOf(q, RowsOf(q, lines))) <==> AllAlike(q, keys, lines)
  {
    hide MadeFrame, TableRow, CellRow, RowOf, SortedKeys, KeysOf, BuiltFields, FieldsFor, ComesBefore, Led, KeySet,
      ParsePairs, DistinctKeys, SameCell;
    if AllAlike(q, keys, lines) {
      BuilderMakesSameFrame(q, keys, lines);
    }
    if MadeFrame(q, lines) == Ok(FrameOf(q, RowsOf(q, lines))) {
      SameKeysLed(keys, lines);
      FirstLineTable(q, keys, lines);
      RowsHaveKeys(q, keys, lines);
      var table, rows := TableRows(q, keys, lines), RowsOf(q, lines);
      assert table == CellRows(q, rows, keys);
      forall i | 0 <= i < |lines|
        ensures Alike(q, keys, lines[i].text)
      {
        assert table[i] == CellRow(q, rows[i], keys);
        var pairs := ParsePairs(lines[i].text);
        forall j | 0 <= j < |pairs|
          ensures SameCell(q.conv, Lookup(q.schema, pairs[j].key), pairs[j].value)
        {
          AgreeingCell(q, keys, lines[i].text, j);
        }
      }
    }
  }
}
