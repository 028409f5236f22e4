// The sequential scan of lines that all carry the same keys.
module UniformScan {
  import opened Text
  import opened Utf8
  import opened LogfmtParser
  import opened SchemaProbe
  import opened Table
  import opened SequentialScan
  import opened SequentialLaws

  ghost predicate Uniform(rows: seq<Row>, keys: set<Key>) {
    forall i :: 0 <= i < |rows| ==> rows[i].Keys == keys
  }

  lemma UniformKeys(rows: seq<Row>, keys: set<Key>)
    requires Uniform(rows, keys) && rows != []
    ensures KeysOf(rows) == keys
  {
    assert rows[0].Keys == keys;
  }

  lemma UniformParts(a: seq<Row>, b: seq<Row>, keys: set<Key>)
    ensures Uniform(a + b, keys) <==> Uniform(a, keys) && Uniform(b, keys)
  {
    var rows := a + b;
    if Uniform(rows, keys) {
      assert forall i :: 0 <= i < |a| ==> a[i] == rows[i];
      assert forall i :: 0 <= i < |b| ==> b[i] == rows[|a| + i];
    }
  }

  // ---- `aligned_cols_cnt` has nothing to do

  function Plain(q: Query): Query {
    q.(aligned := false)
  }

  lemma AlignKeeps(q: Query, known: set<Key>, keys: set<Key>, row: Row)
    requires row.Keys == keys && (known == {} || known == keys)
    ensures Align(q, known, row) == row
    ensures NextKeys(q, known, row) == {} || NextKeys(q, known, row) == keys
  {
    KeysCount(row);
  }

  lemma KeysCount(row: Row)
    ensures |row| == |row.Keys|
  {
  }

  lemma {:induction false} AlignIsIdle(q: Query, text: Bytes, want: Option<nat>, known: set<Key>, keys: set<Key>)
    requires Uniform(AcceptedRows(q, text), keys) && (known == {} || known == keys)
    ensures ReadBatch(q, text, want, known) == ReadBatch(Plain(q), text, want, {})
    decreases |text|
  {
    hide WellFormed, Accepts, LineLength, AcceptedRows, Uniform, ReadBatch, Align, NextKeys, RowOfPairs;
    var q' := Plain(q);
    if want == Some(0) || text == [] {
      EmptyBatch(q, text, want, known);
      EmptyBatch(q', text, want, {});
    } else {
      var line, after := text[..LineLength(text)], text[LineLength(text)..];
      ReadOneLine(q, text, want, known);
      ReadOneLine(q', text, want, {});
      AcceptedRowsOfLine(q, text);
      SameRow(q, q', ParsePairs(line));
      var row := RowOf(q, line);
      assert row == RowOf(q', line);
      UniformParts([row], AcceptedRows(q, after), keys);
      assert [] + AcceptedRows(q, after) == AcceptedRows(q, after);
      if WellFormed(line) {
        if Accepts(q.filter)(line) && q.rowFilter(row) {
          OneUniform(row, keys);
          AlignKeeps(q, known, keys, row);
          NeverAligned(q', {}, row);
          AlignIsIdle(q, after, Minus(want, 1), NextKeys(q, known, row), keys);
        } else {
          AlignIsIdle(q, after, want, known, keys);
        }
      }
    }
  }

  lemma NeverAligned(q: Query, known: set<Key>, row: Row)
    requires !q.aligned
    ensures Align(q, known, row) == row && NextKeys(q, known, row) == known
  {
  }

  lemma OneUniform(row: Row, keys: set<Key>)
    ensures Uniform([row], keys) <==> row.Keys == keys
  {
    assert [row][0] == row;
  }

  // What one batch reads, aligned or not.
  lemma UniformBatch(q: Query, text: Bytes, want: Option<nat>, keys: set<Key>)
    requires Uniform(AcceptedRows(q, text), keys)
    ensures
      var b := ReadBatch(q, text, want, {});
      && (WellFormed(text) ==> !b.failed)
      && (!b.failed ==>
            && (WellFormed(b.rest) <==> WellFormed(text))
            && AcceptedRows(q, text) == b.rows + AcceptedRows(q, b.rest)
            && Uniform(b.rows, keys) && Uniform(AcceptedRows(q, b.rest), keys)
            && b.rows == (if want.Some? then Take(AcceptedRows(q, text), want.value) else AcceptedRows(q, text)))
  {
    hide ReadBatch, AcceptedRows, WellFormed, Uniform;
    var q' := Plain(q);
    AlignIsIdle(q, text, want, {}, keys);
    var b := ReadBatch(q, text, want, {});
    SameAccepted(q, q', text);
    SameAccepted(q, q', b.rest);
    BatchTakesFront(q', text, want, {});
    if !b.failed {
      BatchIsFirstRows(q', text, want);
      UniformParts(b.rows, AcceptedRows(q, b.rest), keys);
    }
  }

  // ---- the frame of uniform rows

  function UniformFrame(q: Query, rows: seq<Row>, keys: set<Key>): (r: Result<Frame>) {
    if CanPush(q, keys)
    then Ok(Frame(FieldsFor(q, OutKeys(q, keys)), OutRows(q, rows, ToSet(OutKeys(q, keys)))))
    else Err
  }

  lemma UniformPushed(q: Query, rows: seq<Row>, keys: set<Key>)
    requires Uniform(rows, keys) && rows != [] && keys != {}
    ensures PushedFrame(q, rows) == UniformFrame(q, rows, keys)
    ensures FieldsFor(q, OutKeys(q, keys)) != []
    ensures |OutRows(q, rows, ToSet(OutKeys(q, keys)))| <= |rows|
  {
    hide KeysOf, CanPush, OutRows;
    UniformKeys(rows, keys);
    PushedFrameIs(q, rows);
    OutRowsBound(q, rows, ToSet(OutKeys(q, keys)));
    var k :| k in keys;
    assert k in SortedKeys(keys);
  }

  // One call of the pull loop on uniform rows, without a slice.
  lemma UniformNext(q: Query, text: Bytes, st: ReaderState, keys: set<Key>)
    requires q.limit.None? && q.batch != Some(0) && keys != {} && !st.finished
    requires Uniform(AcceptedRows(q, GetOr(st.reader, text)), keys)
    ensures
      var left := GetOr(st.reader, text);
      var b := ReadBatch(q, left, q.batch, {});
      var (r, st') := NextBatch(q, text, Ok(None), st);
      if b.failed then r == Err && !WellFormed(left)
      else if b.rows == [] then r == Ok(None) && WellFormed(left) && AcceptedRows(q, left) == []
      else
        && st'.reader == Some(b.rest) && |b.rest| < |left| && !st'.finished
        && r == (var f := UniformFrame(q, b.rows, keys); if f.Err? then Err else Ok(Some(f.value)))
  {
    hide ReadBatch, AcceptedRows, WellFormed, Uniform, UniformFrame, PushedFrame, FieldsFor, OutRows, OutKeys;
    var left := GetOr(st.reader, text);
    var b := ReadBatch(q, left, q.batch, {});
    UniformBatch(q, left, q.batch, keys);
    BatchReadsUpTo(q, left, q.batch, {});
    NothingIsWellFormed();
    NothingAccepted(q);
    if !b.failed && b.rows != [] {
      UniformPushed(q, b.rows, keys);
      UniformFrameSize(q, b.rows, keys);
    }
  }

  lemma UniformFrameSize(q: Query, rows: seq<Row>, keys: set<Key>)
    ensures UniformFrame(q, rows, keys).Ok? ==> |UniformFrame(q, rows, keys).value.rows| <= |rows|
  {
    OutRowsBound(q, rows, ToSet(OutKeys(q, keys)));
  }

  // What was stacked so far.
  ghost predicate UniformStacked(q: Query, done: seq<Row>, acc: Option<Frame>, keys: set<Key>) {
    && Uniform(done, keys)
    && if acc.None? then done == [] else done != [] && UniformFrame(q, done, keys) == Ok(acc.value)
  }

  function WholeFrame(q: Query, rows: seq<Row>, keys: set<Key>): Result<Frame> {
    if rows == [] then Ok(EMPTY) else UniformFrame(q, rows, keys)
  }

  lemma UniformStack(q: Query, a: seq<Row>, b: seq<Row>, keys: set<Key>)
    requires UniformFrame(q, a, keys).Ok?
    ensures UniformFrame(q, b, keys).Ok? && UniformFrame(q, a + b, keys).Ok?
    ensures Stack(UniformFrame(q, a, keys).value, UniformFrame(q, b, keys).value) == UniformFrame(q, a + b, keys)
  {
    hide OutRows;
    OutRowsConcat(q, a, b, ToSet(OutKeys(q, keys)));
  }

  // Whatever the batch size, the scan of uniform rows is their frame, or an
  // error for a text that is not UTF-8.
  lemma {:induction false} UniformScanFrom(q: Query, text: Bytes, st: ReaderState, acc: Option<Frame>,
                                           done: seq<Row>, keys: set<Key>)
    requires q.limit.None? && q.batch != Some(0) && keys != {} && !st.finished
    requires Uniform(AcceptedRows(q, GetOr(st.reader, text)), keys) && UniformStacked(q, done, acc, keys)
    ensures
      var left := GetOr(st.reader, text);
      ScanFrom(q, text, Ok(None), st, acc)
      == if WellFormed(left) then WholeFrame(q, done + AcceptedRows(q, left), keys) else Err
    decreases |GetOr(st.reader, text)|
  {
    hide ReadBatch, AcceptedRows, WellFormed, Uniform, UniformFrame, NextBatch, Work;
    var left := GetOr(st.reader, text);
    var b := ReadBatch(q, left, q.batch, {});
    BatchMakesProgress(q, text, Ok(None), st);
    UniformNext(q, text, st, keys);
    UniformBatch(q, left, q.batch, keys);
    var (r, st') := NextBatch(q, text, Ok(None), st);
    if !b.failed {
      Associative(done, b.rows, AcceptedRows(q, b.rest));
      if b.rows == [] {
        assert done + AcceptedRows(q, left) == done;
      } else if UniformFrame(q, b.rows, keys).Err? {
        NeverPushed(q, b.rows, done + AcceptedRows(q, left), keys);
      } else {
        UniformFields(q, b.rows, keys);
        UniformParts(done, b.rows, keys);
        if acc.None? {
          assert done + b.rows == b.rows;
        } else {
          UniformStack(q, done, b.rows, keys);
        }
        UniformScanFrom(q, text, st', Some(UniformFrame(q, done + b.rows, keys).value), done + b.rows, keys);
      }
    }
  }

  lemma NeverPushed(q: Query, a: seq<Row>, b: seq<Row>, keys: set<Key>)
    ensures UniformFrame(q, a, keys).Err? ==> UniformFrame(q, b, keys).Err?
  {
  }

  lemma UniformFields(q: Query, rows: seq<Row>, keys: set<Key>)
    requires Uniform(rows, keys) && rows != [] && keys != {} && UniformFrame(q, rows, keys).Ok?
    ensures UniformFrame(q, rows, keys).value.fields != []
  {
    hide OutRows;
    UniformPushed(q, rows, keys);
  }

  lemma UniformScanIs(q: Query, text: Bytes, keys: set<Key>)
    requires q.limit.None? && q.batch != Some(0) && keys != {} && Uniform(AcceptedRows(q, text), keys)
    ensures ScanInOrder(q, text) == if WellFormed(text) then WholeFrame(q, AcceptedRows(q, text), keys) else Err
  {
    hide AcceptedRows, WellFormed, ScanFrom, WholeFrame;
    UniformScanFrom(q, text, FRESH, None, [], keys);
    assert [] + AcceptedRows(q, text) == AcceptedRows(q, text);
  }

  lemma {:induction false} UniformIsAligned(q: Query, known: set<Key>, rows: seq<Row>, keys: set<Key>)
    requires Uniform(rows, keys) && (known == {} || known == keys)
    ensures AlignAll(q, known, rows) == rows
    decreases |rows|
  {
    hide Align, NextKeys;
    if rows != [] {
      AlignKeeps(q, known, keys, rows[0]);
      UniformIsAligned(q, NextKeys(q, known, rows[0]), rows[1..], keys);
    }
  }

  // With a slice: the first rows, then the predicate, or an error for a line
  // that is not UTF-8 in front of the last of them.
  lemma UniformSlice(q: Query, text: Bytes, keys: set<Key>)
    requires q.limit.Some? && q.limit.value > 0 && keys != {}
    requires Uniform(AcceptedRows(q, text), keys)
    ensures ScanInOrder(q, text)
            == if FailsBefore(q, text, q.limit.value) then Err
               else WholeFrame(q, Take(AcceptedRows(q, text), q.limit.value), keys)
  {
    hide AcceptedRows, WellFormed, ScanFrom, Uniform, UniformFrame, PushedFrame, ReadBatch, AlignAll, RowsRead,
      FailsBefore;
    var n, all := q.limit.value, AcceptedRows(q, text);
    SliceThenFilter(q, text);
    if !FailsBefore(q, text, n) {
      SliceIsFirstRows(q, text, n);
      UniformIsAligned(q, {}, all, keys);
      var rows := Take(all, n);
      assert all == rows + Drop(all, n);
      UniformParts(rows, Drop(all, n), keys);
      if rows != [] {
        UniformPushed(q, rows, keys);
      }
    }
  }
}
