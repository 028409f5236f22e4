// What the sequential scan returns: the slice, then the predicate, and no
// trace of the batch size.
module SequentialLaws {
  import opened Text
  import opened Utf8
  import opened LogfmtParser
  import opened SchemaProbe
  import opened Table
  import opened SequentialScan

  // ---- the rows of a text

  function PassingRows(q: Query, lines: seq<Bytes>): (rows: seq<Row>)
    ensures |rows| <= |lines|
  {
    if lines == [] then []
    else
      var row := RowOf(q, lines[0]);
      (if q.rowFilter(row) then [row] else []) + PassingRows(q, lines[1..])
  }

  // The rows of the lines that pass the line filter, if they pass the row
  // filter, in file order.
  function AcceptedRows(q: Query, text: Bytes): (rows: seq<Row>) {
    PassingRows(q, Accepted(q.filter, text))
  }

  lemma AcceptedRowsOfLine(q: Query, text: Bytes)
    requires text != []
    ensures
      var line, after := text[..LineLength(text)], text[LineLength(text)..];
      AcceptedRows(q, text)
      == (if Accepts(q.filter)(line) && q.rowFilter(RowOf(q, line)) then [RowOf(q, line)] else [])
         + AcceptedRows(q, after)
  {
    hide LineLength, Accepts, RowOf;
    var line, after := text[..LineLength(text)], text[LineLength(text)..];
    assert Lines(text) == [line] + Lines(after);
    if Accepts(q.filter)(line) {
      var kept := Filter(Accepts(q.filter), Lines(text));
      assert kept == [line] + Accepted(q.filter, after);
      assert kept[1..] == Accepted(q.filter, after);
    } else {
      assert [] + Accepted(q.filter, after) == Accepted(q.filter, after);
    }
  }

  // A batch takes rows from the front and leaves the others; it fails on
  // nothing but a line that is not UTF-8.
  lemma {:induction false} BatchTakesFront(q: Query, text: Bytes, want: Option<nat>, keys: set<Key>)
    requires !q.aligned
    ensures
      var b := ReadBatch(q, text, want, keys);
      && (!b.failed ==> AcceptedRows(q, text) == b.rows + AcceptedRows(q, b.rest))
      && (WellFormed(text) ==> !b.failed)
      && (!b.failed ==> (WellFormed(b.rest) <==> WellFormed(text)))
    decreases |text|
  {
    hide WellFormed, RowOf, Accepts, AcceptedRows, LineLength;
    var b := ReadBatch(q, text, want, keys);
    if want == Some(0) || text == [] {
      assert [] + AcceptedRows(q, b.rest) == AcceptedRows(q, text);
    } else {
      var line, after := text[..LineLength(text)], text[LineLength(text)..];
      ReadOneLine(q, text, want, keys);
      AcceptedRowsOfLine(q, text);
      LineAndRest(text);
      if WellFormed(line) {
        if !Accepts(q.filter)(line) {
          BatchTakesFront(q, after, want, keys);
          assert [] + AcceptedRows(q, after) == AcceptedRows(q, after);
        } else if !q.rowFilter(RowOf(q, line)) {
          BatchTakesFront(q, after, want, keys);
          assert [] + AcceptedRows(q, after) == AcceptedRows(q, after);
          assert [] + ReadBatch(q, after, want, keys).rows == ReadBatch(q, after, want, keys).rows;
        } else {
          var kept := Align(q, keys, RowOf(q, line));
          BatchTakesFront(q, after, Minus(want, 1), NextKeys(q, keys, kept));
          Associative([kept], ReadBatch(q, after, Minus(want, 1), NextKeys(q, keys, kept)).rows,
                      AcceptedRows(q, b.rest));
        }
      }
    }
  }

  lemma LineAndRest(text: Bytes)
    requires text != []
    ensures var line, after := text[..LineLength(text)], text[LineLength(text)..];
            WellFormed(text) <==> WellFormed(line) && WellFormed(after)
  {
    hide WellFormed;
    var n := LineLength(text);
    var line, after := text[..n], text[n..];
    assert text == line + after;
    if WellFormed(text) {
      if n < |text| {
        AfterAsciiIsBoundary(text, n - 1);
      } else {
        assert line == text && after == [];
        NothingIsWellFormed();
      }
    }
    if WellFormed(line) && WellFormed(after) {
      ConcatWellFormed(line, after);
    }
  }

  lemma NothingIsWellFormed()
    ensures WellFormed([])
  {
  }

  lemma NothingAccepted(q: Query)
    ensures AcceptedRows(q, []) == []
  {
  }

  // The rows of one batch are the first ones of the text, in order.
  lemma BatchIsFirstRows(q: Query, text: Bytes, want: Option<nat>)
    requires !q.aligned && !ReadBatch(q, text, want, {}).failed
    ensures ReadBatch(q, text, want, {}).rows
            == if want.Some? then Take(AcceptedRows(q, text), want.value) else AcceptedRows(q, text)
  {
    hide AcceptedRows, ReadBatch;
    BatchTakesFront(q, text, want, {});
    BatchReadsUpTo(q, text, want, {});
    NothingAccepted(q);
    var b := ReadBatch(q, text, want, {});
    assert b.eof ==> b.rows + [] == b.rows;
  }

  // A batch counts the lines that pass the line filter, whether or not their
  // rows pass the row filter.
  lemma {:induction false} BatchCountsLines(q: Query, text: Bytes, want: Option<nat>, keys: set<Key>)
    ensures var b := ReadBatch(q, text, want, keys);
            !b.failed ==> |Accepted(q.filter, text)| == b.linesRead + |Accepted(q.filter, b.rest)|
    decreases |text|
  {
    hide WellFormed, RowOf, Accepts, LineLength, Align, NextKeys, ReadBatch;
    if want == Some(0) || text == [] {
      EmptyBatch(q, text, want, keys);
    } else {
      var line, after := text[..LineLength(text)], text[LineLength(text)..];
      ReadOneLine(q, text, want, keys);
      assert Lines(text) == [line] + Lines(after);
      assert Lines(text)[1..] == Lines(after);
      if Accepts(q.filter)(line) && q.rowFilter(RowOf(q, line)) {
        var kept := Align(q, keys, RowOf(q, line));
        BatchCountsLines(q, after, Minus(want, 1), NextKeys(q, keys, kept));
      } else {
        BatchCountsLines(q, after, want, keys);
      }
    }
  }

  // ---- one batch is the whole scan

  lemma OutRowsBound(q: Query, rows: seq<Row>, keys: set<Key>)
    ensures |OutRows(q, rows, keys)| <= |rows|
  {
  }

  // What a pushed frame of these rows may look like.
  lemma PushedFrameShape(q: Query, rows: seq<Row>)
    requires PushedFrame(q, rows).Ok?
    ensures var f := PushedFrame(q, rows).value;
            && |f.rows| <= |rows|
            && (f.fields == [] <==> KeysOf(rows) == {})
            && (f.fields == [] ==> f == EMPTY)
  {
    hide KeysOf, CanPush, OutRows, ComesBefore;
    PushedFrameIs(q, rows);
    if KeysOf(rows) != {} {
      var k :| k in KeysOf(rows);
      assert k in SortedKeys(KeysOf(rows));
      OutRowsBound(q, rows, ToSet(OutKeys(q, KeysOf(rows))));
    }
  }

  lemma NothingMore(q: Query, text: Bytes, st: ReaderState, acc: Option<Frame>)
    requires st.finished || (st.reader == Some([]) && BatchSize(q) != Some(0))
    ensures ScanFrom(q, text, Ok(None), st, acc) == Ok(Finish(q, acc))
  {
  }

  // With a limit, or without a batch size, the first batch is the whole scan.
  lemma OneBatchScan(q: Query, text: Bytes)
    requires q.limit.Some? || q.batch.None?
    ensures ScanInOrder(q, text)
            == (var b := ReadBatch(q, text, BatchSize(q), {});
                if b.failed then Err
                else if b.eof && b.rows == [] then Ok(EMPTY)
                else PushedFrame(q, b.rows))
  {
    hide ReadBatch, PushedFrame;
    var b := ReadBatch(q, text, BatchSize(q), {});
    BatchReadsUpTo(q, text, BatchSize(q), {});
    if !b.failed && !(b.eof && b.rows == []) && PushedFrame(q, b.rows).Ok? {
      var f := PushedFrame(q, b.rows).value;
      PushedFrameShape(q, b.rows);
      var (r, st) := SingleBatch(q, text, FRESH);
      assert r == Ok(Some(f));
      assert st.finished || (st.reader == Some([]) && BatchSize(q) != Some(0));
      NothingMore(q, text, st, if f.fields == [] then None else Some(f));
    }
  }

  // The rows of a text as the scan reads them in one batch: up to a line that is
  // not UTF-8, if there is one.
  function RowsRead(q: Query, text: Bytes): (rows: seq<Row>) {
    ReadBatch(q, text, None, {}).rows
  }

  // Alignment, one row after the other.
  function AlignAll(q: Query, keys: set<Key>, rows: seq<Row>): (kept: seq<Row>)
    ensures |kept| == |rows|
    decreases |rows|
  {
    if rows == [] then []
    else
      var first := Align(q, keys, rows[0]);
      [first] + AlignAll(q, NextKeys(q, keys, first), rows[1..])
  }

  // The scan reads one row for every accepted line, in order and aligned, up to
  // a line that is not UTF-8.
  lemma {:induction false} ReadIsAligned(q: Query, text: Bytes, keys: set<Key>)
    ensures var rows, all := ReadBatch(q, text, None, keys).rows, AcceptedRows(q, text);
            && |rows| <= |all|
            && rows == AlignAll(q, keys, all)[..|rows|]
            && (WellFormed(text) ==> |rows| == |all|)
    decreases |text|
  {
    hide WellFormed, RowOf, Accepts, AcceptedRows, LineLength, Align, NextKeys, ReadBatch, AlignAll;
    if text == [] {
      EmptyBatch(q, text, None, keys);
      NothingAccepted(q);
    } else {
      var line, after := text[..LineLength(text)], text[LineLength(text)..];
      ReadOneLine(q, text, None, keys);
      AcceptedRowsOfLine(q, text);
      LineAndRest(text);
      var row := RowOf(q, line);
      var kept := Align(q, keys, row);
      var next := NextKeys(q, keys, kept);
      assert [] + AcceptedRows(q, after) == AcceptedRows(q, after);
      if WellFormed(line) && Accepts(q.filter)(line) && q.rowFilter(row) {
        ReadIsAligned(q, after, next);
        AlignOneMore(q, keys, row, AcceptedRows(q, after));
        FirstOfMore(kept, AlignAll(q, next, AcceptedRows(q, after)), |ReadBatch(q, after, None, next).rows|);
      } else if WellFormed(line) {
        ReadIsAligned(q, after, keys);
        var rest := ReadBatch(q, after, None, keys);
        assert [] + rest.rows == rest.rows;
      }
    }
  }

  lemma AlignOneMore(q: Query, keys: set<Key>, row: Row, rows: seq<Row>)
    ensures var first := Align(q, keys, row);
            AlignAll(q, keys, [row] + rows) == [first] + AlignAll(q, NextKeys(q, keys, first), rows)
  {
    assert ([row] + rows)[1..] == rows;
  }

  lemma FirstOfMore<T>(x: T, xs: seq<T>, n: nat)
    requires n <= |xs|
    ensures ([x] + xs)[..n + 1] == [x] + xs[..n]
  {
  }

  lemma {:induction false} UnalignedIsSame(q: Query, keys: set<Key>, rows: seq<Row>)
    requires !q.aligned
    ensures AlignAll(q, keys, rows) == rows
    decreases |rows|
  {
    if rows != [] {
      UnalignedIsSame(q, keys, rows[1..]);
    }
  }

  ghost predicate Narrows(row: Row, whole: Row) {
    forall k :: k in row ==> k in whole && row[k] == whole[k]
  }

  ghost predicate NarrowsAll(rows: seq<Row>, whole: seq<Row>) {
    |rows| == |whole| && forall i :: 0 <= i < |rows| ==> Narrows(rows[i], whole[i])
  }

  // Alignment takes keys away and does nothing else.
  lemma {:induction false} AlignAllNarrows(q: Query, keys: set<Key>, rows: seq<Row>)
    ensures NarrowsAll(AlignAll(q, keys, rows), rows)
    decreases |rows|
  {
    if rows != [] {
      var first := Align(q, keys, rows[0]);
      AlignAllNarrows(q, NextKeys(q, keys, first), rows[1..]);
      assert Narrows(first, rows[0]);
      hide Narrows, Align, NextKeys;
      var kept := AlignAll(q, keys, rows);
      forall i | 0 <= i < |rows|
        ensures Narrows(kept[i], rows[i])
      {
        assert i > 0 ==> rows[i] == rows[1..][i - 1] && kept[i] == kept[1..][i - 1];
      }
    }
  }

  // A batch of all rows fails exactly on a text that is not UTF-8.
  lemma {:induction false} FailsIff(q: Query, text: Bytes, keys: set<Key>)
    ensures ReadBatch(q, text, None, keys).failed <==> !WellFormed(text)
    decreases |text|
  {
    hide WellFormed, RowOf, Accepts, LineLength, Align, NextKeys, ReadBatch;
    if text == [] {
      EmptyBatch(q, text, None, keys);
      NothingIsWellFormed();
    } else {
      var line, after := text[..LineLength(text)], text[LineLength(text)..];
      ReadOneLine(q, text, None, keys);
      LineAndRest(text);
      FailsIff(q, after, keys);
      FailsIff(q, after, NextKeys(q, keys, Align(q, keys, RowOf(q, line))));
    }
  }

  // A batch that fails leaves what comes after the first line that is not UTF-8:
  // the next one goes on behind it.
  lemma {:induction false} FailedBatchIsPast(q: Query, text: Bytes, want: Option<nat>, keys: set<Key>)
    returns (front: Bytes, bad: Bytes)
    requires ReadBatch(q, text, want, keys).failed
    ensures text == front + (bad + ReadBatch(q, text, want, keys).rest)
    ensures WellFormed(front) && !WellFormed(bad)
    ensures bad != [] && LineLength(bad + ReadBatch(q, text, want, keys).rest) == |bad|
    decreases |text|
  {
    hide WellFormed, RowOf, Accepts, LineLength, Align, NextKeys, ReadBatch;
    if want == Some(0) || text == [] {
      EmptyBatch(q, text, want, keys);
    }
    var line, after := text[..LineLength(text)], text[LineLength(text)..];
    ReadOneLine(q, text, want, keys);
    assert text == line + after;
    NothingIsWellFormed();
    if !WellFormed(line) {
      front, bad := [], line;
      assert text == [] + (bad + after);
    } else {
      if Accepts(q.filter)(line) && q.rowFilter(RowOf(q, line)) {
        var kept := Align(q, keys, RowOf(q, line));
        front, bad := FailedBatchIsPast(q, after, Minus(want, 1), NextKeys(q, keys, kept));
      } else {
        front, bad := FailedBatchIsPast(q, after, want, keys);
      }
      Associative(line, front, bad + ReadBatch(q, text, want, keys).rest);
      ConcatWellFormed(line, front);
      front := line + front;
    }
  }

  // The first `n` rows of a batch, read alone.
  ghost predicate Shortens(all: Batch, short: Batch, n: nat) {
    short.rows == Take(all.rows, n) && (short.failed <==> all.failed && |all.rows| < n)
  }

  lemma ShortensOneMore(all: Batch, short: Batch, n: nat, rows: seq<Row>, lines: nat)
    requires Shortens(all, short, n)
    ensures Shortens(Before(rows, lines, all), Before(rows, lines, short), n + |rows|)
  {
    assert n < |all.rows| ==> (rows + all.rows)[..n + |rows|] == rows + all.rows[..n];
  }

  // A batch that is cut short reads the first rows of the one that is not, and
  // fails only if that one fails before it has as many.
  lemma {:induction false} ShortBatch(q: Query, text: Bytes, n: nat, keys: set<Key>)
    ensures Shortens(ReadBatch(q, text, None, keys), ReadBatch(q, text, Some(n), keys), n)
    decreases |text|
  {
    hide WellFormed, RowOf, Accepts, LineLength, Align, NextKeys, ReadBatch, Before;
    if n == 0 || text == [] {
      EmptyBatch(q, text, Some(n), keys);
      if text == [] {
        EmptyBatch(q, text, None, keys);
      }
    } else {
      hide Shortens;
      var line, after := text[..LineLength(text)], text[LineLength(text)..];
      ReadOneLine(q, text, None, keys);
      ReadOneLine(q, text, Some(n), keys);
      var kept := Align(q, keys, RowOf(q, line));
      var next := NextKeys(q, keys, kept);
      ShortBatch(q, after, n, keys);
      ShortBatch(q, after, n - 1, next);
      ShortensOneMore(ReadBatch(q, after, None, keys), ReadBatch(q, after, Some(n), keys), n, [], 1);
      ShortensOneMore(ReadBatch(q, after, None, next), ReadBatch(q, after, Some(n - 1), next), n - 1, [kept], 1);
      SameFailure(after, n);
    }
  }

  lemma SameFailure(rest: Bytes, n: nat)
    requires n > 0
    ensures var failed := Batch([], 0, rest, false, true); Shortens(failed, failed, n)
  {
  }

  // The scan met a line that is not UTF-8 before it had `n` rows.
  predicate FailsBefore(q: Query, text: Bytes, n: nat) {
    !WellFormed(text) && |RowsRead(q, text)| < n
  }

  // A pushed-down slice means the first `n` rows that pass the line and row
  // filters, and then the predicate: a later row that would pass never comes
  // in, and nothing behind the n-th row is read, so that a line that is not
  // UTF-8 is an error exactly when it comes before that row.
  lemma SliceThenFilter(q: Query, text: Bytes)
    requires q.limit.Some?
    ensures ScanInOrder(q, text)
            == (var n, rows := q.limit.value, Take(RowsRead(q, text), q.limit.value);
                if FailsBefore(q, text, n) then Err
                else if rows == [] && n > 0 then Ok(EMPTY)
                else PushedFrame(q, rows))
  {
    hide ReadBatch, PushedFrame, WellFormed;
    OneBatchScan(q, text);
    BatchReadsUpTo(q, text, q.limit, {});
    ShortBatch(q, text, q.limit.value, {});
    FailsIff(q, text, {});
  }

  // Those rows are the first `n` accepted ones, with keys taken away if they
  // are aligned and as they are if not.
  lemma SliceIsFirstRows(q: Query, text: Bytes, n: nat)
    requires !FailsBefore(q, text, n)
    ensures var rows, first := Take(RowsRead(q, text), n), Take(AcceptedRows(q, text), n);
            && rows == Take(AlignAll(q, {}, AcceptedRows(q, text)), n)
            && NarrowsAll(rows, first)
            && (!q.aligned ==> rows == first)
  {
    hide ReadBatch, AcceptedRows, WellFormed, AlignAll, Narrows;
    var all := AcceptedRows(q, text);
    ReadIsAligned(q, text, {});
    AlignAllNarrows(q, {}, all);
    if !q.aligned {
      UnalignedIsSame(q, {}, all);
    }
  }

  // The scan without limit and batch size.
  lemma UnbatchedScan(q: Query, text: Bytes)
    requires q.limit.None? && q.batch.None? && !q.aligned
    ensures ScanInOrder(q, text)
            == (if !WellFormed(text) then Err
                else if AcceptedRows(q, text) == [] then Ok(EMPTY)
                else PushedFrame(q, AcceptedRows(q, text)))
  {
    hide ReadBatch, PushedFrame, AcceptedRows, WellFormed;
    OneBatchScan(q, text);
    BatchTakesFront(q, text, None, {});
    BatchReadsUpTo(q, text, None, {});
    NothingIsWellFormed();
    if WellFormed(text) {
      BatchIsFirstRows(q, text, None);
    }
  }

  // ---- the same query with another batch size or alignment reads the same rows

  ghost predicate SameReading(q: Query, q': Query) {
    q' == q.(batch := q'.batch, aligned := q'.aligned)
  }

  lemma {:induction false} SameRow(q: Query, q': Query, pairs: seq<Pair>)
    requires q'.conv == q.conv && q'.schema == q.schema
    ensures RowOfPairs(q, pairs) == RowOfPairs(q', pairs)
  {
    if pairs != [] {
      SameRow(q, q', pairs[..|pairs| - 1]);
    }
  }

  lemma {:induction false} SameRows(q: Query, q': Query, lines: seq<Bytes>)
    requires SameReading(q, q')
    ensures PassingRows(q, lines) == PassingRows(q', lines)
  {
    if lines != [] {
      SameRow(q, q', ParsePairs(lines[0]));
      SameRows(q, q', lines[1..]);
    }
  }

  lemma SameAccepted(q: Query, q': Query, text: Bytes)
    requires SameReading(q, q')
    ensures AcceptedRows(q, text) == AcceptedRows(q', text)
  {
    SameRows(q, q', Accepted(q.filter, text));
  }

  lemma SameFrame(q: Query, q': Query, rows: seq<Row>)
    requires SameReading(q, q')
    ensures PushedFrame(q, rows) == PushedFrame(q', rows)
  {
    hide KeysOf;
    var keys := KeysOf(rows);
    assert FieldsFor(q, SortedKeys(keys)) == FieldsFor(q', SortedKeys(keys));
    forall i | 0 <= i < |rows|
      ensures CellRow(q, rows[i], keys) == CellRow(q', rows[i], keys)
    {
    }
    assert CellRows(q, rows, keys) == CellRows(q', rows, keys);
  }
}
