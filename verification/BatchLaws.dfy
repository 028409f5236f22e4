// The batch size leaves no trace, and when a scan in batches succeeds.
module BatchLaws {
  import opened Text
  import opened Utf8
  import opened LogfmtParser
  import opened SchemaProbe
  import opened Table
  import opened SequentialScan
  import opened SequentialLaws

  lemma KeysOfConcat(a: seq<Row>, b: seq<Row>)
    ensures KeysOf(a + b) == KeysOf(a) + KeysOf(b)
  {
    var rows := a + b;
    forall k | k in KeysOf(a) + KeysOf(b)
      ensures k in KeysOf(rows)
    {
      if k in KeysOf(a) {
        var i :| 0 <= i < |a| && k in a[i];
        assert rows[i] == a[i];
      } else {
        var i :| 0 <= i < |b| && k in b[i];
        assert rows[|a| + i] == b[i];
      }
    }
    forall k | k in KeysOf(rows)
      ensures k in KeysOf(a) + KeysOf(b)
    {
      var i :| 0 <= i < |rows| && k in rows[i];
      assert rows[i] == if i < |a| then a[i] else b[i - |a|];
    }
  }

  lemma SameFieldsSameKeys(q: Query, a: seq<Key>, b: seq<Key>)
    requires FieldsFor(q, a) == FieldsFor(q, b)
    ensures a == b
  {
    forall i | 0 <= i < |a|
      ensures |a| == |b| && a[i] == b[i]
    {
      assert FieldsFor(q, a)[i].name == FieldsFor(q, b)[i].name;
    }
    assert |FieldsFor(q, a)| == |FieldsFor(q, b)|;
  }

  lemma SameOutKeys(q: Query, ka: set<Key>, kb: set<Key>)
    requires CanPush(q, ka) && CanPush(q, kb) && OutKeys(q, ka) == OutKeys(q, kb)
    ensures CanPush(q, ka + kb) && OutKeys(q, ka + kb) == OutKeys(q, ka)
  {
    if q.columns.None? || q.columns.value == [] {
      assert ka == ToSet(SortedKeys(ka)) && kb == ToSet(SortedKeys(kb));
      assert ka + kb == ka;
    }
  }

  // Pushing down batch by batch and stacking is pushing down the whole.
  lemma StackedIsPushed(q: Query, a: seq<Row>, b: seq<Row>)
    requires KeysOf(a) != {} && KeysOf(b) != {}
    requires PushedFrame(q, a).Ok? && PushedFrame(q, b).Ok?
    requires Stack(PushedFrame(q, a).value, PushedFrame(q, b).value).Ok?
    ensures KeysOf(a + b) != {}
    ensures PushedFrame(q, a + b) == Stack(PushedFrame(q, a).value, PushedFrame(q, b).value)
  {
    hide KeysOf, OutRows, PushedFrame, FieldsFor, CanPush, OutKeys, ToSet;
    KeysOfConcat(a, b);
    var ka, kb := KeysOf(a), KeysOf(b);
    PushedFrameIs(q, a);
    PushedFrameIs(q, b);
    PushedFrameIs(q, a + b);
    SameFieldsSameKeys(q, OutKeys(q, ka), OutKeys(q, kb));
    SameOutKeys(q, ka, kb);
    OutRowsConcat(q, a, b, ToSet(OutKeys(q, ka)));
  }

  // The rows of the batches of `size` in which some row has a pair: a batch of
  // rows without any makes a frame without columns, and is skipped.
  function Solid(rows: seq<Row>, size: nat): (kept: seq<Row>)
    requires size > 0
    ensures |kept| <= |rows|
    ensures |kept| == |rows| ==> kept == rows
    decreases |rows|
  {
    if rows == [] then []
    else
      var front, tail := Take(rows, size), Drop(rows, size);
      assert rows == front + tail;
      if KeysOf(front) == {} then Solid(tail, size) else front + Solid(tail, size)
  }

  lemma {:induction false} SolidKeys(rows: seq<Row>, size: nat)
    requires size > 0
    ensures KeysOf(Solid(rows, size)) == KeysOf(rows)
    decreases |rows|
  {
    hide KeysOf;
    if rows != [] {
      var front, tail := Take(rows, size), Drop(rows, size);
      assert rows == front + tail;
      SolidKeys(tail, size);
      KeysOfConcat(front, tail);
      KeysOfConcat(front, Solid(tail, size));
    }
  }

  lemma {:induction false} HollowOut(q: Query, rows: seq<Row>, keys: set<Key>)
    requires KeysOf(rows) == {}
    ensures |OutRows(q, rows, keys)| == if RowPasses(q, map[]) then |rows| else 0
  {
    if rows != [] {
      KeysOfConcat([rows[0]], rows[1..]);
      assert rows == [rows[0]] + rows[1..];
      assert forall k :: k in rows[0] ==> k in KeysOf(rows);
      assert rows[0] == map[];
      HollowOut(q, rows[1..], keys);
    }
  }

  // What the skipped batches would have added.
  lemma {:induction false} SolidOut(q: Query, rows: seq<Row>, size: nat, keys: set<Key>)
    requires size > 0
    ensures var all, kept := OutRows(q, rows, keys), OutRows(q, Solid(rows, size), keys);
            && |all| == |kept| + (if RowPasses(q, map[]) then |rows| - |Solid(rows, size)| else 0)
            && (!RowPasses(q, map[]) ==> all == kept)
    decreases |rows|
  {
    hide KeysOf, OutRows, RowPasses;
    if rows != [] {
      var front, tail := Take(rows, size), Drop(rows, size);
      assert rows == front + tail;
      SolidOut(q, tail, size, keys);
      OutRowsConcat(q, front, tail, keys);
      OutRowsConcat(q, front, Solid(tail, size), keys);
      if KeysOf(front) == {} {
        HollowOut(q, front, keys);
        assert |OutRows(q, front, keys)| == 0 ==>
            OutRows(q, front, keys) + OutRows(q, tail, keys) == OutRows(q, tail, keys);
      }
    }
  }

  // What the batches read so far amount to.
  ghost predicate Stacked(q: Query, done: seq<Row>, acc: Option<Frame>) {
    if acc.None? then done == [] else KeysOf(done) != {} && PushedFrame(q, done) == Ok(acc.value)
  }

  // The next batch of a scan in batches of `size`, with `left` still to read.
  lemma NextOfBatches(q: Query, text: Bytes, st: ReaderState)
    requires q.limit.None? && !q.aligned && q.batch.Some? && q.batch.value > 0
    requires !st.finished && !ReadBatch(q, GetOr(st.reader, text), q.batch, {}).failed
    ensures
      var left, size := GetOr(st.reader, text), q.batch.value;
      var rows := AcceptedRows(q, left);
      var (r, st') := NextBatch(q, text, Ok(None), st);
      && st'.reader.Some? && |st'.reader.value| <= |left|
      && (WellFormed(st'.reader.value) <==> WellFormed(left))
      && (rows == [] ==> r == Ok(None) && WellFormed(left))
      && (rows != [] ==>
            && AcceptedRows(q, st'.reader.value) == Drop(rows, size)
            && |st'.reader.value| < |left|
            && (PushedFrame(q, Take(rows, size)).Err? ==> r.Err?)
            && (PushedFrame(q, Take(rows, size)).Ok? ==>
                  r == Ok(Some(PushedFrame(q, Take(rows, size)).value)) && !st'.finished))
  {
    hide ReadBatch, PushedFrame, AcceptedRows, WellFormed;
    var left := GetOr(st.reader, text);
    var b := ReadBatch(q, left, q.batch, {});
    BatchTakesFront(q, left, q.batch, {});
    BatchIsFirstRows(q, left, q.batch);
    BatchReadsUpTo(q, left, q.batch, {});
    NothingAccepted(q);
    NothingIsWellFormed();
    if PushedFrame(q, b.rows).Ok? {
      PushedFrameShape(q, b.rows);
    }
  }

  // What a scan in batches that succeeds ends with.
  lemma {:induction false} BatchesAddUp(q: Query, text: Bytes, st: ReaderState, acc: Option<Frame>, done: seq<Row>,
                                        out: Frame)
    requires q.limit.None? && !q.aligned && q.batch.Some? && q.batch.value > 0
    requires !st.finished && Stacked(q, done, acc)
    requires ScanFrom(q, text, Ok(None), st, acc) == Ok(out)
    ensures WellFormed(GetOr(st.reader, text))
    ensures var rows := done + Solid(AcceptedRows(q, GetOr(st.reader, text)), q.batch.value);
            if rows == [] then out == EMPTY else PushedFrame(q, rows) == Ok(out)
    decreases |GetOr(st.reader, text)|
  {
    hide ReadBatch, PushedFrame, AcceptedRows, WellFormed, KeysOf, NextBatch, Work;
    var left, size := GetOr(st.reader, text), q.batch.value;
    var rows := AcceptedRows(q, left);
    BatchMakesProgress(q, text, Ok(None), st);
    ScanDidNotFail(q, text, st, acc);
    NextOfBatches(q, text, st);
    var (r, st') := NextBatch(q, text, Ok(None), st);
    assert done + [] == done;
    if rows == [] {
      NoRowsNoKeys();
    } else {
      var front, tail := Take(rows, size), Drop(rows, size);
      PushedFrameShape(q, front);
      var g := PushedFrame(q, front).value;
      if g.fields == [] {
        BatchesAddUp(q, text, st', acc, done, out);
      } else if acc.None? {
        assert done + front == front;
        BatchesAddUp(q, text, st', Some(g), front, out);
      } else {
        StackedIsPushed(q, done, front);
        BatchesAddUp(q, text, st', Some(Stack(acc.value, g).value), done + front, out);
      }
      Associative(done, front, Solid(tail, size));
    }
  }

  lemma NoRowsNoKeys()
    ensures KeysOf([]) == {}
  {
  }

  // A scan that succeeds pushed down its first batch.
  lemma FirstHollowBatch(q: Query, text: Bytes, out: Frame)
    requires q.limit.None? && !q.aligned && q.batch.Some? && q.batch.value > 0
    requires ScanFrom(q, text, Ok(None), FRESH, None) == Ok(out)
    requires AcceptedRows(q, text) != [] && KeysOf(AcceptedRows(q, text)) == {}
    ensures PushedFrame(q, []) == Ok(EMPTY)
  {
    hide ReadBatch, PushedFrame, AcceptedRows, WellFormed, KeysOf, NextBatch, Work;
    var rows, size := AcceptedRows(q, text), q.batch.value;
    var front, tail := Take(rows, size), Drop(rows, size);
    assert rows == front + tail;
    KeysOfConcat(front, tail);
    BatchMakesProgress(q, text, Ok(None), FRESH);
    ScanDidNotFail(q, text, FRESH, None);
    NextOfBatches(q, text, FRESH);
    NoKeysNoFrame(q, front);
    NoRowsNoKeys();
    PushedFrameShape(q, []);
  }

  lemma ScanDidNotFail(q: Query, text: Bytes, st: ReaderState, acc: Option<Frame>)
    requires !st.finished && q.limit.None?
    requires ScanFrom(q, text, Ok(None), st, acc).Ok?
    ensures !ReadBatch(q, GetOr(st.reader, text), q.batch, {}).failed
  {
    hide ReadBatch;
  }

  // ---- when a scan in batches succeeds

  function BatchesOf(rows: seq<Row>, size: nat): (batches: seq<seq<Row>>)
    requires size > 0
    decreases |rows|
  {
    if rows == [] then [] else [Take(rows, size)] + BatchesOf(Drop(rows, size), size)
  }

  // The pushdown is possible for every batch, and gives the same columns for all
  // that have any.
  ghost predicate Pushable(q: Query, batches: seq<seq<Row>>) {
    && (forall i :: 0 <= i < |batches| ==> CanPush(q, KeysOf(batches[i])))
    && (forall i, j :: 0 <= i < j < |batches| && KeysOf(batches[i]) != {} && KeysOf(batches[j]) != {} ==>
          OutKeys(q, KeysOf(batches[i])) == OutKeys(q, KeysOf(batches[j])))
  }

  // The same, batch after batch, behind batches that gave the columns `out`.
  ghost predicate PushableAfter(q: Query, out: Option<seq<Key>>, batches: seq<seq<Row>>)
    decreases |batches|
  {
    batches == []
    || (var keys := KeysOf(batches[0]);
        && CanPush(q, keys)
        && (keys != {} && out.Some? ==> OutKeys(q, keys) == out.value)
        && PushableAfter(q, if keys == {} then out else Some(OutKeys(q, keys)), batches[1..]))
  }

  ghost predicate AllGive(q: Query, out: seq<Key>, batches: seq<seq<Row>>) {
    forall i :: 0 <= i < |batches| && KeysOf(batches[i]) != {} ==> OutKeys(q, KeysOf(batches[i])) == out
  }

  lemma AllGiveOneMore(q: Query, out: seq<Key>, batch: seq<Row>, batches: seq<seq<Row>>)
    ensures AllGive(q, out, [batch] + batches)
            <==> AllGive(q, out, batches) && (KeysOf(batch) != {} ==> OutKeys(q, KeysOf(batch)) == out)
  {
    hide KeysOf, OutKeys;
    var all := [batch] + batches;
    if AllGive(q, out, all) {
      assert all[0] == batch;
      assert forall i :: 0 <= i < |batches| ==> batches[i] == all[i + 1];
    }
  }

  lemma PushableParts(q: Query, batch: seq<Row>, batches: seq<seq<Row>>)
    requires Pushable(q, [batch] + batches)
    ensures CanPush(q, KeysOf(batch)) && Pushable(q, batches)
    ensures KeysOf(batch) != {} ==> AllGive(q, OutKeys(q, KeysOf(batch)), batches)
  {
    hide KeysOf, CanPush, OutKeys;
    var all := [batch] + batches;
    assert all[0] == batch;
    assert forall i :: 0 <= i < |batches| ==> batches[i] == all[i + 1];
  }

  lemma PushableJoins(q: Query, batch: seq<Row>, batches: seq<seq<Row>>)
    requires CanPush(q, KeysOf(batch)) && Pushable(q, batches)
    requires KeysOf(batch) != {} ==> AllGive(q, OutKeys(q, KeysOf(batch)), batches)
    ensures Pushable(q, [batch] + batches)
  {
    hide KeysOf, CanPush, OutKeys;
    var all := [batch] + batches;
    forall i | 0 <= i < |all|
      ensures CanPush(q, KeysOf(all[i]))
    {
      assert i > 0 ==> all[i] == batches[i - 1];
    }
    forall i, j | 0 <= i < j < |all| && KeysOf(all[i]) != {} && KeysOf(all[j]) != {}
      ensures OutKeys(q, KeysOf(all[i])) == OutKeys(q, KeysOf(all[j]))
    {
      assert all[j] == batches[j - 1];
      assert i > 0 ==> all[i] == batches[i - 1];
    }
  }

  lemma {:induction false} PushableIs(q: Query, out: Option<seq<Key>>, batches: seq<seq<Row>>)
    ensures PushableAfter(q, out, batches)
            <==> Pushable(q, batches) && (out.Some? ==> AllGive(q, out.value, batches))
    decreases |batches|
  {
    hide KeysOf, CanPush, OutKeys;
    if batches != [] {
      var keys := KeysOf(batches[0]);
      var front := OutKeys(q, keys);
      PushableIs(q, if keys == {} then out else Some(front), batches[1..]);
      assert batches == [batches[0]] + batches[1..];
      hide Pushable, AllGive;
      if Pushable(q, batches) {
        PushableParts(q, batches[0], batches[1..]);
      }
      if CanPush(q, keys) && Pushable(q, batches[1..]) && (keys != {} ==> AllGive(q, front, batches[1..])) {
        PushableJoins(q, batches[0], batches[1..]);
      }
      if out.Some? {
        AllGiveOneMore(q, out.value, batches[0], batches[1..]);
      }
    }
  }

  function OutOf(q: Query, done: seq<Row>): Option<seq<Key>> {
    if done == [] then None else Some(OutKeys(q, KeysOf(done)))
  }

  lemma {:induction false} BatchesSucceed(q: Query, text: Bytes, st: ReaderState, acc: Option<Frame>, done: seq<Row>)
    requires q.limit.None? && !q.aligned && q.batch.Some? && q.batch.value > 0
    requires !st.finished && Stacked(q, done, acc) && WellFormed(GetOr(st.reader, text))
    ensures ScanFrom(q, text, Ok(None), st, acc).Ok?
            <==> PushableAfter(q, OutOf(q, done), BatchesOf(AcceptedRows(q, GetOr(st.reader, text)), q.batch.value))
    decreases |GetOr(st.reader, text)|
  {
    hide ReadBatch, PushedFrame, AcceptedRows, WellFormed, KeysOf, NextBatch, Work, CanPush, OutKeys;
    var left, size := GetOr(st.reader, text), q.batch.value;
    var rows := AcceptedRows(q, left);
    BatchMakesProgress(q, text, Ok(None), st);
    BatchTakesFront(q, left, q.batch, {});
    NextOfBatches(q, text, st);
    var (r, st') := NextBatch(q, text, Ok(None), st);
    NoRowsNoKeys();
    if rows != [] {
      var front, tail := Take(rows, size), Drop(rows, size);
      var batches := BatchesOf(rows, size);
      assert batches[0] == front && batches[1..] == BatchesOf(tail, size);
      PushedOkIff(q, front);
      if PushedFrame(q, front).Ok? {
        PushedFrameShape(q, front);
        var g := PushedFrame(q, front).value;
        if g.fields == [] {
          BatchesSucceed(q, text, st', acc, done);
        } else if acc.None? {
          BatchesSucceed(q, text, st', Some(g), front);
        } else {
          StackOkIff(q, done, front);
          if Stack(acc.value, g).Ok? {
            StackedIsPushed(q, done, front);
            BatchesSucceed(q, text, st', Some(Stack(acc.value, g).value), done + front);
          }
        }
      }
    }
  }

  lemma PushedOkIff(q: Query, rows: seq<Row>)
    ensures PushedFrame(q, rows).Ok? <==> CanPush(q, KeysOf(rows))
  {
    hide KeysOf, CanPush, PushedFrame;
    PushedFrameIs(q, rows);
  }

  // Two pushed frames stack exactly when they have the same columns.
  lemma StackOkIff(q: Query, a: seq<Row>, b: seq<Row>)
    requires KeysOf(a) != {} && KeysOf(b) != {}
    requires PushedFrame(q, a).Ok? && PushedFrame(q, b).Ok?
    ensures Stack(PushedFrame(q, a).value, PushedFrame(q, b).value).Ok?
            <==> OutKeys(q, KeysOf(a)) == OutKeys(q, KeysOf(b))
    ensures OutKeys(q, KeysOf(a)) == OutKeys(q, KeysOf(b)) ==> OutKeys(q, KeysOf(a + b)) == OutKeys(q, KeysOf(b))
  {
    hide KeysOf, OutRows, PushedFrame, FieldsFor, CanPush, OutKeys;
    PushedFrameIs(q, a);
    PushedFrameIs(q, b);
    var ka, kb := OutKeys(q, KeysOf(a)), OutKeys(q, KeysOf(b));
    if FieldsFor(q, ka) == FieldsFor(q, kb) {
      SameFieldsSameKeys(q, ka, kb);
    }
    if ka == kb {
      SameOutKeys(q, KeysOf(a), KeysOf(b));
      KeysOfConcat(a, b);
    }
  }

  // A scan in batches succeeds exactly when the text is UTF-8, the pushdown is
  // possible for every batch, also those without any pair, and the batches that
  // have columns all have the same ones.
  lemma BatchedScanSucceedsIff(q: Query, text: Bytes)
    requires q.limit.None? && !q.aligned && q.batch.Some? && q.batch.value > 0
    ensures ScanInOrder(q, text).Ok?
            <==> WellFormed(text) && Pushable(q, BatchesOf(AcceptedRows(q, text), q.batch.value))
  {
    hide ScanFrom, WellFormed, AcceptedRows, BatchesOf, Pushable, PushableAfter;
    if ScanInOrder(q, text).Ok? {
      BatchesAddUp(q, text, FRESH, None, [], ScanInOrder(q, text).value);
    }
    if WellFormed(text) {
      BatchesSucceed(q, text, FRESH, None, []);
      PushableIs(q, None, BatchesOf(AcceptedRows(q, text), q.batch.value));
    }
  }

  // Pushing down all rows and pushing down those of the solid batches give the
  // same, but for the rows without any pair.
  lemma SolidIsAll(q: Query, rows: seq<Row>, size: nat)
    requires size > 0 && KeysOf(rows) != {}
    requires PushedFrame(q, Solid(rows, size)).Ok?
    ensures PushedFrame(q, rows) == PushedFrame(q, Solid(rows, size))
            <==> Solid(rows, size) == rows || !RowPasses(q, map[])
  {
    hide KeysOf, OutRows, RowPasses, Solid, PushedFrame;
    var keys := KeysOf(rows);
    SolidKeys(rows, size);
    PushedFrameIs(q, rows);
    PushedFrameIs(q, Solid(rows, size));
    SolidOut(q, rows, size, ToSet(OutKeys(q, keys)));
  }

  // The same without a key at all: nothing comes out.
  lemma NoKeysNoFrame(q: Query, rows: seq<Row>)
    requires KeysOf(rows) == {}
    ensures PushedFrame(q, rows) == PushedFrame(q, [])
  {
    hide KeysOf;
    NoRowsNoKeys();
  }

  lemma {:induction false} SolidIsEmpty(rows: seq<Row>, size: nat)
    requires size > 0
    ensures Solid(rows, size) == [] <==> KeysOf(rows) == {}
  {
    hide KeysOf;
    SolidKeys(rows, size);
    NoRowsNoKeys();
    SolidHasKeys(rows, size);
  }

  lemma {:induction false} SolidHasKeys(rows: seq<Row>, size: nat)
    requires size > 0
    ensures Solid(rows, size) != [] ==> KeysOf(Solid(rows, size)) != {}
    decreases |rows|
  {
    hide KeysOf;
    if rows != [] {
      var front, tail := Take(rows, size), Drop(rows, size);
      SolidHasKeys(tail, size);
      KeysOfConcat(front, Solid(tail, size));
    }
  }

  // Whatever the batch size, a scan in batches that succeeds returns exactly
  // the frame of the scan without batches, predicate and projection included,
  // if and only if no batch was made of rows without any pair, or the
  // predicate drops such rows, or no row has a pair.
  lemma BatchSizeLeavesNoTraceIff(q: Query, text: Bytes)
    requires q.limit.None? && !q.aligned && q.batch.Some? && q.batch.value > 0
    requires ScanInOrder(q, text).Ok?
    ensures
      var rows := AcceptedRows(q, text);
      ScanInOrder(q.(batch := None), text) == ScanInOrder(q, text)
      <==> Solid(rows, q.batch.value) == rows || !RowPasses(q, map[]) || KeysOf(rows) == {}
  {
    hide PushedFrame, Solid, ScanFrom, WellFormed, KeysOf, RowPasses, AcceptedRows;
    var q', rows := q.(batch := None), AcceptedRows(q, text);
    var out := ScanInOrder(q, text).value;
    BatchesAddUp(q, text, FRESH, None, [], out);
    assert [] + Solid(rows, q.batch.value) == Solid(rows, q.batch.value);
    UnbatchedScan(q', text);
    SameAccepted(q, q', text);
    SameFrame(q, q', rows);
    SolidIsEmpty(rows, q.batch.value);
    if KeysOf(rows) != {} {
      SolidIsAll(q, rows, q.batch.value);
      assert rows != [] by { NoRowsNoKeys(); }
    } else if rows != [] {
      FirstHollowBatch(q, text, out);
      NoKeysNoFrame(q, rows);
    }
  }
}
