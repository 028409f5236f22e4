// What `aligned_cols_cnt` does to a batch.
module AlignedBatches {
  import opened Text
  import opened Utf8
  import opened LogfmtParser
  import opened SchemaProbe
  import opened Table
  import opened SequentialScan
  import opened SequentialLaws

  lemma AlignedRow(q: Query, known: set<Key>, row: Row)
    requires q.aligned
    ensures known != {} ==> NextKeys(q, known, row) == known
    ensures known == {} ==> Align(q, known, row) == row && NextKeys(q, known, row) == row.Keys
  {
  }

  lemma {:induction false} SameSizeSubset(a: set<Key>, b: set<Key>)
    requires a <= b && |a| == |b|
    ensures a == b
  {
    if a != {} {
      var x :| x in a;
      SameSizeSubset(a - {x}, b - {x});
    } else {
      assert b == {};
    }
  }

  // Alignment keeps a row within the known keys unless it has equally many
  // others.
  lemma AlignedWithinIff(q: Query, keys: set<Key>, row: Row)
    requires q.aligned && keys != {}
    ensures Align(q, keys, row).Keys <= keys <==> (|row| == |keys| ==> row.Keys == keys)
    ensures |row| == |keys| ==> Align(q, keys, row) == row
  {
    assert |row| == |row.Keys|;
    if |row| == |keys| && row.Keys <= keys {
      SameSizeSubset(row.Keys, keys);
    }
  }

  lemma {:induction false} AlignAllAt(q: Query, keys: set<Key>, rows: seq<Row>, i: nat)
    requires q.aligned && keys != {} && i < |rows|
    ensures AlignAll(q, keys, rows)[i] == Align(q, keys, rows[i])
  {
    hide Align;
    AlignedRow(q, keys, Align(q, keys, rows[0]));
    if i > 0 {
      AlignAllAt(q, keys, rows[1..], i - 1);
    }
  }

  // The first row that has a key.
  predicate FirstKeyed(rows: seq<Row>, f: nat) {
    f < |rows| && rows[f] != map[] && forall i :: 0 <= i < f ==> rows[i] == map[]
  }

  lemma {:induction false} AlignAllFrom(q: Query, rows: seq<Row>, f: nat, i: nat)
    requires q.aligned && FirstKeyed(rows, f) && i < |rows|
    ensures AlignAll(q, {}, rows)[i] == if i < f then map[] else Align(q, rows[f].Keys, rows[i])
  {
    hide Align;
    var first := Align(q, {}, rows[0]);
    AlignedRow(q, {}, rows[0]);
    AlignedRow(q, {}, first);
    if f == 0 {
      AlignedWithinIff(q, rows[0].Keys, rows[0]);
      assert |rows[0]| == |rows[0].Keys|;
      if i > 0 {
        AlignAllAt(q, rows[0].Keys, rows[1..], i - 1);
      }
    } else if i > 0 {
      AlignAllFrom(q, rows[1..], f - 1, i - 1);
    }
  }

  // The rows keep to the keys of the first one that has any.
  predicate KeepsTo(keys: set<Key>, row: Row) {
    |row| == |keys| ==> row.Keys == keys
  }

  lemma AlignedAt(q: Query, rows: seq<Row>, f: nat, i: nat)
    requires q.aligned && FirstKeyed(rows, f) && i < |rows|
    ensures var keys, kept := rows[f].Keys, AlignAll(q, {}, rows)[i];
            && (kept.Keys <= keys <==> KeepsTo(keys, rows[i]))
            && (|rows[i]| == |keys| ==> kept == rows[i])
            && keys != {}
  {
    hide Align, AlignAll;
    var keys := rows[f].Keys;
    assert |rows[f]| == |keys|;
    AlignAllFrom(q, rows, f, i);
    AlignedWithinIff(q, keys, rows[i]);
  }

  ghost predicate AllWithin(rows: seq<Row>, keys: set<Key>) {
    forall i :: 0 <= i < |rows| ==> rows[i].Keys <= keys
  }

  ghost predicate AllKeepTo(rows: seq<Row>, keys: set<Key>) {
    forall i :: 0 <= i < |rows| ==> KeepsTo(keys, rows[i])
  }

  lemma KeysAre(rows: seq<Row>, keys: set<Key>, f: nat)
    requires f < |rows| && rows[f].Keys == keys
    ensures KeysOf(rows) == keys <==> AllWithin(rows, keys)
  {
    var all := KeysOf(rows);
    assert forall k :: k in keys ==> k in rows[f] && k in all;
    if AllWithin(rows, keys) {
      forall k | k in all
        ensures k in keys
      {
        var i :| 0 <= i < |rows| && k in rows[i];
        assert rows[i].Keys <= keys;
      }
    } else {
      var i :| 0 <= i < |rows| && !(rows[i].Keys <= keys);
      var k :| k in rows[i] && k !in keys;
      assert k in all;
    }
  }

  lemma KeepingIsWithin(q: Query, rows: seq<Row>, f: nat)
    requires q.aligned && FirstKeyed(rows, f)
    ensures AllWithin(AlignAll(q, {}, rows), rows[f].Keys) <==> AllKeepTo(rows, rows[f].Keys)
  {
    hide Align, AlignAll, KeepsTo;
    var keys, kept := rows[f].Keys, AlignAll(q, {}, rows);
    forall i | 0 <= i < |rows|
      ensures kept[i].Keys <= keys <==> KeepsTo(keys, rows[i])
    {
      AlignedAt(q, rows, f, i);
    }
  }

  lemma AlignedKeys(q: Query, rows: seq<Row>, f: nat)
    requires q.aligned && FirstKeyed(rows, f)
    ensures KeysOf(AlignAll(q, {}, rows)) == rows[f].Keys <==> AllKeepTo(rows, rows[f].Keys)
  {
    hide Align, AlignAll, KeysOf, AllKeepTo, AllWithin;
    KeepingIsWithin(q, rows, f);
    AlignedAt(q, rows, f, f);
    KeysAre(AlignAll(q, {}, rows), rows[f].Keys, f);
  }

  // The accepted rows that a batch of this size reads.
  function RowsOfBatch(q: Query, text: Bytes, want: Option<nat>): (rows: seq<Row>) {
    var read := AcceptedRows(q, text)[..ReadCount(q, text)];
    if want.None? then read else Take(read, want.value)
  }

  lemma BatchIsAligned(q: Query, text: Bytes, want: Option<nat>)
    ensures ReadBatch(q, text, want, {}).rows == AlignAll(q, {}, RowsOfBatch(q, text, want))
  {
    hide ReadBatch, AcceptedRows, AlignAll, WellFormed;
    ReadIsAligned(q, text, {});
    var all, n := AcceptedRows(q, text), ReadCount(q, text);
    AlignPrefix(q, {}, all, n);
    if want.Some? {
      ShortBatch(q, text, want.value, {});
      if want.value < n {
        AlignPrefix(q, {}, all[..n], want.value);
      }
    }
  }

  // With `aligned_cols_cnt` the columns of a batch of any size are the keys of
  // its first row that has any if and only if no later row has equally many
  // others; such a row keeps them.
  lemma AlignedBatchIff(q: Query, text: Bytes, want: Option<nat>, f: nat)
    requires q.aligned && FirstKeyed(RowsOfBatch(q, text, want), f)
    ensures var read := RowsOfBatch(q, text, want);
            KeysOf(ReadBatch(q, text, want, {}).rows) == read[f].Keys <==> AllKeepTo(read, read[f].Keys)
  {
    hide ReadBatch, RowsOfBatch, AlignAll, KeysOf, AllKeepTo;
    BatchIsAligned(q, text, want);
    AlignedKeys(q, RowsOfBatch(q, text, want), f);
  }

  // How many of the accepted rows are read: all of them if the text is UTF-8.
  function ReadCount(q: Query, text: Bytes): (n: nat)
    ensures n == |RowsRead(q, text)| && n <= |AcceptedRows(q, text)|
    ensures WellFormed(text) ==> n == |AcceptedRows(q, text)|
  {
    ReadIsAligned(q, text, {});
    |RowsRead(q, text)|
  }

  lemma {:induction false} AlignPrefix(q: Query, keys: set<Key>, rows: seq<Row>, n: nat)
    requires n <= |rows|
    ensures AlignAll(q, keys, rows[..n]) == AlignAll(q, keys, rows)[..n]
    decreases |rows|
  {
    hide Align, NextKeys;
    if n > 0 {
      var first := Align(q, keys, rows[0]);
      AlignPrefix(q, NextKeys(q, keys, first), rows[1..], n - 1);
      assert rows[..n][1..] == rows[1..][..n - 1];
      FirstOfMore(first, AlignAll(q, NextKeys(q, keys, first), rows[1..]), n - 1);
    }
  }
}
