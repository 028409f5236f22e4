// The columnar builder against the simple table: one row per line, one cell
// per column, null where the line has no such key.
module RowTable {
  import opened Text
  import opened LogfmtParser
  import opened SchemaProbe
  import opened Table
  import opened Builder

  function TableCell(conv: Conversions, kind: Kind, pairs: seq<Pair>, key: Key): (cell: Cell) {
    var v := ValueIn(pairs, key);
    if v.Some? then BuiltCell(conv, kind, v.value) else Null
  }

  function TableColumn(conv: Conversions, kind: Kind, h: History, key: Key): (cells: seq<Cell>)
    ensures |cells| == |h|
    ensures forall r :: 0 <= r < |h| ==> cells[r] == TableCell(conv, kind, h[r], key)
  {
    seq(|h|, r requires 0 <= r < |h| => TableCell(conv, kind, h[r], key))
  }

  predicate DistinctKeys(pairs: seq<Pair>) {
    forall i, j :: 0 <= i < j < |pairs| ==> pairs[i].key != pairs[j].key
  }

  // The first line carries every column, and no line repeats a key.
  ghost predicate Regular(h: History) {
    && (h != [] ==> forall k :: k in ColumnsOf(h) ==> HasKey(h[0], k))
    && (forall r :: 0 <= r < |h| ==> DistinctKeys(h[r]))
  }

  function CellsOfKey(schema: Schema, conv: Conversions, h: History, key: Key): seq<Cell> {
    CellsOf(conv, KindOf(Lookup(schema, key)), h, key)
  }

  function TableOfKey(schema: Schema, conv: Conversions, h: History, key: Key): seq<Cell> {
    TableColumn(conv, KindOf(Lookup(schema, key)), h, key)
  }

  ghost predicate IsTable(schema: Schema, conv: Conversions, h: History) {
    forall key :: key in ColumnsOf(h) ==> CellsOfKey(schema, conv, h, key) == TableOfKey(schema, conv, h, key)
  }

  // The builder agrees with the table after every push.
  ghost predicate IsTableThroughout(schema: Schema, conv: Conversions, h: History) {
    h == [] || (IsTableThroughout(schema, conv, h[..|h| - 1]) && IsTable(schema, conv, h))
  }

  lemma {:induction false} OneCell(conv: Conversions, kind: Kind, pairs: seq<Pair>, key: Key)
    requires DistinctKeys(pairs) && HasKey(pairs, key)
    ensures CellsFrom(conv, kind, pairs, key) == [TableCell(conv, kind, pairs, key)]
  {
    var front, last := pairs[..|pairs| - 1], pairs[|pairs| - 1];
    HasKeyOneMore(front, last);
    assert pairs == front + [last];
    if last.key == key {
      assert !HasKey(front, key);
    } else {
      OneCell(conv, kind, front, key);
    }
  }

  lemma {:induction false} RepeatedKey(conv: Conversions, kind: Kind, pairs: seq<Pair>, i: nat, j: nat)
    requires i < j < |pairs| && pairs[i].key == pairs[j].key
    ensures |CellsFrom(conv, kind, pairs, pairs[i].key)| >= 2
  {
    var front, last := pairs[..|pairs| - 1], pairs[|pairs| - 1];
    assert front[i] == pairs[i];
    if j == |front| {
      assert HasKey(front, last.key);
    } else {
      assert front[j] == pairs[j];
      RepeatedKey(conv, kind, front, i, j);
    }
  }

  lemma {:induction false} DistinctKeySet(pairs: seq<Pair>)
    requires DistinctKeys(pairs)
    ensures |KeySet(pairs)| == |pairs|
  {
    if pairs != [] {
      var front, last := pairs[..|pairs| - 1], pairs[|pairs| - 1];
      DistinctKeySet(front);
      assert !HasKey(front, last.key);
    }
  }

  lemma {:induction false} DistinctSet(keys: seq<Key>)
    requires Distinct(keys)
    ensures |ToSet(keys)| == |keys|
  {
    if keys != [] {
      var front, last := keys[..|keys| - 1], keys[|keys| - 1];
      DistinctSet(front);
      assert last !in front;
      assert keys == front + [last];
      assert ToSet(keys) == ToSet(front) + {last};
    }
  }

  lemma SmallerSet<T>(a: set<T>, b: set<T>, x: T)
    requires a <= b && x in b && x !in a
    ensures |a| < |b|
  {
    SubsetSize(a, b - {x});
  }

  lemma {:induction false} SubsetSize<T>(a: set<T>, b: set<T>)
    requires a <= b
    ensures |a| <= |b|
  {
    if a != {} {
      var x :| x in a;
      SubsetSize(a - {x}, b - {x});
    }
  }

  // A line without one of the columns never has as many pairs as there are
  // columns, so the shortcut never skips a null that is due.
  lemma NullPassIsNotMissed(h: History, key: Key)
    requires h != [] && DistinctKeys(h[|h| - 1])
    requires key in ColumnsOf(h) && !HasKey(h[|h| - 1], key)
    ensures NullPass(h)
  {
    var last := h[|h| - 1];
    DistinctKeySet(last);
    DistinctSet(ColumnsOf(h));
    SmallerSet(KeySet(last), ToSet(ColumnsOf(h)), key);
  }

  // A line without one of the columns that repeats so many keys that it has as
  // many pairs as there are columns leaves that column a cell short, and no
  // other line does.
  lemma RepeatsHideNull(schema: Schema, conv: Conversions, h: History, key: Key)
    requires h != [] && key in ColumnsOf(h) && !HasKey(h[|h| - 1], key)
    ensures var before, after := CellsOfKey(schema, conv, h[..|h| - 1], key), CellsOfKey(schema, conv, h, key);
            && (after == before <==> |h[|h| - 1]| >= |ColumnsOf(h)|)
            && (after == before ==> !DistinctKeys(h[|h| - 1]))
            && (after != before ==> after == before + [Null])
  {
    hide ColumnsOf, CellsFrom, DistinctKeys;
    var last := h[|h| - 1];
    var kind := KindOf(Lookup(schema, key));
    assert CellsFrom(conv, kind, last, key) == [];
    if DistinctKeys(last) {
      NullPassIsNotMissed(h, key);
    }
  }

  lemma {:induction false} ColumnsHaveKeys(h: History, r: nat)
    requires r < |h|
    ensures forall k :: HasKey(h[r], k) ==> k in ColumnsOf(h)
  {
    if r < |h| - 1 {
      ColumnsHaveKeys(h[..|h| - 1], r);
      assert h[..|h| - 1][r] == h[r];
    }
  }

  lemma RegularPrefix(h: History)
    requires h != [] && Regular(h)
    ensures Regular(h[..|h| - 1])
  {
    var front := h[..|h| - 1];
    if front != [] {
      assert front[0] == h[0];
    }
    assert forall r :: 0 <= r < |front| ==> front[r] == h[r];
  }

  // One more line keeps the table as long as the lines are regular.
  lemma RegularLineKeepsTable(schema: Schema, conv: Conversions, h: History)
    requires h != [] && Regular(h) && IsTable(schema, conv, h[..|h| - 1])
    ensures IsTable(schema, conv, h)
  {
    hide BuiltCell, ColumnsOf, CellsFrom, ValueIn;
    var front, last := h[..|h| - 1], h[|h| - 1];
    forall key | key in ColumnsOf(h)
      ensures CellsOfKey(schema, conv, h, key) == TableOfKey(schema, conv, h, key)
    {
      var kind := KindOf(Lookup(schema, key));
      assert CellsOf(conv, kind, front, key) == TableColumn(conv, kind, front, key) by {
        if front == [] {
        } else {
          ColumnsHaveKeys(front, 0);
          assert front[0] == h[0];
          assert CellsOfKey(schema, conv, front, key) == TableOfKey(schema, conv, front, key);
        }
      }
      assert TableColumn(conv, kind, h, key)
          == TableColumn(conv, kind, front, key) + [TableCell(conv, kind, last, key)];
      if HasKey(last, key) {
        OneCell(conv, kind, last, key);
      } else {
        NullPassIsNotMissed(h, key);
        assert CellsFrom(conv, kind, last, key) == [];
      }
    }
  }

  // A column first met after the first line has no cell for the lines before.
  lemma LateColumnIsNoTable(schema: Schema, conv: Conversions, h: History, key: Key)
    requires |h| > 1 && key !in ColumnsOf(h[..|h| - 1]) && HasKey(h[|h| - 1], key)
    ensures CellsOfKey(schema, conv, h, key) != TableOfKey(schema, conv, h, key)
  {
    hide BuiltCell, CellsFrom, ValueIn, ColumnsOf;
    var front, last := h[..|h| - 1], h[|h| - 1];
    var kind := KindOf(Lookup(schema, key));
    NoColumnNoCells(conv, kind, front, key);
    ColumnsHaveKeys(front, 0);
    assert front[0] == h[0];
    assert TableOfKey(schema, conv, h, key)[0] == Null;
    assert CellsOfKey(schema, conv, h, key) == CellsFrom(conv, kind, last, key);
  }

  // A key that a line repeats has two cells for that line.
  lemma RepeatIsNoTable(schema: Schema, conv: Conversions, h: History, i: nat, j: nat)
    requires h != [] && IsTable(schema, conv, h[..|h| - 1])
    requires i < j < |h[|h| - 1]| && h[|h| - 1][i].key == h[|h| - 1][j].key
    requires |h| > 1 ==> h[|h| - 1][i].key in ColumnsOf(h[..|h| - 1])
    ensures var key := h[|h| - 1][i].key;
            CellsOfKey(schema, conv, h, key) != TableOfKey(schema, conv, h, key)
  {
    hide BuiltCell, CellsFrom, ValueIn, ColumnsOf;
    var front, last := h[..|h| - 1], h[|h| - 1];
    var key := last[i].key;
    var kind := KindOf(Lookup(schema, key));
    RepeatedKey(conv, kind, last, i, j);
    assert |CellsOf(conv, kind, front, key)| == |front| by {
      if front != [] {
        assert CellsOfKey(schema, conv, front, key) == TableOfKey(schema, conv, front, key);
      }
    }
    assert |CellsOf(conv, kind, h, key)| >= |front| + 2;
  }

  lemma TableNeedsRegularLine(schema: Schema, conv: Conversions, h: History)
    requires h != [] && Regular(h[..|h| - 1])
    requires IsTable(schema, conv, h[..|h| - 1]) && IsTable(schema, conv, h)
    ensures Regular(h)
  {
    hide BuiltCell, ValueIn, CellsFrom, CellsOfKey, TableOfKey;
    var front, last := h[..|h| - 1], h[|h| - 1];
    if front == [] {
      assert ColumnsOf(h) == AddKeys([], last);
    } else {
      assert front[0] == h[0];
      forall key | key in ColumnsOf(h)
        ensures key in ColumnsOf(front)
      {
        if key !in ColumnsOf(front) {
          LateColumnIsNoTable(schema, conv, h, key);
        }
      }
    }
    assert forall r :: 0 <= r < |front| ==> front[r] == h[r];
    forall i, j | 0 <= i < j < |last|
      ensures last[i].key != last[j].key
    {
      if last[i].key == last[j].key {
        assert HasKey(last, last[i].key);
        ColumnsHaveKeys(h, |h| - 1);
        RepeatIsNoTable(schema, conv, h, i, j);
      }
    }
  }

  // After every push the builder holds exactly the table, one cell per line
  // and column and null where the line has no such key, if and only if the
  // first line carries every column and no line repeats a key.
  lemma {:induction false} BuilderIsTableIff(schema: Schema, conv: Conversions, h: History)
    ensures IsTableThroughout(schema, conv, h) <==> Regular(h)
  {
    hide IsTable, Regular;
    if h == [] {
      NothingPushed(schema, conv);
    } else {
      var front := h[..|h| - 1];
      BuilderIsTableIff(schema, conv, front);
      NothingPushed(schema, conv);
      assert IsTableThroughout(schema, conv, front) ==> IsTable(schema, conv, front);
      if Regular(h) {
        RegularPrefix(h);
        RegularLineKeepsTable(schema, conv, h);
      }
      if IsTableThroughout(schema, conv, h) {
        TableNeedsRegularLine(schema, conv, h);
      }
    }
  }

  lemma NothingPushed(schema: Schema, conv: Conversions)
    ensures Regular([]) && IsTable(schema, conv, [])
  {
  }
}
