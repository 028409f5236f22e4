// Frames made of columns, one cell for every row.
module ColumnFrames {
  import opened Text
  import opened LogfmtParser
  import opened Table

  ghost predicate Named(columns: seq<Column>, k: Key) {
    exists c :: 0 <= c < |columns| && columns[c].name == k
  }

  lemma LastColumn(columns: seq<Column>, i: nat)
    requires columns != [] && forall c :: c in columns ==> i < |c.cells|
    ensures var last := columns[|columns| - 1];
            RowAt(columns, i) == RowAt(columns[..|columns| - 1], i)[last.name := last.cells[i]]
  {
  }

  lemma {:induction false} CellAt(columns: seq<Column>, i: nat, c: nat)
    requires forall c :: c in columns ==> i < |c.cells|
    requires forall c, d :: 0 <= c < d < |columns| ==> columns[c].name != columns[d].name
    requires c < |columns|
    ensures columns[c].name in RowAt(columns, i) && RowAt(columns, i)[columns[c].name] == columns[c].cells[i]
  {
    hide RowAt;
    LastColumn(columns, i);
    if c < |columns| - 1 {
      CellAt(columns[..|columns| - 1], i, c);
    }
  }

  lemma {:induction false} RowKeys(columns: seq<Column>, i: nat)
    requires forall c :: c in columns ==> i < |c.cells|
    ensures forall k :: k in RowAt(columns, i) ==> Named(columns, k)
  {
    if columns != [] {
      var front, last := columns[..|columns| - 1], columns[|columns| - 1];
      RowKeys(front, i);
      LastColumn(columns, i);
      hide RowAt;
      forall k | k in RowAt(columns, i)
        ensures Named(columns, k)
      {
        if k == last.name {
          assert columns[|columns| - 1].name == k;
        } else {
          assert Named(front, k);
          var c :| 0 <= c < |front| && front[c].name == k;
          assert columns[c].name == k;
        }
      }
    }
  }

  // The column of one field of a table.
  ghost predicate ColumnOf(column: Column, field: Field, table: seq<Cells>) {
    && column.name == field.name && column.dtype == field.dtype && |column.cells| == |table|
    && forall i :: 0 <= i < |table| ==> field.name in table[i] && column.cells[i] == table[i][field.name]
  }

  ghost predicate ColumnsOfTable(columns: seq<Column>, fields: seq<Field>, table: seq<Cells>) {
    && |columns| == |fields| > 0
    && (forall c, d :: 0 <= c < d < |fields| ==> fields[c].name != fields[d].name)
    && (forall i :: 0 <= i < |table| ==> table[i].Keys == Names(fields))
    && (forall c :: 0 <= c < |columns| ==> ColumnOf(columns[c], fields[c], table))
  }

  // The columns of a table make the frame of its rows.
  lemma ColumnsMakeFrame(columns: seq<Column>, fields: seq<Field>, table: seq<Cells>)
    requires ColumnsOfTable(columns, fields, table)
    ensures FromColumns(columns) == Ok(Frame(fields, table))
  {
    hide RowAt;
    forall c | c in columns
      ensures |c.cells| == |table|
    {
      var i :| 0 <= i < |columns| && columns[i] == c;
      assert ColumnOf(columns[i], fields[i], table);
    }
    assert columns[0] in columns;
    assert forall c :: c in columns ==> |c.cells| == |columns[0].cells|;
    var made := FromColumns(columns);
    assert made.Ok?;
    forall i | 0 <= i < |table|
      ensures RowAt(columns, i) == table[i]
    {
      RowOfColumns(columns, fields, table, i);
    }
    assert made.value.rows == table;
    forall c | 0 <= c < |columns|
      ensures made.value.fields[c] == fields[c]
    {
      assert ColumnOf(columns[c], fields[c], table);
    }
    assert made.value.fields == fields;
  }

  lemma RowOfColumns(columns: seq<Column>, fields: seq<Field>, table: seq<Cells>, i: nat)
    requires ColumnsOfTable(columns, fields, table) && i < |table|
    requires forall c :: c in columns ==> i < |c.cells|
    ensures RowAt(columns, i) == table[i]
  {
    hide RowAt;
    forall c, d | 0 <= c < d < |columns|
      ensures columns[c].name != columns[d].name
    {
      assert ColumnOf(columns[c], fields[c], table) && ColumnOf(columns[d], fields[d], table);
    }
    RowKeys(columns, i);
    var row := RowAt(columns, i);
    forall k | k in table[i]
      ensures k in row && row[k] == table[i][k]
    {
      assert k in Names(fields);
      var c :| 0 <= c < |fields| && fields[c].name == k;
      assert ColumnOf(columns[c], fields[c], table);
      CellAt(columns, i, c);
    }
    forall k | k in row
      ensures k in table[i]
    {
      assert Named(columns, k);
      var c :| 0 <= c < |columns| && columns[c].name == k;
      assert ColumnOf(columns[c], fields[c], table);
    }
    assert row.Keys == table[i].Keys;
  }
}
