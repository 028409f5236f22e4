// The columnar builder of the parallel scan: typed builders filled a line at a
// time, and the shortcut that skips the null pass.
module Builder {
  import opened Text
  import opened LogfmtParser
  import opened SchemaProbe
  import opened Table

  datatype ColumnInfo = ColumnInfo(name: Key, kind: Kind, index: nat)

  // ---- what the pushed lines make of the columns

  // The pairs a builder with these column keys looks at.
  function Kept(columnKeys: seq<Key>, pairs: seq<Pair>): (kept: seq<Pair>) {
    if columnKeys == [] then pairs
    else if pairs == [] then []
    else
      var last := pairs[|pairs| - 1];
      Kept(columnKeys, pairs[..|pairs| - 1]) + if last.key in columnKeys then [last] else []
  }

  // Columns are made in the order their keys are first met.
  function AddKeys(columns: seq<Key>, pairs: seq<Pair>): (more: seq<Key>)
    ensures forall k :: k in more <==> k in columns || HasKey(pairs, k)
    ensures Distinct(columns) ==> Distinct(more)
  {
    if pairs == [] then columns
    else
      var front, last := AddKeys(columns, pairs[..|pairs| - 1]), pairs[|pairs| - 1];
      HasKeyOneMore(pairs[..|pairs| - 1], last);
      assert pairs == pairs[..|pairs| - 1] + [last];
      if last.key in front then front else front + [last.key]
  }

  type History = seq<seq<Pair>>

  function ColumnsOf(h: History): (columns: seq<Key>)
    ensures Distinct(columns)
  {
    if h == [] then [] else AddKeys(ColumnsOf(h[..|h| - 1]), h[|h| - 1])
  }

  // The cells one line appends to the column of `key`, one per occurrence.
  function CellsFrom(conv: Conversions, kind: Kind, pairs: seq<Pair>, key: Key): (cells: seq<Cell>)
    ensures Null !in cells
    ensures cells == [] <==> !HasKey(pairs, key)
  {
    if pairs == [] then []
    else
      var front, last := pairs[..|pairs| - 1], pairs[|pairs| - 1];
      HasKeyOneMore(front, last);
      assert pairs == front + [last];
      CellsFrom(conv, kind, front, key) + if last.key == key then [BuiltCell(conv, kind, last.value)] else []
  }

  // Whether the null pass runs for the last line: not when the line had as
  // many pairs as there are columns.
  predicate NullPass(h: History)
    requires h != []
  {
    |h[|h| - 1]| < |ColumnsOf(h)|
  }

  // All cells of the column of `key` after the lines of `h`.
  function CellsOf(conv: Conversions, kind: Kind, h: History, key: Key): (cells: seq<Cell>) {
    if h == [] then []
    else
      var last := h[|h| - 1];
      CellsOf(conv, kind, h[..|h| - 1], key) + CellsFrom(conv, kind, last, key)
      + if key in ColumnsOf(h) && !HasKey(last, key) && NullPass(h) then [Null] else []
  }

  lemma {:induction false} NoColumnNoCells(conv: Conversions, kind: Kind, h: History, key: Key)
    requires key !in ColumnsOf(h)
    ensures CellsOf(conv, kind, h, key) == []
  {
    if h != [] {
      NoColumnNoCells(conv, kind, h[..|h| - 1], key);
    }
  }

  // ---- the builder's columns as a value

  type Slots = map<Kind, seq<seq<Cell>>>

  datatype Core = Core(infos: seq<ColumnInfo>, rowSeen: seq<nat>, slots: Slots)

  predicate AllKinds(slots: Slots) {
    forall kind: Kind :: kind in slots
  }

  predicate HasSlot(core: Core, c: nat) {
    && c < |core.infos| && core.infos[c].kind in core.slots
    && core.infos[c].index < |core.slots[core.infos[c].kind]|
  }

  // Every column has a builder, and no two share a name or a builder.
  predicate Shape(core: Core) {
    && AllKinds(core.slots) && |core.rowSeen| == |core.infos|
    && (forall c :: 0 <= c < |core.infos| ==> HasSlot(core, c))
    && (forall c, d :: 0 <= c < d < |core.infos| ==> Apart(core.infos[c], core.infos[d]))
  }

  predicate Apart(a: ColumnInfo, b: ColumnInfo) {
    a.name != b.name && (a.kind != b.kind || a.index != b.index)
  }

  function CellsAt(core: Core, c: nat): (cells: seq<Cell>)
    requires HasSlot(core, c)
  {
    core.slots[core.infos[c].kind][core.infos[c].index]
  }

  function SetCells(slots: Slots, kind: Kind, index: nat, cells: seq<Cell>): Slots
    requires kind in slots && index < |slots[kind]|
  {
    slots[kind := slots[kind][index := cells]]
  }

  function Append(core: Core, c: nat, cell: Cell): (r: Core)
    requires HasSlot(core, c)
  {
    core.(slots := SetCells(core.slots, core.infos[c].kind, core.infos[c].index, CellsAt(core, c) + [cell]))
  }

  lemma SetCellsAt(core: Core, c: nat, cells: seq<Cell>)
    requires Shape(core) && HasSlot(core, c)
    ensures var r := core.(slots := SetCells(core.slots, core.infos[c].kind, core.infos[c].index, cells));
            && Shape(r) && CellsAt(r, c) == cells
            && forall d :: 0 <= d < |core.infos| && d != c ==> CellsAt(r, d) == CellsAt(core, d)
  {
    var r := core.(slots := SetCells(core.slots, core.infos[c].kind, core.infos[c].index, cells));
    forall d | 0 <= d < |core.infos|
      ensures HasSlot(r, d)
    {
      assert HasSlot(core, d);
    }
    forall d | 0 <= d < |core.infos| && d != c
      ensures CellsAt(r, d) == CellsAt(core, d)
    {
      assert HasSlot(core, d);
      assert if c < d then Apart(core.infos[c], core.infos[d]) else Apart(core.infos[d], core.infos[c]);
    }
  }

  function AddColumn(core: Core, name: Key, kind: Kind): (r: Core)
    requires kind in core.slots
  {
    Core(core.infos + [ColumnInfo(name, kind, |core.slots[kind]|)], core.rowSeen + [0],
         core.slots[kind := core.slots[kind] + [[]]])
  }

  lemma AddColumnAt(core: Core, name: Key, kind: Kind)
    requires Shape(core) && name !in InfoNames(core.infos)
    ensures var r := AddColumn(core, name, kind);
            && Shape(r) && InfoNames(r.infos) == InfoNames(core.infos) + [name]
            && CellsAt(r, |core.infos|) == []
            && forall d :: 0 <= d < |core.infos| ==> CellsAt(r, d) == CellsAt(core, d)
  {
    var r := AddColumn(core, name, kind);
    var last := |core.infos|;
    forall d | 0 <= d < last
      ensures HasSlot(r, d) && CellsAt(r, d) == CellsAt(core, d) && Apart(r.infos[d], r.infos[last])
    {
      assert HasSlot(core, d);
      assert InfoNames(core.infos)[d] == core.infos[d].name;
    }
    assert HasSlot(r, last);
    forall c, d | 0 <= c < d < |r.infos|
      ensures Apart(r.infos[c], r.infos[d])
    {
      if d < last {
        assert Apart(core.infos[c], core.infos[d]);
      }
    }
  }

  // The state after the lines of `h` and the pairs `done` of the next one.
  ghost predicate Mid(schema: Schema, conv: Conversions, core: Core, h: History, done: seq<Pair>) {
    && Shape(core)
    && InfoNames(core.infos) == AddKeys(ColumnsOf(h), done)
    && forall c :: 0 <= c < |core.infos| ==> ColumnIs(schema, conv, core, h, done, c)
  }

  ghost predicate ColumnIs(schema: Schema, conv: Conversions, core: Core, h: History, done: seq<Pair>, c: nat)
    requires HasSlot(core, c)
  {
    var name, kind := core.infos[c].name, core.infos[c].kind;
    && kind == KindOf(Lookup(schema, name))
    && CellsAt(core, c) == CellsOf(conv, kind, h, name) + CellsFrom(conv, kind, done, name)
  }

  // A column is marked with the id of the current row once the row carried it.
  ghost predicate Marks(core: Core, rowId: nat, done: seq<Pair>) {
    && |core.rowSeen| == |core.infos|
    && forall c :: 0 <= c < |core.infos| ==>
         core.rowSeen[c] <= rowId && (core.rowSeen[c] == rowId <==> HasKey(done, core.infos[c].name))
  }

  // Making the column of a key that has none changes nothing else.
  lemma AddColumnKeeps(schema: Schema, conv: Conversions, core: Core, h: History, done: seq<Pair>,
                       key: Key, rowId: nat)
    requires Mid(schema, conv, core, h, done) && Marks(core, rowId, done) && rowId > 0
    requires key !in InfoNames(core.infos) && AllKinds(core.slots)
    ensures var r := AddColumn(core, key, KindOf(Lookup(schema, key)));
            && Shape(r) && InfoNames(r.infos) == InfoNames(core.infos) + [key]
            && Marks(r, rowId, done)
            && forall c :: 0 <= c < |r.infos| ==> ColumnIs(schema, conv, r, h, done, c)
  {
    hide CellsOf, CellsFrom, AddKeys, HasKey, Shape, ColumnsOf;
    var kind := KindOf(Lookup(schema, key));
    var r := AddColumn(core, key, kind);
    var last := |core.infos|;
    AddColumnAt(core, key, kind);
    ShapeHasSlots(r);
    ShapeHasSlots(core);
    assert key !in ColumnsOf(h) && !HasKey(done, key);
    NoColumnNoCells(conv, kind, h, key);
    forall c | 0 <= c < |r.infos|
      ensures ColumnIs(schema, conv, r, h, done, c)
    {
      if c < last {
        assert ColumnIs(schema, conv, core, h, done, c);
      } else {
        assert CellsFrom(conv, kind, done, key) == [];
      }
    }
  }

  lemma ShapeHasSlots(core: Core)
    requires Shape(core)
    ensures |core.rowSeen| == |core.infos|
    ensures forall c :: 0 <= c < |core.infos| ==> HasSlot(core, c)
  {
  }

  // Appending the value of the pair to the column of its key.
  lemma AppendKeeps(schema: Schema, conv: Conversions, core: Core, h: History, done: seq<Pair>,
                    p: Pair, rowId: nat, pos: nat)
    requires Shape(core) && Marks(core, rowId, done)
    requires forall c :: 0 <= c < |core.infos| ==> ColumnIs(schema, conv, core, h, done, c)
    requires HasSlot(core, pos) && core.infos[pos].name == p.key
    requires InfoNames(core.infos) == AddKeys(ColumnsOf(h), done + [p])
    ensures var cell := BuiltCell(conv, core.infos[pos].kind, p.value);
            var r := Append(core.(rowSeen := core.rowSeen[pos := rowId]), pos, cell);
            && Mid(schema, conv, r, h, done + [p]) && Marks(r, rowId, done + [p])
  {
    hide CellsOf, AddKeys, HasKey, BuiltCell, ColumnsOf;
    var marked := core.(rowSeen := core.rowSeen[pos := rowId]);
    var kind := core.infos[pos].kind;
    var cell := BuiltCell(conv, kind, p.value);
    assert HasSlot(core, pos) && HasSlot(marked, pos);
    assert Shape(marked) by { assert forall c :: 0 <= c < |core.infos| ==> HasSlot(core, c) == HasSlot(marked, c); }
    SetCellsAt(marked, pos, CellsAt(marked, pos) + [cell]);
    var r := Append(marked, pos, cell);
    HasKeyOneMore(done, p);
    forall c | 0 <= c < |r.infos|
      ensures ColumnIs(schema, conv, r, h, done + [p], c)
      ensures r.infos[c].name == p.key <==> c == pos
    {
      assert ColumnIs(schema, conv, core, h, done, c);
      assert HasSlot(core, c);
      assert c != pos ==> Apart(core.infos[if c < pos then c else pos], core.infos[if c < pos then pos else c]);
      assert (done + [p])[..|done|] == done;
    }
  }

  // The null pass, over the first `n` columns.
  function AppendNulls(core: Core, rowId: nat, n: nat): (r: Core)
    requires Shape(core) && n <= |core.infos|
    ensures Shape(r) && r.infos == core.infos && r.rowSeen == core.rowSeen
    ensures forall c :: 0 <= c < |core.infos| ==>
              && HasSlot(core, c) && HasSlot(r, c)
              && CellsAt(r, c) == CellsAt(core, c) + if c < n && core.rowSeen[c] != rowId then [Null] else []
  {
    if n == 0 then core
    else
      var front := AppendNulls(core, rowId, n - 1);
      if core.rowSeen[n - 1] == rowId then front
      else
        SetCellsAt(front, n - 1, CellsAt(front, n - 1) + [Null]);
        Append(front, n - 1, Null)
  }

  lemma LineColumns(h: History, done: seq<Pair>)
    ensures ColumnsOf(h + [done]) == AddKeys(ColumnsOf(h), done)
    ensures NullPass(h + [done]) <==> |done| < |ColumnsOf(h + [done])|
  {
    hide AddKeys;
    assert (h + [done])[..|h|] == h;
  }

  lemma LineCells(conv: Conversions, kind: Kind, h: History, done: seq<Pair>, key: Key)
    ensures CellsOf(conv, kind, h + [done], key)
            == CellsOf(conv, kind, h, key) + CellsFrom(conv, kind, done, key)
               + if key in ColumnsOf(h + [done]) && !HasKey(done, key) && NullPass(h + [done]) then [Null] else []
  {
    hide CellsFrom, ColumnsOf, HasKey, NullPass;
    assert (h + [done])[..|h|] == h;
  }

  // The end of a line.
  lemma LineKeeps(schema: Schema, conv: Conversions, core: Core, h: History, done: seq<Pair>, rowId: nat)
    requires Mid(schema, conv, core, h, done) && Marks(core, rowId, done)
    ensures var r := if |done| < |core.infos| then AppendNulls(core, rowId, |core.infos|) else core;
            Mid(schema, conv, r, h + [done], [])
  {
    hide AddKeys, CellsFrom, HasKey, AppendNulls, Shape, CellsOf, ColumnsOf;
    var h' := h + [done];
    LineColumns(h, done);
    ShapeHasSlots(core);
    var r := if |done| < |core.infos| then AppendNulls(core, rowId, |core.infos|) else core;
    ShapeHasSlots(r);
    assert |InfoNames(core.infos)| == |core.infos|;
    assert NullPass(h') <==> |done| < |core.infos|;
    AddNoKeys(ColumnsOf(h'));
    forall c | 0 <= c < |r.infos|
      ensures ColumnIs(schema, conv, r, h', [], c)
    {
      assert ColumnIs(schema, conv, core, h, done, c);
      var name, kind := core.infos[c].name, core.infos[c].kind;
      assert InfoNames(core.infos)[c] == name;
      assert name in ColumnsOf(h');
      LineCells(conv, kind, h, done, name);
      NoPairsNoCells(conv, kind, name);
    }
  }

  lemma AddNoKeys(columns: seq<Key>)
    ensures AddKeys(columns, []) == columns
  {
  }

  lemma NoPairsNoCells(conv: Conversions, kind: Kind, key: Key)
    ensures CellsFrom(conv, kind, [], key) == [] && !HasKey([], key)
  {
  }

  class DataFrameMaker {
    const schema: Schema
    const conv: Conversions
    var columnKeys: seq<Key>
    var infos: seq<ColumnInfo>
    // per info, the id of the last row that carried the column
    var rowSeen: seq<nat>
    var rowsPushed: nat
    var i64s: seq<seq<Cell>>
    var f64s: seq<seq<Cell>>
    var bools: seq<seq<Cell>>
    var timestamps: seq<seq<Cell>>
    var durations: seq<seq<Cell>>
    var strings: seq<seq<Cell>>
    // the pairs of every pushed line that were looked at
    ghost var history: History

    constructor (schema: Schema, conv: Conversions)
      ensures Valid() && this.schema == schema && this.conv == conv
      ensures columnKeys == [] && history == []
    {
      this.schema, this.conv := schema, conv;
      columnKeys, infos, rowSeen, rowsPushed, history := [], [], [], 0, [];
      i64s, f64s, bools, timestamps, durations, strings := [], [], [], [], [], [];
      new;
      forall kind: Kind
        ensures kind in Content().slots
      {
        match kind {
          case IntKind => case FloatKind => case BoolKind =>
          case DateTimeKind => case DurationKind => case StringKind =>
        }
      }
    }

    function Content(): Core
      reads this
    {
      Core(infos, rowSeen,
           map[IntKind := i64s, FloatKind := f64s, BoolKind := bools,
               DateTimeKind := timestamps, DurationKind := durations, StringKind := strings])
    }

    ghost predicate Valid()
      reads this
    {
      && Mid(schema, conv, Content(), history, []) && rowsPushed == |history|
      && forall c :: 0 <= c < |rowSeen| ==> rowSeen[c] <= rowsPushed
    }

    // `base_append_column_arrays`.
    method AppendColumn(kind: Kind) returns (index: nat)
      modifies this`i64s, this`f64s, this`bools, this`timestamps, this`durations, this`strings
      ensures index == |old(Content().slots[kind])|
      ensures Content().slots == old(Content().slots)[kind := old(Content().slots[kind]) + [[]]]
    {
      match kind {
        case IntKind => i64s := i64s + [[]]; index := |i64s| - 1;
        case FloatKind => f64s := f64s + [[]]; index := |f64s| - 1;
        case BoolKind => bools := bools + [[]]; index := |bools| - 1;
        case DateTimeKind => timestamps := timestamps + [[]]; index := |timestamps| - 1;
        case DurationKind => durations := durations + [[]]; index := |durations| - 1;
        case StringKind => strings := strings + [[]]; index := |strings| - 1;
      }
    }

    // Replaces what one builder holds.
    method SetBuilder(kind: Kind, index: nat, cells: seq<Cell>)
      requires index < |Content().slots[kind]|
      modifies this`i64s, this`f64s, this`bools, this`timestamps, this`durations, this`strings
      ensures Content().slots == SetCells(old(Content().slots), kind, index, cells)
    {
      match kind {
        case IntKind => i64s := i64s[index := cells];
        case FloatKind => f64s := f64s[index := cells];
        case BoolKind => bools := bools[index := cells];
        case DateTimeKind => timestamps := timestamps[index := cells];
        case DurationKind => durations := durations[index := cells];
        case StringKind => strings := strings[index := cells];
      }
    }

    method AppendCell(c: nat, cell: Cell)
      requires HasSlot(Content(), c)
      modifies this`i64s, this`f64s, this`bools, this`timestamps, this`durations, this`strings
      ensures Content() == Append(old(Content()), c, cell)
    {
      var ci := infos[c];
      SetBuilder(ci.kind, ci.index, Content().slots[ci.kind][ci.index] + [cell]);
    }

    method Position(key: Key) returns (pos: Option<nat>)
      ensures pos.None? ==> key !in InfoNames(infos)
      ensures pos.Some? ==> pos.value < |infos| && infos[pos.value].name == key
    {
      for i := 0 to |infos|
        invariant forall j :: 0 <= j < i ==> InfoNames(infos)[j] != key
      {
        if infos[i].name == key {
          return Some(i);
        }
      }
      return None;
    }

    // One call of the parser's callback with a key that is looked at.
    method PushPair(p: Pair, rowId: nat, ghost done: seq<Pair>)
      requires Mid(schema, conv, Content(), history, done) && Marks(Content(), rowId, done) && rowId > 0
      modifies this`infos, this`rowSeen, this`i64s, this`f64s, this`bools, this`timestamps, this`durations, this`strings
      ensures Mid(schema, conv, Content(), history, done + [p]) && Marks(Content(), rowId, done + [p])
    {
      hide Mid, Marks, ColumnIs, AddKeys, CellsOf, CellsFrom;
      AddOneKey(ColumnsOf(history), done, p);
      MidFacts(schema, conv, Content(), history, done);
      var found := Position(p.key);
      var pos;
      if found.Some? {
        pos := found.value;
        assert InfoNames(infos)[pos] == p.key;
      } else {
        var kind := KindOf(Lookup(schema, p.key));
        AddColumnKeeps(schema, conv, Content(), history, done, p.key, rowId);
        var index := AppendColumn(kind);
        infos := infos + [ColumnInfo(p.key, kind, index)];
        rowSeen := rowSeen + [0];
        pos := |infos| - 1;
        assert Content() == AddColumn(old(Content()), p.key, kind);
      }
      ShapeHasSlots(Content());
      assert HasSlot(Content(), pos);
      AppendKeeps(schema, conv, Content(), history, done, p, rowId, pos);
      rowSeen := rowSeen[pos := rowId];
      AppendCell(pos, BuiltCell(conv, infos[pos].kind, p.value));
    }

    // `push_line_to_column_mutable_array`.
    method PushLine(line: Bytes)
      requires Valid()
      modifies this`infos, this`rowSeen, this`rowsPushed, this`history
      modifies this`i64s, this`f64s, this`bools, this`timestamps, this`durations, this`strings
      ensures Valid()
      ensures history == old(history) + [Kept(columnKeys, ParsePairs(line))]
    {
      hide Mid, AddKeys, CellsOf, CellsFrom, ParsePairs, Kept;
      var pairs := ParsePairs(line);
      var rowId := rowsPushed + 1;
      var hits := 0;
      ghost var done: seq<Pair> := [];
      KeptNone(columnKeys, pairs);
      MidFacts(schema, conv, Content(), history, []);
      for i := 0 to |pairs|
        invariant Mid(schema, conv, Content(), history, done) && Marks(Content(), rowId, done)
        invariant done == Kept(columnKeys, pairs[..i]) && hits == |done|
        invariant history == old(history) && rowsPushed == old(rowsPushed)
      {
        KeptOneMore(columnKeys, pairs, i);
        if columnKeys != [] && pairs[i].key !in columnKeys {
          continue;
        }
        PushPair(pairs[i], rowId, done);
        done := done + [pairs[i]];
        hits := hits + 1;
      }
      assert pairs[..|pairs|] == pairs;
      EndLine(rowId, hits, done);
    }

    // The end of a line: the null pass, if there may be something to fill.
    method EndLine(rowId: nat, hits: nat, ghost done: seq<Pair>)
      requires Mid(schema, conv, Content(), history, done) && Marks(Content(), rowId, done)
      requires hits == |done| && rowId == rowsPushed + 1 == |history| + 1
      modifies this`rowsPushed, this`history
      modifies this`i64s, this`f64s, this`bools, this`timestamps, this`durations, this`strings
      ensures Valid() && history == old(history) + [done]
    {
      hide Mid, AddKeys, CellsOf, CellsFrom, Append, AppendNulls;
      LineKeeps(schema, conv, Content(), history, done, rowId);
      MidFacts(schema, conv, Content(), history, done);
      if hits < |infos| {
        NullPassLoop(rowId);
      }
      rowsPushed := rowId;
      history := history + [done];
    }

    // A column the line did not carry is null on this row.
    method NullPassLoop(rowId: nat)
      requires Shape(Content())
      modifies this`i64s, this`f64s, this`bools, this`timestamps, this`durations, this`strings
      ensures Content() == AppendNulls(old(Content()), rowId, |infos|)
    {
      for i := 0 to |infos|
        invariant Content() == AppendNulls(old(Content()), rowId, i)
      {
        if rowSeen[i] != rowId {
          AppendCell(i, Null);
        }
      }
    }

    // `mutal_array_to_to_columns`: moves the builders of the listed columns
    // out and leaves empty ones.
    method ToColumns() returns (columns: seq<Column>)
      requires Valid() && Distinct(columnKeys)
      modifies this`i64s, this`f64s, this`bools, this`timestamps, this`durations, this`strings
      ensures columns == Emit(schema, conv, history, columnKeys)
      ensures Shape(Content()) && forall c :: 0 <= c < |infos| ==>
                CellsAt(Content(), c) == if infos[c].name in columnKeys then [] else CellsAt(old(Content()), c)
    {
      hide Mid, ColumnsOf, CellsOf;
      columns := [];
      ghost var before := Content();
      MidFacts(schema, conv, before, history, []);
      MidColumns(schema, conv, before, history);
      assert columnKeys[..0] == [];
      for i := 0 to |columnKeys|
        invariant Shape(Content()) && Content() == before.(slots := Content().slots)
        invariant columns == Emit(schema, conv, history, columnKeys[..i])
        invariant forall c :: 0 <= c < |infos| ==>
                    CellsAt(Content(), c) == if infos[c].name in columnKeys[..i] then [] else CellsAt(before, c)
      {
        var key := columnKeys[i];
        EmitOneMore(schema, conv, history, columnKeys, i);
        var found := Position(key);
        if found.Some? {
          var c, ci := found.value, infos[found.value];
          assert InfoNames(infos)[c] == key && HasSlot(Content(), c);
          columns := columns + [Column(key, BuiltType(ci.kind), Content().slots[ci.kind][ci.index])];
          SetCellsAt(Content(), c, []);
          SetBuilder(ci.kind, ci.index, []);
        }
        NamesTell(infos, key);
      }
      assert columnKeys[..|columnKeys|] == columnKeys;
    }
  }

  lemma NamesTell(infos: seq<ColumnInfo>, key: Key)
    ensures key in InfoNames(infos) <==> exists c :: 0 <= c < |infos| && infos[c].name == key
  {
    if key in InfoNames(infos) {
      var c :| 0 <= c < |infos| && InfoNames(infos)[c] == key;
      assert infos[c].name == key;
    }
    if c :| 0 <= c < |infos| && infos[c].name == key {
      assert InfoNames(infos)[c] == key;
    }
  }

  lemma MidFacts(schema: Schema, conv: Conversions, core: Core, h: History, done: seq<Pair>)
    requires Mid(schema, conv, core, h, done)
    ensures Shape(core) && InfoNames(core.infos) == AddKeys(ColumnsOf(h), done)
    ensures forall c :: 0 <= c < |core.infos| ==> HasSlot(core, c) && ColumnIs(schema, conv, core, h, done, c)
  {
  }

  lemma MidColumns(schema: Schema, conv: Conversions, core: Core, h: History)
    requires Mid(schema, conv, core, h, [])
    ensures InfoNames(core.infos) == ColumnsOf(h)
    ensures forall c :: 0 <= c < |core.infos| ==>
              && HasSlot(core, c) && core.infos[c].kind == KindOf(Lookup(schema, core.infos[c].name))
              && CellsAt(core, c) == CellsOf(conv, core.infos[c].kind, h, core.infos[c].name)
  {
    hide CellsOf, ColumnsOf;
    AddNoKeys(ColumnsOf(h));
    forall c | 0 <= c < |core.infos|
      ensures HasSlot(core, c) && core.infos[c].kind == KindOf(Lookup(schema, core.infos[c].name))
      ensures CellsAt(core, c) == CellsOf(conv, core.infos[c].kind, h, core.infos[c].name)
    {
      assert ColumnIs(schema, conv, core, h, [], c);
      NoPairsNoCells(conv, core.infos[c].kind, core.infos[c].name);
    }
  }

  lemma AddOneKey(columns: seq<Key>, done: seq<Pair>, p: Pair)
    ensures var names := AddKeys(columns, done);
            AddKeys(columns, done + [p]) == if p.key in names then names else names + [p.key]
  {
    assert (done + [p])[..|done|] == done;
  }

  lemma KeptNone(columnKeys: seq<Key>, pairs: seq<Pair>)
    ensures Kept(columnKeys, pairs[..0]) == []
  {
    assert pairs[..0] == [];
  }

  lemma KeptOneMore(columnKeys: seq<Key>, pairs: seq<Pair>, i: nat)
    requires i < |pairs|
    ensures Kept(columnKeys, pairs[..i + 1])
            == Kept(columnKeys, pairs[..i]) + if columnKeys == [] || pairs[i].key in columnKeys then [pairs[i]] else []
  {
    assert pairs[..i + 1][..i] == pairs[..i];
    assert pairs[..i + 1] == pairs[..i] + [pairs[i]];
  }

  lemma EmitOneMore(schema: Schema, conv: Conversions, h: History, keys: seq<Key>, i: nat)
    requires i < |keys|
    ensures var key := keys[i];
            var kind := KindOf(Lookup(schema, key));
            Emit(schema, conv, h, keys[..i + 1])
            == Emit(schema, conv, h, keys[..i])
               + if key in ColumnsOf(h) then [Column(key, BuiltType(kind), CellsOf(conv, kind, h, key))] else []
    ensures Distinct(keys) ==> keys[i] !in keys[..i]
    ensures forall k :: k in keys[..i + 1] <==> k in keys[..i] || k == keys[i]
  {
    assert keys[..i + 1][..i] == keys[..i];
    assert keys[..i + 1] == keys[..i] + [keys[i]];
  }

  function InfoNames(infos: seq<ColumnInfo>): (names: seq<Key>)
    ensures |names| == |infos|
    ensures forall c :: 0 <= c < |infos| ==> names[c] == infos[c].name
  {
    seq(|infos|, c requires 0 <= c < |infos| => infos[c].name)
  }

  // The columns moved out for these keys; a key that has no column is left out.
  function Emit(schema: Schema, conv: Conversions, h: History, keys: seq<Key>): (columns: seq<Column>) {
    if keys == [] then []
    else
      var key := keys[|keys| - 1];
      var kind := KindOf(Lookup(schema, key));
      Emit(schema, conv, h, keys[..|keys| - 1])
      + if key in ColumnsOf(h) then [Column(key, BuiltType(kind), CellsOf(conv, kind, h, key))] else []
  }
}
