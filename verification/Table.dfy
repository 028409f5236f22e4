// Parsed values, cells and data frames: what the library that stores the
// columns is taken to do.
module Table {
  import opened Text
  import opened LogfmtParser
  import opened SchemaProbe

  // ---- keys in the order a sorted set or a sort of strings gives them

  predicate Leq(a: Key, b: Key) {
    a == [] || (b != [] && (a[0] < b[0] || (a[0] == b[0] && Leq(a[1..], b[1..]))))
  }

  lemma {:induction false} LeqIsTotalOrder(a: Key, b: Key, c: Key)
    ensures Leq(a, a) && (Leq(a, b) || Leq(b, a))
    ensures Leq(a, b) && Leq(b, a) ==> a == b
    ensures Leq(a, b) && Leq(b, c) ==> Leq(a, c)
    decreases |a|
  {
    if a != [] {
      LeqIsTotalOrder(a[1..], if b == [] then [] else b[1..], if c == [] then [] else c[1..]);
      if b != [] && a[0] == b[0] {
        assert a == [a[0]] + a[1..] && b == [b[0]] + b[1..];
      }
    }
  }

  // The order itself: a key comes before the keys it is the front of, and before
  // those with a greater byte at the first place they differ.
  predicate ComesBefore(a: Key, b: Key) {
    || (a <= b && a != b)
    || exists i :: 0 <= i < |a| && i < |b| && a[..i] == b[..i] && a[i] < b[i]
  }

  lemma SameFirstByte(a: Key, b: Key)
    requires a != [] && b != [] && a[0] == b[0]
    ensures ComesBefore(a, b) <==> ComesBefore(a[1..], b[1..])
  {
    var a', b' := a[1..], b[1..];
    assert a == [a[0]] + a' && b == [b[0]] + b';
    if i :| 0 <= i < |a'| && i < |b'| && a'[..i] == b'[..i] && a'[i] < b'[i] {
      assert a[..i + 1] == [a[0]] + a'[..i] && b[..i + 1] == [b[0]] + b'[..i];
      assert a[i + 1] < b[i + 1];
    }
    if i :| 0 <= i < |a| && i < |b| && a[..i] == b[..i] && a[i] < b[i] {
      assert a'[..i - 1] == a[..i][1..] && b'[..i - 1] == b[..i][1..];
      assert a'[i - 1] < b'[i - 1];
    }
  }

  lemma FirstByteLeads(a: Key, b: Key)
    requires a != [] && b != [] && ComesBefore(a, b)
    ensures a[0] <= b[0]
  {
    if i :| 0 <= i < |a| && i < |b| && a[..i] == b[..i] && a[i] < b[i] {
      assert i > 0 ==> a[..i][0] == a[0] && b[..i][0] == b[0];
    }
  }

  // The comparison byte by byte decides that order.
  lemma {:induction false} LeqIsByteOrder(a: Key, b: Key)
    ensures Leq(a, b) <==> a == b || ComesBefore(a, b)
    decreases |a|
  {
    if a != [] && b != [] {
      if a[0] == b[0] {
        LeqIsByteOrder(a[1..], b[1..]);
        SameFirstByte(a, b);
        assert a == [a[0]] + a[1..] && b == [b[0]] + b[1..];
      } else if a[0] < b[0] {
        assert a[..0] == b[..0];
      } else if ComesBefore(a, b) {
        FirstByteLeads(a, b);
      }
    }
  }

  predicate IsLeast(m: Key, keys: set<Key>) {
    m in keys && forall k :: k in keys ==> Leq(m, k)
  }

  lemma {:induction false} LeastExists(keys: set<Key>)
    requires keys != {}
    ensures exists m :: IsLeast(m, keys)
  {
    var x :| x in keys;
    var rest := keys - {x};
    if rest == {} {
      LeqIsTotalOrder(x, x, x);
      assert keys == {x};
      assert IsLeast(x, keys);
    } else {
      LeastExists(rest);
      var m :| IsLeast(m, rest);
      forall k | k in keys
        ensures Leq(if Leq(m, x) then m else x, k)
      {
        LeqIsTotalOrder(x, m, k);
        LeqIsTotalOrder(x, x, x);
      }
      assert IsLeast(if Leq(m, x) then m else x, keys);
    }
  }

  lemma LeastIsUnique(a: Key, b: Key, keys: set<Key>)
    requires IsLeast(a, keys) && IsLeast(b, keys)
    ensures a == b
  {
    LeqIsTotalOrder(a, b, a);
  }

  lemma OneLeast(keys: set<Key>)
    ensures forall a, b :: IsLeast(a, keys) && IsLeast(b, keys) ==> a == b
  {
    forall a, b | IsLeast(a, keys) && IsLeast(b, keys)
      ensures a == b
    {
      LeastIsUnique(a, b, keys);
    }
  }

  lemma LeastComesFirst(m: Key, keys: set<Key>, rest: seq<Key>)
    requires IsLeast(m, keys) && forall k :: k in rest <==> k in keys && k != m
    requires forall i, j :: 0 <= i < j < |rest| ==> ComesBefore(rest[i], rest[j]) && rest[i] != rest[j]
    ensures var all := [m] + rest;
            && (forall k :: k in all <==> k in keys)
            && forall i, j :: 0 <= i < j < |all| ==> ComesBefore(all[i], all[j]) && all[i] != all[j]
  {
    hide ComesBefore, Leq;
    forall k | k in keys && k != m
      ensures ComesBefore(m, k)
    {
      LeqIsByteOrder(m, k);
    }
    var all := [m] + rest;
    assert forall i :: 0 < i < |all| ==> all[i] == rest[i - 1] && all[i] in rest;
  }

  function SortedKeys(keys: set<Key>): (sorted: seq<Key>)
    ensures forall k :: k in sorted <==> k in keys
    ensures forall i, j :: 0 <= i < j < |sorted| ==> ComesBefore(sorted[i], sorted[j]) && sorted[i] != sorted[j]
    decreases |keys|
  {
    if keys == {} then []
    else
      LeastExists(keys);
      OneLeast(keys);
      var m :| m in keys && IsLeast(m, keys);
      var rest := SortedKeys(keys - {m});
      LeastComesFirst(m, keys, rest);
      [m] + rest
  }

  predicate InOrder(keys: seq<Key>) {
    forall i, j :: 0 <= i < j < |keys| ==> ComesBefore(keys[i], keys[j])
  }

  lemma FirstIsLeast(keys: seq<Key>)
    requires keys != [] && InOrder(keys)
    ensures IsLeast(keys[0], ToSet(keys))
  {
    hide ComesBefore, Leq;
    forall k | k in keys
      ensures Leq(keys[0], k)
    {
      var i :| 0 <= i < |keys| && keys[i] == k;
      LeqIsByteOrder(keys[0], k);
    }
  }

  lemma NeverBeforeItself(a: Key)
    ensures !ComesBefore(a, a)
  {
  }

  lemma RestOfOrder(keys: seq<Key>)
    requires keys != [] && InOrder(keys)
    ensures InOrder(keys[1..]) && ToSet(keys[1..]) == ToSet(keys) - {keys[0]}
  {
    hide ComesBefore;
    NeverBeforeItself(keys[0]);
    assert keys == [keys[0]] + keys[1..];
  }

  lemma SameEmptiness(a: seq<Key>, b: seq<Key>)
    requires ToSet(a) == ToSet(b)
    ensures a == [] <==> b == []
  {
    if a != [] {
      assert a[0] in b;
    }
    if b != [] {
      assert b[0] in a;
    }
  }

  // There is one sequence of some keys in that order.
  lemma {:induction false} OnlyOneOrder(a: seq<Key>, b: seq<Key>)
    requires InOrder(a) && InOrder(b) && ToSet(a) == ToSet(b)
    ensures a == b
  {
    hide InOrder;
    SameEmptiness(a, b);
    if a != [] {
      FirstIsLeast(a);
      FirstIsLeast(b);
      LeastIsUnique(a[0], b[0], ToSet(a));
      RestOfOrder(a);
      RestOfOrder(b);
      OnlyOneOrder(a[1..], b[1..]);
      assert a == [a[0]] + a[1..] && b == [b[0]] + b[1..];
    }
  }

  // ---- values and cells

  datatype Value =
    | Text(text: Bytes) | Integer(i: int) | Float(f: real) | Boolean(b: bool)
    | DateTime(micros: int) | Duration(d: int)

  datatype Cell = Null | StrCell(text: Bytes) | IntCell(i: int) | FloatCell(f: real) | BoolCell(b: bool)
                | TimeCell(micros: int)

  // What a column is made as, and the type it is stored with.
  datatype Kind = StringKind | IntKind | FloatKind | BoolKind | DateTimeKind | DurationKind
  datatype DType = StrType | IntType | FloatType | BoolType | TimeType

  // Number, date and duration parsing and formatting, left uninterpreted.
  datatype Conversions = Conversions(
    parseInt: Bytes -> Option<int>,
    parseFloat: Bytes -> Option<real>,
    isTrue: Bytes -> bool,
    isTrueOrOne: Bytes -> bool,
    parseTime: Bytes -> Option<int>,
    parseDuration: Bytes -> Option<int>,
    durationMicros: int -> int,
    durationSeconds: int -> real,
    floatToInt: real -> int,
    show: Value -> Bytes)

  function GetOr<T>(o: Option<T>, default: T): T {
    if o.Some? then o.value else default
  }

  function Lookup<K, V>(m: map<K, V>, k: K): Option<V> {
    if k in m then Some(m[k]) else None
  }

  type Row = map<Key, Value>

  // The value of one key under a schema, as the sequential scan parses it.
  function ParseValueAs(conv: Conversions, field: Option<SchemaField>, text: Bytes): (v: Value)
    ensures Fits(field, v)
  {
    match field
    case None => Text(text)
    case Some(f) =>
      match f
      case String => Text(text)
      case Auto => Text(text)
      case Integer => Value.Integer(GetOr(conv.parseInt(text), 0))
      case Float => Value.Float(GetOr(conv.parseFloat(text), 0.0))
      case Boolean => Value.Boolean(conv.isTrue(text))
      case Duration =>
        var d := conv.parseDuration(text);
        if d.Some? then Value.Duration(d.value) else Text(text)
      case DateTime =>
        var t := conv.parseTime(text);
        if t.Some? then Value.DateTime(t.value) else Text(text)
  }

  // The values a field of the schema lets through.
  predicate Fits(field: Option<SchemaField>, v: Value) {
    match field
    case None => v.Text?
    case Some(f) =>
      match f
      case String => v.Text?
      case Auto => v.Text?
      case Integer => v.Integer?
      case Float => v.Float?
      case Boolean => v.Boolean?
      case Duration => v.Duration? || v.Text?
      case DateTime => v.DateTime? || v.Text?
  }

  function AsString(conv: Conversions, v: Value): Bytes {
    if v.Text? then v.text else conv.show(v)
  }

  // The cell of a column of the sequential scan; a missing key is filled in.
  function FilledCell(conv: Conversions, kind: Kind, v: Option<Value>): Cell {
    match kind
    case StringKind => StrCell(if v.None? then [] else AsString(conv, v.value))
    case DurationKind => StrCell(if v.None? then [] else AsString(conv, v.value))
    case IntKind => IntCell(
      if v.None? then 0 else match v.value
        case Integer(i) => i
        case Float(f) => conv.floatToInt(f)
        case Boolean(b) => if b then 1 else 0
        case Text(s) => GetOr(conv.parseInt(s), 0)
        case DateTime(_) => 0
        case Duration(d) => conv.durationMicros(d))
    case FloatKind => FloatCell(
      if v.None? then 0.0 else match v.value
        case Duration(d) => conv.durationSeconds(d)
        case Float(f) => f
        case Integer(i) => i as real
        case Boolean(b) => if b then 1.0 else 0.0
        case Text(s) => GetOr(conv.parseFloat(s), 0.0)
        case DateTime(_) => 0.0)
    case BoolKind => BoolCell(
      if v.None? then false else match v.value
        case Boolean(b) => b
        case Integer(i) => i != 0
        case Float(f) => f != 0.0
        case Text(s) => conv.isTrueOrOne(s)
        case DateTime(_) => false
        case Duration(_) => false)
    case DateTimeKind =>
      if v.None? then Null else match v.value
        case DateTime(micros) => TimeCell(micros)
        case Text(s) => TimeOrNull(conv.parseTime(s))
        case _ => TimeOrNull(conv.parseTime(AsString(conv, v.value)))
  }

  function TimeOrNull(t: Option<int>): Cell {
    if t.Some? then TimeCell(t.value) else Null
  }

  // The cell the columnar builder of the parallel scan appends; never null.
  function BuiltCell(conv: Conversions, kind: Kind, text: Bytes): (cell: Cell)
    ensures cell != Null
  {
    match kind
    case StringKind => StrCell(text)
    case IntKind => IntCell(GetOr(conv.parseInt(text), 0))
    case FloatKind => FloatCell(GetOr(conv.parseFloat(text), 0.0))
    case BoolKind => BoolCell(conv.isTrue(text))
    case DateTimeKind => TimeCell(GetOr(conv.parseTime(text), 0))
    case DurationKind =>
      var d := conv.parseDuration(text);
      IntCell(if d.Some? then conv.durationMicros(d.value) else 0)
  }

  function KindOf(field: Option<SchemaField>): Kind {
    match field
    case None => StringKind
    case Some(f) =>
      match f
      case String => StringKind
      case Auto => StringKind
      case Integer => IntKind
      case Float => FloatKind
      case Boolean => BoolKind
      case DateTime => DateTimeKind
      case Duration => DurationKind
  }

  function FilledType(kind: Kind): DType {
    match kind
    case StringKind => StrType
    case DurationKind => StrType
    case IntKind => IntType
    case FloatKind => FloatType
    case BoolKind => BoolType
    case DateTimeKind => TimeType
  }

  function BuiltType(kind: Kind): DType {
    if kind.DurationKind? then IntType else FilledType(kind)
  }

  // The fields and values on which the two scans make the same cell.
  predicate SameCell(conv: Conversions, field: Option<SchemaField>, text: Bytes) {
    field != Some(SchemaField.Duration)
    && (field == Some(SchemaField.DateTime) ==> conv.parseTime(text).Some?)
  }

  lemma CellsAgreeIff(conv: Conversions, field: Option<SchemaField>, text: Bytes)
    ensures BuiltCell(conv, KindOf(field), text)
            == FilledCell(conv, KindOf(field), Some(ParseValueAs(conv, field, text)))
            <==> SameCell(conv, field, text)
    ensures BuiltType(KindOf(field)) == FilledType(KindOf(field)) <==> field != Some(SchemaField.Duration)
  {
  }

  // A key a row does not have is null in one scan and a default in the other,
  // except in a date column.
  lemma MissingCellsAgreeIff(conv: Conversions, field: Option<SchemaField>)
    ensures FilledCell(conv, KindOf(field), None) == Null <==> field == Some(SchemaField.DateTime)
  {
  }

  predicate HasType(cell: Cell, dtype: DType) {
    match cell
    case Null => true
    case StrCell(_) => dtype.StrType?
    case IntCell(_) => dtype.IntType?
    case FloatCell(_) => dtype.FloatType?
    case BoolCell(_) => dtype.BoolType?
    case TimeCell(_) => dtype.TimeType?
  }

  // Both scans store cells of the type of their column, and only a date can be
  // null in the sequential one.
  lemma CellsHaveType(conv: Conversions, kind: Kind, v: Option<Value>, text: Bytes)
    ensures HasType(FilledCell(conv, kind, v), FilledType(kind))
    ensures HasType(BuiltCell(conv, kind, text), BuiltType(kind))
    ensures FilledCell(conv, kind, v) == Null ==> kind.DateTimeKind?
    ensures forall other :: HasType(BuiltCell(conv, kind, text), other) ==> other == BuiltType(kind)
  {
  }

  // A missing key gets the cell of a value that does not parse or is not true:
  // zero, false or nothing.
  lemma MissingIsUnparsed(conv: Conversions, kind: Kind, text: Bytes)
    ensures kind.IntKind? && conv.parseInt(text).None? ==>
              FilledCell(conv, kind, None) == BuiltCell(conv, kind, text) == IntCell(0)
    ensures kind.FloatKind? && conv.parseFloat(text).None? ==>
              FilledCell(conv, kind, None) == BuiltCell(conv, kind, text) == FloatCell(0.0)
    ensures kind.BoolKind? && !conv.isTrue(text) ==>
              FilledCell(conv, kind, None) == BuiltCell(conv, kind, text) == BoolCell(false)
    ensures kind.StringKind? || kind.DurationKind? ==> FilledCell(conv, kind, None) == StrCell([])
    ensures kind.DateTimeKind? && conv.parseTime(text).None? ==>
              FilledCell(conv, kind, None) == Null && BuiltCell(conv, kind, text) == TimeCell(0)
  {
  }

  // A duration: its microseconds in the builder, its shown text in the row
  // path; what does not parse is zero there and stays as it is here.
  lemma DurationCells(conv: Conversions, text: Bytes)
    ensures var d, field := conv.parseDuration(text), Some(SchemaField.Duration);
            var built, filled := BuiltCell(conv, KindOf(field), text),
                                 FilledCell(conv, KindOf(field), Some(ParseValueAs(conv, field, text)));
            && (d.Some? ==> built == IntCell(conv.durationMicros(d.value)))
            && (d.Some? ==> built == FilledCell(conv, IntKind, Some(Value.Duration(d.value))))
            && (d.Some? ==> filled == StrCell(conv.show(Value.Duration(d.value))))
            && (d.None? ==> built == IntCell(0) && filled == StrCell(text))
  {
  }

  // A value of another sort than its column counts as the number it stands for,
  // and as the text it is or is shown as.
  lemma CellsOfOtherSorts(conv: Conversions, v: Value, b: bool, i: int, text: Bytes)
    ensures FilledCell(conv, IntKind, Some(Value.Boolean(b))) == IntCell(if b then 1 else 0)
    ensures FilledCell(conv, FloatKind, Some(Value.Boolean(b))) == FloatCell(if b then 1.0 else 0.0)
    ensures FilledCell(conv, FloatKind, Some(Value.Integer(i))) == FloatCell(i as real)
    ensures v.Float? ==> FilledCell(conv, IntKind, Some(v)) == IntCell(conv.floatToInt(v.f))
    ensures v.Duration? ==> FilledCell(conv, FloatKind, Some(v)) == FloatCell(conv.durationSeconds(v.d))
    ensures v.Integer? || v.Float? || v.Boolean? ==>
              FilledCell(conv, BoolKind, Some(v)) == BoolCell(FilledCell(conv, FloatKind, Some(v)) != FloatCell(0.0))
    ensures forall kind: Kind :: kind.IntKind? || kind.FloatKind? || kind.BoolKind? ==>
              (v.DateTime? ==> FilledCell(conv, kind, Some(v)) == FilledCell(conv, kind, None))
    ensures v.Duration? ==> FilledCell(conv, BoolKind, Some(v)) == BoolCell(false)
    ensures FilledCell(conv, BoolKind, Some(Value.Text(text))) == BoolCell(conv.isTrueOrOne(text))
    ensures forall field: SchemaField :: field.Integer? || field.Float? || field.DateTime? ==>
              FilledCell(conv, KindOf(Some(field)), Some(Value.Text(text)))
              == FilledCell(conv, KindOf(Some(field)), Some(ParseValueAs(conv, Some(field), text)))
    ensures FilledCell(conv, StringKind, Some(v)) == StrCell(if v.Text? then v.text else conv.show(v))
    ensures !v.DateTime? && !v.Text? ==>
              FilledCell(conv, DateTimeKind, Some(v)) == FilledCell(conv, DateTimeKind, Some(Value.Text(conv.show(v))))
  {
  }

  // ---- frames

  datatype Field = Field(name: Key, dtype: DType)
  type Cells = map<Key, Cell>

  // Columns of equal length, by row. Without columns there are no rows.
  datatype Frame = Frame(fields: seq<Field>, rows: seq<Cells>)

  const EMPTY: Frame := Frame([], [])

  function Names(fields: seq<Field>): (names: set<Key>) {
    set f | f in fields :: f.name
  }

  datatype Column = Column(name: Key, dtype: DType, cells: seq<Cell>)

  function RowAt(columns: seq<Column>, i: nat): (row: Cells)
    requires forall c :: c in columns ==> i < |c.cells|
  {
    if columns == [] then map[]
    else
      var last := columns[|columns| - 1];
      RowAt(columns[..|columns| - 1], i)[last.name := last.cells[i]]
  }

  function FieldsOf(columns: seq<Column>): (fields: seq<Field>)
    ensures |fields| == |columns|
    ensures forall i :: 0 <= i < |columns| ==> fields[i] == Field(columns[i].name, columns[i].dtype)
  {
    seq(|columns|, i requires 0 <= i < |columns| => Field(columns[i].name, columns[i].dtype))
  }

  // `DataFrame::new_infer_height`: an error on columns of different lengths.
  function FromColumns(columns: seq<Column>): (r: Result<Frame>) {
    if columns == [] then Ok(EMPTY)
    else if forall c :: c in columns ==> |c.cells| == |columns[0].cells| then
      Ok(Frame(FieldsOf(columns), seq(|columns[0].cells|, i requires 0 <= i < |columns[0].cells| => RowAt(columns, i))))
    else Err
  }

  // A pushed-down predicate looks at the columns it uses and at nothing else.
  datatype Predicate = Predicate(uses: set<Key>, holds: Cells -> bool)

  function Restrict(row: Cells, keys: set<Key>): (r: Cells) {
    map k | k in row && k in keys :: row[k]
  }

  function Passes(p: Predicate): Cells -> bool {
    (row: Cells) => p.holds(Restrict(row, p.uses))
  }

  function Where(f: Frame, p: Option<Predicate>): (r: Result<Frame>) {
    if p.None? then Ok(f)
    else if p.value.uses <= Names(f.fields) then Ok(Frame(f.fields, Filter(Passes(p.value), f.rows)))
    else Err
  }

  function FieldNamed(fields: seq<Field>, name: Key): (f: Field)
    requires name in Names(fields)
    ensures f in fields && f.name == name
  {
    if fields[0].name == name then fields[0] else FieldNamed(fields[1..], name)
  }

  predicate Distinct<T(==)>(xs: seq<T>) {
    forall i, j :: 0 <= i < j < |xs| ==> xs[i] != xs[j]
  }

  function Pick(f: Frame, columns: seq<Key>): (r: Frame)
    requires forall i :: 0 <= i < |columns| ==> columns[i] in Names(f.fields)
  {
    var keys := set k | k in columns;
    Frame(
      seq(|columns|, i requires 0 <= i < |columns| => FieldNamed(f.fields, columns[i])),
      seq(|f.rows|, i requires 0 <= i < |f.rows| => Restrict(f.rows[i], keys)))
  }

  function Select(f: Frame, columns: Option<seq<Key>>): (r: Result<Frame>) {
    if columns.None? || columns.value == [] then Ok(f)
    else if Distinct(columns.value)
            && forall i :: 0 <= i < |columns.value| ==> columns.value[i] in Names(f.fields)
    then Ok(Pick(f, columns.value))
    else Err
  }

  // `apply_pushdown`: the predicate, then the projection.
  function Pushdown(f: Frame, p: Option<Predicate>, columns: Option<seq<Key>>): (r: Result<Frame>) {
    var kept := Where(f, p);
    if kept.Err? then Err else Select(kept.value, columns)
  }

  // Stacking a frame below another one with the same columns.
  function Stack(f: Frame, g: Frame): (r: Result<Frame>) {
    if f.fields == g.fields then Ok(Frame(f.fields, f.rows + g.rows)) else Err
  }
}
