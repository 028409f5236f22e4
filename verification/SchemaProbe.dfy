// Schema inference from the first accepted lines of a stream, and the stream
// the scan continues on afterwards.
module SchemaProbe {
  import opened Text
  import opened Utf8
  import opened LogfmtParser

  datatype SchemaField = String | Integer | Float | Boolean | DateTime | Duration | Auto

  type Schema = map<Key, SchemaField>

  // `merge_schema_field`.
  function Merge(a: SchemaField, b: SchemaField): SchemaField {
    if a == b then a
    else if (a.Integer? && b.Float?) || (a.Float? && b.Integer?) then Float
    else String
  }

  // `a` can be widened to `b`.
  predicate Widens(a: SchemaField, b: SchemaField) {
    a == b || b.String? || (a.Integer? && b.Float?)
  }

  // The merge of two types is the least type both widen to.
  lemma MergeIsJoin(a: SchemaField, b: SchemaField, c: SchemaField)
    ensures Merge(a, b) == Merge(b, a) && Merge(a, a) == a
    ensures Merge(Merge(a, b), c) == Merge(a, Merge(b, c))
    ensures Widens(a, Merge(a, b)) && Widens(b, Merge(a, b))
    ensures Widens(a, c) && Widens(b, c) ==> Widens(Merge(a, b), c)
    ensures Widens(a, b) && Widens(b, a) ==> a == b
    ensures Widens(a, b) && Widens(b, c) ==> Widens(a, c)
  {
  }

  // The loop over the fields of one more row.
  function Join(merged: Schema, row: Schema): (out: Schema)
    ensures out.Keys == merged.Keys + row.Keys
  {
    map k | k in merged.Keys + row.Keys ::
      if k !in merged then row[k] else if k !in row then merged[k] else Merge(merged[k], row[k])
  }

  function JoinAll(rows: seq<Schema>): (out: Schema) {
    if rows == [] then map[] else Join(JoinAll(rows[..|rows| - 1]), rows[|rows| - 1])
  }

  // Every key of every row, and nothing else, with a type all rows widen to.
  ghost predicate IsUpperBound(rows: seq<Schema>, out: Schema) {
    forall r, k {:trigger rows[r], k in out} :: 0 <= r < |rows| && k in rows[r] ==>
      k in out && Widens(rows[r][k], out[k])
  }

  ghost predicate Below(a: Schema, b: Schema) {
    forall k :: k in a ==> k in b && Widens(a[k], b[k])
  }

  // The inferred schema is the least upper bound of the rows' schemas.
  lemma {:induction false} JoinAllIsLeast(rows: seq<Schema>, bound: Schema)
    ensures IsUpperBound(rows, JoinAll(rows))
    ensures IsUpperBound(rows, bound) ==> Below(JoinAll(rows), bound)
  {
    if rows != [] {
      var front, last := rows[..|rows| - 1], rows[|rows| - 1];
      JoinAllIsLeast(front, bound);
      var out := JoinAll(rows);
      forall r, k | 0 <= r < |rows| && k in rows[r]
        ensures k in out && Widens(rows[r][k], out[k])
      {
        assert r < |front| ==> front[r] == rows[r] && k in JoinAll(front);
        MergeIsJoin(rows[r][k], if k in JoinAll(front) then JoinAll(front)[k] else String, out[k]);
      }
      if IsUpperBound(rows, bound) {
        assert IsUpperBound(front, bound) by {
          forall r, k | 0 <= r < |front| && k in front[r]
            ensures k in bound && Widens(front[r][k], bound[k])
          {
            assert front[r] == rows[r];
          }
        }
        assert forall k :: k in last ==> rows[|rows| - 1] == last && k in bound && Widens(last[k], bound[k]);
      }
    }
  }

  lemma BelowBothWays(a: Schema, b: Schema)
    requires Below(a, b) && Below(b, a)
    ensures a == b
  {
    forall k | k in a
      ensures k in b && a[k] == b[k]
    {
      MergeIsJoin(a[k], b[k], a[k]);
    }
  }

  // The order and the repetition of the probed rows do not matter.
  lemma JoinAllOfSameRows(rows: seq<Schema>, others: seq<Schema>)
    requires forall row :: row in rows <==> row in others
    ensures JoinAll(rows) == JoinAll(others)
  {
    SubsetIsBelow(rows, others);
    SubsetIsBelow(others, rows);
    BelowBothWays(JoinAll(rows), JoinAll(others));
  }

  lemma SubsetIsBelow(rows: seq<Schema>, more: seq<Schema>)
    requires forall row :: row in rows ==> row in more
    ensures Below(JoinAll(rows), JoinAll(more))
  {
    hide JoinAll, Widens;
    JoinAllIsLeast(more, map[]);
    forall r, k | 0 <= r < |rows| && k in rows[r]
      ensures k in JoinAll(more) && Widens(rows[r][k], JoinAll(more)[k])
    {
      assert rows[r] in rows;
      var at :| 0 <= at < |more| && more[at] == rows[r];
      assert k in more[at];
    }
    JoinAllIsLeast(rows, JoinAll(more));
  }

  // A longer probe only adds keys and widens types.
  lemma LongerProbeWidens(rows: seq<Schema>, m: nat, n: nat)
    requires m <= n <= |rows|
    ensures Below(JoinAll(rows[..m]), JoinAll(rows[..n]))
  {
    assert forall i :: 0 <= i < m ==> rows[..m][i] == rows[..n][i];
    SubsetIsBelow(rows[..m], rows[..n]);
  }

  // The length of the White_Space character `s` begins with, 0 if it is none.
  function SpaceLength(s: Bytes): (n: nat)
    ensures n <= |s|
  {
    if s == [] then 0
    else if s[0] == SPACE || 0x09 <= s[0] <= 0x0D then 1
    else if |s| >= 2 && s[0] == 0xC2 && (s[1] == 0x85 || s[1] == 0xA0) then 2
    else if |s| >= 3 && s[..3] == [0xE1, 0x9A, 0x80] then 3
    else if |s| >= 3 && s[0] == 0xE2 && s[1] == 0x80
            && (0x80 <= s[2] <= 0x8A || s[2] == 0xA8 || s[2] == 0xA9 || s[2] == 0xAF) then 3
    else if |s| >= 3 && s[..3] == [0xE2, 0x81, 0x9F] then 3
    else if |s| >= 3 && s[..3] == [0xE3, 0x80, 0x80] then 3
    else 0
  }

  // `line.trim().is_empty()`.
  predicate IsBlank(s: Bytes)
    decreases |s|
  {
    s == [] || (SpaceLength(s) > 0 && IsBlank(s[SpaceLength(s)..]))
  }

  // A line that is not UTF-8 is never put to the filter.
  function Accepts(filter: Bytes -> bool): Bytes -> bool {
    (line: Bytes) => WellFormed(line) && !IsBlank(line) && filter(line)
  }

  // The lines of a text that are neither blank nor filtered out.
  function Accepted(filter: Bytes -> bool, text: Bytes): (lines: seq<Bytes>) {
    Filter(Accepts(filter), Lines(text))
  }

  function RowSchema(infer: Bytes -> SchemaField, pairs: seq<Pair>): (schema: Schema) {
    if pairs == [] then map[]
    else RowSchema(infer, pairs[..|pairs| - 1])[pairs[|pairs| - 1].key := infer(pairs[|pairs| - 1].value)]
  }

  // The row has the keys of the line, each with the type inferred from its last
  // value.
  lemma {:induction false} RowSchemaHolds(infer: Bytes -> SchemaField, pairs: seq<Pair>)
    ensures var row := RowSchema(infer, pairs);
            && row.Keys == KeySet(pairs)
            && forall k :: k in row ==> ValueIn(pairs, k).Some? && row[k] == infer(ValueIn(pairs, k).value)
  {
    if pairs != [] {
      RowSchemaHolds(infer, pairs[..|pairs| - 1]);
    }
  }

  // The schema has every key of every line, with a type to which what is
  // inferred from the last value of the key on that line can be widened.
  ghost predicate Covers(infer: Bytes -> SchemaField, lines: seq<Bytes>, schema: Schema) {
    forall i, k {:trigger lines[i], k in schema} :: 0 <= i < |lines| && HasKey(ParsePairs(lines[i]), k) ==>
      k in schema && Widens(infer(ValueIn(ParsePairs(lines[i]), k).value), schema[k])
  }

  // And it has nothing else, and no type is wider than it has to be.
  ghost predicate LeastCover(infer: Bytes -> SchemaField, lines: seq<Bytes>, schema: Schema) {
    Covers(infer, lines, schema) && forall other :: Covers(infer, lines, other) ==> Below(schema, other)
  }

  lemma CoversIsBound(infer: Bytes -> SchemaField, lines: seq<Bytes>, schema: Schema)
    ensures Covers(infer, lines, schema) <==> IsUpperBound(RowSchemas(infer, lines), schema)
  {
    hide ParsePairs, RowSchema, Widens;
    var rows := RowSchemas(infer, lines);
    forall i | 0 <= i < |lines|
      ensures forall k :: k in rows[i] <==> HasKey(ParsePairs(lines[i]), k)
      ensures forall k :: k in rows[i] ==> rows[i][k] == infer(ValueIn(ParsePairs(lines[i]), k).value)
    {
      RowSchemaHolds(infer, ParsePairs(lines[i]));
    }
    if Covers(infer, lines, schema) {
      forall i, k | 0 <= i < |rows| && k in rows[i]
        ensures k in schema && Widens(rows[i][k], schema[k])
      {
        assert HasKey(ParsePairs(lines[i]), k);
      }
    }
    if IsUpperBound(rows, schema) {
      forall i, k | 0 <= i < |lines| && HasKey(ParsePairs(lines[i]), k)
        ensures k in schema && Widens(infer(ValueIn(ParsePairs(lines[i]), k).value), schema[k])
      {
        assert k in rows[i];
      }
    }
  }

  // What the probe joins is the least schema that covers the probed lines.
  lemma JoinIsLeastCover(infer: Bytes -> SchemaField, lines: seq<Bytes>)
    ensures LeastCover(infer, lines, JoinAll(RowSchemas(infer, lines)))
  {
    hide Covers, IsUpperBound, Below, JoinAll, RowSchemas;
    var rows := RowSchemas(infer, lines);
    JoinAllIsLeast(rows, JoinAll(rows));
    CoversIsBound(infer, lines, JoinAll(rows));
    forall other | Covers(infer, lines, other)
      ensures Below(JoinAll(rows), other)
    {
      CoversIsBound(infer, lines, other);
      JoinAllIsLeast(rows, other);
    }
  }

  function RowSchemas(infer: Bytes -> SchemaField, lines: seq<Bytes>): (rows: seq<Schema>)
    ensures |rows| == |lines|
    ensures forall i :: 0 <= i < |lines| ==> rows[i] == RowSchema(infer, ParsePairs(lines[i]))
  {
    seq(|lines|, i requires 0 <= i < |lines| => RowSchema(infer, ParsePairs(lines[i])))
  }

  // The state of the probe loop: whole lines were read, and the schema is the
  // join over the accepted ones among them.
  ghost predicate Probed(filter: Bytes -> bool, infer: Bytes -> SchemaField, consumed: Bytes,
                         schema: Option<Schema>, rows: nat)
  {
    var seen := Accepted(filter, consumed);
    && WellFormed(consumed) && rows == |seen|
    && schema == if seen == [] then None else Some(JoinAll(RowSchemas(infer, seen)))
  }

  // Nothing is left to read, or what was read ends with a line.
  predicate AtLineStart(consumed: Bytes, rest: Bytes) {
    rest == [] || consumed == [] || consumed[|consumed| - 1] == NEWLINE
  }

  // The lines in front of the first one that is not UTF-8.
  function ReadableLines(lines: seq<Bytes>): (front: seq<Bytes>) {
    if lines == [] || !WellFormed(lines[0]) then [] else [lines[0]] + ReadableLines(lines[1..])
  }

  // A line that is not UTF-8 comes before the n-th accepted one.
  predicate BadLineBefore(filter: Bytes -> bool, text: Bytes, n: nat) {
    !WellFormed(text) && |Filter(Accepts(filter), ReadableLines(Lines(text)))| < n
  }

  lemma {:induction false} ReadableConcat(a: seq<Bytes>, b: seq<Bytes>)
    requires forall line :: line in a ==> WellFormed(line)
    ensures ReadableLines(a + b) == a + ReadableLines(b)
  {
    hide WellFormed;
    if a == [] {
      assert a + b == b;
      assert a + ReadableLines(b) == ReadableLines(b);
    } else {
      assert (a + b)[1..] == a[1..] + b;
      ReadableConcat(a[1..], b);
      Associative([a[0]], a[1..], ReadableLines(b));
    }
  }

  // The lines that can be read, once some were.
  lemma ReadableAfter(filter: Bytes -> bool, consumed: Bytes, rest: Bytes)
    requires WellFormed(consumed) && AtLineStart(consumed, rest)
    ensures |Filter(Accepts(filter), ReadableLines(Lines(consumed + rest)))|
            == |Accepted(filter, consumed)| + |Filter(Accepts(filter), ReadableLines(Lines(rest)))|
  {
    hide WellFormed, Lines, Filter, ReadableLines;
    LinesWellFormed(consumed);
    if rest == [] {
      NoLinesLeft();
      assert consumed + rest == consumed && Lines(consumed) + Lines(rest) == Lines(consumed);
    } else {
      LinesSplit(consumed, rest);
    }
    ReadableConcat(Lines(consumed), Lines(rest));
    FilterConcat(Accepts(filter), Lines(consumed), ReadableLines(Lines(rest)));
  }

  lemma NoLinesLeft()
    ensures Lines([]) == [] && ReadableLines([]) == []
  {
  }

  // `infer_schema_from_reader`: what was read and what was not put together are
  // the stream, and the schema is the join over the first `n` accepted lines. An
  // error is a line that is not UTF-8 in front of the last of these.
  method InferSchema(text: Bytes, filter: Bytes -> bool, n: nat, infer: Bytes -> SchemaField)
    returns (r: Result<Option<Schema>>, consumed: Bytes, rest: Bytes)
    ensures r.Ok? ==> consumed + rest == text && WellFormed(consumed)
    ensures r.Ok? ==> Accepted(filter, consumed) == Take(Accepted(filter, text), n)
    ensures r.Ok? ==> r.value == (
                        var rows := RowSchemas(infer, Take(Accepted(filter, text), n));
                        if rows == [] then None else Some(JoinAll(rows)))
    ensures r.Ok? && r.value.Some? ==> LeastCover(infer, Take(Accepted(filter, text), n), r.value.value)
    ensures r.Err? <==> BadLineBefore(filter, text, n)
  {
    hide WellFormed, IsBlank, LineLength, Accepted, RowSchemas, Probed, BadLineBefore, LeastCover;
    var schema: Option<Schema> := None;
    var rows := 0;
    consumed, rest := [], text;
    NothingRead(filter, infer);
    while rows < n && rest != []
      invariant consumed + rest == text && AtLineStart(consumed, rest) && rows <= n
      invariant Probed(filter, infer, consumed, schema, rows)
      decreases |rest|
    {
      var line := rest[..LineLength(rest)];
      ghost var before := consumed;
      if !WellFormed(line) {
        BadLine(filter, infer, consumed, rest, schema, rows);
        return Err, consumed, rest;
      }
      OneLineMore(consumed, rest);
      consumed, rest := consumed + line, rest[|line|..];
      ProbeStep(filter, infer, before, line, schema, rows);
      if Accepts(filter)(line) {
        var row := RowSchema(infer, ParsePairs(line));
        schema := if schema.None? then Some(row) else Some(Join(schema.value, row));
        rows := rows + 1;
      }
    }
    ReadSoFar(filter, infer, consumed, rest, schema, rows, n);
    JoinIsLeastCover(infer, Take(Accepted(filter, text), n));
    r := Ok(schema);
  }

  lemma NothingRead(filter: Bytes -> bool, infer: Bytes -> SchemaField)
    ensures Probed(filter, infer, [], None, 0)
  {
  }

  lemma OneLineMore(consumed: Bytes, rest: Bytes)
    requires rest != []
    ensures var n := LineLength(rest);
            && (consumed + rest[..n]) + rest[n..] == consumed + rest
            && AtLineStart(consumed + rest[..n], rest[n..])
  {
    var n := LineLength(rest);
    Associative(consumed, rest[..n], rest[n..]);
    assert rest == rest[..n] + rest[n..];
  }

  lemma ProbeStep(filter: Bytes -> bool, infer: Bytes -> SchemaField, consumed: Bytes, line: Bytes,
                  schema: Option<Schema>, rows: nat)
    requires Probed(filter, infer, consumed, schema, rows) && WellFormed(line)
    requires consumed == [] || consumed[|consumed| - 1] == NEWLINE
    requires line != [] && LineLength(line) == |line|
    ensures var row := RowSchema(infer, ParsePairs(line));
            var joined := if schema.None? then row else Join(schema.value, row);
            if Accepts(filter)(line) then Probed(filter, infer, consumed + line, Some(joined), rows + 1)
            else Probed(filter, infer, consumed + line, schema, rows)
  {
    hide WellFormed, Accepts, LineLength, Accepted, RowSchema, RowSchemas, ParsePairs, JoinAll, Join;
    var seen := Accepted(filter, consumed);
    var row := RowSchema(infer, ParsePairs(line));
    ConcatWellFormed(consumed, line);
    ReadOneMore(filter, consumed, line);
    var after := Accepted(filter, consumed + line);
    if Accepts(filter)(line) {
      assert after == seen + [line];
      JoinOneMore(infer, seen, line);
      if seen == [] {
        assert after == [line];
        JoinFirst(infer, line);
      }
    } else {
      assert after == seen;
    }
  }

  lemma JoinFirst(infer: Bytes -> SchemaField, line: Bytes)
    ensures JoinAll(RowSchemas(infer, [line])) == RowSchema(infer, ParsePairs(line))
  {
    hide RowSchema;
    var row := RowSchema(infer, ParsePairs(line));
    JoinOneMore(infer, [], line);
    assert [] + [line] == [line] && RowSchemas(infer, []) == [];
    assert Join(map[], row) == row;
  }

  lemma JoinOneMore(infer: Bytes -> SchemaField, seen: seq<Bytes>, line: Bytes)
    ensures JoinAll(RowSchemas(infer, seen + [line]))
            == Join(JoinAll(RowSchemas(infer, seen)), RowSchema(infer, ParsePairs(line)))
  {
    hide RowSchema;
    var row := RowSchema(infer, ParsePairs(line));
    assert RowSchemas(infer, seen + [line]) == RowSchemas(infer, seen) + [row];
    assert (RowSchemas(infer, seen) + [row])[..|seen|] == RowSchemas(infer, seen);
  }

  lemma ReadOneMore(filter: Bytes -> bool, consumed: Bytes, line: Bytes)
    requires consumed == [] || consumed[|consumed| - 1] == NEWLINE
    requires line != [] && LineLength(line) == |line|
    ensures Accepted(filter, consumed + line)
            == Accepted(filter, consumed) + if Accepts(filter)(line) then [line] else []
  {
    hide IsBlank, LineLength, Lines, Filter;
    LinesSplit(consumed, line);
    OnlyLine(line);
    FilterConcat(Accepts(filter), Lines(consumed), [line]);
    FilterOne(Accepts(filter), line);
  }

  lemma OnlyLine(line: Bytes)
    requires line != [] && LineLength(line) == |line|
    ensures Lines(line) == [line]
  {
    assert line[..|line|] == line && line[|line|..] == [];
  }

  lemma NoneReadable(filter: Bytes -> bool, rest: Bytes)
    requires rest != [] && !WellFormed(rest[..LineLength(rest)])
    ensures |Filter(Accepts(filter), ReadableLines(Lines(rest)))| == 0
  {
    hide WellFormed, LineLength;
    assert Lines(rest)[0] == rest[..LineLength(rest)];
  }

  lemma BadLine(filter: Bytes -> bool, infer: Bytes -> SchemaField, consumed: Bytes, rest: Bytes,
                schema: Option<Schema>, rows: nat)
    requires Probed(filter, infer, consumed, schema, rows) && AtLineStart(consumed, rest)
    requires rest != [] && !WellFormed(rest[..LineLength(rest)])
    ensures forall n :: n > rows ==> BadLineBefore(filter, consumed + rest, n)
  {
    hide WellFormed, LineLength, Accepted;
    ReadableAfter(filter, consumed, rest);
    NoneReadable(filter, rest);
    LinesWellFormed(rest);
    assert rest[..LineLength(rest)] in Lines(rest);
    if WellFormed(consumed + rest) {
      DropWellFormed(consumed, rest);
    }
  }

  lemma ReadSoFar(filter: Bytes -> bool, infer: Bytes -> SchemaField, consumed: Bytes, rest: Bytes,
                  schema: Option<Schema>, rows: nat, n: nat)
    requires Probed(filter, infer, consumed, schema, rows) && AtLineStart(consumed, rest)
    requires rows == n || (rows < n && rest == [])
    ensures WellFormed(consumed) && !BadLineBefore(filter, consumed + rest, n)
    ensures Accepted(filter, consumed) == Take(Accepted(filter, consumed + rest), n)
    ensures schema == (
              var rows := RowSchemas(infer, Take(Accepted(filter, consumed + rest), n));
              if rows == [] then None else Some(JoinAll(rows)))
  {
    hide Lines, Filter, ReadableLines, WellFormed;
    ReadableAfter(filter, consumed, rest);
    if rest == [] {
      assert consumed + rest == consumed;
    } else {
      LinesSplit(consumed, rest);
      FilterConcat(Accepts(filter), Lines(consumed), Lines(rest));
    }
  }
}
