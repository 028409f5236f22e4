// The logfmt byte parser: an index moved over the bytes of one line, and a
// callback for every `key=value` it meets. The callbacks of one line are
// modelled as the sequence of spans they are given.
module LogfmtParser {
  import opened Text
  import opened Utf8

  // Byte positions of one key and one value inside the line.
  datatype Span = Span(keyStart: nat, keyEnd: nat, valStart: nat, valEnd: nat)

  type Key = Bytes
  datatype Pair = Pair(key: Key, value: Bytes)

  // What one round of the outer loop does: where it leaves the index, and the
  // callback it makes, if any.
  datatype Round = Round(found: Option<Span>, next: nat)

  // Where the scan for a closing quote stops.
  datatype Quoted = Quoted(close: Option<nat>, next: nat)

  function SkipSpace(b: Bytes, i: nat): (j: nat)
    requires i <= |b|
    ensures i <= j <= |b|
    ensures forall k :: i <= k < j ==> IsAsciiWhitespace(b[k])
    ensures j < |b| ==> !IsAsciiWhitespace(b[j])
    decreases |b| - i
  {
    if i < |b| && IsAsciiWhitespace(b[i]) then SkipSpace(b, i + 1) else i
  }

  function SkipToSpace(b: Bytes, i: nat): (j: nat)
    requires i <= |b|
    ensures i <= j <= |b|
    ensures forall k :: i <= k < j ==> !IsAsciiWhitespace(b[k])
    ensures j < |b| ==> IsAsciiWhitespace(b[j])
    decreases |b| - i
  {
    if i < |b| && !IsAsciiWhitespace(b[i]) then SkipToSpace(b, i + 1) else i
  }

  function SkipKey(b: Bytes, i: nat): (j: nat)
    requires i <= |b|
    ensures i <= j <= |b|
    ensures forall k :: i <= k < j ==> b[k] != EQUALS && !IsAsciiWhitespace(b[k])
    ensures j < |b| ==> b[j] == EQUALS || IsAsciiWhitespace(b[j])
    decreases |b| - i
  {
    if i < |b| && b[i] != EQUALS && !IsAsciiWhitespace(b[i]) then SkipKey(b, i + 1) else i
  }

  // A backslash takes the byte after it along, whatever it is and even if
  // there is none, so the scan can end one past the end of the line.
  function ScanQuoted(b: Bytes, i: nat): (q: Quoted)
    ensures q.next >= i
    ensures q.close.None? ==> q.next >= |b|
    ensures q.close.Some? ==>
              i <= q.close.value < |b| && b[q.close.value] == QUOTE && q.next == q.close.value + 1
    decreases if i < |b| then |b| - i else 0
  {
    if i >= |b| then Quoted(None, i)
    else if b[i] == BACKSLASH then ScanQuoted(b, i + 2)
    else if b[i] == QUOTE then Quoted(Some(i), i + 1)
    else ScanQuoted(b, i + 1)
  }

  // The end of a quoted value. An empty one takes the closing quote itself in.
  function QuotedEnd(b: Bytes, start: nat, q: Quoted): (end: nat)
    requires start <= |b|
    requires q.next >= start && (q.close.Some? ==> start <= q.close.value < |b|)
    ensures start <= end <= |b|
  {
    if q.close.Some? && q.close.value != start then q.close.value
    else if q.next < |b| then q.next else |b|
  }

  function ParseValue(b: Bytes, keyStart: nat, keyEnd: nat, i: nat): (r: Round)
    requires i < |b|
    ensures r.next >= i
  {
    if b[i] == QUOTE then
      var q := ScanQuoted(b, i + 1);
      Round(Some(Span(keyStart, keyEnd, i + 1, QuotedEnd(b, i + 1, q))), q.next)
    else
      Round(Some(Span(keyStart, keyEnd, i, SkipToSpace(b, i))), SkipToSpace(b, i))
  }

  function ParseAfterKey(b: Bytes, keyStart: nat, keyEnd: nat): (r: Round)
    requires keyEnd <= |b|
    ensures r.next >= keyEnd
  {
    var eq := SkipSpace(b, keyEnd);
    if eq >= |b| || b[eq] != EQUALS then Round(None, SkipToSpace(b, eq))
    else if eq + 1 >= |b| then Round(None, eq + 1)
    else ParseValue(b, keyStart, keyEnd, eq + 1)
  }

  function ParseRound(b: Bytes, i: nat): (r: Round)
    requires i < |b|
    ensures r.next > i
  {
    var keyStart := SkipSpace(b, i);
    if keyStart >= |b| then Round(None, keyStart)
    else
      var keyEnd := SkipKey(b, keyStart);
      if keyEnd == keyStart || !WellFormed(b[keyStart..keyEnd]) then
        Round(None, SkipToSpace(b, keyEnd))
      else
        ParseAfterKey(b, keyStart, keyEnd)
  }

  function Spans(b: Bytes, i: nat): (spans: seq<Span>)
    decreases if i < |b| then |b| - i else 0
  {
    if i >= |b| then []
    else
      var r := ParseRound(b, i);
      (if r.found.Some? then [r.found.value] else []) + Spans(b, r.next)
  }

  // The loops of `handle_parse_logfmt_line_with_schema_base`.
  method ParseSpans(b: Bytes) returns (out: seq<Span>)
    ensures out == Spans(b, 0)
  {
    out := [];
    var i := 0;
    while i < |b|
      invariant out + Spans(b, i) == Spans(b, 0)
      decreases if i < |b| then |b| - i else 0
    {
      var r := ParseOne(b, i);
      if r.found.Some? {
        Associative(out, [r.found.value], Spans(b, r.next));
        out := out + [r.found.value];
      } else {
        assert Spans(b, i) == Spans(b, r.next);
      }
      i := r.next;
    }
  }

  method ParseOne(b: Bytes, start: nat) returns (r: Round)
    requires start < |b|
    ensures r == ParseRound(b, start)
  {
    var keyStart := AdvanceSpace(b, start);
    if keyStart >= |b| {
      return Round(None, keyStart);
    }
    var keyEnd := AdvanceKey(b, keyStart);
    if keyEnd == keyStart || !WellFormed(b[keyStart..keyEnd]) {
      var next := AdvanceToSpace(b, keyEnd);
      return Round(None, next);
    }
    var i := AdvanceSpace(b, keyEnd);
    if i >= |b| || b[i] != EQUALS {
      var next := AdvanceToSpace(b, i);
      return Round(None, next);
    }
    i := i + 1;
    if i >= |b| {
      return Round(None, i);
    }
    if b[i] == QUOTE {
      i := i + 1;
      var valEnd, next := AdvanceQuoted(b, i);
      return Round(Some(Span(keyStart, keyEnd, i, valEnd)), next);
    }
    var valEnd := AdvanceToSpace(b, i);
    return Round(Some(Span(keyStart, keyEnd, i, valEnd)), valEnd);
  }

  method AdvanceSpace(b: Bytes, start: nat) returns (i: nat)
    requires start <= |b|
    ensures i == SkipSpace(b, start)
  {
    i := start;
    while i < |b| && IsAsciiWhitespace(b[i])
      invariant i <= |b| && SkipSpace(b, i) == SkipSpace(b, start)
    {
      i := i + 1;
    }
  }

  method AdvanceToSpace(b: Bytes, start: nat) returns (i: nat)
    requires start <= |b|
    ensures i == SkipToSpace(b, start)
  {
    i := start;
    while i < |b| && !IsAsciiWhitespace(b[i])
      invariant i <= |b| && SkipToSpace(b, i) == SkipToSpace(b, start)
    {
      i := i + 1;
    }
  }

  method AdvanceKey(b: Bytes, start: nat) returns (i: nat)
    requires start <= |b|
    ensures i == SkipKey(b, start)
  {
    i := start;
    while i < |b| && b[i] != EQUALS && !IsAsciiWhitespace(b[i])
      invariant i <= |b| && SkipKey(b, i) == SkipKey(b, start)
    {
      i := i + 1;
    }
  }

  method AdvanceQuoted(b: Bytes, start: nat) returns (valEnd: nat, i: nat)
    requires start <= |b|
    ensures valEnd == QuotedEnd(b, start, ScanQuoted(b, start))
    ensures i == ScanQuoted(b, start).next
  {
    i, valEnd := start, start;
    var closed := false;
    while i < |b| && !closed
      invariant start <= i
      invariant !closed ==> valEnd == start && ScanQuoted(b, i) == ScanQuoted(b, start)
      invariant closed ==> start <= valEnd < |b| && ScanQuoted(b, start) == Quoted(Some(valEnd), i)
      decreases if i < |b| then |b| - i else 0, !closed
    {
      if b[i] == BACKSLASH {
        i := i + 2;
      } else if b[i] == QUOTE {
        valEnd := i;
        i := i + 1;
        closed := true;
      } else {
        i := i + 1;
      }
    }
    if valEnd == start {
      valEnd := if i < |b| then i else |b|;
    }
  }

  predicate InLine(b: Bytes, s: Span) {
    s.keyStart < s.keyEnd < s.valStart <= s.valEnd <= |b|
  }

  lemma {:induction false} SpansInLine(b: Bytes, i: nat)
    ensures forall s :: s in Spans(b, i) ==> InLine(b, s)
    decreases if i < |b| then |b| - i else 0
  {
    if i < |b| {
      SpansInLine(b, ParseRound(b, i).next);
    }
  }

  function KeyOf(b: Bytes, s: Span): (key: Key)
    requires InLine(b, s)
  {
    b[s.keyStart..s.keyEnd]
  }

  function ValueOf(b: Bytes, s: Span): (value: Bytes)
    requires InLine(b, s)
  {
    b[s.valStart..s.valEnd]
  }

  // The texts a line's callbacks receive.
  function Texts(b: Bytes, spans: seq<Span>): (pairs: seq<Pair>)
    requires forall s :: s in spans ==> InLine(b, s)
    ensures |pairs| == |spans|
    ensures forall j :: 0 <= j < |spans| ==> pairs[j] == Pair(KeyOf(b, spans[j]), ValueOf(b, spans[j]))
  {
    if spans == [] then []
    else [Pair(KeyOf(b, spans[0]), ValueOf(b, spans[0]))] + Texts(b, spans[1..])
  }

  function ParsePairs(line: Bytes): (pairs: seq<Pair>) {
    SpansInLine(line, 0);
    Texts(line, Spans(line, 0))
  }

  predicate SoundSpan(b: Bytes, s: Span) {
    InLine(b, s) && WellFormed(KeyOf(b, s)) && WellFormed(ValueOf(b, s))
  }

  predicate SoundRound(b: Bytes, from: nat, r: Round) {
    && (r.next >= |b| || Boundary(b, r.next))
    && (r.found.Some? ==>
          SoundSpan(b, r.found.value) && from <= r.found.value.keyStart && r.found.value.valEnd <= r.next)
  }

  // One round on a well-formed line: what it hands over is well-formed, and it
  // leaves the index at the end or between characters.
  lemma RoundSound(b: Bytes, i: nat)
    requires WellFormed(b) && i < |b| && Boundary(b, i)
    ensures SoundRound(b, i, ParseRound(b, i))
  {
    hide WellFormed, Boundary, SkipSpace, SkipKey, SkipToSpace, ParseAfterKey;
    var keyStart := SkipSpace(b, i);
    SpaceRunIsBoundary(b, i, keyStart);
    if keyStart < |b| {
      var keyEnd := SkipKey(b, keyStart);
      TokenSound(b, keyStart, keyEnd);
      CutIsBoundary(b, SkipToSpace(b, keyEnd));
      if keyStart < keyEnd {
        AfterKeySound(b, keyStart, keyEnd);
      }
    }
  }

  lemma AfterKeySound(b: Bytes, keyStart: nat, keyEnd: nat)
    requires WellFormed(b) && keyStart < keyEnd <= |b| && WellFormed(b[keyStart..keyEnd])
    ensures SoundRound(b, keyStart, ParseAfterKey(b, keyStart, keyEnd))
  {
    hide WellFormed, Boundary, SkipSpace, SkipToSpace, ParseValue;
    var eq := SkipSpace(b, keyEnd);
    CutIsBoundary(b, SkipToSpace(b, eq));
    if eq < |b| && b[eq] == EQUALS {
      AfterAsciiIsBoundary(b, eq);
      if eq + 1 < |b| {
        ValueSound(b, keyStart, keyEnd, eq + 1);
      }
    }
  }

  lemma ValueSound(b: Bytes, keyStart: nat, keyEnd: nat, i: nat)
    requires WellFormed(b) && i < |b| && Boundary(b, i)
    requires keyStart < keyEnd < i && WellFormed(b[keyStart..keyEnd])
    ensures SoundRound(b, keyStart, ParseValue(b, keyStart, keyEnd, i))
  {
    hide WellFormed, Boundary;
    if b[i] == QUOTE {
      AfterAsciiIsBoundary(b, i);
      QuotedSound(b, i + 1);
    } else {
      TokenSound(b, i, SkipToSpace(b, i));
    }
  }

  lemma TokenSound(b: Bytes, from: nat, to: nat)
    requires WellFormed(b) && from <= to <= |b| && Boundary(b, from)
    requires to < |b| ==> b[to] < 0x80
    ensures Boundary(b, to) && WellFormed(b[from..to])
  {
    CutIsBoundary(b, to);
    SliceWellFormed(b, from, to);
  }

  lemma SpaceRunIsBoundary(b: Bytes, i: nat, j: nat)
    requires WellFormed(b) && i <= j <= |b| && Boundary(b, i)
    requires forall k :: i <= k < j ==> IsAsciiWhitespace(b[k])
    ensures Boundary(b, j)
  {
    if i < j {
      AfterAsciiIsBoundary(b, j - 1);
    }
  }

  // The escape may skip into the middle of a character: no tail byte is a quote.
  lemma QuotedSound(b: Bytes, start: nat)
    requires WellFormed(b) && Boundary(b, start)
    ensures
      var q := ScanQuoted(b, start);
      && (q.next >= |b| || Boundary(b, q.next))
      && QuotedEnd(b, start, q) <= q.next
      && WellFormed(b[start..QuotedEnd(b, start, q)])
  {
    hide WellFormed, ScanQuoted;
    var q := ScanQuoted(b, start);
    if q.close.Some? {
      AfterAsciiIsBoundary(b, q.close.value);
    }
    CutIsBoundary(b, |b|);
    SliceWellFormed(b, start, QuotedEnd(b, start, q));
  }

  // `from_utf8_unchecked` is sound: on every line that is UTF-8, every key and
  // every value handed to the callback is a slice of the line and UTF-8, and
  // the slices come in the order of the line without overlapping.
  lemma {:induction false} UncheckedUtf8IsSound(b: Bytes, i: nat)
    requires WellFormed(b)
    requires i >= |b| || Boundary(b, i)
    ensures forall s :: s in Spans(b, i) ==> SoundSpan(b, s) && i <= s.keyStart
    ensures forall j, k :: 0 <= j < k < |Spans(b, i)| ==>
              Spans(b, i)[j].valEnd <= Spans(b, i)[k].keyStart
    decreases if i < |b| then |b| - i else 0
  {
    if i < |b| {
      hide ParseRound, WellFormed, Boundary;
      RoundSound(b, i);
      var r := ParseRound(b, i);
      UncheckedUtf8IsSound(b, r.next);
    }
  }

  // A well-formed line is parsed from its first byte, and every key it yields
  // is non-empty and free of `=` and ASCII whitespace.
  lemma LineSound(line: Bytes)
    requires WellFormed(line)
    ensures forall p :: p in ParsePairs(line) ==>
              && WellFormed(p.key) && WellFormed(p.value) && PlainKey(p.key)
  {
    SpansInLine(line, 0);
    CutIsBoundary(line, 0);
    UncheckedUtf8IsSound(line, 0);
    KeysArePlain(line, 0);
  }

  predicate PlainKey(key: Key) {
    key != [] && forall k :: 0 <= k < |key| ==> key[k] != EQUALS && !IsAsciiWhitespace(key[k])
  }

  lemma {:induction false} KeysArePlain(b: Bytes, i: nat)
    ensures forall s :: s in Spans(b, i) ==> InLine(b, s) && PlainKey(KeyOf(b, s))
    decreases if i < |b| then |b| - i else 0
  {
    SpansInLine(b, i);
    if i < |b| {
      KeysArePlain(b, ParseRound(b, i).next);
    }
  }

  // ---- the keys and values of a line

  predicate HasKey(pairs: seq<Pair>, key: Key) {
    exists i :: 0 <= i < |pairs| && pairs[i].key == key
  }

  lemma HasKeyOneMore(pairs: seq<Pair>, p: Pair)
    ensures forall k :: HasKey(pairs + [p], k) <==> HasKey(pairs, k) || k == p.key
  {
    forall k
      ensures HasKey(pairs + [p], k) <==> HasKey(pairs, k) || k == p.key
    {
      var more := pairs + [p];
      assert more[|pairs|] == p;
      if HasKey(pairs, k) {
        var i :| 0 <= i < |pairs| && pairs[i].key == k;
        assert more[i].key == k;
      }
    }
  }

  function KeySet(pairs: seq<Pair>): (keys: set<Key>)
    ensures forall k :: k in keys <==> HasKey(pairs, k)
  {
    if pairs == [] then {}
    else
      var front, last := pairs[..|pairs| - 1], pairs[|pairs| - 1];
      HasKeyOneMore(front, last);
      assert pairs == front + [last];
      KeySet(front) + {last.key}
  }

  // The value a row map keeps for a key: the last one on the line.
  function ValueIn(pairs: seq<Pair>, key: Key): (v: Option<Bytes>)
    ensures v.Some? <==> HasKey(pairs, key)
  {
    if pairs == [] then None
    else
      var front, last := pairs[..|pairs| - 1], pairs[|pairs| - 1];
      HasKeyOneMore(front, last);
      assert pairs == front + [last];
      if last.key == key then Some(last.value) else ValueIn(front, key)
  }

  // That is the value of the last pair with that key.
  lemma {:induction false} ValueInIsLast(pairs: seq<Pair>, i: nat)
    requires i < |pairs| && forall j :: i < j < |pairs| ==> pairs[j].key != pairs[i].key
    ensures ValueIn(pairs, pairs[i].key) == Some(pairs[i].value)
  {
    var front := pairs[..|pairs| - 1];
    if i < |front| {
      assert front[i] == pairs[i];
      ValueInIsLast(front, i);
    }
  }
}
