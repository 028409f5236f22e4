// What every line means, told without an index: a line is made of pieces, each
// of which gives one pair or none.
module Grammar {
  import opened Text
  import opened Utf8
  import opened LogfmtParser

  predicate AllSpace(s: Bytes) {
    forall k :: 0 <= k < |s| ==> IsAsciiWhitespace(s[k])
  }

  predicate NoSpace(s: Bytes) {
    forall k :: 0 <= k < |s| ==> !IsAsciiWhitespace(s[k])
  }

  lemma Peel(b: Bytes, o: nat, x: Bytes, rest: Bytes)
    requires o <= |b| && b[o..] == x + rest
    ensures o + |x| <= |b| && b[o..o + |x|] == x && b[o + |x|..] == rest
    ensures forall k :: 0 <= k < |x| ==> b[o + k] == x[k]
  {
    assert |b[o..]| == |x| + |rest|;
    assert b[o..][..|x|] == x && b[o..][|x|..] == rest;
    assert forall k :: 0 <= k < |x| ==> b[o + k] == b[o..][k];
  }

  // ---- the rest of a line is parsed like a line of its own

  function PairsFrom(b: Bytes, i: nat): (pairs: seq<Pair>) {
    SpansInLine(b, i);
    Texts(b, Spans(b, i))
  }

  lemma SkipsShift(b: Bytes, o: nat, j: nat)
    requires o + j <= |b|
    ensures SkipSpace(b, o + j) == o + SkipSpace(b[o..], j)
    ensures SkipToSpace(b, o + j) == o + SkipToSpace(b[o..], j)
    ensures SkipKey(b, o + j) == o + SkipKey(b[o..], j)
  {
    hide SkipSpace, SkipToSpace, SkipKey;
    var c := b[o..];
    assert forall k :: 0 <= k < |c| ==> c[k] == b[o + k];
    var s, t, u := SkipSpace(b, o + j) - o, SkipToSpace(b, o + j) - o, SkipKey(b, o + j) - o;
    assert s < |c| ==> c[s] == b[o + s];
    assert t < |c| ==> c[t] == b[o + t];
    assert u < |c| ==> c[u] == b[o + u];
    var s', t', u' := SkipSpace(c, j), SkipToSpace(c, j), SkipKey(c, j);
    assert s' < |c| ==> b[o + s'] == c[s'];
    assert t' < |c| ==> b[o + t'] == c[t'];
    assert u' < |c| ==> b[o + u'] == c[u'];
  }

  lemma ScanStep(b: Bytes, i: nat)
    ensures ScanQuoted(b, i)
            == (if i >= |b| then Quoted(None, i)
                else if b[i] == BACKSLASH then ScanQuoted(b, i + 2)
                else if b[i] == QUOTE then Quoted(Some(i), i + 1)
                else ScanQuoted(b, i + 1))
  {
  }

  lemma {:induction false} QuotedShift(b: Bytes, o: nat, j: nat)
    requires o <= |b|
    ensures var q, q' := ScanQuoted(b, o + j), ScanQuoted(b[o..], j);
            && q.next == o + q'.next
            && q.close == (if q'.close.Some? then Some(o + q'.close.value) else None)
    decreases if o + j < |b| then |b| - j else 0
  {
    hide ScanQuoted;
    ScanStep(b, o + j);
    ScanStep(b[o..], j);
    if o + j < |b| {
      assert b[o..][j] == b[o + j];
      QuotedShift(b, o, j + 1);
      QuotedShift(b, o, j + 2);
    }
  }

  function ShiftSpan(s: Span, o: nat): Span {
    Span(o + s.keyStart, o + s.keyEnd, o + s.valStart, o + s.valEnd)
  }

  function ShiftRound(r: Round, o: nat): Round {
    Round(if r.found.Some? then Some(ShiftSpan(r.found.value, o)) else None, o + r.next)
  }

  lemma ValueShift(b: Bytes, o: nat, keyStart: nat, keyEnd: nat, i: nat)
    requires o + i < |b|
    ensures ParseValue(b, o + keyStart, o + keyEnd, o + i) == ShiftRound(ParseValue(b[o..], keyStart, keyEnd, i), o)
  {
    hide SkipToSpace, ScanQuoted;
    assert b[o..][i] == b[o + i];
    SkipsShift(b, o, i);
    QuotedShift(b, o, i + 1);
  }

  lemma AfterKeyShift(b: Bytes, o: nat, keyStart: nat, keyEnd: nat)
    requires o + keyEnd <= |b|
    ensures ParseAfterKey(b, o + keyStart, o + keyEnd) == ShiftRound(ParseAfterKey(b[o..], keyStart, keyEnd), o)
  {
    hide SkipSpace, SkipToSpace, ParseValue;
    var c := b[o..];
    var eq := SkipSpace(c, keyEnd);
    SkipsShift(b, o, keyEnd);
    SkipsShift(b, o, eq);
    assert eq < |c| ==> c[eq] == b[o + eq];
    if eq + 1 < |c| {
      ValueShift(b, o, keyStart, keyEnd, eq + 1);
    }
  }

  // From `i` on, a key is looked for from `keyStart` to `keyEnd`.
  predicate Starts(b: Bytes, i: nat, keyStart: nat, keyEnd: nat) {
    i < |b| && keyStart == SkipSpace(b, i) < |b| && keyEnd == SkipKey(b, keyStart)
  }

  // A round, told by where its skips end.
  lemma RoundBy(b: Bytes, i: nat, keyStart: nat, keyEnd: nat)
    requires Starts(b, i, keyStart, keyEnd)
    ensures i <= keyStart <= keyEnd <= |b| && i < |b|
    ensures ParseRound(b, i)
            == if keyEnd == keyStart || !WellFormed(b[keyStart..keyEnd]) then Round(None, SkipToSpace(b, keyEnd))
               else ParseAfterKey(b, keyStart, keyEnd)
  {
    hide SkipSpace, SkipKey, SkipToSpace, WellFormed, ParseAfterKey;
  }

  lemma SpaceRound(b: Bytes, i: nat)
    requires i < |b| && SkipSpace(b, i) >= |b|
    ensures ParseRound(b, i) == Round(None, SkipSpace(b, i))
  {
    hide SkipSpace, SkipKey, SkipToSpace, WellFormed, ParseAfterKey;
  }

  lemma StartsShift(b: Bytes, o: nat, i: nat) returns (keyStart: nat, keyEnd: nat)
    requires o + i < |b| && SkipSpace(b[o..], i) < |b| - o
    ensures Starts(b[o..], i, keyStart, keyEnd) && Starts(b, o + i, o + keyStart, o + keyEnd)
  {
    hide SkipSpace, SkipKey, SkipToSpace;
    keyStart := SkipSpace(b[o..], i);
    keyEnd := SkipKey(b[o..], keyStart);
    SkipsShift(b, o, i);
    SkipsShift(b, o, keyStart);
  }

  lemma RoundShift(b: Bytes, o: nat, i: nat)
    requires o + i < |b|
    ensures ParseRound(b, o + i) == ShiftRound(ParseRound(b[o..], i), o)
  {
    hide *;
    NoneShift(o);
    if SkipSpace(b[o..], i) < |b| - o {
      var keyStart, keyEnd := StartsShift(b, o, i);
      RoundBy(b[o..], i, keyStart, keyEnd);
      RoundBy(b, o + i, o + keyStart, o + keyEnd);
      KeyShift(b, o, keyStart, keyEnd);
    } else {
      SkipsShift(b, o, i);
      SpaceRound(b[o..], i);
      SpaceRound(b, o + i);
    }
  }

  lemma NoneShift(o: nat)
    ensures forall next: nat :: ShiftRound(Round(None, next), o) == Round(None, o + next)
  {
  }

  lemma KeyShift(b: Bytes, o: nat, keyStart: nat, keyEnd: nat)
    requires keyStart <= keyEnd && o + keyEnd <= |b|
    ensures b[o + keyStart..o + keyEnd] == b[o..][keyStart..keyEnd]
    ensures SkipToSpace(b, o + keyEnd) == o + SkipToSpace(b[o..], keyEnd)
    ensures ParseAfterKey(b, o + keyStart, o + keyEnd) == ShiftRound(ParseAfterKey(b[o..], keyStart, keyEnd), o)
  {
    hide *;
    SameSlice(b, o, keyStart, keyEnd);
    SkipsShift(b, o, keyEnd);
    AfterKeyShift(b, o, keyStart, keyEnd);
  }

  lemma SameSlice(b: Bytes, o: nat, from: nat, to: nat)
    requires from <= to && o + to <= |b|
    ensures b[o + from..o + to] == b[o..][from..to]
  {
  }

  // The pair a round hands over.
  function Handed(b: Bytes, r: Round): (pairs: seq<Pair>) {
    if r.found.Some? && InLine(b, r.found.value) then [Pair(KeyOf(b, r.found.value), ValueOf(b, r.found.value))]
    else []
  }

  lemma PairsStep(b: Bytes, i: nat)
    ensures PairsFrom(b, i)
            == if i < |b| then Handed(b, ParseRound(b, i)) + PairsFrom(b, ParseRound(b, i).next) else []
  {
    hide ParseRound, InLine;
    SpansInLine(b, i);
    if i < |b| {
      var r := ParseRound(b, i);
      SpansInLine(b, r.next);
      if r.found.Some? {
        assert Spans(b, i) == [r.found.value] + Spans(b, r.next);
        assert r.found.value in Spans(b, i);
        assert Spans(b, i)[1..] == Spans(b, r.next);
      } else {
        assert Spans(b, i) == Spans(b, r.next);
        assert [] + PairsFrom(b, r.next) == PairsFrom(b, r.next);
      }
    }
  }

  lemma HandedShift(b: Bytes, o: nat, r: Round)
    requires o <= |b|
    ensures Handed(b, ShiftRound(r, o)) == Handed(b[o..], r)
  {
    if r.found.Some? && InLine(b[o..], r.found.value) {
      var s, c := r.found.value, b[o..];
      assert c[s.keyStart..s.keyEnd] == b[o + s.keyStart..o + s.keyEnd];
      assert c[s.valStart..s.valEnd] == b[o + s.valStart..o + s.valEnd];
    }
  }

  lemma {:induction false} PairsShift(b: Bytes, o: nat, i: nat)
    requires o <= |b|
    ensures PairsFrom(b, o + i) == PairsFrom(b[o..], i)
    decreases if o + i < |b| then |b| - i else 0
  {
    hide ParseRound, PairsFrom, Handed;
    PairsStep(b, o + i);
    PairsStep(b[o..], i);
    if o + i < |b| {
      var r := ParseRound(b[o..], i);
      RoundShift(b, o, i);
      HandedShift(b, o, r);
      PairsShift(b, o, r.next);
    }
  }

  // What comes after a round is parsed like a line of its own.
  lemma PairsOfRest(b: Bytes, i: nat)
    ensures PairsFrom(b, i) == if i < |b| then ParsePairs(b[i..]) else []
  {
    hide Spans;
    if i < |b| {
      PairsShift(b, i, 0);
    } else {
      PairsStep(b, i);
    }
  }

  // ---- quoted text

  // How many backslashes are right in front of `k`.
  function BackslashesBefore(s: Bytes, k: nat): (n: nat)
    requires k <= |s|
  {
    if k > 0 && s[k - 1] == BACKSLASH then 1 + BackslashesBefore(s, k - 1) else 0
  }

  // Every quote up to `k` is escaped: an odd number of backslashes is in front.
  predicate QuotesEscaped(s: Bytes, k: nat)
    requires k <= |s|
  {
    forall j :: 0 <= j < k && s[j] == QUOTE ==> BackslashesBefore(s, j) % 2 == 1
  }

  // What may stand between two quotes.
  predicate Enclosed(s: Bytes) {
    QuotesEscaped(s, |s|) && BackslashesBefore(s, |s|) % 2 == 0
  }

  // From any byte that is not escaped the scan for the closing quote goes on to
  // the first quote that is not escaped, and to the end if there is none.
  lemma {:induction false} ScanFinds(b: Bytes, start: nat, i: nat, inner: Bytes, rest: Bytes)
    requires start <= |b| && b[start..] == inner + rest
    requires i <= |inner| && BackslashesBefore(inner, i) % 2 == 0 && QuotesEscaped(inner, |inner|)
    ensures rest != [] && rest[0] == QUOTE && Enclosed(inner) ==>
              ScanQuoted(b, start + i) == Quoted(Some(start + |inner|), start + |inner| + 1)
    ensures rest == [] ==> ScanQuoted(b, start + i).close.None?
    decreases |inner| - i
  {
    assert forall k :: 0 <= k < |inner| ==> b[start + k] == b[start..][k] == inner[k];
    if i < |inner| {
      assert b[start + i] == inner[i];
      if inner[i] == BACKSLASH {
        assert BackslashesBefore(inner, i + 1) == BackslashesBefore(inner, i) + 1;
        if i + 2 <= |inner| {
          ScanFinds(b, start, i + 2, inner, rest);
        }
      } else {
        ScanFinds(b, start, i + 1, inner, rest);
      }
    } else if rest != [] {
      assert b[start + i] == b[start..][i] == rest[0];
    }
  }

  // What the scan found is that: text with all its quotes escaped.
  lemma {:induction false} FoundIsEnclosed(b: Bytes, start: nat, i: nat)
    requires start <= i <= |b| && BackslashesBefore(b[start..], i - start) % 2 == 0
    requires QuotesEscaped(b[start..], i - start)
    ensures var close := ScanQuoted(b, i).close;
            if close.Some? then Enclosed(b[start..close.value]) else QuotesEscaped(b[start..], |b| - start)
    decreases |b| - i
  {
    var c := b[start..];
    if i < |b| {
      assert c[i - start] == b[i];
      if b[i] == BACKSLASH {
        assert BackslashesBefore(c, i + 1 - start) == BackslashesBefore(c, i - start) + 1;
        if i + 1 < |b| {
          FoundIsEnclosed(b, start, i + 2);
        }
      } else if b[i] == QUOTE {
        CutEscaped(c, i - start);
        assert b[start..i] == c[..i - start];
      } else {
        FoundIsEnclosed(b, start, i + 1);
      }
    }
  }

  lemma {:induction false} BackslashesOfFront(s: Bytes, n: nat, k: nat)
    requires k <= n <= |s|
    ensures BackslashesBefore(s[..n], k) == BackslashesBefore(s, k)
  {
    if k > 0 {
      BackslashesOfFront(s, n, k - 1);
    }
  }

  lemma CutEscaped(s: Bytes, n: nat)
    requires n <= |s| && QuotesEscaped(s, n) && BackslashesBefore(s, n) % 2 == 0
    ensures Enclosed(s[..n])
  {
    BackslashesOfFront(s, n, n);
    forall j | 0 <= j < n && s[..n][j] == QUOTE
      ensures BackslashesBefore(s[..n], j) % 2 == 1
    {
      BackslashesOfFront(s, n, j);
    }
  }

  // ---- pieces

  // Whitespace at the end of a line; a token without a key, or with one that is
  // not UTF-8; a word without an equals sign, with the token after it; an equals
  // sign at the end of the line; and the three sorts of value.
  datatype Piece =
    | Space(lead: Bytes)
    | NoKey(lead: Bytes, key: Bytes, tail: Bytes)
    | Word(lead: Bytes, key: Bytes, gap: Bytes, token: Bytes)
    | NoValue(lead: Bytes, key: Bytes, gap: Bytes)
    | Unquoted(lead: Bytes, key: Bytes, gap: Bytes, value: Bytes)
    | InQuotes(lead: Bytes, key: Bytes, gap: Bytes, inner: Bytes)
    | Unclosed(lead: Bytes, key: Bytes, gap: Bytes, inner: Bytes)

  predicate KeyBytes(s: Bytes) {
    NoSpace(s) && EQUALS !in s
  }

  predicate TokenEnds(rest: Bytes) {
    rest == [] || IsAsciiWhitespace(rest[0])
  }

  // The piece may stand in front of `rest`.
  predicate Stands(p: Piece, rest: Bytes) {
    && AllSpace(p.lead)
    && match p
       case Space(lead) => lead != [] && rest == []
       case NoKey(_, key, tail) =>
         && KeyBytes(key) && (key == [] || !WellFormed(key)) && NoSpace(tail)
         && (tail == [] ==> key != []) && (tail != [] ==> tail[0] == EQUALS) && TokenEnds(rest)
       case Word(_, key, gap, token) =>
         && PlainKey(key) && WellFormed(key) && AllSpace(gap) && NoSpace(token) && TokenEnds(rest)
         && (if token == [] then rest == [] else gap != [] && token[0] != EQUALS)
       case NoValue(_, key, gap) => PlainKey(key) && WellFormed(key) && AllSpace(gap) && rest == []
       case Unquoted(_, key, gap, value) =>
         && PlainKey(key) && WellFormed(key) && AllSpace(gap) && NoSpace(value) && TokenEnds(rest)
         && (if value == [] then rest != [] else value[0] != QUOTE)
       case InQuotes(_, key, gap, inner) => PlainKey(key) && WellFormed(key) && AllSpace(gap) && Enclosed(inner)
       case Unclosed(_, key, gap, inner) =>
         PlainKey(key) && WellFormed(key) && AllSpace(gap) && QuotesEscaped(inner, |inner|) && rest == []
  }

  function AfterKey(p: Piece): (text: Bytes) {
    match p
    case Space(_) => []
    case NoKey(_, _, tail) => tail
    case Word(_, _, gap, token) => gap + token
    case NoValue(_, _, gap) => gap + [EQUALS]
    case Unquoted(_, _, gap, value) => gap + ([EQUALS] + value)
    case InQuotes(_, _, gap, inner) => gap + ([EQUALS] + ([QUOTE] + (inner + [QUOTE])))
    case Unclosed(_, _, gap, inner) => gap + ([EQUALS] + ([QUOTE] + inner))
  }

  function Written(p: Piece): (text: Bytes) {
    p.lead + ((if p.Space? then [] else p.key) + AfterKey(p))
  }

  // The pair it gives. An empty value in quotes comes out as the closing quote.
  function Meaning(p: Piece): (pairs: seq<Pair>) {
    match p
    case Unquoted(_, key, _, value) => [Pair(key, value)]
    case InQuotes(_, key, _, inner) => [Pair(key, if inner == [] then [QUOTE] else inner)]
    case Unclosed(_, key, _, inner) => [Pair(key, inner)]
    case _ => []
  }

  // ---- the skips over given text

  predicate SpaceEnds(rest: Bytes) {
    rest == [] || !IsAsciiWhitespace(rest[0])
  }

  predicate KeyEnds(rest: Bytes) {
    TokenEnds(rest) || rest[0] == EQUALS
  }

  lemma SpaceRun(b: Bytes, o: nat, gap: Bytes, rest: Bytes)
    requires o <= |b| && b[o..] == gap + rest && AllSpace(gap) && SpaceEnds(rest)
    ensures SkipSpace(b, o) == o + |gap| && o + |gap| + |rest| == |b| && b[o + |gap|..] == rest
    ensures rest != [] ==> b[o + |gap|] == rest[0]
  {
    hide SkipSpace;
    Peel(b, o, gap, rest);
    assert forall k :: o <= k < o + |gap| ==> b[k] == gap[k - o];
  }

  lemma TokenRun(b: Bytes, o: nat, token: Bytes, rest: Bytes)
    requires o <= |b| && b[o..] == token + rest && NoSpace(token) && TokenEnds(rest)
    ensures SkipToSpace(b, o) == o + |token| && o + |token| + |rest| == |b|
    ensures b[o..o + |token|] == token && b[o + |token|..] == rest
  {
    hide SkipToSpace;
    Peel(b, o, token, rest);
    assert rest != [] ==> b[o + |token|] == rest[0];
    assert forall k :: o <= k < o + |token| ==> b[k] == token[k - o];
  }

  lemma KeyRun(b: Bytes, o: nat, key: Bytes, rest: Bytes)
    requires o <= |b| && b[o..] == key + rest && KeyBytes(key) && KeyEnds(rest)
    ensures SkipKey(b, o) == o + |key| && o + |key| + |rest| == |b|
    ensures b[o..o + |key|] == key && b[o + |key|..] == rest
  {
    hide SkipKey;
    Peel(b, o, key, rest);
    assert rest != [] ==> b[o + |key|] == rest[0];
    assert forall k :: o <= k < o + |key| ==> b[k] == key[k - o] && key[k - o] in key;
  }

  // The round read `pairs` and left `rest`.
  predicate Leaves(b: Bytes, r: Round, pairs: seq<Pair>, rest: Bytes) {
    Handed(b, r) == pairs && (if r.next < |b| then b[r.next..] == rest else rest == [])
  }

  // The text of a piece from its key on, in front of `rest`.
  function FromKey(p: Piece, rest: Bytes): (text: Bytes) {
    (if p.Space? then [] else p.key) + (AfterKey(p) + rest)
  }

  lemma WrittenParts(p: Piece, rest: Bytes)
    ensures Written(p) + rest == p.lead + FromKey(p, rest)
  {
    var key := if p.Space? then [] else p.key;
    Associative(p.lead, key + AfterKey(p), rest);
    Associative(key, AfterKey(p), rest);
  }

  lemma SpacePiece(b: Bytes, lead: Bytes)
    requires b == lead && lead != [] && AllSpace(lead)
    ensures Leaves(b, ParseRound(b, 0), [], [])
  {
    hide SkipSpace;
    assert b[0..] == lead + [];
    SpaceRun(b, 0, lead, []);
  }

  // The lead and the key of a piece.
  lemma LeadThenKey(b: Bytes, lead: Bytes, key: Bytes, more: Bytes)
    requires AllSpace(lead) && KeyBytes(key) && KeyEnds(more) && (key == [] ==> more != [] && more[0] == EQUALS)
    requires b == lead + (key + more)
    ensures Starts(b, 0, |lead|, |lead| + |key|)
    ensures |lead| + |key| + |more| == |b|
    ensures b[|lead|..|lead| + |key|] == key && b[|lead| + |key|..] == more
  {
    hide SkipSpace, SkipKey, AllSpace, KeyEnds, KeyBytes, SpaceEnds;
    NotSpace(key, more);
    assert b[0..] == b;
    SpaceRun(b, 0, lead, key + more);
    KeyRun(b, |lead|, key, more);
  }

  lemma NoKeyPiece(b: Bytes, p: Piece, rest: Bytes)
    requires p.NoKey? && Stands(p, rest) && b == p.lead + (p.key + (p.tail + rest))
    ensures Leaves(b, ParseRound(b, 0), [], rest)
  {
    hide SkipSpace, SkipKey, SkipToSpace, WellFormed, AllSpace, NoSpace, ParseAfterKey, ParseRound, Starts, KeyBytes,
      KeyEnds, TokenEnds;
    NotTail(p.tail, rest);
    LeadThenKey(b, p.lead, p.key, p.tail + rest);
    TokenRun(b, |p.lead| + |p.key|, p.tail, rest);
    RoundBy(b, 0, |p.lead|, |p.lead| + |p.key|);
  }

  lemma NotSpace(key: Bytes, more: Bytes)
    requires KeyBytes(key) && (key == [] ==> more != [] && more[0] == EQUALS)
    ensures SpaceEnds(key + more)
  {
  }

  lemma NotTail(tail: Bytes, rest: Bytes)
    requires TokenEnds(rest) && (tail != [] ==> tail[0] == EQUALS)
    ensures KeyEnds(tail + rest)
  {
  }

  // A key that is one, and what comes after it.
  lemma AfterLead(b: Bytes, lead: Bytes, key: Bytes, more: Bytes)
    requires AllSpace(lead) && PlainKey(key) && WellFormed(key) && KeyEnds(more)
    requires b == lead + (key + more)
    ensures |lead| + |key| <= |b| && b[|lead| + |key|..] == more && b[|lead|..|lead| + |key|] == key
    ensures ParseRound(b, 0) == ParseAfterKey(b, |lead|, |lead| + |key|)
  {
    hide SkipSpace, SkipKey, SkipToSpace, WellFormed, AllSpace, ParseAfterKey, PlainKey, KeyBytes, ParseRound,
      Starts, KeyEnds;
    PlainIsKeyBytes(key);
    LeadThenKey(b, lead, key, more);
    RoundBy(b, 0, |lead|, |lead| + |key|);
  }

  lemma PlainIsKeyBytes(key: Bytes)
    requires PlainKey(key)
    ensures KeyBytes(key) && key != []
  {
  }

  // A gap and whatever is there instead of an equals sign.
  lemma NoEquals(b: Bytes, keyStart: nat, keyEnd: nat, gap: Bytes, token: Bytes, rest: Bytes)
    requires keyEnd <= |b| && b[keyEnd..] == gap + (token + rest)
    requires AllSpace(gap) && NoSpace(token) && TokenEnds(rest)
    requires if token == [] then rest == [] else token[0] != EQUALS
    ensures Leaves(b, ParseAfterKey(b, keyStart, keyEnd), [], rest)
  {
    hide SkipSpace, SkipToSpace, AllSpace, ParseValue;
    assert SpaceEnds(token + rest);
    SpaceRun(b, keyEnd, gap, token + rest);
    TokenRun(b, keyEnd + |gap|, token, rest);
  }

  // A gap, an equals sign and what comes after it.
  lemma AfterEquals(b: Bytes, keyStart: nat, keyEnd: nat, gap: Bytes, more: Bytes)
    requires keyEnd <= |b| && b[keyEnd..] == gap + ([EQUALS] + more) && AllSpace(gap)
    ensures var at := keyEnd + |gap| + 1;
            && at + |more| == |b| && b[at..] == more
            && ParseAfterKey(b, keyStart, keyEnd)
               == if more == [] then Round(None, at) else ParseValue(b, keyStart, keyEnd, at)
  {
    hide SkipSpace, SkipToSpace, AllSpace, ParseValue;
    SpaceRun(b, keyEnd, gap, [EQUALS] + more);
    Peel(b, keyEnd + |gap|, [EQUALS], more);
  }

  lemma GivesPair(b: Bytes, key: Bytes, r: Round, value: Bytes)
    requires r.found.Some? && InLine(b, r.found.value)
    requires KeyOf(b, r.found.value) == key && ValueOf(b, r.found.value) == value
    ensures Handed(b, r) == [Pair(key, value)]
  {
  }

  lemma UnquotedValue(b: Bytes, keyStart: nat, keyEnd: nat, at: nat, value: Bytes, rest: Bytes)
    requires keyStart < keyEnd < at < |b| && b[at..] == value + rest && NoSpace(value) && TokenEnds(rest)
    requires value != [] ==> value[0] != QUOTE
    ensures Leaves(b, ParseValue(b, keyStart, keyEnd, at), [Pair(b[keyStart..keyEnd], value)], rest)
  {
    hide SkipToSpace;
    TokenRun(b, at, value, rest);
    assert b[at] == b[at..][0];
    GivesPair(b, b[keyStart..keyEnd], ParseValue(b, keyStart, keyEnd, at), value);
  }

  // The round of a quoted value whose closing quote is at `close`.
  lemma QuotedRound(b: Bytes, keyStart: nat, keyEnd: nat, i: nat, close: nat)
    requires i < close < |b| && b[i] == QUOTE
    requires ScanQuoted(b, i + 1) == Quoted(Some(close), close + 1)
    ensures ParseValue(b, keyStart, keyEnd, i)
            == Round(Some(Span(keyStart, keyEnd, i + 1, if close == i + 1 then close + 1 else close)), close + 1)
  {
    hide ScanQuoted;
  }

  lemma EnclosedBytes(b: Bytes, at: nat, inner: Bytes, rest: Bytes)
    requires at <= |b| && b[at..] == [QUOTE] + (inner + ([QUOTE] + rest))
    ensures var close := at + 1 + |inner|;
            && close < |b| && b[at] == b[close] == QUOTE
            && b[at + 1..] == inner + ([QUOTE] + rest)
            && b[at + 1..close] == inner && b[close..close + 1] == [QUOTE] && b[close + 1..] == rest
  {
    var close := at + 1 + |inner|;
    Peel(b, at, [QUOTE], inner + ([QUOTE] + rest));
    Peel(b, at + 1, inner, [QUOTE] + rest);
    Peel(b, close, [QUOTE], rest);
  }

  lemma QuotedValue(b: Bytes, keyStart: nat, keyEnd: nat, at: nat, inner: Bytes, rest: Bytes)
    requires keyStart < keyEnd < at < |b| && b[at..] == [QUOTE] + (inner + ([QUOTE] + rest)) && Enclosed(inner)
    ensures Leaves(b, ParseValue(b, keyStart, keyEnd, at),
                   [Pair(b[keyStart..keyEnd], if inner == [] then [QUOTE] else inner)], rest)
  {
    hide ScanQuoted, QuotesEscaped, ParseValue;
    var close := at + 1 + |inner|;
    EnclosedBytes(b, at, inner, rest);
    ScanFinds(b, at + 1, 0, inner, [QUOTE] + rest);
    QuotedRound(b, keyStart, keyEnd, at, close);
    GivesPair(b, b[keyStart..keyEnd], ParseValue(b, keyStart, keyEnd, at), if inner == [] then [QUOTE] else inner);
  }

  lemma UnclosedValue(b: Bytes, keyStart: nat, keyEnd: nat, at: nat, inner: Bytes)
    requires keyStart < keyEnd < at < |b| && b[at..] == [QUOTE] + inner && QuotesEscaped(inner, |inner|)
    ensures Leaves(b, ParseValue(b, keyStart, keyEnd, at), [Pair(b[keyStart..keyEnd], inner)], [])
  {
    hide ScanQuoted, QuotesEscaped;
    Peel(b, at, [QUOTE], inner);
    assert b[at] == QUOTE && b[at + 1..] == inner + [];
    ScanFinds(b, at + 1, 0, inner, []);
    assert b[at + 1..|b|] == inner;
    GivesPair(b, b[keyStart..keyEnd], ParseValue(b, keyStart, keyEnd, at), inner);
  }

  lemma WordPiece(b: Bytes, p: Piece, rest: Bytes)
    requires p.Word? && Stands(p, rest) && b == p.lead + (p.key + (p.gap + (p.token + rest)))
    ensures Leaves(b, ParseRound(b, 0), [], rest)
  {
    hide ParseRound, ParseAfterKey, WellFormed, AllSpace, NoSpace, PlainKey, Leaves, KeyEnds;
    WordEnds(p.gap, p.token, rest);
    AfterLead(b, p.lead, p.key, p.gap + (p.token + rest));
    NoEquals(b, |p.lead|, |p.lead| + |p.key|, p.gap, p.token, rest);
  }

  lemma EqualsPiece(b: Bytes, p: Piece, rest: Bytes)
    requires HasEquals(p) && Stands(p, rest) && b == p.lead + (p.key + (p.gap + ([EQUALS] + PastEquals(p, rest))))
    ensures Leaves(b, ParseRound(b, 0), Meaning(p), rest)
  {
    hide ParseRound, ParseAfterKey, ParseValue, Leaves, KeyEnds, Stands, PastEquals, Meaning;
    var keyStart, keyEnd := |p.lead|, |p.lead| + |p.key|;
    KeyOfPiece(p, rest);
    GapThenEquals(p.gap, PastEquals(p, rest));
    AfterLead(b, p.lead, p.key, p.gap + ([EQUALS] + PastEquals(p, rest)));
    AfterEquals(b, keyStart, keyEnd, p.gap, PastEquals(p, rest));
    ValuePiece(b, p, rest, keyStart, keyEnd, keyEnd + |p.gap| + 1);
  }

  lemma KeyOfPiece(p: Piece, rest: Bytes)
    requires HasEquals(p) && Stands(p, rest)
    ensures AllSpace(p.lead) && PlainKey(p.key) && WellFormed(p.key) && AllSpace(p.gap) && p.key != []
  {
    hide WellFormed, AllSpace, NoSpace, QuotesEscaped;
  }

  lemma PieceRound(b: Bytes, p: Piece, rest: Bytes)
    requires Stands(p, rest) && b == Written(p) + rest
    ensures b != [] && Leaves(b, ParseRound(b, 0), Meaning(p), rest)
  {
    hide ParseRound, WellFormed, AllSpace, NoSpace, PlainKey, QuotesEscaped, Leaves, KeyEnds, Enclosed, TokenEnds;
    WrittenParts(p, rest);
    PieceHasBytes(p, rest);
    if p.Space? {
      assert b == p.lead;
      SpacePiece(b, p.lead);
    } else if p.NoKey? {
      NoKeyPiece(b, p, rest);
    } else if p.Word? {
      MoreAfterKey(p, rest);
      WordPiece(b, p, rest);
    } else {
      MoreAfterKey(p, rest);
      EqualsPiece(b, p, rest);
    }
  }

  lemma PieceHasBytes(p: Piece, rest: Bytes)
    requires Stands(p, rest)
    ensures Written(p) != []
  {
    hide WellFormed, AllSpace, NoSpace, QuotesEscaped, AfterKey;
    if p.NoKey? && p.key == [] {
      assert AfterKey(p) == p.tail by { TailAfterKey(p); }
    }
  }

  lemma TailAfterKey(p: Piece)
    requires p.NoKey?
    ensures AfterKey(p) == p.tail
  {
  }

  function PastEquals(p: Piece, rest: Bytes): (text: Bytes) {
    match p
    case Unquoted(_, _, _, value) => value + rest
    case InQuotes(_, _, _, inner) => [QUOTE] + (inner + ([QUOTE] + rest))
    case Unclosed(_, _, _, inner) => [QUOTE] + inner
    case _ => []
  }

  predicate HasEquals(p: Piece) {
    p.NoValue? || p.Unquoted? || p.InQuotes? || p.Unclosed?
  }

  // What is between the equals sign and the rest.
  function Valued(p: Piece): (text: Bytes) {
    match p
    case Unquoted(_, _, _, value) => value
    case InQuotes(_, _, _, inner) => [QUOTE] + (inner + [QUOTE])
    case Unclosed(_, _, _, inner) => [QUOTE] + inner
    case _ => []
  }

  lemma ValuedThenRest(p: Piece, rest: Bytes)
    requires HasEquals(p) && (p.NoValue? || p.Unclosed? ==> rest == [])
    ensures AfterKey(p) == p.gap + ([EQUALS] + Valued(p)) && Valued(p) + rest == PastEquals(p, rest)
  {
    match p {
      case InQuotes(_, _, _, inner) =>
        Associative([QUOTE], inner + [QUOTE], rest);
        Associative(inner, [QUOTE], rest);
      case _ =>
    }
  }

  lemma MoreAfterKey(p: Piece, rest: Bytes)
    requires Stands(p, rest) && !p.Space? && !p.NoKey?
    ensures KeyEnds(AfterKey(p) + rest)
    ensures HasEquals(p) ==> AfterKey(p) + rest == p.gap + ([EQUALS] + PastEquals(p, rest))
    ensures p.Word? ==> AfterKey(p) + rest == p.gap + (p.token + rest)
  {
    hide WellFormed, NoSpace, PlainKey, QuotesEscaped, BackslashesBefore, AfterKey, PastEquals, Valued, KeyEnds;
    if p.Word? {
      WordEnds(p.gap, p.token, rest);
      WordAfterKey(p);
    } else {
      ValuedThenRest(p, rest);
      Associative(p.gap, [EQUALS] + Valued(p), rest);
      Associative([EQUALS], Valued(p), rest);
      GapThenEquals(p.gap, PastEquals(p, rest));
    }
  }

  lemma WordAfterKey(p: Piece)
    requires p.Word?
    ensures AfterKey(p) == p.gap + p.token
  {
  }

  lemma GapThenEquals(gap: Bytes, more: Bytes)
    requires AllSpace(gap)
    ensures KeyEnds(gap + ([EQUALS] + more))
  {
  }

  lemma WordEnds(gap: Bytes, token: Bytes, rest: Bytes)
    requires AllSpace(gap) && (token == [] ==> rest == []) && (token != [] ==> gap != [])
    ensures (gap + token) + rest == gap + (token + rest) && KeyEnds(gap + (token + rest))
  {
    Associative(gap, token, rest);
  }

  lemma ValuePiece(b: Bytes, p: Piece, rest: Bytes, keyStart: nat, keyEnd: nat, at: nat)
    requires HasEquals(p) && Stands(p, rest) && keyStart < keyEnd < at <= |b|
    requires b[keyStart..keyEnd] == p.key && b[at..] == PastEquals(p, rest)
    ensures Leaves(b, if at == |b| then Round(None, at) else ParseValue(b, keyStart, keyEnd, at), Meaning(p), rest)
  {
    hide ParseValue, WellFormed, AllSpace, NoSpace, PlainKey, QuotesEscaped;
    match p {
      case NoValue(_, _, _) =>
      case Unquoted(_, _, _, value) =>
        UnquotedValue(b, keyStart, keyEnd, at, value, rest);
      case InQuotes(_, _, _, inner) =>
        QuotedValue(b, keyStart, keyEnd, at, inner, rest);
      case Unclosed(_, _, _, inner) =>
        UnclosedValue(b, keyStart, keyEnd, at, inner);
    }
  }

  // A line that starts with a piece gives what the piece means, and then what
  // the rest of the line gives on its own.
  lemma PieceThenRest(p: Piece, rest: Bytes)
    requires Stands(p, rest)
    ensures ParsePairs(Written(p) + rest) == Meaning(p) + ParsePairs(rest)
  {
    hide ParseRound, Spans, Stands, Handed, Meaning;
    var b := Written(p) + rest;
    PieceRound(b, p, rest);
    var r := ParseRound(b, 0);
    PairsStep(b, 0);
    PairsOfRest(b, r.next);
    NoPairs();
  }

  lemma NoPairs()
    ensures ParsePairs([]) == []
  {
  }

  // ---- every line is made of pieces

  lemma Glue(b: Bytes, from: nat, to: nat)
    requires from <= to <= |b|
    ensures b[from..] == b[from..to] + b[to..]
  {
  }

  lemma SpaceSlice(b: Bytes, from: nat, to: nat)
    requires from <= |b| && to == SkipSpace(b, from)
    ensures AllSpace(b[from..to])
  {
    hide SkipSpace;
  }

  lemma TokenSlice(b: Bytes, from: nat, to: nat)
    requires from <= |b| && to == SkipToSpace(b, from)
    ensures NoSpace(b[from..to]) && TokenEnds(b[to..])
    ensures b[from..to] == [] <==> from == |b| || IsAsciiWhitespace(b[from])
    ensures b[from..to] != [] ==> b[from..to][0] == b[from]
  {
    hide SkipToSpace;
  }

  lemma KeySlice(b: Bytes, from: nat, to: nat)
    requires from <= |b| && to == SkipKey(b, from)
    ensures KeyBytes(b[from..to]) && (b[from..to] != [] ==> PlainKey(b[from..to]))
  {
    hide SkipKey;
  }

  lemma Fits(b: Bytes, p: Piece, s: nat, e: nat, at: nat)
    requires s <= e <= |b| && at <= |b| && !p.Space? && p.lead == b[..s] && p.key == b[s..e]
    requires AfterKey(p) + b[at..] == b[e..]
    ensures Written(p) + b[at..] == b
  {
    hide AfterKey;
    WrittenParts(p, b[at..]);
    Glue(b, 0, s);
    Glue(b, s, e);
    assert b[0..] == b;
  }

  // What follows the equals sign at `g`.
  lemma PieceAfterEquals(b: Bytes, lead: Bytes, key: Bytes, gap: Bytes, g: nat) returns (p: Piece, at: nat)
    requires g < |b| && b[g] == EQUALS && AllSpace(lead) && PlainKey(key) && WellFormed(key) && AllSpace(gap)
    ensures g < at <= |b| && Stands(p, b[at..]) && HasEquals(p)
    ensures p.lead == lead && p.key == key && p.gap == gap
    ensures Valued(p) + b[at..] == b[g + 1..]
  {
    hide SkipToSpace, ScanQuoted, WellFormed, AllSpace, PlainKey, QuotesEscaped, BackslashesBefore;
    var v := g + 1;
    if v == |b| {
      p, at := NoValue(lead, key, gap), v;
    } else if b[v] != QUOTE {
      at := SkipToSpace(b, v);
      TokenSlice(b, v, at);
      Glue(b, v, at);
      p := Unquoted(lead, key, gap, b[v..at]);
    } else {
      p, at := PieceInQuotes(b, lead, key, gap, v);
    }
  }

  lemma PieceInQuotes(b: Bytes, lead: Bytes, key: Bytes, gap: Bytes, v: nat) returns (p: Piece, at: nat)
    requires v < |b| && b[v] == QUOTE && AllSpace(lead) && PlainKey(key) && WellFormed(key) && AllSpace(gap)
    ensures v < at <= |b| && Stands(p, b[at..]) && HasEquals(p)
    ensures p.lead == lead && p.key == key && p.gap == gap
    ensures Valued(p) + b[at..] == b[v..]
  {
    hide ScanQuoted, WellFormed, AllSpace, PlainKey, QuotesEscaped, NoSpace, TokenEnds;
    FoundAtStart(b, v + 1);
    var close := ScanQuoted(b, v + 1).close;
    assert b[v..] == [QUOTE] + b[v + 1..];
    if close.Some? {
      var inner := b[v + 1..close.value];
      p, at := InQuotes(lead, key, gap, inner), close.value + 1;
      Glue(b, v + 1, close.value);
      assert b[close.value..] == [QUOTE] + b[at..];
      Associative([QUOTE], inner + [QUOTE], b[at..]);
      Associative(inner, [QUOTE], b[at..]);
    } else {
      p, at := Unclosed(lead, key, gap, b[v + 1..]), |b|;
    }
  }

  lemma FoundAtStart(b: Bytes, start: nat)
    requires start <= |b|
    ensures var close := ScanQuoted(b, start).close;
            if close.Some? then Enclosed(b[start..close.value]) else QuotesEscaped(b[start..], |b[start..]|)
  {
    hide ScanQuoted;
    FoundIsEnclosed(b, start, start);
  }

  // No equals sign after the gap.
  lemma WordAfterGap(b: Bytes, s: nat, e: nat, g: nat) returns (p: Piece, at: nat)
    requires s < e <= g <= |b| && AllSpace(b[..s]) && PlainKey(b[s..e]) && WellFormed(b[s..e]) && AllSpace(b[e..g])
    requires g < |b| ==> g > e && b[g] != EQUALS && !IsAsciiWhitespace(b[g])
    ensures e <= at <= |b| && Stands(p, b[at..]) && Written(p) + b[at..] == b
  {
    hide SkipToSpace, WellFormed, AllSpace, PlainKey, Written;
    at := SkipToSpace(b, g);
    TokenSlice(b, g, at);
    Glue(b, e, g);
    Glue(b, g, at);
    Associative(b[e..g], b[g..at], b[at..]);
    p := Word(b[..s], b[s..e], b[e..g], b[g..at]);
    Fits(b, p, s, e, at);
  }

  lemma EqualsAfterGap(b: Bytes, s: nat, e: nat, g: nat) returns (p: Piece, at: nat)
    requires s < e <= g < |b| && AllSpace(b[..s]) && PlainKey(b[s..e]) && WellFormed(b[s..e]) && AllSpace(b[e..g])
    requires b[g] == EQUALS
    ensures e <= at <= |b| && Stands(p, b[at..]) && Written(p) + b[at..] == b
  {
    hide WellFormed, AllSpace, PlainKey, Written, Valued, AfterKey, PastEquals, Stands;
    Glue(b, e, g);
    p, at := PieceAfterEquals(b, b[..s], b[s..e], b[e..g], g);
    if p.NoValue? || p.Unclosed? {
      EndsTheLine(p, b[at..]);
    }
    ValuedThenRest(p, b[at..]);
    assert b[g..] == [EQUALS] + b[g + 1..];
    Associative(p.gap, [EQUALS] + Valued(p), b[at..]);
    Associative([EQUALS], Valued(p), b[at..]);
    Fits(b, p, s, e, at);
  }

  lemma EndsTheLine(p: Piece, rest: Bytes)
    requires Stands(p, rest) && (p.NoValue? || p.Unclosed?)
    ensures rest == []
  {
  }

  // The piece a line starts with, once lead and key are known.
  lemma PieceAfterKey(b: Bytes, s: nat, e: nat) returns (p: Piece, at: nat)
    requires s < e <= |b| && AllSpace(b[..s]) && PlainKey(b[s..e]) && WellFormed(b[s..e])
    requires e < |b| ==> b[e] == EQUALS || IsAsciiWhitespace(b[e])
    ensures e <= at <= |b| && Stands(p, b[at..]) && Written(p) + b[at..] == b
  {
    hide SkipSpace, WellFormed, AllSpace, PlainKey, Written, Stands;
    var g := SkipSpace(b, e);
    SpaceSlice(b, e, g);
    if g < |b| && b[g] == EQUALS {
      p, at := EqualsAfterGap(b, s, e, g);
    } else {
      p, at := WordAfterGap(b, s, e, g);
    }
  }

  // Every line starts with a piece.
  lemma FirstPiece(b: Bytes) returns (p: Piece, at: nat)
    requires b != []
    ensures 0 < at <= |b| && Stands(p, b[at..]) && Written(p) + b[at..] == b
  {
    hide SkipSpace, SkipToSpace, SkipKey, WellFormed, NoSpace, AllSpace, PlainKey, Written;
    var s := SkipSpace(b, 0);
    SpaceSlice(b, 0, s);
    if s == |b| {
      p, at := Space(b), |b|;
      assert b[0..|b|] == b;
      OnlySpace(b);
    } else {
      var e := SkipKey(b, s);
      KeySlice(b, s, e);
      if e > s && WellFormed(b[s..e]) {
        p, at := PieceAfterKey(b, s, e);
      } else {
        at := SkipToSpace(b, e);
        TokenSlice(b, e, at);
        Glue(b, e, at);
        p := NoKey(b[..s], b[s..e], b[e..at]);
        Fits(b, p, s, e, at);
      }
    }
  }

  lemma OnlySpace(b: Bytes)
    ensures Written(Space(b)) + b[|b|..] == b
  {
  }

  function WrittenAll(pieces: seq<Piece>): (text: Bytes) {
    if pieces == [] then [] else Written(pieces[0]) + WrittenAll(pieces[1..])
  }

  predicate StandAll(pieces: seq<Piece>) {
    pieces == [] || (Stands(pieces[0], WrittenAll(pieces[1..])) && StandAll(pieces[1..]))
  }

  function MeaningAll(pieces: seq<Piece>): (pairs: seq<Pair>) {
    if pieces == [] then [] else Meaning(pieces[0]) + MeaningAll(pieces[1..])
  }

  // However a line is made of pieces, it gives what they mean, in order.
  lemma {:induction false} PiecesMean(pieces: seq<Piece>)
    requires StandAll(pieces)
    ensures ParsePairs(WrittenAll(pieces)) == MeaningAll(pieces)
  {
    hide Stands, Written, Meaning, ParsePairs;
    if pieces == [] {
      NoPairs();
    } else {
      PiecesMean(pieces[1..]);
      PieceThenRest(pieces[0], WrittenAll(pieces[1..]));
    }
  }

  // And every line, whatever its bytes, is made of pieces.
  lemma {:induction false} LineIsPieces(line: Bytes) returns (pieces: seq<Piece>)
    ensures StandAll(pieces) && WrittenAll(pieces) == line
    ensures ParsePairs(line) == MeaningAll(pieces)
    decreases |line|
  {
    hide Stands, Written, Meaning, ParsePairs;
    if line == [] {
      pieces := [];
    } else {
      var p, at := FirstPiece(line);
      var more := LineIsPieces(line[at..]);
      pieces := [p] + more;
      assert pieces[0] == p && pieces[1..] == more;
      assert WrittenAll(pieces) == Written(p) + line[at..];
    }
    PiecesMean(pieces);
  }
}
