// Printing pairs as one logfmt line and parsing the line again.
module RoundTrip {
  import opened Text
  import opened Utf8
  import opened LogfmtParser
  import opened Grammar

  datatype Value = Bare(text: Bytes) | Quote(text: Bytes)

  // One pair with the whitespace printed around it: `lead` in front of the
  // key, `gap` between the key and its equals sign.
  datatype Item = Item(lead: Bytes, key: Key, gap: Bytes, value: Value)

  // A bare value has to be told from a quoted one and from no value at all.
  predicate Printable(item: Item) {
    && AllSpace(item.lead) && AllSpace(item.gap)
    && PlainKey(item.key) && WellFormed(item.key)
    && (item.value.Bare? ==> item.value.text != [] && NoSpace(item.value.text) && item.value.text[0] != QUOTE)
  }

  // Whitespace is needed between two pairs only after a bare value.
  predicate PrintableAll(items: seq<Item>, afterBare: bool) {
    items == []
    || (&& Printable(items[0])
        && (afterBare ==> items[0].lead != [])
        && PrintableAll(items[1..], items[0].value.Bare?))
  }

  function Escape(s: Bytes): (t: Bytes)
    ensures s == [] <==> t == []
  {
    if s == [] then []
    else if s[0] == QUOTE || s[0] == BACKSLASH then [BACKSLASH, s[0]] + Escape(s[1..])
    else [s[0]] + Escape(s[1..])
  }

  function Unescape(t: Bytes): (s: Bytes) {
    if t == [] then []
    else if |t| >= 2 && t[0] == BACKSLASH then [t[1]] + Unescape(t[2..])
    else [t[0]] + Unescape(t[1..])
  }

  lemma {:induction false} UnescapeEscape(s: Bytes)
    ensures Unescape(Escape(s)) == s
  {
    if s != [] {
      UnescapeEscape(s[1..]);
      var t := Escape(s);
      if s[0] == QUOTE || s[0] == BACKSLASH {
        assert t[2..] == Escape(s[1..]);
      } else {
        assert t[1..] == Escape(s[1..]);
      }
    }
  }

  function PrintValue(value: Value): Bytes {
    match value
    case Bare(text) => text
    case Quote(text) => [QUOTE] + (Escape(text) + [QUOTE])
  }

  function Print(items: seq<Item>, trail: Bytes): Bytes {
    if items == [] then trail
    else
      var item := items[0];
      item.lead + (item.key + (item.gap + ([EQUALS] + (PrintValue(item.value) + Print(items[1..], trail)))))
  }

  // The value the parser hands over. Quoted values keep their escapes, and an
  // empty one comes out as its closing quote.
  function ParsedText(value: Value): Bytes {
    match value
    case Bare(text) => text
    case Quote(text) => if text == [] then [QUOTE] else Escape(text)
  }

  function Parsed(items: seq<Item>): (pairs: seq<Pair>)
    ensures |pairs| == |items|
    ensures forall j :: 0 <= j < |items| ==> pairs[j] == Pair(items[j].key, ParsedText(items[j].value))
  {
    if items == [] then []
    else [Pair(items[0].key, ParsedText(items[0].value))] + Parsed(items[1..])
  }

  lemma {:induction false} SameParity(a: Bytes, t: Bytes, k: nat)
    requires BackslashesBefore(a, |a|) % 2 == 0 && k <= |t|
    ensures BackslashesBefore(a + t, |a| + k) % 2 == BackslashesBefore(t, k) % 2
  {
    var s := a + t;
    if k > 0 {
      assert s[|a| + k - 1] == t[k - 1];
      SameParity(a, t, k - 1);
    } else {
      BackslashesOfFront(s, |a|, |a|);
      assert s[..|a|] == a;
    }
  }

  lemma EnclosedConcat(a: Bytes, t: Bytes)
    requires Enclosed(a) && Enclosed(t)
    ensures Enclosed(a + t)
  {
    var s := a + t;
    forall j | 0 <= j < |s| && s[j] == QUOTE
      ensures BackslashesBefore(s, j) % 2 == 1
    {
      if j < |a| {
        BackslashesOfFront(s, |a|, j);
        assert s[..|a|] == a && a[j] == QUOTE;
      } else {
        SameParity(a, t, j - |a|);
        assert t[j - |a|] == QUOTE;
      }
    }
    SameParity(a, t, |t|);
  }

  // Escaped text may stand between quotes.
  lemma {:induction false} EscapedIsEnclosed(s: Bytes)
    ensures Enclosed(Escape(s))
  {
    if s != [] {
      EscapedIsEnclosed(s[1..]);
      OneEscaped(s[0]);
      EnclosedConcat(if s[0] == QUOTE || s[0] == BACKSLASH then [BACKSLASH, s[0]] else [s[0]], Escape(s[1..]));
    }
  }

  lemma OneEscaped(c: Byte)
    ensures Enclosed(if c == QUOTE || c == BACKSLASH then [BACKSLASH, c] else [c])
  {
    var head := if c == QUOTE || c == BACKSLASH then [BACKSLASH, c] else [c];
    assert BackslashesBefore(head, 0) == 0;
    assert BackslashesBefore(head, 1) == if head[0] == BACKSLASH then 1 else 0;
  }

  // The scan for the closing quote stops right after any escaped text.
  lemma ScanEscaped(b: Bytes, i: nat, s: Bytes, rest: Bytes)
    requires i <= |b| && b[i..] == Escape(s) + ([QUOTE] + rest)
    ensures ScanQuoted(b, i) == Quoted(Some(i + |Escape(s)|), i + |Escape(s)| + 1)
  {
    hide ScanQuoted, Escape;
    EscapedIsEnclosed(s);
    ScanFinds(b, i, 0, Escape(s), [QUOTE] + rest);
  }

  // ---- printed pairs are pieces

  function PieceOf(item: Item): (p: Piece) {
    match item.value
    case Bare(text) => Unquoted(item.lead, item.key, item.gap, text)
    case Quote(text) => InQuotes(item.lead, item.key, item.gap, Escape(text))
  }

  function PiecesOf(items: seq<Item>, trail: Bytes): (pieces: seq<Piece>) {
    if items != [] then [PieceOf(items[0])] + PiecesOf(items[1..], trail)
    else if trail == [] then []
    else [Space(trail)]
  }

  lemma PrintedPiece(item: Item, rest: Bytes)
    requires Printable(item) && (item.value.Bare? ==> TokenEnds(rest))
    ensures Stands(PieceOf(item), rest)
    ensures Meaning(PieceOf(item)) == [Pair(item.key, ParsedText(item.value))]
    ensures Written(PieceOf(item)) + rest
            == item.lead + (item.key + (item.gap + ([EQUALS] + (PrintValue(item.value) + rest))))
  {
    hide WellFormed, Escape, Enclosed;
    if item.value.Quote? {
      EscapedIsEnclosed(item.value.text);
      EscapeIsEmpty(item.value.text);
    }
    var p := PieceOf(item);
    WrittenParts(p, rest);
    ValuedThenRest(p, rest);
    assert Valued(p) == PrintValue(item.value);
    Associative(item.gap, [EQUALS] + Valued(p), rest);
    Associative([EQUALS], Valued(p), rest);
  }

  lemma EscapeIsEmpty(text: Bytes)
    ensures text == [] <==> |Escape(text)| == 0
  {
  }

  lemma TrailIsPieces(trail: Bytes)
    requires AllSpace(trail)
    ensures var pieces := PiecesOf([], trail);
            StandAll(pieces) && WrittenAll(pieces) == trail && MeaningAll(pieces) == []
  {
    if trail != [] {
      assert [Space(trail)][1..] == [];
    }
  }

  lemma {:induction false} PrintedIsPieces(items: seq<Item>, afterBare: bool, trail: Bytes)
    requires PrintableAll(items, afterBare) && AllSpace(trail)
    ensures var pieces := PiecesOf(items, trail);
            StandAll(pieces) && WrittenAll(pieces) == Print(items, trail) && MeaningAll(pieces) == Parsed(items)
    decreases |items|
  {
    hide Stands, Meaning, Written, PrintValue;
    if items == [] {
      TrailIsPieces(trail);
    } else {
      var rest := Print(items[1..], trail);
      PrintedIsPieces(items[1..], items[0].value.Bare?, trail);
      assert items[0].value.Bare? ==> TokenEnds(rest);
      PrintedPiece(items[0], rest);
      var pieces := PiecesOf(items, trail);
      assert pieces[0] == PieceOf(items[0]) && pieces[1..] == PiecesOf(items[1..], trail);
    }
  }

  // What a printed pair should come back as: bare values as they are, quoted
  // ones still escaped.
  function Intended(value: Value): Bytes {
    match value
    case Bare(text) => text
    case Quote(text) => Escape(text)
  }

  // The round trip, for every printable line: the keys come back in order, the
  // values come back still escaped and unescape to the originals, and the one
  // exception is the empty quoted value.
  lemma PrintThenParse(items: seq<Item>, trail: Bytes)
    requires PrintableAll(items, false) && AllSpace(trail)
    ensures
      var pairs := ParsePairs(Print(items, trail));
      && |pairs| == |items|
      && (forall j :: 0 <= j < |items| ==> pairs[j].key == items[j].key)
      && (forall j :: 0 <= j < |items| ==>
            (pairs[j].value == Intended(items[j].value) <==> items[j].value != Quote([])))
      && (forall j :: 0 <= j < |items| && items[j].value.Quote? && items[j].value.text != [] ==>
            Unescape(pairs[j].value) == items[j].value.text)
  {
    PrintedIsPieces(items, false, trail);
    PiecesMean(PiecesOf(items, trail));
    forall j | 0 <= j < |items| && items[j].value.Quote?
      ensures Unescape(Escape(items[j].value.text)) == items[j].value.text
    {
      UnescapeEscape(items[j].value.text);
    }
  }

  // `k=""` hands over the closing quote as the value.
  lemma EmptyQuotedComesBackAsQuote()
    ensures ParsePairs([107, EQUALS, QUOTE, QUOTE]) == [Pair([107], [QUOTE])]
  {
    var items := [Item([], [107], [], Quote([]))];
    assert CharLength([107]) == 1;
    assert WellFormed([107]);
    assert items[1..] == [];
    calc {
      Print(items, []);
      [107] + ([EQUALS] + ([QUOTE] + ([] + [QUOTE]) + []));
      [107, EQUALS, QUOTE, QUOTE];
    }
    PrintedIsPieces(items, false, []);
    PiecesMean(PiecesOf(items, []));
  }

  lemma LetterIsKey(c: Byte)
    requires 97 <= c <= 122
    ensures PlainKey([c]) && WellFormed([c])
  {
    assert CharLength([c]) == 1;
  }

  lemma OneSpace()
    ensures AllSpace([SPACE]) && AllSpace([])
  {
  }

  // A word without an equals sign takes the token after it along: `e u=5 i=7`
  // gives the pair of `i` only.
  lemma WordTakesToken()
    ensures ParsePairs([101, SPACE, 117, EQUALS, 53, SPACE, 105, EQUALS, 55]) == [Pair([105], [55])]
  {
    hide ParsePairs, PlainKey, WellFormed, AllSpace;
    var word, value := Word([], [101], [SPACE], [117, EQUALS, 53]), Unquoted([SPACE], [105], [], [55]);
    var rest := [SPACE, 105, EQUALS, 55];
    LetterIsKey(101);
    LetterIsKey(105);
    OneSpace();
    assert Written(value) + [] == rest;
    PieceThenRest(value, []);
    NoPairs();
    assert Written(word) + rest == [101, SPACE, 117, EQUALS, 53, SPACE, 105, EQUALS, 55];
    PieceThenRest(word, rest);
  }
}
