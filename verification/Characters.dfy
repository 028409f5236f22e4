// Characters by their numbers: what the checks on the bytes of a line decide.
module Characters {
  import opened Text
  import opened Utf8
  import opened SchemaProbe

  // The numbers that stand for a character: no surrogates.
  predicate IsScalar(c: nat) {
    c < 0xD800 || 0xE000 <= c < 0x110000
  }

  // Section 3 of RFC 3629.
  function Encode(c: nat): (s: Bytes)
    requires IsScalar(c)
    ensures s != []
  {
    if c < 0x80 then [c as Byte]
    else if c < 0x800 then [(0xC0 + c / 64) as Byte, Tail(c)]
    else if c < 0x10000 then [(0xE0 + c / 64 / 64) as Byte, Tail(c / 64), Tail(c)]
    else [(0xF0 + c / 64 / 64 / 64) as Byte, Tail(c / 64 / 64), Tail(c / 64), Tail(c)]
  }

  function Tail(c: nat): (b: Byte)
    ensures IsTail(b)
  {
    (0x80 + c % 64) as Byte
  }

  // What a tail byte adds to the bits in front of it.
  function Append(c: nat, b: Byte): (more: nat)
    requires IsTail(b)
    ensures more / 64 == c && Tail(more) == b
  {
    c * 64 + (b as int - 0x80)
  }

  // The character that well-formed text begins with.
  function First(s: Bytes): (c: nat)
    requires s != [] && CharLength(s) > 0
  {
    match CharLength(s)
    case 1 => s[0] as int
    case 2 => Append(s[0] as int - 0xC0, s[1])
    case 3 => Append(Append(s[0] as int - 0xE0, s[1]), s[2])
    case _ => Append(Append(Append(s[0] as int - 0xF0, s[1]), s[2]), s[3])
  }

  lemma AppendIs(c: nat, b: Byte)
    requires IsTail(b)
    ensures Append(c, b) == c * 64 + (b as int - 0x80)
  {
  }

  lemma FirstIsEncoded(s: Bytes)
    requires s != [] && CharLength(s) > 0
    ensures IsScalar(First(s)) && Encode(First(s)) == s[..CharLength(s)]
  {
    hide Append, Tail;
    var n := CharLength(s);
    if n == 2 {
      AppendIs(s[0] as int - 0xC0, s[1]);
    } else if n == 3 {
      AppendIs(s[0] as int - 0xE0, s[1]);
      AppendIs(Append(s[0] as int - 0xE0, s[1]), s[2]);
    } else if n == 4 {
      AppendIs(s[0] as int - 0xF0, s[1]);
      AppendIs(Append(s[0] as int - 0xF0, s[1]), s[2]);
      AppendIs(Append(Append(s[0] as int - 0xF0, s[1]), s[2]), s[3]);
    }
  }

  lemma TailAppended(c: nat)
    ensures Append(c / 64, Tail(c)) == c
  {
  }

  lemma TailIs(c: nat)
    ensures Tail(c) as int == 0x80 + c % 64
  {
  }

  lemma FrontOf(e: Bytes, s: Bytes)
    requires e <= s
    ensures forall k :: 0 <= k < |e| ==> s[k] == e[k]
  {
  }

  lemma EncodedIsChar(c: nat, s: Bytes)
    requires IsScalar(c) && Encode(c) <= s
    ensures CharLength(s) == |Encode(c)| && First(s) == c
  {
    hide Append, Tail;
    FrontOf(Encode(c), s);
    TailAppended(c);
    TailAppended(c / 64);
    TailAppended(c / 64 / 64);
    TailIs(c / 64);
    TailIs(c / 64 / 64);
  }

  function EncodeAll(cs: seq<nat>): (s: Bytes)
    requires forall i :: 0 <= i < |cs| ==> IsScalar(cs[i])
  {
    if cs == [] then [] else Encode(cs[0]) + EncodeAll(cs[1..])
  }

  ghost predicate Encodes(cs: seq<nat>, s: Bytes) {
    (forall i :: 0 <= i < |cs| ==> IsScalar(cs[i])) && EncodeAll(cs) == s
  }

  function CharsOf(s: Bytes): (cs: seq<nat>)
    requires WellFormed(s)
  {
    if s == [] then [] else [First(s)] + CharsOf(s[CharLength(s)..])
  }

  lemma EncodesOneMore(c: nat, cs: seq<nat>, s: Bytes)
    requires IsScalar(c) && Encodes(cs, s)
    ensures Encodes([c] + cs, Encode(c) + s)
  {
    hide Encode, IsScalar;
    assert ([c] + cs)[1..] == cs;
  }

  lemma OneMoreChar(s: Bytes)
    requires s != [] && WellFormed(s) && Encodes(CharsOf(s[CharLength(s)..]), s[CharLength(s)..])
    ensures Encodes(CharsOf(s), s)
  {
    hide Encode, IsScalar, CharLength, First, WellFormed, CharsOf, Encodes;
    CharsStep(s);
    FirstIsEncoded(s);
    var rest := s[CharLength(s)..];
    EncodesOneMore(First(s), CharsOf(rest), rest);
    assert s == s[..CharLength(s)] + rest;
  }

  lemma {:induction false} CharsAreEncoded(s: Bytes)
    requires WellFormed(s)
    ensures Encodes(CharsOf(s), s)
    decreases |s|
  {
    if s != [] {
      hide Encode, IsScalar, First, Encodes, CharLength;
      CharsStep(s);
      CharsAreEncoded(s[CharLength(s)..]);
      OneMoreChar(s);
    }
  }

  lemma {:induction false} EncodedIsWellFormed(cs: seq<nat>, s: Bytes)
    requires Encodes(cs, s)
    ensures WellFormed(s) && CharsOf(s) == cs
  {
    if cs != [] {
      hide Encode, IsScalar, CharLength, First;
      EncodedIsChar(cs[0], s);
      assert s[CharLength(s)..] == EncodeAll(cs[1..]);
      EncodedIsWellFormed(cs[1..], EncodeAll(cs[1..]));
      assert cs == [cs[0]] + cs[1..];
    }
  }

  // A text is well-formed exactly when it encodes some characters, and then it
  // encodes one sequence of them.
  lemma WellFormedIff(s: Bytes)
    ensures WellFormed(s) <==> exists cs :: Encodes(cs, s)
    ensures forall a, b :: Encodes(a, s) && Encodes(b, s) ==> a == b
  {
    hide WellFormed, Encodes;
    if WellFormed(s) {
      CharsAreEncoded(s);
    }
    forall cs | Encodes(cs, s)
      ensures WellFormed(s) && CharsOf(s) == cs
    {
      EncodedIsWellFormed(cs, s);
    }
  }

  // ---- whitespace

  // The property White_Space.
  predicate IsWhiteSpace(c: nat) {
    || 9 <= c <= 13 || c == 32 || c == 0x85 || c == 0xA0 || c == 0x1680 || 0x2000 <= c <= 0x200A
    || c == 0x2028 || c == 0x2029 || c == 0x202F || c == 0x205F || c == 0x3000
  }

  lemma FirstOfShort(s: Bytes)
    requires s != [] && CharLength(s) > 0
    ensures CharLength(s) == 1 ==> First(s) == s[0] as int < 0x80
    ensures CharLength(s) == 2 ==> First(s) == (s[0] as int - 0xC0) * 64 + (s[1] as int - 0x80) && 0xC2 <= s[0] <= 0xDF
  {
    if CharLength(s) == 2 {
      AppendIs(s[0] as int - 0xC0, s[1]);
    }
  }

  lemma FirstOfThree(s: Bytes)
    requires s != [] && CharLength(s) == 3
    ensures First(s) == ((s[0] as int - 0xE0) * 64 + (s[1] as int - 0x80)) * 64 + (s[2] as int - 0x80)
    ensures 0xE0 <= s[0] <= 0xEF && (s[0] == 0xE0 ==> s[1] >= 0xA0)
  {
    AppendIs(s[0] as int - 0xE0, s[1]);
    AppendIs(Append(s[0] as int - 0xE0, s[1]), s[2]);
  }

  lemma FirstOfFour(s: Bytes)
    requires s != [] && CharLength(s) == 4
    ensures First(s) >= 0x10000
  {
    hide Append;
    AppendIs(s[0] as int - 0xF0, s[1]);
    AppendIs(Append(s[0] as int - 0xF0, s[1]), s[2]);
    AppendIs(Append(Append(s[0] as int - 0xF0, s[1]), s[2]), s[3]);
  }

  lemma SpaceIsChar(s: Bytes)
    requires s != [] && SpaceLength(s) > 0
    ensures CharLength(s) == SpaceLength(s) && IsWhiteSpace(First(s))
  {
    hide First;
    if SpaceLength(s) == 3 {
      FirstOfThree(s);
    } else {
      FirstOfShort(s);
    }
  }

  lemma CharIsSpace(s: Bytes)
    requires s != [] && CharLength(s) > 0 && IsWhiteSpace(First(s))
    ensures SpaceLength(s) == CharLength(s)
  {
    hide First;
    var n := CharLength(s);
    if n == 4 {
      FirstOfFour(s);
    } else if n == 3 {
      LongSpace(s);
    } else {
      FirstOfShort(s);
    }
  }

  lemma LongSpace(s: Bytes)
    requires s != [] && CharLength(s) == 3 && IsWhiteSpace(First(s))
    ensures SpaceLength(s) == 3
  {
    hide First, CharLength;
    FirstOfThree(s);
    var a, b, c := s[0] as int - 0xE0, s[1] as int - 0x80, s[2] as int - 0x80;
    ThreeDigits(a, b, c, First(s));
    assert s[..3] == [s[0], s[1], s[2]];
  }

  // Which bytes the whitespace with three of them has.
  lemma ThreeDigits(a: nat, b: nat, c: nat, n: nat)
    requires b < 64 && c < 64 && n == (a * 64 + b) * 64 + c && IsWhiteSpace(n) && (a == 0 ==> b >= 32)
    ensures || (a == 1 && b == 26 && c == 0) || (a == 2 && b == 1 && c == 31) || (a == 3 && b == 0 && c == 0)
            || (a == 2 && b == 0 && (c <= 10 || c == 40 || c == 41 || c == 47))
  {
  }

  ghost predicate AllWhite(cs: seq<nat>) {
    forall i :: 0 <= i < |cs| ==> IsWhiteSpace(cs[i])
  }

  lemma OneMoreWhite(c: nat, cs: seq<nat>)
    ensures AllWhite([c] + cs) <==> IsWhiteSpace(c) && AllWhite(cs)
  {
    hide IsWhiteSpace;
    var all := [c] + cs;
    assert all[0] == c && forall i :: 0 <= i < |cs| ==> cs[i] == all[i + 1];
  }

  lemma CharsStep(s: Bytes)
    requires s != []
    ensures WellFormed(s) <==> CharLength(s) > 0 && WellFormed(s[CharLength(s)..])
    ensures WellFormed(s) ==> CharsOf(s) == [First(s)] + CharsOf(s[CharLength(s)..])
    ensures IsBlank(s) <==> SpaceLength(s) > 0 && IsBlank(s[SpaceLength(s)..])
  {
    hide First, CharLength, SpaceLength;
  }

  // A line is blank exactly when it is well-formed and has no character but
  // whitespace.
  lemma {:induction false} BlankIff(s: Bytes)
    ensures IsBlank(s) <==> WellFormed(s) && AllWhite(CharsOf(s))
    decreases |s|
  {
    if s != [] {
      hide SpaceLength, IsWhiteSpace, First, CharLength, WellFormed, IsBlank, CharsOf, AllWhite;
      CharsStep(s);
      if SpaceLength(s) > 0 {
        SpaceIsChar(s);
      } else if CharLength(s) > 0 && IsWhiteSpace(First(s)) {
        CharIsSpace(s);
      }
      if CharLength(s) > 0 {
        var rest := s[CharLength(s)..];
        BlankIff(rest);
        if WellFormed(rest) {
          OneMoreWhite(First(s), CharsOf(rest));
        }
      }
    }
  }

  // Among ASCII bytes these are the space and the bytes 9 to 13.
  lemma {:induction false} AsciiBlankIff(s: Bytes)
    requires forall i :: 0 <= i < |s| ==> s[i] < 0x80
    ensures IsBlank(s) <==> forall i :: 0 <= i < |s| ==> s[i] == 32 || 9 <= s[i] <= 13
  {
    if s != [] {
      AsciiBlankIff(s[1..]);
      assert s == [s[0]] + s[1..];
    }
  }

  // The bytes the parser skips are those but the vertical tab.
  lemma ParserSpaces(b: Byte)
    ensures IsAsciiWhitespace(b) <==> IsBlank([b]) && b != 11
  {
    assert [b][1..] == [];
  }
}
