// Well-formed UTF-8: the syntax of section 4 of RFC 3629.
module Utf8 {
  import opened Text

  predicate IsTail(b: Byte) {
    0x80 <= b <= 0xBF
  }

  // The length of the UTF8-char `s` begins with, 0 when it begins with none.
  function CharLength(s: Bytes): (n: nat)
    requires s != []
    ensures n <= |s| && n <= 4
    ensures forall k :: 1 <= k < n ==> IsTail(s[k])
    ensures n > 0 ==> !IsTail(s[0])
    ensures s[0] < 0x80 ==> n == 1
  {
    var b := s[0];
    if b <= 0x7F then 1
    else if 0xC2 <= b <= 0xDF then
      if |s| >= 2 && IsTail(s[1]) then 2 else 0
    else if 0xE0 <= b <= 0xEF then
      if |s| >= 3 && IsTail(s[1]) && IsTail(s[2])
         && (b == 0xE0 ==> s[1] >= 0xA0) && (b == 0xED ==> s[1] <= 0x9F)
      then 3 else 0
    else if 0xF0 <= b <= 0xF4 then
      if |s| >= 4 && IsTail(s[1]) && IsTail(s[2]) && IsTail(s[3])
         && (b == 0xF0 ==> s[1] >= 0x90) && (b == 0xF4 ==> s[1] <= 0x8F)
      then 4 else 0
    else 0
  }

  predicate WellFormed(s: Bytes)
    decreases |s|
  {
    s == [] || (CharLength(s) > 0 && WellFormed(s[CharLength(s)..]))
  }

  // A position at which `s` may be cut into two strings.
  predicate Boundary(s: Bytes, i: nat) {
    i <= |s| && WellFormed(s[..i]) && WellFormed(s[i..])
  }

  lemma CharLengthOfPrefix(s: Bytes, i: nat)
    requires s != [] && 0 < CharLength(s) <= i <= |s|
    ensures CharLength(s[..i]) == CharLength(s)
  {
  }

  lemma {:induction false} ConcatWellFormed(a: Bytes, b: Bytes)
    requires WellFormed(a) && WellFormed(b)
    ensures WellFormed(a + b)
    decreases |a|
  {
    if a == [] {
      assert a + b == b;
    } else {
      var n := CharLength(a);
      assert (a + b)[..|a|] == a;
      assert CharLength(a + b) == n;
      assert (a + b)[n..] == a[n..] + b;
      ConcatWellFormed(a[n..], b);
    }
  }

  lemma {:induction false} DropWellFormed(a: Bytes, b: Bytes)
    requires WellFormed(a) && WellFormed(a + b)
    ensures WellFormed(b)
    decreases |a|
  {
    if a == [] {
      assert a + b == b;
    } else {
      var n := CharLength(a);
      assert CharLength(a + b) == n;
      assert (a + b)[n..] == a[n..] + b;
      DropWellFormed(a[n..], b);
    }
  }

  lemma SliceShift(s: Bytes, n: nat, i: nat)
    requires n <= i <= |s|
    ensures s[n..][i - n..] == s[i..] && s[..i][n..] == s[n..][..i - n]
  {
  }

  // Cutting in front of anything but a tail byte cuts between characters.
  lemma {:induction false} CutIsBoundary(s: Bytes, i: nat)
    requires WellFormed(s) && i <= |s|
    requires i == |s| || !IsTail(s[i])
    ensures Boundary(s, i)
    decreases |s|
  {
    if i == 0 {
      assert s[..0] == [] && s[0..] == s;
    } else {
      var n := CharLength(s);
      var rest := s[n..];
      CutIsBoundary(rest, i - n);
      SliceShift(s, n, i);
      CharLengthOfPrefix(s, i);
    }
  }

  lemma AfterAsciiIsBoundary(s: Bytes, i: nat)
    requires WellFormed(s) && i < |s| && s[i] < 0x80
    ensures Boundary(s, i) && Boundary(s, i + 1)
  {
    CutIsBoundary(s, i);
    var rest := s[i..];
    assert CharLength(rest) == 1 && rest[1..] == s[i + 1..];
    assert WellFormed([s[i]]) by { assert CharLength([s[i]]) == 1; }
    ConcatWellFormed(s[..i], [s[i]]);
    assert s[..i + 1] == s[..i] + [s[i]];
  }

  lemma SliceWellFormed(s: Bytes, from: nat, to: nat)
    requires from <= to && Boundary(s, from) && Boundary(s, to)
    ensures WellFormed(s[from..to])
  {
    assert s[..to] == s[..from] + s[from..to];
    DropWellFormed(s[..from], s[from..to]);
  }

  // The lines of a well-formed text are well-formed, and only those: reading
  // line by line fails on a text that is not UTF-8 and on no other.
  lemma {:induction false} LinesWellFormed(text: Bytes)
    ensures WellFormed(text) <==> forall line :: line in Lines(text) ==> WellFormed(line)
    decreases |text|
  {
    if text != [] {
      var n := LineLength(text);
      var line, rest := text[..n], text[n..];
      LinesWellFormed(rest);
      assert text == line + rest;
      assert Lines(text) == [line] + Lines(rest);
      if WellFormed(text) {
        if n < |text| {
          AfterAsciiIsBoundary(text, n - 1);
        } else {
          assert line == text && rest == [];
        }
      } else if WellFormed(line) && WellFormed(rest) {
        ConcatWellFormed(line, rest);
      } else if !WellFormed(line) {
        assert line in Lines(text);
      } else {
        var bad :| bad in Lines(rest) && !WellFormed(bad);
        assert bad in Lines(text);
      }
    }
  }
}
