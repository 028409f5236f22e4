// Bytes, lines and whitespace, as the scan and the parser see them.
module Text {

  newtype Byte = b: int | 0 <= b < 256
  type Bytes = seq<Byte>

  const TAB: Byte := 9
  const NEWLINE: Byte := 10
  const FORM_FEED: Byte := 12
  const CARRIAGE_RETURN: Byte := 13
  const SPACE: Byte := 32
  const QUOTE: Byte := 34
  const EQUALS: Byte := 61
  const BACKSLASH: Byte := 92

  datatype Option<+T> = None | Some(value: T)

  datatype Result<+T> = Ok(value: T) | Err

  // `u8::is_ascii_whitespace`: vertical tab is not in the list.
  predicate IsAsciiWhitespace(b: Byte) {
    b == SPACE || b == TAB || b == NEWLINE || b == FORM_FEED || b == CARRIAGE_RETURN
  }

  function Min(a: nat, b: nat): nat {
    if a < b then a else b
  }

  function Take<T>(xs: seq<T>, n: nat): seq<T> {
    if n < |xs| then xs[..n] else xs
  }

  function Drop<T>(xs: seq<T>, n: nat): seq<T> {
    if n < |xs| then xs[n..] else []
  }

  function ToSet<T(==,!new)>(xs: seq<T>): (s: set<T>)
    ensures forall x :: x in s <==> x in xs
  {
    set x | x in xs
  }

  function Flatten<T>(parts: seq<seq<T>>): (whole: seq<T>) {
    if parts == [] then [] else parts[0] + Flatten(parts[1..])
  }

  lemma {:induction false} FlattenConcat<T>(a: seq<seq<T>>, b: seq<seq<T>>)
    ensures Flatten(a + b) == Flatten(a) + Flatten(b)
  {
    if a == [] {
      assert a + b == b;
    } else {
      assert (a + b)[1..] == a[1..] + b;
      FlattenConcat(a[1..], b);
      Associative(a[0], Flatten(a[1..]), Flatten(b));
    }
  }

  lemma FlattenNone<T>()
    ensures Flatten<T>([]) == []
  {
  }

  lemma FlattenOne<T>(a: seq<T>)
    ensures Flatten([a]) == a
  {
    assert Flatten([a]) == a + Flatten([]);
  }

  lemma FlattenLast<T>(parts: seq<seq<T>>, last: seq<T>)
    ensures Flatten(parts + [last]) == Flatten(parts) + last
  {
    FlattenConcat(parts, [last]);
    FlattenOne(last);
  }

  function Filter<T>(keep: T -> bool, xs: seq<T>): (kept: seq<T>)
    ensures |kept| <= |xs|
    ensures forall i :: 0 <= i < |kept| ==> kept[i] in xs && keep(kept[i])
  {
    if xs == [] then [] else (if keep(xs[0]) then [xs[0]] else []) + Filter(keep, xs[1..])
  }

  lemma {:induction false} FilterConcat<T>(keep: T -> bool, a: seq<T>, b: seq<T>)
    ensures Filter(keep, a + b) == Filter(keep, a) + Filter(keep, b)
  {
    if a == [] {
      assert a + b == b;
    } else {
      assert (a + b)[1..] == a[1..] + b;
      FilterConcat(keep, a[1..], b);
      Associative(if keep(a[0]) then [a[0]] else [], Filter(keep, a[1..]), Filter(keep, b));
    }
  }

  lemma FilterOne<T>(keep: T -> bool, x: T)
    ensures Filter(keep, [x]) == if keep(x) then [x] else []
  {
    assert [x][1..] == [];
  }

  // How many bytes `read_line` takes: through the next newline, or to the end.
  function LineLength(text: Bytes): (n: nat)
    ensures n <= |text|
    ensures text != [] ==> n > 0
    ensures forall k :: 0 <= k < n - 1 ==> text[k] != NEWLINE
    ensures n == |text| || text[n - 1] == NEWLINE
  {
    if text == [] then 0
    else if text[0] == NEWLINE then 1
    else 1 + LineLength(text[1..])
  }

  // The lines `read_line` yields until it returns 0, each with its newline.
  function Lines(text: Bytes): (lines: seq<Bytes>)
    ensures text == [] <==> lines == []
    decreases |text|
  {
    if text == [] then []
    else [text[..LineLength(text)]] + Lines(text[LineLength(text)..])
  }

  lemma {:induction false} LinesRejoin(text: Bytes)
    ensures Flatten(Lines(text)) == text
    decreases |text|
  {
    if text != [] {
      var n := LineLength(text);
      LinesRejoin(text[n..]);
      assert Lines(text)[1..] == Lines(text[n..]);
      assert text == text[..n] + text[n..];
    }
  }

  // A text that starts with one line and goes on with others.
  lemma LinesCons(line: Bytes, rest: Bytes)
    requires line != []
    requires forall k :: 0 <= k < |line| - 1 ==> line[k] != NEWLINE
    requires rest == [] || line[|line| - 1] == NEWLINE
    ensures Lines(line + rest) == [line] + Lines(rest)
  {
    var text := line + rest;
    var n := LineLength(text);
    assert text[|line| - 1] == line[|line| - 1];
    assert forall k :: 0 <= k < |line| - 1 ==> text[k] != NEWLINE;
    assert n == |line|;
    assert text[..n] == line && text[n..] == rest;
  }

  lemma Associative<T>(a: seq<T>, b: seq<T>, c: seq<T>)
    ensures (a + b) + c == a + (b + c)
  {
  }

  lemma TakeOneMore<T>(s: seq<T>, k: nat)
    requires 0 < k <= |s|
    ensures s[..k] == s[..k - 1] + [s[k - 1]]
  {
  }

  // A cut right after a newline (or at the very start) never splits a line.
  lemma {:induction false} LinesSplit(left: Bytes, right: Bytes)
    requires left == [] || left[|left| - 1] == NEWLINE
    ensures Lines(left + right) == Lines(left) + Lines(right)
    decreases |left|
  {
    hide LineLength;
    if left == [] {
      assert left + right == right;
    } else {
      var n := LineLength(left);
      var line, rest := left[..n], left[n..];
      assert rest != [] ==> rest[|rest| - 1] == left[|left| - 1];
      LinesSplit(rest, right);
      LinesOfFirst(left, right, n);
      Associative([line], Lines(rest), Lines(right));
    }
  }

  lemma LinesOfFirst(left: Bytes, right: Bytes, n: nat)
    requires left != [] && n == LineLength(left) && left[|left| - 1] == NEWLINE
    ensures Lines(left + right) == [left[..n]] + Lines(left[n..] + right)
  {
    hide LineLength, Lines;
    var line, rest := left[..n], left[n..];
    assert left == line + rest;
    assert line[|line| - 1] == left[n - 1];
    Associative(line, rest, right);
    LinesCons(line, rest + right);
  }
}
