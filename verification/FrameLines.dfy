// Frames and lines: reading the lines of each frame in turn reads the lines of
// the file.
module FrameLines {
  import opened Text
  import opened FrameCutting

  function FrameText(data: Bytes, f: FrameRange): (text: Bytes)
    requires FrameEnd(f) <= |data|
  {
    data[f.start..FrameEnd(f)]
  }

  predicate InFile(data: Bytes, frames: seq<FrameRange>) {
    forall i :: 0 <= i < |frames| ==> FrameEnd(frames[i]) <= |data|
  }

  // The texts of the frames, each read whole.
  function FrameTexts(data: Bytes, frames: seq<FrameRange>): (texts: seq<Bytes>)
    requires InFile(data, frames)
    ensures |texts| == |frames|
    ensures forall i :: 0 <= i < |frames| ==> texts[i] == FrameText(data, frames[i])
  {
    seq(|frames|, i requires 0 <= i < |frames| => FrameText(data, frames[i]))
  }

  function LinesOfAll(texts: seq<Bytes>): (lines: seq<Bytes>) {
    if texts == [] then [] else LinesOfAll(texts[..|texts| - 1]) + Lines(texts[|texts| - 1])
  }

  // A position of the file between two lines.
  predicate BetweenLines(data: Bytes, p: nat) {
    p <= |data| && (p == 0 || data[p - 1] == NEWLINE)
  }

  // No frame but the last ends inside a line.
  predicate CutsOnLines(data: Bytes, frames: seq<FrameRange>) {
    forall i :: 0 <= i < |frames| - 1 ==> BetweenLines(data, FrameEnd(frames[i]))
  }

  predicate LinesFit(data: Bytes) {
    forall line :: line in Lines(data) ==> |line| <= MAX_FRAME_SIZE
  }

  lemma {:induction false} ContiguousIsInFile(data: Bytes, frames: seq<FrameRange>, k: nat)
    requires Contiguous(frames, |data|) && k <= |frames|
    ensures forall i :: |frames| - k <= i < |frames| ==> FrameEnd(frames[i]) <= |data|
  {
    if k > 0 {
      ContiguousIsInFile(data, frames, k - 1);
      var i := |frames| - k;
      if i < |frames| - 1 {
        assert frames[i + 1].start == FrameEnd(frames[i]);
      }
    }
  }

  // Splitting each frame into lines gives the lines of the file, for any
  // frames whose cuts fall between lines.
  lemma FramesKeepLines(data: Bytes, frames: seq<FrameRange>)
    requires Contiguous(frames, |data|) && InFile(data, frames) && CutsOnLines(data, frames)
    ensures LinesOfAll(FrameTexts(data, frames)) == Lines(data)
  {
    var texts := FrameTexts(data, frames);
    PrefixKeepsLines(data, frames, |frames|);
    assert texts[..|frames|] == texts;
    assert data[..|data|] == data;
  }

  lemma {:induction false} PrefixKeepsLines(data: Bytes, frames: seq<FrameRange>, k: nat)
    requires Contiguous(frames, |data|) && InFile(data, frames) && CutsOnLines(data, frames)
    requires k <= |frames|
    ensures LinesOfAll(FrameTexts(data, frames)[..k])
            == Lines(data[..if k == 0 then 0 else FrameEnd(frames[k - 1])])
  {
    hide Lines, LinesOfAll, FrameText, FrameTexts, BetweenLines, Contiguous, CutsOnLines;
    var texts := FrameTexts(data, frames);
    if k == 0 {
      assert texts[..0] == [] && data[..0] == [];
      NoLines();
    } else {
      PrefixKeepsLines(data, frames, k - 1);
      var f := frames[k - 1];
      StartsOnLine(data, frames, k - 1);
      TakeOneMore(texts, k);
      LinesOfOneMore(texts[..k - 1], FrameText(data, f));
      LinesUpTo(data, f);
    }
  }

  lemma StartsOnLine(data: Bytes, frames: seq<FrameRange>, i: nat)
    requires Contiguous(frames, |data|) && CutsOnLines(data, frames)
    requires i < |frames|
    ensures frames[i].start == if i == 0 then 0 else FrameEnd(frames[i - 1])
    ensures BetweenLines(data, frames[i].start)
  {
    hide BetweenLines;
    if i > 0 {
      assert frames[i].start == FrameEnd(frames[i - 1]);
    } else {
      StartIsBetweenLines(data);
    }
  }

  lemma StartIsBetweenLines(data: Bytes)
    ensures BetweenLines(data, 0)
  {
  }

  lemma NoLines()
    ensures LinesOfAll([]) == [] && Lines([]) == []
  {
  }

  lemma LinesOfOneMore(texts: seq<Bytes>, last: Bytes)
    ensures LinesOfAll(texts + [last]) == LinesOfAll(texts) + Lines(last)
  {
    hide Lines;
    assert (texts + [last])[..|texts|] == texts;
  }

  lemma LinesUpTo(data: Bytes, f: FrameRange)
    requires FrameEnd(f) <= |data| && BetweenLines(data, f.start)
    ensures Lines(data[..FrameEnd(f)]) == Lines(data[..f.start]) + Lines(FrameText(data, f))
  {
    hide Lines;
    assert data[..FrameEnd(f)] == data[..f.start] + FrameText(data, f);
    LinesSplit(data[..f.start], FrameText(data, f));
  }

  lemma {:induction false} LineIsInSomeFrame(texts: seq<Bytes>, line: Bytes)
    requires line in LinesOfAll(texts)
    ensures exists i :: 0 <= i < |texts| && line in Lines(texts[i])
  {
    var last := |texts| - 1;
    if line !in Lines(texts[last]) {
      LineIsInSomeFrame(texts[..last], line);
      var i :| 0 <= i < last && line in Lines(texts[..last][i]);
      assert texts[..last][i] == texts[i];
    }
  }

  lemma {:induction false} LineWithinText(text: Bytes, line: Bytes)
    requires line in Lines(text)
    ensures |line| <= |text|
    decreases |text|
  {
    var n := LineLength(text);
    if line != text[..n] {
      LineWithinText(text[n..], line);
    }
  }

  // The line that starts where a frame starts is a line of the file.
  lemma FirstLineOfFrame(data: Bytes, start: nat)
    requires start < |data| && BetweenLines(data, start)
    ensures data[start..][..LineLength(data[start..])] in Lines(data)
  {
    hide LineLength;
    var left, right := data[..start], data[start..];
    assert data == left + right;
    assert left == [] || left[|left| - 1] == data[start - 1];
    LinesSplit(left, right);
    assert Lines(right) == [right[..LineLength(right)]] + Lines(right[LineLength(right)..]);
    assert Lines(data)[|Lines(left)|] == right[..LineLength(right)];
  }

  lemma FittingWindowHasNewline(data: Bytes, f: FrameRange)
    requires f.start + MAX_FRAME_SIZE < |data| && CutOfWindow(data, f)
    requires BetweenLines(data, f.start) && LinesFit(data)
    ensures BetweenLines(data, FrameEnd(f))
  {
    hide Lines;
    FirstLineOfFrame(data, f.start);
    var n := LineLength(data[f.start..]);
    assert data[f.start..][n - 1] == data[f.start + n - 1];
    assert n <= MAX_FRAME_SIZE by {
      assert |data[f.start..][..n]| == n;
    }
  }

  // Frames cut at the last newline of their windows keep the lines whole
  // exactly when no line of the file is longer than a window.
  lemma CutsOnLinesIffLinesFit(data: Bytes, frames: seq<FrameRange>)
    requires Partition(frames, |data|) && InFile(data, frames) && CutAtLastNewlines(data, frames)
    ensures CutsOnLines(data, frames) <==> LinesFit(data)
  {
    hide Lines, BetweenLines, Contiguous;
    if LinesFit(data) {
      CutsByInduction(data, frames, |frames| - 1);
    }
    if CutsOnLines(data, frames) {
      forall line | line in Lines(data)
        ensures |line| <= MAX_FRAME_SIZE
      {
        FramesKeepLines(data, frames);
        var texts := FrameTexts(data, frames);
        LineIsInSomeFrame(texts, line);
        var i :| 0 <= i < |texts| && line in Lines(texts[i]);
        LineWithinText(texts[i], line);
      }
    }
  }

  lemma {:induction false} CutsByInduction(data: Bytes, frames: seq<FrameRange>, k: int)
    requires Partition(frames, |data|) && InFile(data, frames) && CutAtLastNewlines(data, frames)
    requires LinesFit(data) && -1 <= k <= |frames| - 1
    ensures forall i :: 0 <= i < k ==> BetweenLines(data, FrameEnd(frames[i]))
    decreases k + 1
  {
    hide BetweenLines, LinesFit, IsCut;
    if k > 0 {
      CutsByInduction(data, frames, k - 1);
      var i := k - 1;
      var f := frames[i];
      assert i > 0 ==> f.start == FrameEnd(frames[i - 1]);
      StartIsBetweenLines(data);
      ContiguousIsInFile(data, frames, |frames|);
      assert frames[k].start == FrameEnd(f) && frames[k].len > 0 && FrameEnd(frames[k]) <= |data|;
      FittingWindowHasNewline(data, f);
    }
  }

  // The frames `CutFrames` makes with full reads of a file whose lines fit
  // their window: lines of the frames, in order, are the lines of the file.
  method FrameLinesOfFile(file: VfsFile) returns (frames: seq<FrameRange>)
    requires file.FullReads() && file.data != [] && LinesFit(file.data)
    modifies file
    ensures Partition(frames, |file.data|) && InFile(file.data, frames)
    ensures LinesOfAll(FrameTexts(file.data, frames)) == Lines(file.data)
  {
    var cut := CutFrames(file, Some(|file.data|));
    frames := cut.value;
    ContiguousIsInFile(file.data, frames, |frames|);
    CutsOnLinesIffLinesFit(file.data, frames);
    FramesKeepLines(file.data, frames);
  }

  // ---- units

  predicate EndsLine(text: Bytes) {
    text == [] || text[|text| - 1] == NEWLINE
  }

  lemma {:induction false} LinesMerge(a: Bytes, b: Bytes)
    requires !EndsLine(a) && b != []
    ensures |Lines(a + b)| == |Lines(a)| + |Lines(b)| - 1
    decreases |a|
  {
    hide LineLength;
    var n := LineLength(a);
    var line, rest := a[..n], a[n..];
    assert a == line + rest;
    Associative(line, rest, b);
    if rest == [] {
      var m := LineLength(b);
      assert line == a && a + b == (a + b[..m]) + b[m..];
      LinesCons(a + b[..m], b[m..]);
      assert Lines(b) == [b[..m]] + Lines(b[m..]);
      assert Lines(a) == [a] + Lines([]);
    } else {
      assert line[|line| - 1] == a[n - 1];
      LinesMerge(rest, b);
      LinesCons(line, rest + b);
      assert Lines(a) == [line] + Lines(rest);
    }
  }

  // No unit that has text starts inside a line.
  predicate UnitsStartLines(units: seq<Bytes>) {
    forall i :: 0 <= i < |units| ==> units[i] == [] || EndsLine(Flatten(units[..i]))
  }

  // Splitting each unit into lines, as the workers do, gives the lines of the
  // stream of units, as the sequential scan reads them, exactly when no unit
  // starts inside a line.
  lemma {:induction false} UnitsKeepLinesIff(units: seq<Bytes>)
    ensures LinesOfAll(units) == Lines(Flatten(units)) <==> UnitsStartLines(units)
    ensures |Lines(Flatten(units))| <= |LinesOfAll(units)|
  {
    hide Lines, EndsLine, Flatten;
    if units == [] {
      FlattenNone<Byte>();
      NoLines();
    } else {
      var front, last := units[..|units| - 1], units[|units| - 1];
      var before := Flatten(front);
      UnitsKeepLinesIff(front);
      assert units == front + [last];
      FlattenLast(front, last);
      forall i | 0 <= i < |front|
        ensures units[i] == front[i] && units[..i] == front[..i]
      {
      }
      assert UnitsStartLines(units) <==> UnitsStartLines(front) && (last == [] || EndsLine(before));
      if last == [] {
        assert before + last == before;
        NoLines();
        assert LinesOfAll(front) + [] == LinesOfAll(front);
      } else if EndsLine(before) {
        LinesOfWhole(before, last);
        if LinesOfAll(units) == Lines(before + last) {
          SameFront(LinesOfAll(front), Lines(before), Lines(last));
        }
      } else {
        LinesMerge(before, last);
      }
    }
  }

  lemma SameFront<T>(a: seq<T>, b: seq<T>, tail: seq<T>)
    requires a + tail == b + tail
    ensures a == b
  {
    assert |a| == |b|;
    assert a == (a + tail)[..|a|] && b == (b + tail)[..|b|];
  }

  lemma LinesOfWhole(left: Bytes, right: Bytes)
    requires EndsLine(left)
    ensures Lines(left + right) == Lines(left) + Lines(right)
  {
    LinesSplit(left, right);
  }

  // No frame with text starts inside a line.
  predicate FramesStartLines(data: Bytes, frames: seq<FrameRange>) {
    forall i :: 0 <= i < |frames| ==> frames[i].len == 0 || BetweenLines(data, frames[i].start)
  }

  // The frames up to one of them hold the data up to where it starts.
  lemma {:induction false} FramesBefore(data: Bytes, frames: seq<FrameRange>, k: nat)
    requires Contiguous(frames, |data|) && InFile(data, frames) && k <= |frames|
    ensures Flatten(FrameTexts(data, frames)[..k]) == data[..if k == 0 then 0 else FrameEnd(frames[k - 1])]
  {
    hide Flatten, Contiguous;
    var texts := FrameTexts(data, frames);
    if k == 0 {
      assert texts[..0] == [] && data[..0] == [];
      FlattenNone<Byte>();
    } else {
      FramesBefore(data, frames, k - 1);
      FrameStart(data, frames, k - 1);
      TakeOneMore(texts, k);
      FlattenLast(texts[..k - 1], texts[k - 1]);
      var f := frames[k - 1];
      assert data[..FrameEnd(f)] == data[..f.start] + FrameText(data, f);
    }
  }

  lemma FrameStart(data: Bytes, frames: seq<FrameRange>, i: nat)
    requires Contiguous(frames, |data|) && i < |frames|
    ensures frames[i].start == if i == 0 then 0 else FrameEnd(frames[i - 1])
  {
    if i > 0 {
      assert frames[i].start == FrameEnd(frames[i - 1]);
    }
  }

  // Splitting the frames of a seek table into lines gives the lines of the file
  // exactly when none of them starts inside a line.
  lemma FramesKeepLinesIff(data: Bytes, frames: seq<FrameRange>)
    requires Contiguous(frames, |data|) && InFile(data, frames)
    ensures LinesOfAll(FrameTexts(data, frames)) == Lines(data) <==> FramesStartLines(data, frames)
  {
    hide Flatten, Lines, LinesOfAll, Contiguous;
    var texts := FrameTexts(data, frames);
    WholeFrames(data, frames);
    UnitsKeepLinesIff(texts);
    forall i | 0 <= i < |frames|
      ensures (texts[i] == [] || EndsLine(Flatten(texts[..i])))
              <==> (frames[i].len == 0 || BetweenLines(data, frames[i].start))
    {
      FrameStart(data, frames, i);
      FramesBefore(data, frames, i);
      EndsLineAt(data, frames[i].start);
      assert |texts[i]| == frames[i].len;
    }
  }

  lemma WholeFrames(data: Bytes, frames: seq<FrameRange>)
    requires Contiguous(frames, |data|) && InFile(data, frames)
    ensures Flatten(FrameTexts(data, frames)) == data
  {
    hide Flatten;
    FramesBefore(data, frames, |frames|);
    assert FrameTexts(data, frames)[..|frames|] == FrameTexts(data, frames);
    assert data[..|data|] == data;
  }

  lemma EndsLineAt(data: Bytes, p: nat)
    requires p <= |data|
    ensures EndsLine(data[..p]) <==> BetweenLines(data, p)
  {
  }

  // Reading frame after frame into one buffer, with reads that make progress,
  // gives the text of each frame whole.
  method ReadFrames(reader: FrameReader, frames: seq<FrameRange>) returns (texts: seq<Bytes>)
    requires reader.file.PositiveReads() && InFile(reader.file.data, frames)
    modifies reader, reader.file
    ensures texts == FrameTexts(reader.file.data, frames)
  {
    texts := [];
    for i := 0 to |frames|
      invariant |texts| == i
      invariant forall j :: 0 <= j < i ==> texts[j] == FrameText(reader.file.data, frames[j])
    {
      var f := frames[i];
      var read := reader.ReadFrame(f);
      if read.value.None? {
        texts := texts + [[]];
      } else {
        assert reader.buf == FrameText(reader.file.data, f);
        texts := texts + [reader.buf];
      }
    }
  }

  // ---- frames cut with any reads

  // A frame as long as its window ends between lines, unless it is the last.
  predicate LongFramesEndLines(data: Bytes, frames: seq<FrameRange>) {
    forall i :: 0 <= i < |frames| - 1 && frames[i].len == MAX_FRAME_SIZE ==> BetweenLines(data, FrameEnd(frames[i]))
  }

  // Whatever seeks and reads do while a file is cut, the lines of the frames are
  // the lines of the file exactly when no frame that got no newline is cut off
  // inside a line.
  method FrameLinesOfAnyFile(file: VfsFile) returns (frames: seq<FrameRange>)
    requires file.data != []
    modifies file
    ensures Partition(frames, |file.data|) && InFile(file.data, frames)
    ensures LinesOfAll(FrameTexts(file.data, frames)) == Lines(file.data) <==> LongFramesEndLines(file.data, frames)
  {
    hide Lines, LinesOfAll;
    var cut := CutFrames(file, Some(|file.data|));
    frames := cut.value;
    ContiguousIsInFile(file.data, frames, |frames|);
    FramesKeepLinesIff(file.data, frames);
    WellEndedFrames(file.data, frames);
  }

  lemma WellEndedFrames(data: Bytes, frames: seq<FrameRange>)
    requires Partition(frames, |data|) && InFile(data, frames)
    requires forall f :: f in frames ==> EndsWell(data, |data|, f)
    ensures FramesStartLines(data, frames) <==> LongFramesEndLines(data, frames)
  {
    if LongFramesEndLines(data, frames) {
      forall i | 0 < i < |frames|
        ensures BetweenLines(data, frames[i].start)
      {
        var before := i - 1;
        assert frames[before] in frames && frames[i].start == FrameEnd(frames[before]);
      }
    }
    if FramesStartLines(data, frames) {
      forall i | 0 <= i < |frames| - 1 && frames[i].len == MAX_FRAME_SIZE
        ensures BetweenLines(data, FrameEnd(frames[i]))
      {
        var next := i + 1;
        assert frames[next].start == FrameEnd(frames[i]);
      }
    }
  }
}
