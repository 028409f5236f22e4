// Lines that are blank or filtered out: they leave no trace in a schema, a
// batch, a scan or the lines a worker can push.
module SkippedLines {
  import opened Text
  import opened Utf8
  import opened LogfmtParser
  import opened SchemaProbe
  import opened Characters
  import opened Table
  import opened Chunks
  import opened RowBudget
  import opened SequentialScan
  import opened WorkerFrames
  import opened ParallelScan

  // One line that `read_line` takes whole and that is not accepted.
  predicate IsSkipped(filter: Bytes -> bool, line: Bytes) {
    line != [] && LineLength(line) == |line| && line[|line| - 1] == NEWLINE
    && WellFormed(line) && !Accepts(filter)(line)
  }

  // Blank lines are skipped, and so is every line that the filter refuses.
  lemma SkippedIff(filter: Bytes -> bool, line: Bytes)
    requires line != [] && LineLength(line) == |line| && line[|line| - 1] == NEWLINE
    ensures IsSkipped(filter, line) <==> IsBlank(line) || (WellFormed(line) && !filter(line))
  {
    BlankIff(line);
  }

  // `text` has one such line more than `other`.
  ghost predicate OneMore(filter: Bytes -> bool, text: Bytes, other: Bytes) {
    exists a, line, b :: Inserted(filter, text, other, a, line, b)
  }

  ghost predicate Inserted(filter: Bytes -> bool, text: Bytes, other: Bytes, a: Bytes, line: Bytes, b: Bytes) {
    IsSkipped(filter, line) && (a == [] || a[|a| - 1] == NEWLINE) && text == a + (line + b) && other == a + b
  }

  // ---- batches

  ghost predicate SameLeft(filter: Bytes -> bool, text: Bytes, other: Bytes) {
    text == other || OneMore(filter, text, other)
  }

  lemma LinesOfSkipped(filter: Bytes -> bool, line: Bytes, b: Bytes)
    requires IsSkipped(filter, line)
    ensures line + b != [] && LineLength(line + b) == |line|
    ensures (line + b)[..|line|] == line && (line + b)[|line|..] == b
  {
    var text := line + b;
    var n := LineLength(text);
    assert text[|line| - 1] == line[|line| - 1];
    assert forall k :: 0 <= k < |line| - 1 ==> text[k] == line[k] != NEWLINE;
  }

  lemma CutConcat(a: Bytes, c: Bytes, n: nat)
    requires n <= |a|
    ensures (a + c)[..n] == a[..n] && (a + c)[n..] == a[n..] + c
  {
  }

  // The first line of a text that goes on after a whole line.
  lemma FirstOfWhole(a: Bytes, c: Bytes)
    requires a != [] && a[|a| - 1] == NEWLINE
    ensures var n := LineLength(a);
            && n == LineLength(a + c) && (a + c)[..n] == a[..n] && (a + c)[n..] == a[n..] + c
            && (a[n..] == [] || a[n..][|a[n..]| - 1] == NEWLINE)
  {
    var n, m := LineLength(a), LineLength(a + c);
    assert (a + c)[n - 1] == a[n - 1] == NEWLINE;
    assert forall k :: 0 <= k < n - 1 ==> (a + c)[k] == a[k] != NEWLINE;
    CutConcat(a, c, n);
  }

  ghost predicate SameBatch(filter: Bytes -> bool, b: Batch, other: Batch) {
    b == other.(rest := b.rest) && SameLeft(filter, b.rest, other.rest)
  }

  lemma SameBefore(filter: Bytes -> bool, rows: seq<Row>, lines: nat, b: Batch, other: Batch)
    requires SameBatch(filter, b, other)
    ensures SameBatch(filter, Before(rows, lines, b), Before(rows, lines, other))
  {
    hide SameLeft;
  }

  lemma ReadPast(q: Query, line: Bytes, b: Bytes, want: Option<nat>, keys: set<Key>)
    requires IsSkipped(q.filter, line) && want != Some(0)
    ensures ReadBatch(q, line + b, want, keys) == ReadBatch(q, b, want, keys)
  {
    hide WellFormed, Accepts, LineLength, RowOf, Align, NextKeys, ReadBatch, Before;
    LinesOfSkipped(q.filter, line, b);
    ReadOneLine(q, line + b, want, keys);
  }

  // A batch is the same without the line, and so is what it leaves but for it.
  lemma {:induction false} ReadWithout(q: Query, a: Bytes, line: Bytes, b: Bytes, want: Option<nat>, keys: set<Key>)
    requires IsSkipped(q.filter, line) && (a == [] || a[|a| - 1] == NEWLINE)
    ensures SameBatch(q.filter, ReadBatch(q, a + (line + b), want, keys), ReadBatch(q, a + b, want, keys))
    decreases |a|
  {
    hide WellFormed, Accepts, LineLength, RowOf, Align, NextKeys, ReadBatch, Before;
    var text, other := a + (line + b), a + b;
    assert Inserted(q.filter, text, other, a, line, b);
    if want == Some(0) {
      EmptyBatch(q, text, want, keys);
      EmptyBatch(q, other, want, keys);
    } else if a == [] {
      assert text == line + b && other == b;
      ReadPast(q, line, b, want, keys);
    } else {
      var n := LineLength(a);
      var a' := a[n..];
      FirstOfWhole(a, line + b);
      FirstOfWhole(a, b);
      ReadOneLine(q, text, want, keys);
      ReadOneLine(q, other, want, keys);
      var kept := Align(q, keys, RowOf(q, a[..n]));
      var next := NextKeys(q, keys, kept);
      assert Inserted(q.filter, a' + (line + b), a' + b, a', line, b);
      ReadWithout(q, a', line, b, want, keys);
      ReadWithout(q, a', line, b, Minus(want, 1), next);
      hide SameBatch;
      SameBefore(q.filter, [], 1, ReadBatch(q, a' + (line + b), want, keys), ReadBatch(q, a' + b, want, keys));
      SameBefore(q.filter, [kept], 1, ReadBatch(q, a' + (line + b), Minus(want, 1), next),
                 ReadBatch(q, a' + b, Minus(want, 1), next));
      SameFailed(q.filter, a' + (line + b), a' + b);
    }
  }

  lemma SameFailed(filter: Bytes -> bool, rest: Bytes, other: Bytes)
    requires OneMore(filter, rest, other)
    ensures SameBatch(filter, Batch([], 0, rest, false, true), Batch([], 0, other, false, true))
  {
  }

  lemma ReadSameLeft(q: Query, text: Bytes, other: Bytes, want: Option<nat>, keys: set<Key>)
    requires SameLeft(q.filter, text, other)
    ensures SameBatch(q.filter, ReadBatch(q, text, want, keys), ReadBatch(q, other, want, keys))
  {
    hide ReadBatch, IsSkipped;
    if text != other {
      var a, line, b :| Inserted(q.filter, text, other, a, line, b);
      ReadWithout(q, a, line, b, want, keys);
    }
  }

  // ---- the scan

  ghost predicate SameState(q: Query, text: Bytes, other: Bytes, st: ReaderState, st': ReaderState) {
    && st.offset == st'.offset && st.finished == st'.finished && (st.reader.None? <==> st'.reader.None?)
    && SameLeft(q.filter, GetOr(st.reader, text), GetOr(st'.reader, other))
  }

  lemma NextWithout(q: Query, text: Bytes, other: Bytes, par: Result<Option<Frame>>, st: ReaderState, st': ReaderState)
    requires SameState(q, text, other, st, st')
    ensures NextBatch(q, text, par, st).0 == NextBatch(q, other, par, st').0
    ensures SameState(q, text, other, NextBatch(q, text, par, st).1, NextBatch(q, other, par, st').1)
  {
    hide ReadBatch, PushedFrame, SameLeft;
    ReadSameLeft(q, GetOr(st.reader, text), GetOr(st'.reader, other), BatchSize(q), {});
  }

  lemma {:induction false} ScanWithout(q: Query, text: Bytes, other: Bytes, par: Result<Option<Frame>>,
                                       st: ReaderState, st': ReaderState, acc: Option<Frame>)
    requires SameState(q, text, other, st, st')
    ensures ScanFrom(q, text, par, st, acc) == ScanFrom(q, other, par, st', acc)
    decreases Work(text, st)
  {
    hide NextBatch, SameState;
    NextWithout(q, text, other, par, st, st');
    BatchMakesProgress(q, text, par, st);
    var (r, next) := NextBatch(q, text, par, st);
    var next' := NextBatch(q, other, par, st').1;
    if r.Ok? && r.value.Some? {
      if r.value.value.fields == [] {
        ScanWithout(q, text, other, par, next, next', acc);
      } else {
        var stacked := if acc.None? then Ok(r.value.value) else Stack(acc.value, r.value.value);
        if stacked.Ok? && !(q.limit.Some? && |stacked.value.rows| >= q.limit.value) {
          ScanWithout(q, text, other, par, next, next', Some(stacked.value));
        }
      }
    }
  }

  // A line that is blank or filtered out takes no slot of a slice or a batch and
  // changes nothing else: with or without it the sequential scan is the same.
  lemma SkippedLineLeavesNoTrace(q: Query, a: Bytes, line: Bytes, b: Bytes)
    requires IsSkipped(q.filter, line) && (a == [] || a[|a| - 1] == NEWLINE)
    ensures ScanInOrder(q, a + (line + b)) == ScanInOrder(q, a + b)
  {
    hide ScanFrom, IsSkipped;
    assert Inserted(q.filter, a + (line + b), a + b, a, line, b);
    ScanWithout(q, a + (line + b), a + b, Ok(None), FRESH, FRESH, None);
  }

  // ---- the probe

  lemma AcceptedWithout(filter: Bytes -> bool, a: Bytes, line: Bytes, b: Bytes)
    requires IsSkipped(filter, line) && (a == [] || a[|a| - 1] == NEWLINE)
    ensures Accepted(filter, a + (line + b)) == Accepted(filter, a + b)
  {
    hide WellFormed, IsBlank, LineLength, Lines, Filter;
    LinesSplit(a, line + b);
    LinesSplit(line, b);
    LinesSplit(a, b);
    OnlyLine(line);
    FilterConcat(Accepts(filter), Lines(a), Lines(line + b));
    FilterConcat(Accepts(filter), [line], Lines(b));
    FilterConcat(Accepts(filter), Lines(a), Lines(b));
    FilterOne(Accepts(filter), line);
    assert [] + Filter(Accepts(filter), Lines(b)) == Filter(Accepts(filter), Lines(b));
  }

  lemma {:induction false} ReadableStops(xs: seq<Bytes>, ys: seq<Bytes>, bad: Bytes)
    requires bad in xs && !WellFormed(bad)
    ensures ReadableLines(xs + ys) == ReadableLines(xs)
  {
    hide WellFormed;
    if WellFormed(xs[0]) {
      assert (xs + ys)[1..] == xs[1..] + ys;
      ReadableStops(xs[1..], ys, bad);
    }
  }

  lemma ReadableWithout(filter: Bytes -> bool, xs: seq<Bytes>, line: Bytes, ys: seq<Bytes>)
    requires IsSkipped(filter, line)
    ensures Filter(Accepts(filter), ReadableLines(xs + ([line] + ys)))
            == Filter(Accepts(filter), ReadableLines(xs + ys))
  {
    hide WellFormed, IsBlank, LineLength, Filter;
    if bad :| bad in xs && !WellFormed(bad) {
      ReadableStops(xs, [line] + ys, bad);
      ReadableStops(xs, ys, bad);
    } else {
      ReadableConcat(xs, [line] + ys);
      ReadableConcat([line], ys);
      ReadableConcat(xs, ys);
      FilterConcat(Accepts(filter), xs, [line] + ReadableLines(ys));
      FilterConcat(Accepts(filter), [line], ReadableLines(ys));
      FilterConcat(Accepts(filter), xs, ReadableLines(ys));
      FilterOne(Accepts(filter), line);
      assert [] + Filter(Accepts(filter), ReadableLines(ys)) == Filter(Accepts(filter), ReadableLines(ys));
    }
  }

  // So the probe fails on the same texts and infers the same schema.
  lemma ProbeWithout(filter: Bytes -> bool, a: Bytes, line: Bytes, b: Bytes, n: nat)
    requires IsSkipped(filter, line) && (a == [] || a[|a| - 1] == NEWLINE)
    ensures BadLineBefore(filter, a + (line + b), n) <==> BadLineBefore(filter, a + b, n)
    ensures Accepted(filter, a + (line + b)) == Accepted(filter, a + b)
  {
    hide WellFormed, IsBlank, LineLength, Lines, Filter, Accepted, ReadableLines;
    AcceptedWithout(filter, a, line, b);
    LinesSplit(a, line + b);
    LinesSplit(line, b);
    LinesSplit(a, b);
    OnlyLine(line);
    ReadableWithout(filter, Lines(a), line, Lines(b));
    LinesWellFormed(a + (line + b));
    LinesWellFormed(a + b);
    SameReadable(Lines(a), line, Lines(b));
  }

  lemma SameReadable(xs: seq<Bytes>, line: Bytes, ys: seq<Bytes>)
    requires WellFormed(line)
    ensures (forall l :: l in xs + ([line] + ys) ==> WellFormed(l)) <==> forall l :: l in xs + ys ==> WellFormed(l)
  {
    hide WellFormed;
    assert forall l :: l in xs + ([line] + ys) <==> l in xs || l == line || l in ys;
    assert forall l :: l in xs + ys <==> l in xs || l in ys;
  }

  // ---- the workers

  // The frames accept the same lines, one by one.
  ghost predicate SameLines(accept: Line -> bool, frames: seq<seq<Line>>, others: seq<seq<Line>>) {
    |frames| == |others|
    && forall i :: 0 <= i < |frames| ==> TextsOf(Filter(accept, frames[i])) == TextsOf(Filter(accept, others[i]))
  }

  lemma {:induction false} SameChunks(accept: Line -> bool, frames: seq<seq<Line>>, others: seq<seq<Line>>,
                                      w: nat, workers: nat, size: nat)
    requires SameLines(accept, frames, others)
    ensures var chunks, others' := ChunksFrom(frames, w, workers, size), ChunksFrom(others, w, workers, size);
            |chunks| == |others'| && forall c :: 0 <= c < |chunks| ==> SameLines(accept, chunks[c], others'[c])
    decreases workers - w
  {
    hide Filter;
    if w < workers {
      SameChunks(accept, frames, others, w + 1, workers, size);
    }
  }

  lemma {:induction false} SameFlat(accept: Line -> bool, frames: seq<seq<Line>>, others: seq<seq<Line>>)
    requires SameLines(accept, frames, others)
    ensures TextsOf(Filter(accept, Flatten(frames))) == TextsOf(Filter(accept, Flatten(others)))
  {
    hide Filter, TextsOf;
    if frames != [] {
      SameFlat(accept, frames[1..], others[1..]);
      FilterConcat(accept, frames[0], Flatten(frames[1..]));
      FilterConcat(accept, others[0], Flatten(others[1..]));
      TextsOfConcat(Filter(accept, frames[0]), Filter(accept, Flatten(frames[1..])));
      TextsOfConcat(Filter(accept, others[0]), Filter(accept, Flatten(others[1..])));
    } else {
      assert others == frames;
    }
  }

  // With such a line in one of the frames, every worker has the same lines to
  // push, in the same order.
  lemma SkippedLineTakesNoSlot(q: Query, texts: seq<Bytes>, f: nat, a: Bytes, line: Bytes, b: Bytes, threads: nat)
    requires f < |texts| && texts[f] == a + (line + b)
    requires IsSkipped(q.filter, line) && (a == [] || a[|a| - 1] == NEWLINE)
    ensures
      var job, other := JobOf(q, texts, threads), JobOf(q, texts[f := a + b], threads);
      && |job.chunks| == |other.chunks|
      && forall w :: 0 <= w < |job.chunks| ==> TextsOf(AcceptedOf(job, w)) == TextsOf(AcceptedOf(other, w))
  {
    hide Filter, Flatten, Lines, IsSkipped, ChunksFrom;
    var others := texts[f := a + b];
    var frames, frames' := TaggedFrames(texts), TaggedFrames(others);
    var accept := AcceptLine(q.filter);
    AcceptedWithout(q.filter, a, line, b);
    forall i | 0 <= i < |frames|
      ensures TextsOf(Filter(accept, frames[i])) == TextsOf(Filter(accept, frames'[i]))
    {
      TextsOfAccepted(q, frames[i]);
      TextsOfAccepted(q, frames'[i]);
      assert TextsOf(frames[i]) == Lines(texts[i]) && TextsOf(frames'[i]) == Lines(others[i]);
    }
    var workers := Workers(|frames|, threads);
    if workers > 0 {
      SameChunks(accept, frames, frames', 0, workers, ChunkSize(|frames|, workers));
    }
    var job, other := JobOf(q, texts, threads), JobOf(q, others, threads);
    forall w | 0 <= w < |job.chunks|
      ensures TextsOf(AcceptedOf(job, w)) == TextsOf(AcceptedOf(other, w))
    {
      SameFlat(accept, job.chunks[w], other.chunks[w]);
    }
  }
}
