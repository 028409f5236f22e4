// Which lines of the file the workers push, and in what order they are put
// together.
module FileOrder {
  import opened Text
  import opened SchemaProbe
  import opened Chunks
  import opened FrameLines
  import opened RowBudget
  import opened FirstRows
  import opened SequentialScan
  import opened WorkerFrames
  import opened ParallelScan

  predicate Earlier(a: Line, b: Line) {
    a.frame < b.frame || (a.frame == b.frame && a.index < b.index)
  }

  predicate InFileOrder(lines: seq<Line>) {
    forall i, j :: 0 <= i < j < |lines| ==> Earlier(lines[i], lines[j])
  }

  predicate AllEarlier(a: seq<Line>, b: seq<Line>) {
    forall x, y :: x in a && y in b ==> Earlier(x, y)
  }

  lemma OrderOfConcat(a: seq<Line>, b: seq<Line>)
    ensures InFileOrder(a + b) <==> InFileOrder(a) && InFileOrder(b) && AllEarlier(a, b)
  {
    var whole := a + b;
    if InFileOrder(whole) {
      assert forall i :: 0 <= i < |a| ==> a[i] == whole[i];
      assert forall i :: 0 <= i < |b| ==> b[i] == whole[|a| + i];
      forall x, y | x in a && y in b
        ensures Earlier(x, y)
      {
        var i :| 0 <= i < |a| && a[i] == x;
        var j :| 0 <= j < |b| && b[j] == y;
        assert Earlier(whole[i], whole[|a| + j]);
      }
    }
    if InFileOrder(a) && InFileOrder(b) && AllEarlier(a, b) {
      forall i, j | 0 <= i < j < |whole|
        ensures Earlier(whole[i], whole[j])
      {
        assert i < |a| ==> a[i] in a;
        assert j >= |a| ==> b[j - |a|] in b;
      }
    }
  }

  lemma {:induction false} FramesInOrder(texts: seq<Bytes>)
    ensures InFileOrder(Flatten(TaggedFrames(texts)))
    ensures forall x :: x in Flatten(TaggedFrames(texts)) ==>
              x.frame < |texts| && x.index < |Lines(texts[x.frame])| && x.text == Lines(texts[x.frame])[x.index]
  {
    hide Flatten, Lines;
    var frames := TaggedFrames(texts);
    if texts == [] {
      assert frames == [];
      FlattenNone<Line>();
    } else {
      var front, last := texts[..|texts| - 1], |texts| - 1;
      FramesInOrder(front);
      var tagged := Tagged(last, Lines(texts[last]));
      assert frames == TaggedFrames(front) + [tagged];
      FlattenLast(TaggedFrames(front), tagged);
      assert forall x :: x in tagged ==> x.frame == last;
      assert InFileOrder(tagged);
      OrderOfConcat(Flatten(TaggedFrames(front)), tagged);
    }
  }

  lemma {:induction false} FilterInOrder(keep: Line -> bool, lines: seq<Line>)
    requires InFileOrder(lines)
    ensures InFileOrder(Filter(keep, lines))
  {
    if lines != [] {
      assert lines == [lines[0]] + lines[1..];
      OrderOfConcat([lines[0]], lines[1..]);
      FilterInOrder(keep, lines[1..]);
      OrderOfConcat(if keep(lines[0]) then [lines[0]] else [], Filter(keep, lines[1..]));
    }
  }

  // Prefixes of consecutive parts stay in order.
  lemma {:induction false} PrefixesInOrder(lists: seq<seq<Line>>, fronts: seq<seq<Line>>)
    requires |fronts| == |lists| && forall w :: 0 <= w < |lists| ==> fronts[w] <= lists[w]
    requires InFileOrder(Flatten(lists))
    ensures InFileOrder(Flatten(fronts))
    ensures forall x :: x in Flatten(fronts) ==> x in Flatten(lists)
  {
    if lists != [] {
      var rest, rest' := Flatten(lists[1..]), Flatten(fronts[1..]);
      OrderOfConcat(lists[0], rest);
      PrefixesInOrder(lists[1..], fronts[1..]);
      assert lists[0] == fronts[0] + lists[0][|fronts[0]|..];
      OrderOfConcat(fronts[0], lists[0][|fronts[0]|..]);
      OrderOfConcat(fronts[0], rest');
    }
  }

  lemma AcceptedInOrder(q: Query, texts: seq<Bytes>, threads: nat)
    requires threads > 0
    ensures InFileOrder(AllAccepted(JobOf(q, texts, threads)))
    ensures forall x :: x in AllAccepted(JobOf(q, texts, threads)) ==>
              && x.frame < |texts| && x.index < |Lines(texts[x.frame])|
              && x.text == Lines(texts[x.frame])[x.index] && Accepts(q.filter)(x.text)
  {
    hide Flatten, Filter, Lines, ChunksOf;
    var job := JobOf(q, texts, threads);
    ChunksCover(TaggedFrames(texts), threads);
    FlattenTwice(job.chunks);
    FramesInOrder(texts);
    FilterFlatten(AcceptLine(q.filter), FlattenEach(job.chunks), AcceptedLists(job));
    FilterInOrder(AcceptLine(q.filter), Flatten(TaggedFrames(texts)));
  }

  lemma InOrderNoDuplicates(lines: seq<Line>)
    requires InFileOrder(lines)
    ensures NoDuplicates(lines)
  {
    forall i, j | 0 <= i < j < |lines|
      ensures lines[i] != lines[j]
    {
      assert Earlier(lines[i], lines[j]);
    }
  }

  // However the workers interleave, a scan pushes lines of the frames that pass
  // the filter, none of them twice, and puts them together in file order; with
  // slice `n`, and no worker stopped by an unreadable line, exactly
  // min(n, accepted lines) of them.
  lemma SlicePushesOnce(q: Query, texts: seq<Bytes>, threads: nat, run: seq<State<Line>>)
    requires threads > 0
    requires IsRun(JobOf(q, texts, threads), run) && Finished(run[|run| - 1])
    ensures
      var joined := Joined(run[|run| - 1]);
      && (q.limit.Some? && NoneBroken(run[|run| - 1]) ==>
            |joined| == Min(q.limit.value, |Filter(Accepts(q.filter), LinesOfAll(texts))|))
      && InFileOrder(joined) && NoDuplicates(joined)
      && forall x :: x in joined ==>
           && x.frame < |texts| && x.index < |Lines(texts[x.frame])|
           && x.text == Lines(texts[x.frame])[x.index] && Accepts(q.filter)(x.text)
  {
    hide Flatten, Filter, Lines, ChunksOf, IsRun, InFileOrder, NoDuplicates, Sum;
    RunIsNotEmpty(JobOf(q, texts, threads), run);
    var job, s := JobOf(q, texts, threads), run[|run| - 1];
    AcceptedCount(q, texts, threads);
    if q.limit.Some? && NoneBroken(s) {
      JoinedLength(job, run);
    }
    FinishedRunFillsSlice(job, run);
    AcceptedInOrder(q, texts, threads);
    PrefixesInOrder(AcceptedLists(job), PushedLists(s));
    InOrderNoDuplicates(Joined(s));
  }

  lemma AcceptedCount(q: Query, texts: seq<Bytes>, threads: nat)
    requires threads > 0
    ensures var job := JobOf(q, texts, threads);
            ChunksNonEmpty(job) && TextsOf(AllAccepted(job)) == Filter(Accepts(q.filter), LinesOfAll(texts))
  {
    hide Flatten, Filter, ChunksOf;
    var job := JobOf(q, texts, threads);
    ChunksCover(TaggedFrames(texts), threads);
    FlattenTwice(job.chunks);
    TextsOfFrames(texts);
    FilterFlatten(AcceptLine(q.filter), FlattenEach(job.chunks), AcceptedLists(job));
    TextsOfAccepted(q, Flatten(FlattenEach(job.chunks)));
  }

  // The lines a scan with slice `n` pushes, if it meets no unreadable line, are
  // the first `n` accepted lines of the file when there is nothing to choose;
  // on readable lines that is exactly when every interleaving gives them.
  lemma SliceIsFirstRowsIff(q: Query, texts: seq<Bytes>, threads: nat)
    requires threads > 0 && q.limit.Some?
    ensures
      var job := JobOf(q, texts, threads);
      var nothingToChoose := q.limit.value == 0 || |AllAccepted(job)| <= q.limit.value || OneBusyChunk(job);
      && (nothingToChoose ==> forall run :: GivesFirstRows(job, run))
      && (JobReadable(job) && (forall run :: GivesFirstRows(job, run)) ==> nothingToChoose)
  {
    hide AllAccepted, GivesFirstRows, NoDuplicates, ChunksNonEmpty, JobReadable;
    AcceptedCount(q, texts, threads);
    AcceptedInOrder(q, texts, threads);
    InOrderNoDuplicates(AllAccepted(JobOf(q, texts, threads)));
    FirstRowsIff(JobOf(q, texts, threads));
  }
}
