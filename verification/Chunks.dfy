// Sharing the frames out among the workers.
module Chunks {
  import opened Text

  const MAX_WORKERS: nat := 8

  function Workers(frames: nat, maxInflight: nat): nat {
    Min(MAX_WORKERS, Min(maxInflight, frames))
  }

  function ChunkSize(frames: nat, workers: nat): nat
    requires workers > 0
  {
    (frames + workers - 1) / workers
  }

  // The chunks of the workers from `w` on; a worker past the end gets none.
  function ChunksFrom<T>(xs: seq<T>, w: nat, workers: nat, size: nat): (chunks: seq<seq<T>>)
    decreases workers - w
  {
    if w >= workers then []
    else
      (if w * size < |xs| then [xs[w * size..Min(w * size + size, |xs|)]] else [])
      + ChunksFrom(xs, w + 1, workers, size)
  }

  function ChunksOf<T>(frames: seq<T>, maxInflight: nat): (chunks: seq<seq<T>>) {
    var workers := Workers(|frames|, maxInflight);
    if workers == 0 then [] else ChunksFrom(frames, 0, workers, ChunkSize(|frames|, workers))
  }

  // With `size` frames each, and with no less, that many workers take them all.
  predicate FewestFrames(size: int, frames: nat, workers: nat) {
    size > 0 && workers * (size - 1) < frames <= workers * size
  }

  lemma {:induction false} ChunksFromCover<T>(xs: seq<T>, w: nat, workers: nat, size: nat)
    requires size > 0 && w <= workers && |xs| <= workers * size
    ensures var chunks := ChunksFrom(xs, w, workers, size);
            && Flatten(chunks) == xs[Min(w * size, |xs|)..]
            && |chunks| <= workers - w
            && (forall c :: 0 <= c < |chunks| ==> chunks[c] != [] && |chunks[c]| <= size)
            && (forall c :: 0 <= c < |chunks| - 1 ==> |chunks[c]| == size)
            && (chunks == [] <==> w * size >= |xs|)
    decreases workers - w
  {
    hide Flatten;
    FlattenNone<T>();
    if w < workers {
      ChunksFromCover(xs, w + 1, workers, size);
      assert (w + 1) * size == w * size + size;
      var rest := ChunksFrom(xs, w + 1, workers, size);
      OneChunkMore(xs, w * size, size, rest);
      assert w * size >= |xs| ==> ChunksFrom(xs, w, workers, size) == rest;
      assert w * size < |xs| ==> ChunksFrom(xs, w, workers, size)[1..] == rest;
    }
  }

  lemma OneChunkMore<T>(xs: seq<T>, from: nat, size: nat, rest: seq<seq<T>>)
    requires Flatten(rest) == xs[Min(from + size, |xs|)..]
    ensures var here := if from < |xs| then [xs[from..Min(from + size, |xs|)]] else [];
            Flatten(here + rest) == xs[Min(from, |xs|)..]
  {
    if from < |xs| {
      var chunk := xs[from..Min(from + size, |xs|)];
      assert ([chunk] + rest)[1..] == rest;
    } else {
      assert [] + rest == rest;
    }
  }

  // The chunk size is the least one for which the workers take all frames.
  lemma CeilingCovers(frames: nat, workers: nat)
    requires 0 < workers <= frames
    ensures var size := ChunkSize(frames, workers);
            size > 0 && frames <= workers * size && workers * (size - 1) < frames
  {
    var size := ChunkSize(frames, workers);
    assert frames + workers - 1 == workers * size + (frames + workers - 1) % workers;
    assert workers * (size - 1) == workers * size - workers;
  }

  // The chunks that are kept are non-empty and put together, in order, are the
  // frames; there are at most as many as frames, threads and 8. All but the last
  // are as long as it takes for that many workers, and no longer.
  lemma ChunksCover<T>(frames: seq<T>, maxInflight: nat)
    requires maxInflight > 0
    ensures var chunks := ChunksOf(frames, maxInflight);
            && Flatten(chunks) == frames
            && |chunks| <= Min(8, Min(maxInflight, |frames|))
            && (forall c :: 0 <= c < |chunks| ==> chunks[c] != [])
            && (frames != [] ==>
                  exists size :: FewestFrames(size, |frames|, Min(8, Min(maxInflight, |frames|)))
                                 && (forall c :: 0 <= c < |chunks| ==> |chunks[c]| <= size)
                                 && forall c :: 0 <= c < |chunks| - 1 ==> |chunks[c]| == size)
  {
    var workers := Workers(|frames|, maxInflight);
    if workers > 0 {
      CeilingCovers(|frames|, workers);
      ChunksFromCover(frames, 0, workers, ChunkSize(|frames|, workers));
      assert frames[0..] == frames;
      assert FewestFrames(ChunkSize(|frames|, workers), |frames|, workers);
    }
  }
}
