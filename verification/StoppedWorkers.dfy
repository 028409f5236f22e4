// When a slice keeps the workers from a line that is not readable: which of
// them can be stopped by one, and whether all of them can get by.
module StoppedWorkers {
  import opened Text
  import opened RowBudget
  import opened FirstRows

  // The lines in front of the first one that is not readable.
  function ReadablePart<T>(readable: T -> bool, lines: seq<T>): (front: seq<T>)
    ensures front <= lines
  {
    if lines == [] || !readable(lines[0]) then [] else [lines[0]] + ReadablePart(readable, lines[1..])
  }

  // How many rows a worker can push and still be kept from the first line of
  // its chunk that is not readable. If accepted lines come before that line in
  // its frame, the claim for the last of them has to fail; if none does, the
  // frame must not be opened.
  function SafeRows<T>(job: Job<T>, chunk: seq<seq<T>>): (n: nat) {
    if chunk == [] then 0
    else
      var front := ReadablePart(job.readable, chunk[0]);
      var b := |Filter(job.accept, front)|;
      if |front| == |chunk[0]| then b + SafeRows(job, chunk[1..]) else if b > 0 then b - 1 else 0
  }

  function SafeCounts<T>(job: Job<T>): (counts: seq<nat>)
    ensures |counts| == |job.chunks|
    ensures forall w :: 0 <= w < |job.chunks| ==> counts[w] == SafeRows(job, job.chunks[w])
  {
    seq(|job.chunks|, w requires 0 <= w < |job.chunks| => SafeRows(job, job.chunks[w]))
  }

  // ---- positions in a chunk

  function PassedAt<T>(chunk: seq<seq<T>>, g: nat, l: nat): (lines: seq<T>)
    requires g < |chunk| && l <= |chunk[g]|
  {
    Flatten(chunk[..g]) + chunk[g][..l]
  }

  lemma PassedAtNext<T>(chunk: seq<seq<T>>, g: nat, l: nat)
    requires 0 < g < |chunk| && l <= |chunk[g]|
    ensures PassedAt(chunk, g, l) == chunk[0] + PassedAt(chunk[1..], g - 1, l)
  {
    assert chunk[..g][0] == chunk[0] && chunk[..g][1..] == chunk[1..][..g - 1];
    Associative(chunk[0], Flatten(chunk[1..][..g - 1]), chunk[g][..l]);
  }

  lemma ReadableParts<T>(readable: T -> bool, a: seq<T>, b: seq<T>)
    ensures AllReadable(readable, a + b) <==> AllReadable(readable, a) && AllReadable(readable, b)
  {
    assert forall i :: 0 <= i < |a| ==> (a + b)[i] == a[i];
    assert forall i :: 0 <= i < |b| ==> (a + b)[|a| + i] == b[i];
  }

  lemma {:induction false} PartIsWhole<T>(readable: T -> bool, lines: seq<T>)
    ensures AllReadable(readable, ReadablePart(readable, lines))
    ensures AllReadable(readable, lines) <==> ReadablePart(readable, lines) == lines
  {
    if lines != [] && readable(lines[0]) {
      PartIsWhole(readable, lines[1..]);
      assert lines == [lines[0]] + lines[1..];
      ReadableParts(readable, [lines[0]], lines[1..]);
      ReadableParts(readable, [lines[0]], ReadablePart(readable, lines[1..]));
    }
  }

  // A readable front is within the readable part, and is it when a line that is
  // not readable follows.
  lemma {:induction false} PartReaches<T>(readable: T -> bool, lines: seq<T>, l: nat)
    requires l <= |lines| && AllReadable(readable, lines[..l])
    ensures lines[..l] <= ReadablePart(readable, lines)
    ensures l < |lines| && !readable(lines[l]) ==> ReadablePart(readable, lines) == lines[..l]
  {
    if l > 0 {
      assert lines[..l][0] == lines[0];
      assert lines[..l] == [lines[0]] + lines[1..][..l - 1];
      ReadableParts(readable, [lines[0]], lines[1..][..l - 1]);
      PartReaches(readable, lines[1..], l - 1);
    }
  }

  lemma SafeFirst<T>(job: Job<T>, chunk: seq<seq<T>>)
    requires chunk != []
    ensures AllReadable(job.readable, chunk[0]) ==>
              SafeRows(job, chunk) == |Filter(job.accept, chunk[0])| + SafeRows(job, chunk[1..])
    ensures !AllReadable(job.readable, chunk[0]) ==>
              SafeRows(job, chunk)
              == (var b := |Filter(job.accept, ReadablePart(job.readable, chunk[0]))|; if b > 0 then b - 1 else 0)
  {
    hide Filter, AllReadable, ReadablePart;
    PartIsWhole(job.readable, chunk[0]);
    var part := ReadablePart(job.readable, chunk[0]);
    assert |part| == |chunk[0]| ==> part == chunk[0];
  }

  // At the first line that is not readable.
  lemma {:induction false} SafeAtBadLine<T>(job: Job<T>, chunk: seq<seq<T>>, g: nat, l: nat)
    requires g < |chunk| && l < |chunk[g]| && !job.readable(chunk[g][l])
    requires AllReadable(job.readable, PassedAt(chunk, g, l))
    ensures SafeRows(job, chunk)
            == |Filter(job.accept, PassedAt(chunk, g, l))|
               - (if Filter(job.accept, chunk[g][..l]) != [] then 1 else 0)
  {
    hide Filter, AllReadable, ReadablePart, SafeRows;
    SafeFirst(job, chunk);
    if g > 0 {
      PassedAtNext(chunk, g, l);
      ReadableParts(job.readable, chunk[0], PassedAt(chunk[1..], g - 1, l));
      FilterConcat(job.accept, chunk[0], PassedAt(chunk[1..], g - 1, l));
      SafeAtBadLine(job, chunk[1..], g - 1, l);
    } else {
      FirstPassed(chunk, l);
      BadLineIsThere(job.readable, chunk[0], l);
      PartReaches(job.readable, chunk[0], l);
    }
  }

  lemma FirstPassed<T>(chunk: seq<seq<T>>, l: nat)
    requires chunk != [] && l <= |chunk[0]|
    ensures PassedAt(chunk, 0, l) == chunk[0][..l]
  {
    assert chunk[..0] == [];
  }

  lemma BadLineIsThere<T>(readable: T -> bool, lines: seq<T>, l: nat)
    requires l < |lines| && !readable(lines[l])
    ensures !AllReadable(readable, lines)
  {
  }

  // A worker that stops in front of a frame, or at an accepted line that it may
  // read, has pushed no more than that.
  lemma {:induction false} SafeAtStop<T>(job: Job<T>, chunk: seq<seq<T>>, g: nat, l: nat)
    requires g < |chunk| && l <= |chunk[g]| && AllReadable(job.readable, PassedAt(chunk, g, l))
    requires l == 0 || (l < |chunk[g]| && job.readable(chunk[g][l]) && job.accept(chunk[g][l]))
    ensures |Filter(job.accept, PassedAt(chunk, g, l))| <= SafeRows(job, chunk)
  {
    hide Filter, AllReadable, ReadablePart, SafeRows;
    SafeFirst(job, chunk);
    if g > 0 {
      PassedAtNext(chunk, g, l);
      ReadableParts(job.readable, chunk[0], PassedAt(chunk[1..], g - 1, l));
      FilterConcat(job.accept, chunk[0], PassedAt(chunk[1..], g - 1, l));
      SafeAtStop(job, chunk[1..], g - 1, l);
    } else {
      FirstPassed(chunk, l);
      if l > 0 {
        ClaimInFrame(job, chunk[0], l);
        PartLength(job, chunk[0]);
      } else {
        NothingFiltered(job.accept);
        assert chunk[0][..0] == [];
      }
    }
  }

  lemma NothingFiltered<T>(keep: T -> bool)
    ensures Filter(keep, []) == []
  {
  }

  lemma PartLength<T>(job: Job<T>, frame: seq<T>)
    ensures |Filter(job.accept, ReadablePart(job.readable, frame))| <= |Filter(job.accept, frame)|
  {
    hide Filter;
    var part := ReadablePart(job.readable, frame);
    assert frame == part + frame[|part|..];
    FilterConcat(job.accept, part, frame[|part|..]);
  }

  // The accepted line at which a claim fails counts as well.
  lemma ClaimInFrame<T>(job: Job<T>, frame: seq<T>, l: nat)
    requires l < |frame| && AllReadable(job.readable, frame[..l])
    requires job.readable(frame[l]) && job.accept(frame[l])
    ensures |Filter(job.accept, frame[..l])| < |Filter(job.accept, ReadablePart(job.readable, frame))|
  {
    hide Filter, ReadablePart;
    assert frame[..l + 1] == frame[..l] + [frame[l]];
    PartReaches(job.readable, frame, l + 1);
    FilterConcat(job.accept, frame[..l], [frame[l]]);
    FilterOne(job.accept, frame[l]);
    var part := ReadablePart(job.readable, frame);
    assert part == frame[..l + 1] + part[l + 1..];
    FilterConcat(job.accept, frame[..l + 1], part[l + 1..]);
  }

  lemma {:induction false} SafeOfReadable<T>(job: Job<T>, chunk: seq<seq<T>>)
    requires AllReadable(job.readable, Flatten(chunk))
    ensures SafeRows(job, chunk) == |Filter(job.accept, Flatten(chunk))|
  {
    hide Filter, AllReadable, ReadablePart;
    if chunk != [] {
      ReadableParts(job.readable, chunk[0], Flatten(chunk[1..]));
      FilterConcat(job.accept, chunk[0], Flatten(chunk[1..]));
      SafeFirst(job, chunk);
      SafeOfReadable(job, chunk[1..]);
    } else {
      NothingFiltered(job.accept);
    }
  }

  // ---- what a slice allows a worker

  // With slice `n` a worker reads a frame only while the slice is open.
  ghost predicate ClaimInv<T>(job: Job<T>, chunk: seq<seq<T>>, n: nat, k: Worker<T>) {
    && InChunk(chunk, k) && |k.pushed| <= k.seen
    && (k.phase.Reading? || k.phase.Broken? ==>
          k.frame < |chunk| && k.seen <= n
          && (Filter(job.accept, chunk[k.frame][..k.line]) == [] ==> k.seen < n))
    && (k.capped ==>
          k.frame < |chunk|
          && (k.line == 0 || (k.line < |chunk[k.frame]| && job.readable(chunk[k.frame][k.line])
                              && job.accept(chunk[k.frame][k.line]))))
  }

  lemma FilterOneMoreLine<T>(accept: T -> bool, frame: seq<T>, l: nat)
    requires l < |frame|
    ensures Filter(accept, frame[..l + 1]) == Filter(accept, frame[..l]) + if accept(frame[l]) then [frame[l]] else []
  {
    assert frame[..l + 1] == frame[..l] + [frame[l]];
    FilterConcat(accept, frame[..l], [frame[l]]);
    FilterOne(accept, frame[l]);
  }

  lemma StepKeepsClaims<T>(job: Job<T>, chunk: seq<seq<T>>, n: nat, c: nat, k: Worker<T>, v: nat,
                           c': nat, k': Worker<T>)
    requires job.limit == Some(n) && WorkerInv(job, chunk, k) && k.seen <= c && ClaimInv(job, chunk, n, k)
    requires WorkerStep(job, chunk, c, k, v, c', k')
    ensures ClaimInv(job, chunk, n, k')
  {
    hide Filter, Passed, AllReadable;
    if OpenFrame(job, chunk, c, k, v, c', k') {
      NothingFiltered(job.accept);
      assert chunk[k.frame][..0] == [];
    } else if ReadLine(job, chunk, c, k, c', k') {
      FilterOneMoreLine(job.accept, chunk[k.frame], k.line);
    }
  }

  ghost predicate AllClaims<T>(job: Job<T>, n: nat, s: State<T>) {
    && |s.workers| == |job.chunks|
    && forall w :: 0 <= w < |s.workers| ==> ClaimInv(job, job.chunks[w], n, s.workers[w])
  }

  lemma {:induction false} RunKeepsClaims<T>(job: Job<T>, run: seq<State<T>>, n: nat)
    requires ChunksNonEmpty(job) && IsRun(job, run) && job.limit == Some(n)
    ensures AllClaims(job, n, run[|run| - 1])
  {
    hide Inv, WorkerInv, WorkerStep, ClaimInv;
    if |run| == 1 {
      forall w | 0 <= w < |job.chunks|
        ensures ClaimInv(job, job.chunks[w], n, run[0].workers[w])
      {
        StartsClaims(job, n, w);
      }
    } else {
      var front := run[..|run| - 1];
      RunKeepsClaims(job, front, n);
      RunKeepsInv(job, run);
      var s, s' := run[|run| - 2], run[|run| - 1];
      assert front[|run| - 2] == s && Next(job, s, s');
      var w: nat, v: nat :| StepBy(job, s, s', w, v);
      InvWorker(job, s, w);
      StepKeepsClaims(job, job.chunks[w], n, s.counter, s.workers[w], v, s'.counter, s'.workers[w]);
      assert forall x :: 0 <= x < |s'.workers| && x != w ==> s'.workers[x] == s.workers[x];
    }
  }

  lemma StartsClaims<T>(job: Job<T>, n: nat, w: nat)
    requires ChunksNonEmpty(job) && w < |job.chunks|
    ensures ClaimInv(job, job.chunks[w], n, Init(job).workers[w])
  {
  }

  // A worker that a slice stopped has pushed no more than its safe rows.
  lemma CappedIsSafe<T>(job: Job<T>, run: seq<State<T>>, w: nat)
    requires ChunksNonEmpty(job) && IsRun(job, run) && job.limit.Some? && w < |job.chunks|
    requires |run[|run| - 1].workers| == |job.chunks| && run[|run| - 1].workers[w].capped
    ensures |run[|run| - 1].workers[w].pushed| <= SafeRows(job, job.chunks[w])
  {
    hide Filter, AllReadable, SafeRows, IsRun, Inv;
    RunKeepsInv(job, run);
    RunIsNotEmpty(job, run);
    RunKeepsClaims(job, run, job.limit.value);
    var k, chunk := run[|run| - 1].workers[w], job.chunks[w];
    InvWorker(job, run[|run| - 1], w);
    assert ClaimInv(job, chunk, job.limit.value, k);
    assert Passed(chunk, k) == PassedAt(chunk, k.frame, k.line);
    SafeAtStop(job, chunk, k.frame, k.line);
  }

  // A worker that a line stopped got there before the slice was full.
  lemma BrokenIsBelow<T>(job: Job<T>, run: seq<State<T>>, w: nat)
    requires ChunksNonEmpty(job) && IsRun(job, run) && job.limit.Some? && w < |job.chunks|
    requires |run[|run| - 1].workers| == |job.chunks| && run[|run| - 1].workers[w].phase.Broken?
    ensures SafeRows(job, job.chunks[w]) < job.limit.value
    ensures !AllReadable(job.readable, Flatten(job.chunks[w]))
  {
    hide Filter, AllReadable, SafeRows, IsRun, Inv, Flatten;
    RunKeepsInv(job, run);
    RunIsNotEmpty(job, run);
    RunKeepsClaims(job, run, job.limit.value);
    var k, chunk := run[|run| - 1].workers[w], job.chunks[w];
    InvWorker(job, run[|run| - 1], w);
    assert ClaimInv(job, chunk, job.limit.value, k);
    assert Passed(chunk, k) == PassedAt(chunk, k.frame, k.line);
    SafeAtBadLine(job, chunk, k.frame, k.line);
    BrokenChunk(job, chunk, k);
  }

  // ---- who can be stopped

  // The chunk has a line that is not readable, and the slice is wide enough to
  // let the worker get to it.
  predicate CanBeStopped<T(==)>(job: Job<T>, w: nat)
    requires w < |job.chunks|
  {
    && !AllReadable(job.readable, Flatten(job.chunks[w]))
    && (job.limit.Some? ==> SafeRows(job, job.chunks[w]) < job.limit.value)
  }

  ghost predicate Stops<T>(job: Job<T>, run: seq<State<T>>, w: nat) {
    && IsRun(job, run) && Finished(run[|run| - 1])
    && w < |run[|run| - 1].workers| && run[|run| - 1].workers[w].phase.Broken?
  }

  // The run in which it goes first.
  lemma StoppingRun<T>(job: Job<T>, w: nat) returns (run: seq<State<T>>)
    requires ChunksNonEmpty(job) && w < |job.chunks| && CanBeStopped(job, w)
    ensures Stops(job, run, w) && |run[|run| - 1].workers| == |job.chunks|
  {
    hide Inv, WorkerMeasure, SafeRows, AllReadable, Flatten, Advance, Filter;
    var first := FinishWorker(job, [Init(job)], w);
    var s := first[|first| - 1];
    RunKeepsInv(job, first);
    InvWorker(job, s, w);
    var k := s.workers[w];
    if !k.phase.Broken? {
      PushedIsPrefix(job, job.chunks[w], k);
      assert k.capped;
      CapNeedsLimit(job, s, w);
      CappedIsSafe(job, first, w);
      AloneFills(job, s, w);
      assert false;
    }
    run := FinishAll(job, first, 0);
  }

  lemma CapNeedsLimit<T>(job: Job<T>, s: State<T>, w: nat)
    requires Inv(job, s) && w < |s.workers| && s.workers[w].capped
    ensures job.limit.Some? && Pushed(s) == job.limit.value
  {
  }

  // If nobody else pushed, the slice is full with the rows of one worker.
  lemma AloneFills<T>(job: Job<T>, s: State<T>, w: nat)
    requires Inv(job, s) && w < |s.workers| && s.workers[w].capped
    requires forall x :: 0 <= x < |s.workers| && x != w ==> s.workers[x].pushed == []
    ensures job.limit.Some? && |s.workers[w].pushed| == job.limit.value
  {
    hide Sum;
    CapNeedsLimit(job, s, w);
    var counts := PushedCounts(s.workers);
    SumUpdate(counts, w, 0);
    SumOfZeros(counts[w := 0]);
  }

  // A worker is stopped by a line in some run exactly when that line can be
  // got to before the slice is full.
  lemma CanBeStoppedIff<T(!new)>(job: Job<T>, w: nat)
    requires ChunksNonEmpty(job) && w < |job.chunks|
    ensures (exists run: seq<State<T>> :: Stops(job, run, w)) <==> CanBeStopped(job, w)
  {
    hide IsRun, Finished, SafeRows, AllReadable, Flatten, Inv;
    if run: seq<State<T>> :| Stops(job, run, w) {
      RunIsNotEmpty(job, run);
      RunsAreBounded(job, run);
      if job.limit.Some? {
        BrokenIsBelow(job, run, w);
      } else {
        RunKeepsInv(job, run);
        InvWorker(job, run[|run| - 1], w);
        BrokenChunk(job, job.chunks[w], run[|run| - 1].workers[w]);
      }
    }
    if CanBeStopped(job, w) {
      var run := StoppingRun(job, w);
    }
  }

  // ---- whether all can get by

  // Before the next line that is not readable there is one to claim a slot for.
  predicate SafeAhead<T>(job: Job<T>, lines: seq<T>) {
    lines == [] || (job.readable(lines[0]) && (job.accept(lines[0]) || SafeAhead(job, lines[1..])))
  }

  ghost predicate Safe<T>(job: Job<T>, chunk: seq<seq<T>>, k: Worker<T>) {
    && InChunk(chunk, k) && !k.phase.Broken?
    && (k.phase.Reading? ==> k.frame < |chunk| && SafeAhead(job, chunk[k.frame][k.line..]))
  }

  // Otherwise the next line of interest is one that is not readable.
  lemma {:induction false} BadLineAhead<T>(job: Job<T>, lines: seq<T>) returns (l: nat)
    requires !SafeAhead(job, lines)
    ensures l < |lines| && !job.readable(lines[l])
    ensures AllReadable(job.readable, lines[..l]) && Filter(job.accept, lines[..l]) == []
  {
    if !job.readable(lines[0]) {
      return 0;
    }
    var m := BadLineAhead(job, lines[1..]);
    l := m + 1;
    assert lines[..l] == [lines[0]] + lines[1..][..m];
    ReadableParts(job.readable, [lines[0]], lines[1..][..m]);
    FilterConcat(job.accept, [lines[0]], lines[1..][..m]);
    FilterOne(job.accept, lines[0]);
  }

  // A worker that just pushed the last of its safe rows is safe.
  lemma SafeAfterPush<T>(job: Job<T>, chunk: seq<seq<T>>, k: Worker<T>)
    requires WorkerInv(job, chunk, k) && k.phase.Reading? && |k.pushed| <= SafeRows(job, chunk)
    requires Filter(job.accept, chunk[k.frame][..k.line]) != []
    ensures Safe(job, chunk, k)
  {
    hide Filter, AllReadable, SafeRows, Flatten, SafeAhead;
    var frame := chunk[k.frame];
    if !SafeAhead(job, frame[k.line..]) {
      var m := BadLineAhead(job, frame[k.line..]);
      var l := k.line + m;
      assert frame[l] == frame[k.line..][m];
      assert frame[..l] == frame[..k.line] + frame[k.line..][..m];
      Associative(Flatten(chunk[..k.frame]), frame[..k.line], frame[k.line..][..m]);
      assert PassedAt(chunk, k.frame, l) == Passed(chunk, k) + frame[k.line..][..m];
      ReadableParts(job.readable, Passed(chunk, k), frame[k.line..][..m]);
      FilterConcat(job.accept, Passed(chunk, k), frame[k.line..][..m]);
      FilterConcat(job.accept, frame[..k.line], frame[k.line..][..m]);
      SafeAtBadLine(job, chunk, k.frame, l);
    }
  }

  // A worker that has safe rows left has not ended, unless the slice is full.
  lemma NotEnded<T>(job: Job<T>, chunk: seq<seq<T>>, k: Worker<T>)
    requires WorkerInv(job, chunk, k) && !k.capped && |k.pushed| < SafeRows(job, chunk)
    ensures !Ended(k)
  {
    hide Filter, AllReadable, SafeRows, Flatten;
    if k.phase.Broken? {
      assert Passed(chunk, k) == PassedAt(chunk, k.frame, k.line);
      SafeAtBadLine(job, chunk, k.frame, k.line);
    } else if k.phase.Done? {
      PushedIsPrefix(job, chunk, k);
      SafeOfReadable(job, chunk);
    }
  }

  // A step that pushes.
  lemma PushedLine<T>(job: Job<T>, chunk: seq<seq<T>>, c: nat, k: Worker<T>, v: nat, c': nat, k': Worker<T>)
    requires WorkerInv(job, chunk, k) && WorkerStep(job, chunk, c, k, v, c', k') && |k'.pushed| > |k.pushed|
    ensures k'.phase.Reading? && k'.frame < |chunk| && k'.line <= |chunk[k'.frame]|
    ensures Filter(job.accept, chunk[k'.frame][..k'.line]) != []
  {
    hide Filter, AllReadable, Passed;
    FilterOneMoreLine(job.accept, chunk[k.frame], k.line);
  }

  // Worker `w` alone goes on until it has pushed `p` of its safe rows.
  lemma {:induction false} PushOn<T>(job: Job<T>, run: seq<State<T>>, w: nat, p: nat)
    returns (longer: seq<State<T>>)
    requires ChunksNonEmpty(job) && IsRun(job, run) && job.limit.Some? && w < |job.chunks|
    requires var s := run[|run| - 1];
             && |s.workers| == |job.chunks| && !s.workers[w].capped
             && |s.workers[w].pushed| < p <= SafeRows(job, job.chunks[w])
             && s.counter + p - |s.workers[w].pushed| <= job.limit.value
    ensures IsRun(job, longer)
    ensures
      var s, s' := run[|run| - 1], longer[|longer| - 1];
      && |s'.workers| == |job.chunks|
      && |s'.workers[w].pushed| == p && s'.counter == s.counter + p - |s.workers[w].pushed|
      && Safe(job, job.chunks[w], s'.workers[w])
      && forall x :: 0 <= x < |s.workers| && x != w ==> s'.workers[x] == s.workers[x]
    decreases WorkerMeasure(job.chunks[w], run[|run| - 1].workers[w])
  {
    hide Inv, WorkerInv, WorkerMeasure, Advance, SafeRows, Safe, Filter;
    RunKeepsInv(job, run);
    var s, chunk := run[|run| - 1], job.chunks[w];
    InvWorker(job, s, w);
    NotEnded(job, chunk, s.workers[w]);
    AdvanceIsStep(job, s, w);
    var s' := Advance(job, s, w);
    var k, k' := s.workers[w], s'.workers[w];
    WorkerStepDecreases(job, chunk, s.counter, k, s.counter, s'.counter, k');
    WorkerStepAccounts(job, chunk, s.counter, k, s.counter, s'.counter, k');
    WorkerStepKeepsInv(job, chunk, s.counter, k, s.counter, s'.counter, k');
    assert Next(job, s, s');
    longer := run + [s'];
    if |k'.pushed| == p {
      PushedLine(job, chunk, s.counter, k, s.counter, s'.counter, k');
      SafeAfterPush(job, chunk, k');
    } else {
      longer := PushOn(job, longer, w, p);
    }
  }

  // Once the slice is full, a safe worker ends without meeting a line that is
  // not readable.
  lemma {:induction false} EndSafely<T>(job: Job<T>, run: seq<State<T>>, w: nat) returns (longer: seq<State<T>>)
    requires ChunksNonEmpty(job) && IsRun(job, run) && job.limit.Some? && w < |job.chunks|
    requires var s := run[|run| - 1];
             |s.workers| == |job.chunks| && s.counter >= job.limit.value && Safe(job, job.chunks[w], s.workers[w])
    ensures IsRun(job, longer)
    ensures
      var s, s' := run[|run| - 1], longer[|longer| - 1];
      && |s'.workers| == |job.chunks| && s'.counter >= job.limit.value
      && s'.workers[w].phase.Done?
      && forall x :: 0 <= x < |s.workers| && x != w ==> s'.workers[x] == s.workers[x]
    decreases WorkerMeasure(job.chunks[w], run[|run| - 1].workers[w])
  {
    hide Inv, WorkerInv, WorkerMeasure, Advance, Safe;
    RunKeepsInv(job, run);
    var s, chunk := run[|run| - 1], job.chunks[w];
    InvWorker(job, s, w);
    var k := s.workers[w];
    SafeIsUnbroken(job, chunk, k);
    if k.phase.Done? {
      return run;
    }
    AdvanceIsStep(job, s, w);
    var s' := Advance(job, s, w);
    WorkerStepDecreases(job, chunk, s.counter, k, s.counter, s'.counter, s'.workers[w]);
    SafeStep(job, s, w);
    assert Next(job, s, s');
    longer := EndSafely(job, run + [s'], w);
  }

  lemma SafeIsUnbroken<T>(job: Job<T>, chunk: seq<seq<T>>, k: Worker<T>)
    requires Safe(job, chunk, k)
    ensures !k.phase.Broken?
  {
  }

  lemma SafeStep<T>(job: Job<T>, s: State<T>, w: nat)
    requires w < |s.workers| == |job.chunks| && job.limit.Some? && s.counter >= job.limit.value
    requires WorkerInv(job, job.chunks[w], s.workers[w]) && Safe(job, job.chunks[w], s.workers[w])
    ensures var s' := Advance(job, s, w);
            s'.counter >= s.counter && Safe(job, job.chunks[w], s'.workers[w])
  {
    hide Filter, Passed, AllReadable;
    var k, chunk := s.workers[w], job.chunks[w];
    if k.phase.Reading? && k.line < |chunk[k.frame]| {
      assert chunk[k.frame][k.line..][1..] == chunk[k.frame][k.line + 1..];
    }
  }

  // The workers in front of `w` are as they started, the others are safe.
  ghost predicate SafeFrom<T>(job: Job<T>, s: State<T>, w: nat) {
    && |s.workers| == |job.chunks| && w <= |s.workers|
    && (forall x :: 0 <= x < w ==> s.workers[x] == Init(job).workers[x])
    && (forall x :: w <= x < |s.workers| ==> Safe(job, job.chunks[x], s.workers[x]))
  }

  lemma StartIsSafe<T>(job: Job<T>, w: nat)
    requires ChunksNonEmpty(job) && w < |job.chunks|
    ensures var k := Init(job).workers[w]; Safe(job, job.chunks[w], k) && k.pushed == [] && !k.capped
  {
  }

  // The safe rows of the first workers fill what is left of the slice.
  lemma {:induction false} FillSafely<T>(job: Job<T>, run: seq<State<T>>, w: nat, left: nat)
    returns (longer: seq<State<T>>)
    requires ChunksNonEmpty(job) && IsRun(job, run) && job.limit.Some? && w <= |job.chunks|
    requires SafeFrom(job, run[|run| - 1], w) && run[|run| - 1].counter + left == job.limit.value
    requires left <= Sum(SafeCounts(job)[..w])
    ensures IsRun(job, longer) && SafeFrom(job, longer[|longer| - 1], 0)
    ensures longer[|longer| - 1].counter == job.limit.value
    decreases w
  {
    hide Safe, SafeRows, Init;
    if w == 0 {
      assert SafeCounts(job)[..0] == [];
      return run;
    }
    var counts := SafeCounts(job);
    assert counts[..w][..w - 1] == counts[..w - 1] && counts[..w][w - 1] == counts[w - 1];
    StartIsSafe(job, w - 1);
    var p := Min(left, counts[w - 1]);
    longer := run;
    if p > 0 {
      longer := PushOn(job, run, w - 1, p);
    }
    longer := FillSafely(job, longer, w - 1, left - p);
  }

  predicate DoneFrom<T>(s: State<T>, w: nat)
    requires w <= |s.workers|
  {
    forall x :: w <= x < |s.workers| ==> s.workers[x].phase.Done?
  }

  lemma {:induction false} EndAllSafely<T>(job: Job<T>, run: seq<State<T>>, w: nat) returns (longer: seq<State<T>>)
    requires ChunksNonEmpty(job) && IsRun(job, run) && job.limit.Some? && w <= |job.chunks|
    requires var s := run[|run| - 1];
             && |s.workers| == |job.chunks| && s.counter >= job.limit.value && DoneFrom(s, w)
             && forall x :: 0 <= x < w ==> Safe(job, job.chunks[x], s.workers[x])
    ensures IsRun(job, longer) && |longer[|longer| - 1].workers| == |job.chunks| && DoneFrom(longer[|longer| - 1], 0)
    decreases w
  {
    hide Safe;
    if w == 0 {
      return run;
    }
    longer := EndSafely(job, run, w - 1);
    longer := EndAllSafely(job, longer, w - 1);
  }

  // A run that all workers come through, if their safe rows fill the slice.
  lemma SafeRun<T>(job: Job<T>) returns (run: seq<State<T>>)
    requires ChunksNonEmpty(job) && job.limit.Some? && job.limit.value <= Sum(SafeCounts(job))
    ensures Completes(job, run)
  {
    hide Safe, SafeRows;
    assert SafeCounts(job)[..|job.chunks|] == SafeCounts(job);
    StartIsRun(job);
    run := FillSafely(job, [Init(job)], |job.chunks|, job.limit.value);
    run := EndAllSafely(job, run, |job.chunks|);
  }

  // All workers come through a run on lines that are not all readable only with
  // the slice full, and then their safe rows fill it.
  lemma CompletingNeedsRows<T>(job: Job<T>, run: seq<State<T>>)
    requires ChunksNonEmpty(job) && Completes(job, run) && job.limit.Some? && !JobReadable(job)
    ensures run != [] && Pushed(run[|run| - 1]) == job.limit.value <= Sum(SafeCounts(job))
  {
    hide AllReadable, Flatten, SafeRows, IsRun, Inv, Sum, Filter;
    RunIsNotEmpty(job, run);
    RunKeepsInv(job, run);
    RunsAreBounded(job, run);
    var s := run[|run| - 1];
    forall w | 0 <= w < |s.workers|
      ensures |s.workers[w].pushed| <= SafeRows(job, job.chunks[w])
      ensures !AllReadable(job.readable, Flatten(job.chunks[w])) ==> s.workers[w].capped
    {
      InvWorker(job, s, w);
      assert Ended(s.workers[w]) && !s.workers[w].phase.Broken?;
      PushedIsPrefix(job, job.chunks[w], s.workers[w]);
      if s.workers[w].capped {
        CappedIsSafe(job, run, w);
      } else {
        SafeOfReadable(job, job.chunks[w]);
      }
    }
    var v :| 0 <= v < |job.chunks| && !AllReadable(job.readable, Flatten(job.chunks[v]));
    CapNeedsLimit(job, s, v);
    SumMonotone(PushedCounts(s.workers), SafeCounts(job));
  }

  // Some run is come through by all workers exactly when all lines are readable
  // or the safe rows fill the slice.
  lemma CompletesIff<T(!new)>(job: Job<T>)
    requires ChunksNonEmpty(job) && job.limit.Some?
    ensures (exists run: seq<State<T>> :: Completes(job, run))
            <==> JobReadable(job) || job.limit.value <= Sum(SafeCounts(job))
  {
    hide IsRun, SafeRows, JobReadable, Sum, Completes;
    if run: seq<State<T>> :| Completes(job, run) {
      if !JobReadable(job) {
        CompletingNeedsRows(job, run);
      }
    }
    if JobReadable(job) {
      var run := ReadableRun(job);
    } else if job.limit.value <= Sum(SafeCounts(job)) {
      var run := SafeRun(job);
    }
  }

  lemma ReadableRun<T>(job: Job<T>) returns (run: seq<State<T>>)
    requires ChunksNonEmpty(job) && JobReadable(job)
    ensures Completes(job, run)
  {
    hide JobReadable;
    StartIsRun(job);
    run := FinishAll(job, [Init(job)], 0);
    ReadableNeverBreaks(job, run);
  }
}
