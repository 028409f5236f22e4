// The workers of the parallel scan and the row counter they share, as a
// transition system with one step per `load`, per line and per end of frame.
// `Relaxed` orders nothing but the counter itself: a load may see any value
// between the last one its worker saw and the current one, while a `fetch_add`
// always acts on the current one.
module RowBudget {
  import opened Text

  // A worker's chunk is its frames, a frame its lines. Without a limit there is
  // no counter. A line that is not readable stops the worker that meets it.
  datatype Job<!T> = Job(limit: Option<nat>, chunks: seq<seq<seq<T>>>, readable: T -> bool, accept: T -> bool)

  // Where a worker is in its loop over the frames: before one, in one, after
  // one, past the loop, or stopped by an error.
  datatype Phase = Opening | Reading | Closing | Done | Broken

  datatype Worker<T> = Worker(
    frame: nat, line: nat, phase: Phase, pushed: seq<T>,
    seen: nat, capped: bool, failed: bool, flushes: nat)

  datatype State<T> = State(counter: nat, workers: seq<Worker<T>>)

  function Init<T>(job: Job<T>): (s: State<T>) {
    State(0, seq(|job.chunks|, _ => Worker(0, 0, Opening, [], 0, false, false, 0)))
  }

  // Before a frame is read: with a limit the worker looks at the counter, sees
  // `v`, and does not read the frame when the slice is full.
  ghost predicate OpenFrame<T>(job: Job<T>, chunk: seq<seq<T>>, c: nat, k: Worker<T>, v: nat,
                               c': nat, k': Worker<T>)
  {
    && k.phase.Opening? && k.frame < |chunk| && c' == c
    && match job.limit
       case None => k' == k.(phase := Reading)
       case Some(n) =>
         && k.seen <= v <= c
         && k' == if v >= n then k.(seen := v, capped := true, phase := Closing)
                  else k.(seen := v, phase := Reading)
  }

  // One line: an unreadable one is an error, blank and filtered ones are passed
  // over, an accepted one claims a slot and is pushed if it got one.
  ghost predicate ReadLine<T>(job: Job<T>, chunk: seq<seq<T>>, c: nat, k: Worker<T>,
                              c': nat, k': Worker<T>)
  {
    && k.phase.Reading? && k.frame < |chunk| && k.line < |chunk[k.frame]|
    && var x := chunk[k.frame][k.line];
       if !job.readable(x) then c' == c && k' == k.(phase := Broken)
       else if !job.accept(x) then c' == c && k' == k.(line := k.line + 1)
       else match job.limit
         case None => c' == c && k' == k.(line := k.line + 1, pushed := k.pushed + [x])
         case Some(n) =>
           && c' == c + 1
           && k' == if c >= n then k.(seen := c + 1, capped := true, failed := true, phase := Closing)
                    else k.(seen := c + 1, line := k.line + 1, pushed := k.pushed + [x])
  }

  ghost predicate EndFrame<T>(chunk: seq<seq<T>>, c: nat, k: Worker<T>, c': nat, k': Worker<T>) {
    && k.phase.Reading? && k.frame < |chunk| && k.line == |chunk[k.frame]| && c' == c
    && k' == k.(phase := Closing)
  }

  // After a frame: the builder is flushed if the frame was the last one or the
  // slice is full, and in the latter case the loop is left.
  ghost predicate CloseFrame<T>(chunk: seq<seq<T>>, c: nat, k: Worker<T>, c': nat, k': Worker<T>) {
    && k.phase.Closing? && k.frame < |chunk| && c' == c
    && var last := k.frame + 1 == |chunk|;
       var flushed := k.(flushes := if last || k.capped then k.flushes + 1 else k.flushes);
       k' == if k.capped then flushed.(phase := Done)
             else flushed.(frame := k.frame + 1, line := 0, phase := if last then Done else Opening)
  }

  ghost predicate WorkerStep<T>(job: Job<T>, chunk: seq<seq<T>>, c: nat, k: Worker<T>, v: nat,
                                c': nat, k': Worker<T>)
  {
    || OpenFrame(job, chunk, c, k, v, c', k')
    || ReadLine(job, chunk, c, k, c', k')
    || EndFrame(chunk, c, k, c', k')
    || CloseFrame(chunk, c, k, c', k')
  }

  ghost predicate StepBy<T>(job: Job<T>, s: State<T>, s': State<T>, w: nat, v: nat) {
    && w < |s.workers| == |job.chunks| && |s'.workers| == |s.workers|
    && s'.workers == s.workers[w := s'.workers[w]]
    && WorkerStep(job, job.chunks[w], s.counter, s.workers[w], v, s'.counter, s'.workers[w])
  }

  ghost predicate Next<T>(job: Job<T>, s: State<T>, s': State<T>) {
    exists w: nat, v: nat :: StepBy(job, s, s', w, v)
  }

  // A run is any interleaving of the workers' steps.
  ghost predicate IsRun<T>(job: Job<T>, run: seq<State<T>>) {
    && run != [] && run[0] == Init(job)
    && forall i, j :: 0 <= i < j == i + 1 < |run| ==> Next(job, run[i], run[j])
  }

  predicate Ended<T>(k: Worker<T>) {
    k.phase.Done? || k.phase.Broken?
  }

  predicate Finished<T>(s: State<T>) {
    forall w :: 0 <= w < |s.workers| ==> Ended(s.workers[w])
  }

  predicate NoneBroken<T>(s: State<T>) {
    forall w :: 0 <= w < |s.workers| ==> !s.workers[w].phase.Broken?
  }

  predicate ChunksNonEmpty<T>(job: Job<T>) {
    forall w :: 0 <= w < |job.chunks| ==> job.chunks[w] != []
  }

  predicate AllReadable<T(==)>(readable: T -> bool, lines: seq<T>) {
    forall i :: 0 <= i < |lines| ==> readable(lines[i])
  }

  // ---- sums over the workers

  function Sum(xs: seq<nat>): (total: nat) {
    if xs == [] then 0 else Sum(xs[..|xs| - 1]) + xs[|xs| - 1]
  }

  lemma {:induction false} SumUpdate(xs: seq<nat>, i: nat, v: nat)
    requires i < |xs|
    ensures Sum(xs[i := v]) == Sum(xs) - xs[i] + v
  {
    var front := xs[..|xs| - 1];
    var ys := xs[i := v];
    if i < |front| {
      SumUpdate(front, i, v);
      assert ys[..|ys| - 1] == front[i := v];
    } else {
      assert ys[..|ys| - 1] == front;
    }
  }

  lemma {:induction false} SumBound(xs: seq<nat>, bound: nat)
    requires forall i :: 0 <= i < |xs| ==> xs[i] <= bound
    ensures Sum(xs) <= bound * |xs|
  {
    if xs != [] {
      SumBound(xs[..|xs| - 1], bound);
      assert bound * |xs| == bound * (|xs| - 1) + bound;
    }
  }

  lemma {:induction false} SumMonotone(xs: seq<nat>, ys: seq<nat>)
    requires |xs| == |ys| && forall i :: 0 <= i < |xs| ==> xs[i] <= ys[i]
    ensures Sum(xs) <= Sum(ys)
    ensures Sum(xs) == Sum(ys) ==> xs == ys
  {
    if xs != [] {
      var front, front' := xs[..|xs| - 1], ys[..|ys| - 1];
      SumMonotone(front, front');
      if Sum(xs) == Sum(ys) {
        assert xs == front + [xs[|xs| - 1]] && ys == front' + [ys[|ys| - 1]];
      }
    }
  }

  lemma {:induction false} SumOfZeros(xs: seq<nat>)
    requires forall i :: 0 <= i < |xs| ==> xs[i] == 0
    ensures Sum(xs) == 0
  {
    if xs != [] {
      SumOfZeros(xs[..|xs| - 1]);
    }
  }

  function PushedCounts<T>(workers: seq<Worker<T>>): (counts: seq<nat>)
    ensures |counts| == |workers|
    ensures forall w :: 0 <= w < |workers| ==> counts[w] == |workers[w].pushed|
  {
    seq(|workers|, w requires 0 <= w < |workers| => |workers[w].pushed|)
  }

  function FailedCounts<T>(workers: seq<Worker<T>>): (counts: seq<nat>)
    ensures |counts| == |workers|
    ensures forall w :: 0 <= w < |workers| ==> counts[w] == if workers[w].failed then 1 else 0
  {
    seq(|workers|, w requires 0 <= w < |workers| => if workers[w].failed then 1 else 0)
  }

  function Pushed<T>(s: State<T>): nat {
    Sum(PushedCounts(s.workers))
  }

  function Failed<T>(s: State<T>): nat {
    Sum(FailedCounts(s.workers))
  }

  // The accepted lines of a chunk, in file order.
  function AcceptedOf<T>(job: Job<T>, w: nat): (lines: seq<T>)
    requires w < |job.chunks|
  {
    Filter(job.accept, Flatten(job.chunks[w]))
  }

  function AcceptedCounts<T>(job: Job<T>): (counts: seq<nat>)
    ensures |counts| == |job.chunks|
    ensures forall w :: 0 <= w < |job.chunks| ==> counts[w] == |AcceptedOf(job, w)|
  {
    seq(|job.chunks|, w requires 0 <= w < |job.chunks| => |AcceptedOf(job, w)|)
  }

  // ---- what every step keeps

  ghost predicate InChunk<T>(chunk: seq<seq<T>>, k: Worker<T>) {
    k.frame <= |chunk| && (k.frame < |chunk| ==> k.line <= |chunk[k.frame]|)
  }

  // The lines a worker is past.
  function Passed<T>(chunk: seq<seq<T>>, k: Worker<T>): (lines: seq<T>)
    requires InChunk(chunk, k)
  {
    Flatten(chunk[..k.frame]) + if k.frame < |chunk| then chunk[k.frame][..k.line] else []
  }

  // What the phase says of the position.
  ghost predicate PhaseInv<T>(readable: T -> bool, chunk: seq<seq<T>>, k: Worker<T>)
    requires InChunk(chunk, k)
  {
    match k.phase
    case Opening => k.frame < |chunk| && k.line == 0 && !k.capped
    case Reading => k.frame < |chunk| && !k.capped
    case Closing => k.frame < |chunk| && (!k.capped ==> k.line == |chunk[k.frame]|)
    case Done => k.capped || k.frame == |chunk|
    case Broken => !k.capped && k.frame < |chunk| && k.line < |chunk[k.frame]| && !readable(chunk[k.frame][k.line])
  }

  ghost predicate WorkerInv<T>(job: Job<T>, chunk: seq<seq<T>>, k: Worker<T>) {
    && InChunk(chunk, k) && PhaseInv(job.readable, chunk, k)
    && k.flushes == (if k.phase.Done? then 1 else 0)
    && (k.failed ==> k.capped)
    && k.pushed == Filter(job.accept, Passed(chunk, k))
    && AllReadable(job.readable, Passed(chunk, k))
  }

  ghost predicate Inv<T>(job: Job<T>, s: State<T>) {
    && |s.workers| == |job.chunks|
    && (forall w :: 0 <= w < |s.workers| ==>
          WorkerInv(job, job.chunks[w], s.workers[w]) && s.workers[w].seen <= s.counter)
    && s.counter == (if job.limit.None? then 0 else Pushed(s) + Failed(s))
    && match job.limit
       case None => forall w :: 0 <= w < |s.workers| ==> !s.workers[w].capped
       case Some(n) =>
         && Pushed(s) <= n && (Failed(s) > 0 ==> Pushed(s) == n)
         && forall w :: 0 <= w < |s.workers| ==> (s.workers[w].capped ==> Pushed(s) == n)
  }

  lemma InitInv<T>(job: Job<T>)
    requires ChunksNonEmpty(job)
    ensures Inv(job, Init(job))
  {
    var s := Init(job);
    SumOfZeros(PushedCounts(s.workers));
    SumOfZeros(FailedCounts(s.workers));
    forall w | 0 <= w < |s.workers|
      ensures WorkerInv(job, job.chunks[w], s.workers[w])
    {
      assert Passed(job.chunks[w], s.workers[w]) == [];
    }
  }

  lemma PassedOneLine<T>(job: Job<T>, chunk: seq<seq<T>>, k: Worker<T>)
    requires k.frame < |chunk| && k.line < |chunk[k.frame]|
    requires job.readable(chunk[k.frame][k.line]) && AllReadable(job.readable, Passed(chunk, k))
    ensures var x, k' := chunk[k.frame][k.line], k.(line := k.line + 1);
            && Filter(job.accept, Passed(chunk, k'))
               == Filter(job.accept, Passed(chunk, k)) + (if job.accept(x) then [x] else [])
            && AllReadable(job.readable, Passed(chunk, k'))
  {
    hide Filter, Flatten;
    var frame := chunk[k.frame];
    var x := frame[k.line];
    assert frame[..k.line + 1] == frame[..k.line] + [x];
    Associative(Flatten(chunk[..k.frame]), frame[..k.line], [x]);
    FilterConcat(job.accept, Passed(chunk, k), [x]);
    FilterOne(job.accept, x);
  }

  lemma PassedWholeFrame<T>(chunk: seq<seq<T>>, k: Worker<T>)
    requires k.frame < |chunk| && k.line == |chunk[k.frame]|
    ensures Passed(chunk, k.(frame := k.frame + 1, line := 0)) == Passed(chunk, k)
  {
    hide Flatten;
    assert chunk[..k.frame + 1] == chunk[..k.frame] + [chunk[k.frame]];
    FlattenLast(chunk[..k.frame], chunk[k.frame]);
    assert chunk[k.frame][..k.line] == chunk[k.frame];
    assert k.frame + 1 < |chunk| ==> chunk[k.frame + 1][..0] == [];
  }

  // What one step does to the counter and to the worker's share of it.
  ghost predicate Accounts<T>(limit: Option<nat>, c: nat, k: Worker<T>, c': nat, k': Worker<T>) {
    && k'.seen <= c' && c <= c' <= c + 1 && |k.pushed| <= |k'.pushed|
    && (k.capped ==> k'.capped && k'.pushed == k.pushed && k'.failed == k.failed && k'.seen == k.seen && c' == c)
    && (k.failed ==> k'.failed)
    && match limit
       case None => c' == c && (k'.capped ==> k.capped)
       case Some(n) =>
         && c' - c == (|k'.pushed| - |k.pushed|) + (if k'.failed && !k.failed then 1 else 0)
         && (|k.pushed| < |k'.pushed| ==> c < n)
         && (k'.capped && !k.capped ==> c >= n && k'.pushed == k.pushed)
         && (k'.failed && !k.failed ==> k'.capped && !k.capped)
  }

  lemma WorkerStepAccounts<T>(job: Job<T>, chunk: seq<seq<T>>, c: nat, k: Worker<T>, v: nat,
                              c': nat, k': Worker<T>)
    requires WorkerInv(job, chunk, k) && k.seen <= c
    requires WorkerStep(job, chunk, c, k, v, c', k')
    ensures Accounts(job.limit, c, k, c', k')
  {
    hide Filter, Passed;
  }

  lemma WorkerStepKeepsInv<T>(job: Job<T>, chunk: seq<seq<T>>, c: nat, k: Worker<T>, v: nat,
                              c': nat, k': Worker<T>)
    requires WorkerInv(job, chunk, k)
    requires WorkerStep(job, chunk, c, k, v, c', k')
    ensures WorkerInv(job, chunk, k')
  {
    hide Filter, AllReadable;
    if ReadLine(job, chunk, c, k, c', k') {
      if job.readable(chunk[k.frame][k.line]) {
        PassedOneLine(job, chunk, k);
      }
      SamePassed(chunk, k.(line := k'.line), k');
    } else if CloseFrame(chunk, c, k, c', k') {
      if !k.capped {
        PassedWholeFrame(chunk, k);
      }
    }
  }

  lemma SamePassed<T>(chunk: seq<seq<T>>, k: Worker<T>, k': Worker<T>)
    requires InChunk(chunk, k) && InChunk(chunk, k') && k.frame == k'.frame && k.line == k'.line
    ensures Passed(chunk, k) == Passed(chunk, k')
  {
  }

  lemma CountsUpdate<T>(workers: seq<Worker<T>>, w: nat, k: Worker<T>)
    requires w < |workers|
    ensures Sum(PushedCounts(workers[w := k])) == Sum(PushedCounts(workers)) - |workers[w].pushed| + |k.pushed|
    ensures Sum(FailedCounts(workers[w := k]))
            == Sum(FailedCounts(workers)) - (if workers[w].failed then 1 else 0) + (if k.failed then 1 else 0)
  {
    SumUpdate(PushedCounts(workers), w, |k.pushed|);
    assert PushedCounts(workers[w := k]) == PushedCounts(workers)[w := |k.pushed|];
    SumUpdate(FailedCounts(workers), w, if k.failed then 1 else 0);
    assert FailedCounts(workers[w := k]) == FailedCounts(workers)[w := if k.failed then 1 else 0];
  }

  lemma StepKeepsInv<T>(job: Job<T>, s: State<T>, s': State<T>, w: nat, v: nat)
    requires Inv(job, s) && StepBy(job, s, s', w, v)
    ensures Inv(job, s')
  {
    hide Sum, WorkerInv, WorkerStep;
    WorkerStepKeepsInv(job, job.chunks[w], s.counter, s.workers[w], v, s'.counter, s'.workers[w]);
    WorkerStepAccounts(job, job.chunks[w], s.counter, s.workers[w], v, s'.counter, s'.workers[w]);
    CountsUpdate(s.workers, w, s'.workers[w]);
    assert s.workers[w].capped ==> job.limit.Some? && Pushed(s) == job.limit.value;
    assert forall x :: 0 <= x < |s'.workers| && x != w ==> s'.workers[x] == s.workers[x];
  }

  lemma {:induction false} RunKeepsInv<T>(job: Job<T>, run: seq<State<T>>)
    requires ChunksNonEmpty(job) && IsRun(job, run)
    ensures forall i :: 0 <= i < |run| ==> Inv(job, run[i])
  {
    hide Inv;
    if |run| == 1 {
      InitInv(job);
    } else {
      var front := run[..|run| - 1];
      RunKeepsInv(job, front);
      var s, s' := run[|run| - 2], run[|run| - 1];
      assert front[|run| - 2] == s && Next(job, s, s');
      var w: nat, v: nat :| StepBy(job, s, s', w, v);
      StepKeepsInv(job, s, s', w, v);
      forall i | 0 <= i < |run|
        ensures Inv(job, run[i])
      {
        assert i < |front| ==> run[i] == front[i];
      }
    }
  }

  // ---- what a run delivers

  lemma FlattenAt<T>(chunk: seq<seq<T>>, i: nat)
    requires i < |chunk|
    ensures Flatten(chunk) == Flatten(chunk[..i]) + (chunk[i] + Flatten(chunk[i + 1..]))
  {
    assert chunk == chunk[..i] + chunk[i..];
    FlattenConcat(chunk[..i], chunk[i..]);
    assert chunk[i..][1..] == chunk[i + 1..];
  }

  // A frame cut in two, with what comes before and after it.
  lemma CutFrame<T>(front: seq<T>, frame: seq<T>, tail: seq<T>, line: nat)
    requires line <= |frame|
    ensures front + frame[..line] <= front + (frame + tail)
  {
    assert frame == frame[..line] + frame[line..];
    Associative(frame[..line], frame[line..], tail);
    Associative(front, frame[..line], frame[line..] + tail);
  }

  lemma PassedAndRest<T>(chunk: seq<seq<T>>, k: Worker<T>)
    requires InChunk(chunk, k)
    ensures Passed(chunk, k) <= Flatten(chunk)
    ensures k.frame == |chunk| ==> Passed(chunk, k) == Flatten(chunk)
  {
    hide Flatten;
    if k.frame < |chunk| {
      FlattenAt(chunk, k.frame);
      CutFrame(Flatten(chunk[..k.frame]), chunk[k.frame], Flatten(chunk[k.frame + 1..]), k.line);
    } else {
      assert chunk[..k.frame] == chunk;
      assert Flatten(chunk) + [] == Flatten(chunk);
    }
  }

  lemma PushedIsPrefix<T>(job: Job<T>, chunk: seq<seq<T>>, k: Worker<T>)
    requires WorkerInv(job, chunk, k)
    ensures k.pushed <= Filter(job.accept, Flatten(chunk))
    ensures k.phase.Done? && !k.capped ==>
              k.pushed == Filter(job.accept, Flatten(chunk)) && AllReadable(job.readable, Flatten(chunk))
  {
    hide AllReadable, Flatten;
    PassedAndRest(chunk, k);
    var done, all := Passed(chunk, k), Flatten(chunk);
    assert all == done + all[|done|..];
    FilterConcat(job.accept, done, all[|done|..]);
  }

  // A worker is stopped by a line of its chunk that is not readable.
  lemma BrokenChunk<T>(job: Job<T>, chunk: seq<seq<T>>, k: Worker<T>)
    requires WorkerInv(job, chunk, k) && k.phase.Broken?
    ensures !AllReadable(job.readable, Flatten(chunk))
  {
    hide Filter;
    var past := k.(line := k.line + 1);
    PassedAndRest(chunk, past);
    var i := |Passed(chunk, past)| - 1;
    assert Passed(chunk, past)[i] == chunk[k.frame][k.line];
    assert Flatten(chunk)[i] == chunk[k.frame][k.line];
  }

  // However the workers interleave, a finished run with limit `n` that met no
  // unreadable line has pushed exactly min(n, accepted lines) rows; without a
  // limit it has pushed them all. Each worker pushed a prefix of its chunk and
  // flushed its builder once.
  lemma FinishedRunFillsSlice<T>(job: Job<T>, run: seq<State<T>>)
    requires ChunksNonEmpty(job) && IsRun(job, run) && Finished(run[|run| - 1])
    ensures
      var s := run[|run| - 1];
      && |s.workers| == |job.chunks|
      && (forall w :: 0 <= w < |s.workers| ==>
            && s.workers[w].flushes == (if s.workers[w].phase.Broken? then 0 else 1)
            && (s.workers[w].phase.Broken? ==> !AllReadable(job.readable, Flatten(job.chunks[w])))
            && s.workers[w].pushed <= AcceptedOf(job, w)
            && (job.limit.None? && s.workers[w].phase.Done? ==>
                  s.workers[w].pushed == AcceptedOf(job, w) && AllReadable(job.readable, Flatten(job.chunks[w]))))
      && (job.limit.Some? && NoneBroken(s) ==> Pushed(s) == Min(job.limit.value, Sum(AcceptedCounts(job))))
  {
    hide Sum, AllReadable, Flatten, Filter, Passed;
    var s := run[|run| - 1];
    RunKeepsInv(job, run);
    forall w | 0 <= w < |s.workers|
      ensures s.workers[w].flushes == (if s.workers[w].phase.Broken? then 0 else 1)
      ensures s.workers[w].phase.Broken? ==> !AllReadable(job.readable, Flatten(job.chunks[w]))
      ensures s.workers[w].pushed <= AcceptedOf(job, w)
      ensures s.workers[w].phase.Done? && !s.workers[w].capped ==>
                s.workers[w].pushed == AcceptedOf(job, w) && AllReadable(job.readable, Flatten(job.chunks[w]))
    {
      assert WorkerInv(job, job.chunks[w], s.workers[w]) && Ended(s.workers[w]);
      PushedIsPrefix(job, job.chunks[w], s.workers[w]);
      if s.workers[w].phase.Broken? {
        BrokenChunk(job, job.chunks[w], s.workers[w]);
      }
    }
    if NoneBroken(s) {
      SumMonotone(PushedCounts(s.workers), AcceptedCounts(job));
      if forall w :: 0 <= w < |s.workers| ==> !s.workers[w].capped {
        forall w | 0 <= w < |s.workers|
          ensures PushedCounts(s.workers)[w] == AcceptedCounts(job)[w]
        {
          assert Ended(s.workers[w]) && !s.workers[w].phase.Broken?;
        }
        assert PushedCounts(s.workers) == AcceptedCounts(job);
      }
    }
  }

  // In every reachable state the counter is the rows pushed plus the failed
  // claims, at most one a worker: it overshoots by no more than the workers,
  // and lines that are not accepted never move it.
  lemma CounterOvershoot<T>(job: Job<T>, run: seq<State<T>>, i: nat)
    requires ChunksNonEmpty(job) && IsRun(job, run) && i < |run| && job.limit.Some?
    ensures run[i].counter == Pushed(run[i]) + Failed(run[i])
    ensures Pushed(run[i]) <= job.limit.value && Failed(run[i]) <= |job.chunks|
    ensures run[i].counter <= job.limit.value + |job.chunks|
  {
    RunKeepsInv(job, run);
    SumBound(FailedCounts(run[i].workers), 1);
  }

  // From then on a worker whose claim failed, or that saw a full slice, claims
  // nothing, pushes nothing and looks at the counter no more.
  lemma {:induction false} CappedWorkerStops<T>(job: Job<T>, run: seq<State<T>>, i: nat, j: nat, w: nat)
    requires ChunksNonEmpty(job) && IsRun(job, run) && i <= j < |run| && w < |job.chunks|
    requires |run[i].workers| == |run[j].workers| == |job.chunks| && run[i].workers[w].capped
    ensures var k, k' := run[i].workers[w], run[j].workers[w];
            k'.capped && k'.pushed == k.pushed && k'.failed == k.failed && k'.seen == k.seen
  {
    hide Inv, WorkerInv, WorkerStep;
    RunKeepsInv(job, run);
    RunHasWorkers(job, run);
    if i < j {
      CappedWorkerStops(job, run, i, j - 1, w);
      var s, s' := run[j - 1], run[j];
      assert Next(job, s, s');
      var x: nat, v: nat :| StepBy(job, s, s', x, v);
      InvWorker(job, s, x);
      WorkerStepAccounts(job, job.chunks[x], s.counter, s.workers[x], v, s'.counter, s'.workers[x]);
    }
  }

  // In every reachable state a worker has flushed its builder at most once, and
  // has done so exactly when it is past its last frame or the slice was full.
  lemma FlushesOnce<T>(job: Job<T>, run: seq<State<T>>, i: nat, w: nat)
    requires ChunksNonEmpty(job) && IsRun(job, run) && i < |run| && w < |run[i].workers|
    ensures |run[i].workers| == |job.chunks|
    ensures var k := run[i].workers[w];
            && k.flushes <= 1
            && (k.flushes == 1 <==> k.phase.Done?)
            && (k.flushes == 1 ==> k.capped || k.frame == |job.chunks[w]|)
            && (k.phase.Broken? ==> k.flushes == 0)
  {
    hide Filter, Passed, AllReadable;
    RunKeepsInv(job, run);
    InvWorker(job, run[i], w);
  }

  ghost predicate NothingRead<T>(s: State<T>) {
    forall w :: 0 <= w < |s.workers| ==>
      s.workers[w].pushed == [] && !s.workers[w].phase.Reading? && !s.workers[w].phase.Broken?
  }

  // A slice of no rows reads no line.
  lemma {:induction false} EmptySliceReadsNothing<T>(job: Job<T>, run: seq<State<T>>)
    requires ChunksNonEmpty(job) && IsRun(job, run) && job.limit == Some(0)
    ensures NothingRead(run[|run| - 1])
  {
    hide Inv, WorkerInv;
    if |run| > 1 {
      var front := run[..|run| - 1];
      EmptySliceReadsNothing(job, front);
      var s, s' := run[|run| - 2], run[|run| - 1];
      assert front[|run| - 2] == s && Next(job, s, s');
      var w: nat, v: nat :| StepBy(job, s, s', w, v);
      assert forall x :: 0 <= x < |s'.workers| && x != w ==> s'.workers[x] == s.workers[x];
    }
  }

  // ---- every run ends

  function Weight<T>(chunk: seq<seq<T>>): nat {
    if chunk == [] then 0 else 3 + |chunk[0]| + Weight(chunk[1..])
  }

  // The steps a worker has left at most.
  function WorkerMeasure<T>(chunk: seq<seq<T>>, k: Worker<T>): (m: nat) {
    if k.frame >= |chunk| then 0
    else
      var after := Weight(chunk[k.frame + 1..]);
      match k.phase
      case Opening => 3 + |chunk[k.frame]| + after
      case Reading => (if k.line <= |chunk[k.frame]| then |chunk[k.frame]| - k.line else 0) + 2 + after
      case Closing => 1 + after
      case Done => 0
      case Broken => 0
  }

  lemma WorkerStepDecreases<T>(job: Job<T>, chunk: seq<seq<T>>, c: nat, k: Worker<T>, v: nat,
                               c': nat, k': Worker<T>)
    requires WorkerInv(job, chunk, k) && WorkerStep(job, chunk, c, k, v, c', k')
    ensures WorkerMeasure(chunk, k') < WorkerMeasure(chunk, k)
  {
    hide Filter, Passed, AllReadable;
    if k.frame + 1 < |chunk| {
      assert chunk[k.frame + 1..][1..] == chunk[k.frame + 2..];
      assert Weight(chunk[k.frame + 1..]) == 3 + |chunk[k.frame + 1]| + Weight(chunk[k.frame + 2..]);
    }
  }

  function Measures<T>(job: Job<T>, s: State<T>): (ms: seq<nat>)
    requires |s.workers| == |job.chunks|
    ensures |ms| == |s.workers|
    ensures forall w :: 0 <= w < |s.workers| ==> ms[w] == WorkerMeasure(job.chunks[w], s.workers[w])
  {
    seq(|s.workers|, w requires 0 <= w < |s.workers| => WorkerMeasure(job.chunks[w], s.workers[w]))
  }

  // No run is longer than the work of its first state.
  lemma {:induction false} RunsAreBounded<T>(job: Job<T>, run: seq<State<T>>)
    requires ChunksNonEmpty(job) && IsRun(job, run)
    ensures |run[|run| - 1].workers| == |job.chunks|
    ensures |run| - 1 + Sum(Measures(job, run[|run| - 1])) <= Sum(Measures(job, Init(job)))
  {
    hide Sum, WorkerMeasure, Inv;
    RunKeepsInv(job, run);
    RunHasWorkers(job, run);
    if |run| > 1 {
      var front := run[..|run| - 1];
      RunsAreBounded(job, front);
      var s, s' := run[|run| - 2], run[|run| - 1];
      assert front[|run| - 2] == s && Next(job, s, s');
      var w: nat, v: nat :| StepBy(job, s, s', w, v);
      MeasureDecreases(job, s, s', w, v);
    }
  }

  lemma RunHasWorkers<T>(job: Job<T>, run: seq<State<T>>)
    requires forall i :: 0 <= i < |run| ==> Inv(job, run[i])
    ensures forall i :: 0 <= i < |run| ==> |run[i].workers| == |job.chunks|
  {
  }

  lemma MeasureDecreases<T>(job: Job<T>, s: State<T>, s': State<T>, w: nat, v: nat)
    requires Inv(job, s) && StepBy(job, s, s', w, v)
    ensures |s.workers| == |s'.workers| == |job.chunks|
    ensures Sum(Measures(job, s')) < Sum(Measures(job, s))
  {
    hide Sum, WorkerMeasure, WorkerStep;
    WorkerStepDecreases(job, job.chunks[w], s.counter, s.workers[w], v, s'.counter, s'.workers[w]);
    var m := WorkerMeasure(job.chunks[w], s'.workers[w]);
    SumUpdate(Measures(job, s), w, m);
    assert Measures(job, s') == Measures(job, s)[w := m];
  }

  // One step of worker `w`, with a load that sees the counter as it is.
  function Advance<T>(job: Job<T>, s: State<T>, w: nat): (s': State<T>)
    requires w < |s.workers| == |job.chunks|
    ensures |s'.workers| == |s.workers|
    ensures forall x :: 0 <= x < |s.workers| && x != w ==> s'.workers[x] == s.workers[x]
  {
    var chunk, k, c := job.chunks[w], s.workers[w], s.counter;
    var full := job.limit.Some? && c >= job.limit.value;
    if k.frame >= |chunk| then s
    else match k.phase
      case Opening =>
        var seen := if job.limit.Some? then k.(seen := c) else k;
        State(c, s.workers[w := if full then seen.(capped := true, phase := Closing) else seen.(phase := Reading)])
      case Reading =>
        if k.line >= |chunk[k.frame]| then State(c, s.workers[w := k.(phase := Closing)])
        else
          var x := chunk[k.frame][k.line];
          if !job.readable(x) then State(c, s.workers[w := k.(phase := Broken)])
          else if !job.accept(x) then State(c, s.workers[w := k.(line := k.line + 1)])
          else
            var claimed := if job.limit.Some? then k.(seen := c + 1) else k;
            var c' := if job.limit.Some? then c + 1 else c;
            if full then State(c', s.workers[w := claimed.(capped := true, failed := true, phase := Closing)])
            else State(c', s.workers[w := claimed.(line := k.line + 1, pushed := k.pushed + [x])])
      case Closing =>
        var last := k.frame + 1 == |chunk|;
        var flushed := if last || k.capped then k.(flushes := k.flushes + 1) else k;
        var next := if k.capped then flushed.(phase := Done)
          else flushed.(frame := k.frame + 1, line := 0, phase := if last then Done else Opening);
        State(c, s.workers[w := next])
      case Done => s
      case Broken => s
  }

  // No worker that has not ended is ever stuck.
  lemma AdvanceIsStep<T>(job: Job<T>, s: State<T>, w: nat)
    requires Inv(job, s) && w < |s.workers| && !Ended(s.workers[w])
    ensures StepBy(job, s, Advance(job, s, w), w, s.counter)
  {
    hide Filter, Passed, AllReadable, Sum;
    var k, chunk := s.workers[w], job.chunks[w];
    assert WorkerInv(job, chunk, k) && k.seen <= s.counter;
    assert k.frame < |chunk| && k.line <= |chunk[k.frame]|;
  }

  // The loads are relaxed: in front of a frame a worker may see any value since
  // the last one it saw, and go by it even if the slice is full by now.
  lemma AnyLoadMayBeSeen<T>(job: Job<T>, s: State<T>, w: nat, v: nat) returns (s': State<T>)
    requires Inv(job, s) && w < |s.workers| && s.workers[w].phase.Opening? && job.limit.Some?
    requires s.workers[w].seen <= v <= s.counter
    ensures StepBy(job, s, s', w, v) && s'.counter == s.counter
    ensures s'.workers[w].phase.Reading? <==> v < job.limit.value
    ensures s'.workers[w].capped <==> v >= job.limit.value
  {
    hide Filter, Passed, AllReadable, Sum;
    var k := s.workers[w];
    assert WorkerInv(job, job.chunks[w], k);
    s' := s.(workers := s.workers[w := if v >= job.limit.value then k.(seen := v, capped := true, phase := Closing)
                                       else k.(seen := v, phase := Reading)]);
  }

  // Any run can be continued until worker `w` is done, by its steps alone.
  lemma {:induction false} FinishWorker<T>(job: Job<T>, run: seq<State<T>>, w: nat)
    returns (longer: seq<State<T>>)
    requires ChunksNonEmpty(job) && IsRun(job, run) && w < |job.chunks|
    ensures IsRun(job, longer)
    ensures
      var s, s' := run[|run| - 1], longer[|longer| - 1];
      && |s.workers| == |s'.workers| == |job.chunks|
      && Ended(s'.workers[w])
      && (Ended(s.workers[w]) ==> s' == s)
      && forall x :: 0 <= x < |s.workers| && x != w ==> s'.workers[x] == s.workers[x]
    decreases var s := run[|run| - 1]; if w < |s.workers| then WorkerMeasure(job.chunks[w], s.workers[w]) else 0
  {
    hide Inv, WorkerMeasure, Advance;
    RunKeepsInv(job, run);
    RunHasWorkers(job, run);
    var s := run[|run| - 1];
    if Ended(s.workers[w]) {
      return run;
    }
    AdvanceIsStep(job, s, w);
    var s' := Advance(job, s, w);
    InvWorker(job, s, w);
    WorkerStepDecreases(job, job.chunks[w], s.counter, s.workers[w], s.counter, s'.counter, s'.workers[w]);
    assert Next(job, s, s');
    longer := FinishWorker(job, run + [s'], w);
  }

  lemma InvWorker<T>(job: Job<T>, s: State<T>, w: nat)
    requires Inv(job, s) && w < |s.workers|
    ensures WorkerInv(job, job.chunks[w], s.workers[w]) && s.workers[w].seen <= s.counter
  {
  }

  predicate DoneUpTo<T>(job: Job<T>, s: State<T>, from: nat) {
    && |s.workers| == |job.chunks| && from <= |s.workers|
    && forall x :: 0 <= x < from ==> Ended(s.workers[x])
  }

  // Any run can be continued to a finished one; what finished workers have
  // stays as it is.
  lemma {:induction false} FinishAll<T>(job: Job<T>, run: seq<State<T>>, from: nat)
    returns (longer: seq<State<T>>)
    requires ChunksNonEmpty(job) && IsRun(job, run) && from <= |job.chunks|
    requires DoneUpTo(job, run[|run| - 1], from)
    ensures IsRun(job, longer) && Finished(longer[|longer| - 1])
    ensures
      var s, s' := run[|run| - 1], longer[|longer| - 1];
      && |s'.workers| == |job.chunks|
      && forall x :: 0 <= x < |s.workers| && Ended(s.workers[x]) ==> s'.workers[x] == s.workers[x]
    decreases |job.chunks| - from
  {
    hide Advance, Next;
    if from == |job.chunks| {
      return run;
    }
    var next := FinishWorker(job, run, from);
    longer := FinishAll(job, next, from + 1);
  }
}
