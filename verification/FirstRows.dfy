// Which rows a limited parallel scan returns: `n` accepted rows, but the first
// `n` of the file only under a condition on where the accepted rows are.
module FirstRows {
  import opened Text
  import opened RowBudget

  function PushedLists<T>(s: State<T>): (lists: seq<seq<T>>)
    ensures |lists| == |s.workers|
    ensures forall w :: 0 <= w < |s.workers| ==> lists[w] == s.workers[w].pushed
  {
    seq(|s.workers|, w requires 0 <= w < |s.workers| => s.workers[w].pushed)
  }

  function AcceptedLists<T>(job: Job<T>): (lists: seq<seq<T>>)
    ensures |lists| == |job.chunks|
    ensures forall w :: 0 <= w < |job.chunks| ==> lists[w] == AcceptedOf(job, w)
  {
    seq(|job.chunks|, w requires 0 <= w < |job.chunks| => AcceptedOf(job, w))
  }

  // The rows of the workers put together in worker order.
  function Joined<T>(s: State<T>): seq<T> {
    Flatten(PushedLists(s))
  }

  // The accepted lines of all chunks, in file order.
  function AllAccepted<T>(job: Job<T>): seq<T> {
    Flatten(AcceptedLists(job))
  }

  function Lengths<T>(lists: seq<seq<T>>): (ns: seq<nat>)
    ensures |ns| == |lists|
    ensures forall i :: 0 <= i < |lists| ==> ns[i] == |lists[i]|
  {
    seq(|lists|, i requires 0 <= i < |lists| => |lists[i]|)
  }

  lemma {:induction false} FlattenLength<T>(lists: seq<seq<T>>)
    ensures |Flatten(lists)| == Sum(Lengths(lists))
  {
    if lists != [] {
      var front, last := lists[..|lists| - 1], lists[|lists| - 1];
      FlattenLength(front);
      FlattenLast(front, last);
      assert lists == front + [last];
      assert Lengths(lists)[..|lists| - 1] == Lengths(front);
    }
  }

  lemma {:induction false} FlattenEmpties<T>(lists: seq<seq<T>>)
    requires forall i :: 0 <= i < |lists| ==> lists[i] == []
    ensures Flatten(lists) == []
  {
    if lists != [] {
      FlattenEmpties(lists[1..]);
    }
  }

  // The only list after which nothing comes.
  lemma FlattenUpTo<T>(lists: seq<seq<T>>, b: nat)
    requires b < |lists| && forall i :: b < i < |lists| ==> lists[i] == []
    ensures Flatten(lists) == Flatten(lists[..b]) + lists[b]
  {
    hide Flatten;
    var tail := lists[b + 1..];
    FlattenEmpties(tail);
    assert lists == lists[..b + 1] + tail;
    FlattenConcat(lists[..b + 1], tail);
    TakeOneMore(lists, b + 1);
    FlattenLast(lists[..b], lists[b]);
  }

  predicate NoDuplicates<T(==)>(xs: seq<T>) {
    forall i, j :: 0 <= i < j < |xs| ==> xs[i] != xs[j]
  }

  // At most one chunk has accepted lines.
  ghost predicate OneBusyChunk<T>(job: Job<T>) {
    forall v, w :: 0 <= v < w < |job.chunks| ==> AcceptedOf(job, v) == [] || AcceptedOf(job, w) == []
  }

  // No line of any chunk stops a worker.
  ghost predicate JobReadable<T>(job: Job<T>) {
    forall w :: 0 <= w < |job.chunks| ==> AllReadable(job.readable, Flatten(job.chunks[w]))
  }

  // A finished run in which no worker met an unreadable line.
  ghost predicate Completes<T>(job: Job<T>, run: seq<State<T>>) {
    IsRun(job, run) && Finished(run[|run| - 1]) && NoneBroken(run[|run| - 1])
  }

  ghost predicate GivesFirstRows<T>(job: Job<T>, run: seq<State<T>>) {
    Completes(job, run) && job.limit.Some? ==>
      Joined(run[|run| - 1]) == Take(AllAccepted(job), job.limit.value)
  }

  lemma JoinedLength<T>(job: Job<T>, run: seq<State<T>>)
    requires ChunksNonEmpty(job) && Completes(job, run) && job.limit.Some?
    ensures |Joined(run[|run| - 1])| == Min(job.limit.value, |AllAccepted(job)|)
    ensures |AllAccepted(job)| == Sum(AcceptedCounts(job))
  {
    hide Sum, Flatten;
    var s := run[|run| - 1];
    FinishedRunFillsSlice(job, run);
    FlattenLength(PushedLists(s));
    assert Lengths(PushedLists(s)) == PushedCounts(s.workers);
    FlattenLength(AcceptedLists(job));
    assert Lengths(AcceptedLists(job)) == AcceptedCounts(job);
  }

  lemma NoLimitJoinsAll<T>(job: Job<T>, run: seq<State<T>>)
    requires ChunksNonEmpty(job) && Completes(job, run) && job.limit.None?
    ensures Joined(run[|run| - 1]) == AllAccepted(job)
  {
    FinishedRunFillsSlice(job, run);
    forall w | 0 <= w < |job.chunks|
      ensures PushedLists(run[|run| - 1])[w] == AcceptedLists(job)[w]
    {
      assert Ended(run[|run| - 1].workers[w]) && !run[|run| - 1].workers[w].phase.Broken?;
    }
    assert PushedLists(run[|run| - 1]) == AcceptedLists(job);
  }

  lemma {:induction false} LastBusy<T>(lists: seq<seq<T>>) returns (b: nat)
    requires Flatten(lists) != []
    ensures b < |lists| && lists[b] != [] && forall i :: b < i < |lists| ==> lists[i] == []
  {
    var last := |lists| - 1;
    if lists[last] != [] {
      return last;
    }
    assert lists == lists[..last] + [lists[last]];
    FlattenLast(lists[..last], lists[last]);
    b := LastBusy(lists[..last]);
  }

  lemma FewRowsAreFirst<T>(job: Job<T>, run: seq<State<T>>)
    requires ChunksNonEmpty(job) && Completes(job, run) && job.limit.Some?
    requires |AllAccepted(job)| <= job.limit.value
    ensures Joined(run[|run| - 1]) == AllAccepted(job)
  {
    hide Sum, Flatten, AcceptedOf;
    var s := run[|run| - 1];
    FinishedRunFillsSlice(job, run);
    JoinedLength(job, run);
    SumMonotone(PushedCounts(s.workers), AcceptedCounts(job));
    forall w | 0 <= w < |s.workers|
      ensures PushedLists(s)[w] == AcceptedLists(job)[w]
    {
      assert PushedCounts(s.workers)[w] == AcceptedCounts(job)[w];
    }
    assert PushedLists(s) == AcceptedLists(job);
  }

  lemma OneBusyRowsAreFirst<T>(job: Job<T>, run: seq<State<T>>)
    requires ChunksNonEmpty(job) && Completes(job, run) && job.limit.Some?
    requires OneBusyChunk(job) && |AllAccepted(job)| > job.limit.value
    ensures Joined(run[|run| - 1]) == AllAccepted(job)[..job.limit.value]
  {
    hide Sum, Flatten, AcceptedOf;
    var s := run[|run| - 1];
    FinishedRunFillsSlice(job, run);
    JoinedLength(job, run);
    var all, mine := AcceptedLists(job), PushedLists(s);
    var b := LastBusy(all);
    assert forall w :: 0 <= w < b ==> all[w] == [];
    assert forall w :: 0 <= w < |all| ==> mine[w] <= all[w];
    FlattenUpTo(all, b);
    FlattenUpTo(mine, b);
    FlattenEmpties(all[..b]);
    FlattenEmpties(mine[..b]);
  }

  // The schedule that breaks it: the last worker with accepted lines runs
  // alone first.
  lemma BackwardsRun<T>(job: Job<T>, b: nat) returns (run: seq<State<T>>)
    requires ChunksNonEmpty(job) && JobReadable(job) && job.limit.Some? && b < |job.chunks|
    ensures Completes(job, run)
    ensures |run[|run| - 1].workers| == |job.chunks|
    ensures |run[|run| - 1].workers[b].pushed| == Min(job.limit.value, |AcceptedOf(job, b)|)
  {
    hide Inv, Advance, Next, WorkerMeasure, AcceptedOf;
    var first := FinishWorker(job, [Init(job)], b);
    var s := first[|first| - 1];
    RunKeepsInv(job, first);
    EndsReadable(job, first, b);
    AloneFillsSlice(job, s, b);
    run := FinishAll(job, first, 0);
    ReadableNeverBreaks(job, run);
  }

  lemma EndsReadable<T>(job: Job<T>, run: seq<State<T>>, b: nat)
    requires ChunksNonEmpty(job) && JobReadable(job) && IsRun(job, run) && b < |run[|run| - 1].workers|
    ensures !run[|run| - 1].workers[b].phase.Broken?
  {
    hide AllReadable, Flatten;
    RunKeepsInv(job, run);
    InvWorker(job, run[|run| - 1], b);
    if run[|run| - 1].workers[b].phase.Broken? {
      BrokenChunk(job, job.chunks[b], run[|run| - 1].workers[b]);
    }
  }

  lemma ReadableNeverBreaks<T>(job: Job<T>, run: seq<State<T>>)
    requires ChunksNonEmpty(job) && JobReadable(job) && IsRun(job, run)
    ensures NoneBroken(run[|run| - 1])
  {
    hide JobReadable;
    var s := run[|run| - 1];
    forall b | 0 <= b < |s.workers|
      ensures !s.workers[b].phase.Broken?
    {
      EndsReadable(job, run, b);
    }
  }

  lemma AloneFillsSlice<T>(job: Job<T>, s: State<T>, b: nat)
    requires Inv(job, s) && job.limit.Some? && b < |s.workers| && s.workers[b].phase.Done?
    requires forall x :: 0 <= x < |s.workers| && x != b ==> s.workers[x].pushed == []
    ensures |s.workers[b].pushed| == Min(job.limit.value, |AcceptedOf(job, b)|)
  {
    var counts := PushedCounts(s.workers);
    var zeros := counts[b := 0];
    SumUpdate(counts, b, 0);
    SumOfZeros(zeros);
    InvWorker(job, s, b);
    PushedIsPrefix(job, job.chunks[b], s.workers[b]);
  }

  lemma BackwardsRowsAreNotFirst<T>(job: Job<T>, run: seq<State<T>>, a: nat, b: nat)
    requires ChunksNonEmpty(job) && Completes(job, run) && job.limit.Some?
    requires a < b < |job.chunks| && AcceptedOf(job, a) != [] && AcceptedOf(job, b) != []
    requires forall i :: b < i < |job.chunks| ==> AcceptedOf(job, i) == []
    requires |run[|run| - 1].workers| == |job.chunks|
    requires |run[|run| - 1].workers[b].pushed| == Min(job.limit.value, |AcceptedOf(job, b)|)
    requires 0 < job.limit.value < |AllAccepted(job)| && NoDuplicates(AllAccepted(job))
    ensures !GivesFirstRows(job, run)
  {
    hide Sum, Flatten, AcceptedOf;
    var s, n := run[|run| - 1], job.limit.value;
    FinishedRunFillsSlice(job, run);
    JoinedLength(job, run);
    var all, mine := AcceptedLists(job), PushedLists(s);
    assert forall w :: 0 <= w < |all| ==> mine[w] <= all[w];
    FlattenUpTo(all, b);
    FlattenUpTo(mine, b);
    SomethingBefore(all[..b], a);
    var before, m := |Flatten(all[..b])|, |mine[b]|;
    var whole, joined := AllAccepted(job), Joined(s);
    // the last row joined is row m-1 of chunk b
    assert joined[n - 1] == mine[b][m - 1] == all[b][m - 1] == whole[before + m - 1];
    assert before + m > n;
    assert whole[..n][n - 1] == whole[n - 1] != whole[before + m - 1];
  }

  lemma SomethingBefore<T>(lists: seq<seq<T>>, a: nat)
    requires a < |lists| && lists[a] != []
    ensures Flatten(lists) != []
  {
    assert lists == lists[..a] + lists[a..];
    FlattenConcat(lists[..a], lists[a..]);
  }

  // A limited parallel scan that meets no unreadable line returns the first `n`
  // accepted rows under every interleaving exactly when there is nothing to
  // choose: n is 0, there are no more than n accepted rows, or they are all in
  // one chunk.
  lemma FirstRowsIff<T(!new)>(job: Job<T>)
    requires ChunksNonEmpty(job) && job.limit.Some? && NoDuplicates(AllAccepted(job))
    ensures job.limit.value == 0 || |AllAccepted(job)| <= job.limit.value || OneBusyChunk(job) ==>
              forall run :: GivesFirstRows(job, run)
    ensures JobReadable(job) && (forall run :: GivesFirstRows(job, run)) ==>
              job.limit.value == 0 || |AllAccepted(job)| <= job.limit.value || OneBusyChunk(job)
  {
    hide Sum, Flatten, AcceptedOf, IsRun, Inv, Joined, AllAccepted, NoDuplicates, JobReadable, Completes;
    var n := job.limit.value;
    if n == 0 || |AllAccepted(job)| <= n || OneBusyChunk(job) {
      forall run
        ensures GivesFirstRows(job, run)
      {
        RunIsNotEmpty(job, run);
        if Completes(job, run) {
          NothingToChoose(job, run);
        }
      }
    } else if JobReadable(job) {
      var v, b, run := ABadRun(job);
      assert !GivesFirstRows(job, run);
    }
  }

  lemma NothingToChoose<T>(job: Job<T>, run: seq<State<T>>)
    requires ChunksNonEmpty(job) && Completes(job, run) && job.limit.Some?
    requires job.limit.value == 0 || |AllAccepted(job)| <= job.limit.value || OneBusyChunk(job)
    ensures run != [] && Joined(run[|run| - 1]) == Take(AllAccepted(job), job.limit.value)
  {
    hide Sum, Flatten, AcceptedOf, IsRun, Inv, Joined, AllAccepted;
    RunIsNotEmpty(job, run);
    JoinedLength(job, run);
    if |AllAccepted(job)| <= job.limit.value {
      FewRowsAreFirst(job, run);
    } else if job.limit.value > 0 {
      OneBusyRowsAreFirst(job, run);
    }
  }

  lemma RunIsNotEmpty<T>(job: Job<T>, run: seq<State<T>>)
    ensures IsRun(job, run) ==> run != []
    ensures Completes(job, run) ==> run != []
  {
  }

  lemma StartIsRun<T>(job: Job<T>)
    ensures IsRun(job, [Init(job)])
  {
  }

  lemma ABadRun<T>(job: Job<T>) returns (v: nat, b: nat, run: seq<State<T>>)
    requires ChunksNonEmpty(job) && JobReadable(job) && job.limit.Some? && NoDuplicates(AllAccepted(job))
    requires 0 < job.limit.value < |AllAccepted(job)| && !OneBusyChunk(job)
    ensures !GivesFirstRows(job, run)
  {
    hide Sum, AcceptedOf, Inv;
    b := LastBusy(AcceptedLists(job));
    v :| 0 <= v < b && AcceptedOf(job, v) != [];
    run := BackwardsRun(job, b);
    BackwardsRowsAreNotFirst(job, run, v, b);
  }
}
