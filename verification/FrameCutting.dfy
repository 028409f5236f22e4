// Cutting a file into frames for the parallel scan, and reading one frame.
module FrameCutting {
  import opened Text

  const MAX_FRAME_SIZE: nat := 4 * 1024 * 1024
  const CHECK_SIZE: nat := 4096

  datatype FrameRange = FrameRange(idx: nat, start: nat, len: nat)

  function FrameEnd(f: FrameRange): nat {
    f.start + f.len
  }

  // What one call on a file does: it fails, it moves at most `n` bytes, or it
  // moves as many as were asked for and are there.
  datatype Outcome = Fails | Short(n: nat) | Full

  // The seek/read contract of a seekable file. The plan says what the k-th
  // call does, and any plan may be met.
  class VfsFile {
    const data: Bytes
    const plan: nat -> Outcome
    var pos: nat
    var calls: nat

    constructor (data: Bytes, plan: nat -> Outcome)
      ensures this.data == data && this.plan == plan && pos == 0 && calls == 0
    {
      this.data, this.plan := data, plan;
      pos, calls := 0, 0;
    }

    ghost predicate FullReads() {
      forall k: nat :: plan(k).Full?
    }

    // Every call succeeds, and a read takes at least one byte if there is one.
    ghost predicate PositiveReads() {
      forall k: nat :: plan(k).Full? || (plan(k).Short? && plan(k).n > 0)
    }

    function Left(p: nat): nat {
      if p <= |data| then |data| - p else 0
    }

    method Seek(p: nat) returns (ok: bool)
      modifies this
      ensures ok <==> !plan(old(calls)).Fails?
      ensures pos == (if ok then p else old(pos)) && calls == old(calls) + 1
    {
      ok := !plan(calls).Fails?;
      if ok {
        pos := p;
      }
      calls := calls + 1;
    }

    method Read(len: nat) returns (got: Option<Bytes>)
      modifies this
      ensures calls == old(calls) + 1
      ensures got.None? <==> plan(old(calls)).Fails?
      ensures got.None? ==> pos == old(pos)
      ensures got.Some? ==>
                && |got.value| <= Min(len, Left(old(pos))) && pos == old(pos) + |got.value|
                && (got.value != [] ==> got.value == data[old(pos)..pos])
      ensures got.Some? && plan(old(calls)).Full? ==> |got.value| == Min(len, Left(old(pos)))
      ensures got.Some? && plan(old(calls)).Short? ==>
                |got.value| == Min(plan(old(calls)).n, Min(len, Left(old(pos))))
    {
      var outcome := plan(calls);
      calls := calls + 1;
      if outcome.Fails? {
        return None;
      }
      var n := Min(len, Left(pos));
      if outcome.Short? {
        n := Min(outcome.n, n);
      }
      if n == 0 {
        return Some([]);
      }
      got := Some(data[pos..pos + n]);
      pos := pos + n;
    }
  }

  // `rposition` of the delimiter.
  function LastNewline(buf: Bytes): (at: Option<nat>)
    ensures at.Some? ==>
              && at.value < |buf| && buf[at.value] == NEWLINE
              && forall k :: at.value < k < |buf| ==> buf[k] != NEWLINE
    ensures at.None? ==> forall k :: 0 <= k < |buf| ==> buf[k] != NEWLINE
  {
    if buf == [] then None
    else if buf[|buf| - 1] == NEWLINE then Some(|buf| - 1)
    else LastNewline(buf[..|buf| - 1])
  }

  // `cut` is right after the last newline of the window [start, end), or at
  // `end` when the window has none.
  predicate IsCut(data: Bytes, start: nat, end: nat, cut: nat)
    requires end <= |data|
  {
    && start < cut <= end
    && (forall k :: cut <= k < end ==> data[k] != NEWLINE)
    && (data[cut - 1] == NEWLINE || (cut == end && forall k :: start <= k < end ==> data[k] != NEWLINE))
  }

  // How many bytes a read of `len` bytes at `at` hands over.
  function HandedOver(size: nat, outcome: Outcome, at: nat, len: nat): (n: nat) {
    var left := if at < size then Min(len, size - at) else 0;
    match outcome
    case Fails => 0
    case Short(n) => Min(n, left)
    case Full => left
  }

  // The byte at `p` is handed over if the blocks in front of `pos` are read one by
  // one, back to `start`, from the given call on. A block for which the seek
  // fails is left out.
  predicate Seen(size: nat, plan: nat -> Outcome, call: nat, start: nat, pos: nat, p: nat)
    decreases pos
  {
    pos > start
    && (var readSize := Min(CHECK_SIZE, pos - start);
        var at := pos - readSize;
        if plan(call).Fails? then Seen(size, plan, call + 1, start, at, p)
        else
          || at <= p < at + HandedOver(size, plan(call + 1), at, readSize)
          || Seen(size, plan, call + 2, start, at, p))
  }

  lemma {:induction false} SeenInWindow(size: nat, plan: nat -> Outcome, call: nat, start: nat, pos: nat, p: nat)
    requires Seen(size, plan, call, start, pos, p)
    ensures start <= p < pos && p < size
    decreases pos
  {
    var at := pos - Min(CHECK_SIZE, pos - start);
    if plan(call).Fails? {
      SeenInWindow(size, plan, call + 1, start, at, p);
    } else if Seen(size, plan, call + 2, start, at, p) {
      SeenInWindow(size, plan, call + 2, start, at, p);
    }
  }

  lemma SeenBefore(size: nat, plan: nat -> Outcome, call: nat, start: nat, pos: nat)
    ensures forall p: nat :: Seen(size, plan, call, start, pos, p) ==> start <= p < pos
  {
    forall p: nat | Seen(size, plan, call, start, pos, p)
      ensures start <= p < pos
    {
      SeenInWindow(size, plan, call, start, pos, p);
    }
  }

  // `cut` is right after the last newline among the bytes that are handed over,
  // or at `end` when there is none among them.
  ghost predicate IsCutOf(data: Bytes, plan: nat -> Outcome, call: nat, start: nat, end: nat, cut: nat) {
    && (forall p: nat :: Seen(|data|, plan, call, start, end, p) && cut <= p < |data| ==> data[p] != NEWLINE)
    && (|| (0 < cut <= |data| && data[cut - 1] == NEWLINE && Seen(|data|, plan, call, start, end, cut - 1))
        || (cut == end
            && forall p: nat :: Seen(|data|, plan, call, start, end, p) && p < |data| ==> data[p] != NEWLINE))
  }

  // From `call0` at `end` the search got to `call` at `pos`: what is handed over
  // in front of `pos` is still to come, and nothing behind it is a newline.
  ghost predicate SearchedTo(data: Bytes, plan: nat -> Outcome, call0: nat, start: nat, end: nat, call: nat, pos: nat) {
    && (forall p: nat :: Seen(|data|, plan, call, start, pos, p) ==> Seen(|data|, plan, call0, start, end, p))
    && (forall p: nat :: Seen(|data|, plan, call0, start, end, p) && p < |data| ==>
          Seen(|data|, plan, call, start, pos, p) || (pos <= p && data[p] != NEWLINE))
  }

  // One more block without a newline among the bytes its read hands over.
  lemma BlockSearched(data: Bytes, plan: nat -> Outcome, call0: nat, start: nat, end: nat, call: nat, pos: nat)
    requires start < pos && SearchedTo(data, plan, call0, start, end, call, pos)
    ensures var len := Min(CHECK_SIZE, pos - start);
            var at := pos - len;
            if plan(call).Fails? then SearchedTo(data, plan, call0, start, end, call + 1, at)
            else
              var n := HandedOver(|data|, plan(call + 1), at, len);
              && (n > 0 ==> at + n <= |data|)
              && ((forall p :: at <= p < at + n ==> p < |data| && data[p] != NEWLINE) ==>
                    SearchedTo(data, plan, call0, start, end, call + 2, at))
  {
    var at := pos - Min(CHECK_SIZE, pos - start);
    SeenBefore(|data|, plan, call + 1, start, at);
    SeenBefore(|data|, plan, call + 2, start, at);
  }

  lemma SeenInBlock(size: nat, plan: nat -> Outcome, call: nat, start: nat, pos: nat, p: nat)
    requires start < pos && !plan(call).Fails? && Seen(size, plan, call, start, pos, p)
    ensures var len := Min(CHECK_SIZE, pos - start);
            var at := pos - len;
            at <= p < at + HandedOver(size, plan(call + 1), at, len) || Seen(size, plan, call + 2, start, at, p)
  {
  }

  // One more block, cut after its last newline.
  lemma BlockCut(data: Bytes, plan: nat -> Outcome, call0: nat, start: nat, end: nat, call: nat, pos: nat, cut: nat)
    requires start < pos && SearchedTo(data, plan, call0, start, end, call, pos) && !plan(call).Fails?
    requires var len := Min(CHECK_SIZE, pos - start);
             var at := pos - len;
             var last := at + HandedOver(|data|, plan(call + 1), at, len);
             && at < cut <= last <= |data| && data[cut - 1] == NEWLINE
             && forall p :: cut <= p < last ==> data[p] != NEWLINE
    ensures IsCutOf(data, plan, call0, start, end, cut)
  {
    var len := Min(CHECK_SIZE, pos - start);
    var at := pos - len;
    var last := at + HandedOver(|data|, plan(call + 1), at, len);
    SeenBefore(|data|, plan, call + 2, start, at);
    forall p: nat | Seen(|data|, plan, call0, start, end, p) && cut <= p < |data|
      ensures data[p] != NEWLINE
    {
      if Seen(|data|, plan, call, start, pos, p) {
        SeenInBlock(|data|, plan, call, start, pos, p);
      }
    }
    assert Seen(|data|, plan, call, start, pos, cut - 1);
  }

  // The backward search of one window, a block at a time: whatever seeks and
  // reads do, the cut is after the last newline they hand over.
  method FindCut(file: VfsFile, start: nat, end: nat) returns (cut: nat)
    requires start < end
    modifies file
    ensures start < cut <= end
    ensures IsCutOf(file.data, file.plan, old(file.calls), start, end, cut)
    ensures cut == end || (cut <= |file.data| && file.data[cut - 1] == NEWLINE)
    ensures file.FullReads() && end <= |file.data| ==> IsCut(file.data, start, end, cut)
  {
    hide Seen, IsCutOf, SearchedTo;
    cut := end;
    var pos := end;
    ghost var data, plan, call0 := file.data, file.plan, file.calls;
    NothingSearched(data, plan, call0, start, end);
    while pos > start
      invariant start <= pos <= end && cut == end
      invariant SearchedTo(data, plan, call0, start, end, file.calls, pos)
      invariant file.FullReads() && end <= |file.data| ==>
                  forall k :: pos <= k < end ==> file.data[k] != NEWLINE
    {
      BlockSearched(data, plan, call0, start, end, file.calls, pos);
      var readSize := Min(CHECK_SIZE, pos - start);
      var seekPos := pos - readSize;
      var ok := file.Seek(seekPos);
      if ok {
        var got := file.Read(readSize);
        if got.Some? && got.value != [] {
          // the buffer was zeroed, so what a short read left out is zeros
          var buf := got.value + seq(readSize - |got.value|, _ => 0 as Byte);
          assert forall k :: seekPos <= k < seekPos + |got.value| ==> file.data[k] == buf[k - seekPos];
          var rel := LastNewline(buf);
          assert rel.Some? ==> rel.value < |got.value|;
          if rel.Some? {
            cut := seekPos + rel.value + 1;
            BlockCut(data, plan, call0, start, end, file.calls - 2, pos, cut);
            return;
          }
        }
      }
      pos := pos - readSize;
    }
    AllSearched(data, plan, call0, start, end, file.calls);
  }

  lemma NothingSearched(data: Bytes, plan: nat -> Outcome, call0: nat, start: nat, end: nat)
    ensures SearchedTo(data, plan, call0, start, end, call0, end)
  {
    SeenBefore(|data|, plan, call0, start, end);
  }

  lemma AllSearched(data: Bytes, plan: nat -> Outcome, call0: nat, start: nat, end: nat, call: nat)
    requires SearchedTo(data, plan, call0, start, end, call, start)
    ensures IsCutOf(data, plan, call0, start, end, end)
  {
  }

  // The frames follow each other from 0 to `total`, numbered in order.
  predicate Contiguous(frames: seq<FrameRange>, total: nat) {
    && (forall i :: 0 <= i < |frames| ==> frames[i].idx == i)
    && (frames != [] ==> frames[0].start == 0)
    && (forall i, j :: 0 <= i < j == i + 1 < |frames| ==> frames[j].start == FrameEnd(frames[i]))
    && total == if frames == [] then 0 else FrameEnd(frames[|frames| - 1])
  }

  predicate Partition(frames: seq<FrameRange>, total: nat) {
    && Contiguous(frames, total)
    && (forall i :: 0 <= i < |frames| ==> 0 < frames[i].len <= MAX_FRAME_SIZE)
  }

  // Every frame is cut after the last newline of its window; the one whose
  // window reaches the end of the file takes all that is left.
  predicate CutAtLastNewlines(data: Bytes, frames: seq<FrameRange>) {
    forall i :: 0 <= i < |frames| ==> CutOfWindow(data, frames[i])
  }

  predicate CutOfWindow(data: Bytes, f: FrameRange) {
    if f.start + MAX_FRAME_SIZE < |data|
    then IsCut(data, f.start, f.start + MAX_FRAME_SIZE, FrameEnd(f))
    else FrameEnd(f) == |data|
  }

  // The frame ends with the file, with its window, or right after a newline.
  predicate EndsWell(data: Bytes, total: nat, f: FrameRange) {
    || FrameEnd(f) == total || f.len == 4 * 1024 * 1024
    || (0 < FrameEnd(f) <= |data| && data[FrameEnd(f) - 1] == NEWLINE)
  }

  // `frames_from_seekable_without_seekable_zst`; `size` is what `file.size()`
  // answered.
  method CutFrames(file: VfsFile, size: Option<nat>) returns (frames: Option<seq<FrameRange>>)
    modifies file
    ensures frames.None? <==> size == None || size == Some(0)
    ensures frames.Some? ==> Partition(frames.value, size.value)
    ensures frames.Some? ==> forall f :: f in frames.value ==> EndsWell(file.data, size.value, f)
    ensures frames.Some? && file.FullReads() && size.value == |file.data| ==>
              CutAtLastNewlines(file.data, frames.value)
  {
    if size.None? || size.value == 0 {
      return None;
    }
    var total := size.value;
    var out: seq<FrameRange> := [];
    var start, idx := 0, 0;
    while start < total
      invariant start <= total && idx == |out|
      invariant Partition(out, start)
      invariant forall f :: f in out ==> EndsWell(file.data, total, f)
      invariant file.FullReads() && total == |file.data| ==> CutAtLastNewlines(file.data, out)
    {
      var end := Min(start + MAX_FRAME_SIZE, total);
      if end < total {
        end := FindCut(file, start, end);
      }
      var frame := FrameRange(idx, start, end - start);
      assert file.FullReads() && total == |file.data| ==> CutOfWindow(file.data, frame);
      out := out + [frame];
      start := end;
      idx := idx + 1;
    }
    return Some(out);
  }

  // The frames of a seek table, from the decompressed end of each. `None` is an
  // end the table could not give.
  method SeekTableFrames(ends: seq<Option<nat>>) returns (out: Option<seq<(nat, nat)>>)
    ensures out.None? <==> ends == [] || None in ends
    ensures out.Some? ==> |out.value| == |ends| && forall i :: 0 <= i < |ends| ==>
              out.value[i] == SeekTableFrame(ends, i)
    ensures out.Some? ==> forall i :: 0 <= i < |ends| ==>
              (var (start, len), end := out.value[i], ends[i].value;
               && start == (if i == 0 then 0 else ends[i - 1].value)
               && if start <= end then start + len == end else len == 0)
  {
    if |ends| == 0 {
      return None;
    }
    var frames: seq<(nat, nat)> := [];
    var prevEnd := 0;
    for i := 0 to |ends|
      invariant None !in ends[..i]
      invariant |frames| == i && prevEnd == (if i == 0 then 0 else ends[i - 1].value)
      invariant forall j :: 0 <= j < i ==> ends[j].Some? && frames[j] == SeekTableFrame(ends, j)
    {
      if ends[i].None? {
        return None;
      }
      var end := ends[i].value;
      var len := if end > prevEnd then end - prevEnd else 0;
      frames := frames + [(prevEnd, len)];
      prevEnd := end;
    }
    return Some(frames);
  }

  function SeekTableFrame(ends: seq<Option<nat>>, i: nat): (frame: (nat, nat))
    requires i < |ends|
  {
    var start := if i == 0 || ends[i - 1].None? then 0 else ends[i - 1].value;
    var end := if ends[i].None? then 0 else ends[i].value;
    (start, if end > start then end - start else 0)
  }

  // `frames_from_seekable_with_seekable_zst`.
  function Numbered(frames: seq<(nat, nat)>): (out: seq<FrameRange>)
    ensures |out| == |frames|
    ensures forall i :: 0 <= i < |frames| ==> out[i] == FrameRange(i, frames[i].0, frames[i].1)
  {
    seq(|frames|, i requires 0 <= i < |frames| => FrameRange(i, frames[i].0, frames[i].1))
  }

  predicate NeverGoesBack(ends: seq<Option<nat>>)
    requires forall i :: 0 <= i < |ends| ==> ends[i].Some?
  {
    forall i, j :: 0 <= i < j == i + 1 < |ends| ==> ends[i].value <= ends[j].value
  }

  // The frames of a seek table cover the file exactly when its ends never go
  // back.
  lemma SeekTableCovers(ends: seq<Option<nat>>, frames: seq<(nat, nat)>)
    requires ends != [] && forall i :: 0 <= i < |ends| ==> ends[i].Some?
    requires |frames| == |ends| && forall i :: 0 <= i < |ends| ==> frames[i] == SeekTableFrame(ends, i)
    ensures Contiguous(Numbered(frames), ends[|ends| - 1].value) <==> NeverGoesBack(ends)
  {
    hide NeverGoesBack, Contiguous;
    var out := Numbered(frames);
    forall i | 0 <= i < |ends|
      ensures out[i] == TableRange(ends, i)
    {
      assert out[i] == FrameRange(i, frames[i].0, frames[i].1);
    }
    if NeverGoesBack(ends) {
      AscendingIsContiguous(ends, out);
    }
    if Contiguous(out, ends[|ends| - 1].value) {
      ContiguousIsAscending(ends, out);
    }
  }

  function TableRange(ends: seq<Option<nat>>, i: nat): (f: FrameRange)
    requires i < |ends|
    ensures ends[i].Some? && i == 0 ==> f.start == 0 && FrameEnd(f) == ends[i].value
    ensures ends[i].Some? && i > 0 && ends[i - 1].Some? ==>
              && f.start == ends[i - 1].value
              && (FrameEnd(f) == ends[i].value <==> ends[i - 1].value <= ends[i].value)
  {
    FrameRange(i, SeekTableFrame(ends, i).0, SeekTableFrame(ends, i).1)
  }

  lemma AscendingIsContiguous(ends: seq<Option<nat>>, out: seq<FrameRange>)
    requires ends != [] && forall i :: 0 <= i < |ends| ==> ends[i].Some?
    requires |out| == |ends| && forall i :: 0 <= i < |ends| ==> out[i] == TableRange(ends, i)
    requires NeverGoesBack(ends)
    ensures Contiguous(out, ends[|ends| - 1].value)
  {
    forall i | 0 <= i < |ends|
      ensures FrameEnd(out[i]) == ends[i].value
    {
      assert out[i] == TableRange(ends, i);
      assert i > 0 ==> ends[i - 1].value <= ends[i].value;
    }
  }

  lemma ContiguousIsAscending(ends: seq<Option<nat>>, out: seq<FrameRange>)
    requires ends != [] && forall i :: 0 <= i < |ends| ==> ends[i].Some?
    requires |out| == |ends| && forall i :: 0 <= i < |ends| ==> out[i] == TableRange(ends, i)
    requires Contiguous(out, ends[|ends| - 1].value)
    ensures NeverGoesBack(ends)
  {
    forall i, j | 0 <= i < j == i + 1 < |ends|
      ensures ends[i].value <= ends[j].value
    {
      assert out[j] == TableRange(ends, j);
      if j < |ends| - 1 {
        assert out[j + 1].start == FrameEnd(out[j]) && out[j + 1] == TableRange(ends, j + 1);
      }
    }
  }

  // One worker's file handle and the buffer it reuses for every frame.
  class FrameReader {
    const file: VfsFile
    var buf: Bytes

    constructor (file: VfsFile)
      ensures this.file == file && buf == []
    {
      this.file := file;
      buf := [];
    }

    // `read_frame`: after it the buffer holds bytes of this frame only; with
    // reads that make progress it holds all of them, up to the end of the file.
    method ReadFrame(range: FrameRange) returns (r: Result<Option<nat>>)
      modifies this, file
      ensures range.len == 0 ==> r == Ok(None) && buf == old(buf)
      ensures range.len > 0 && r.Ok? ==>
                && r.value == Some(range.len) && |buf| <= range.len
                && (buf != [] ==>
                      range.start + |buf| <= |file.data| && buf == file.data[range.start..range.start + |buf|])
      ensures range.len > 0 && file.PositiveReads() ==>
                r.Ok? && |buf| == Min(range.len, file.Left(range.start))
    {
      if range.len == 0 {
        return Ok(None);
      }
      var ok := file.Seek(range.start);
      if !ok {
        return Err;
      }
      // `resize` keeps what the previous frame left in front
      buf := if |buf| >= range.len then buf[..range.len] else buf + seq(range.len - |buf|, _ => 0 as Byte);
      var n := 0;
      var more := true;
      while more && n < |buf|
        invariant 0 <= n <= |buf| == range.len && file.pos == range.start + n
        invariant n > 0 ==> range.start + n <= |file.data| && buf[..n] == file.data[range.start..range.start + n]
        invariant file.PositiveReads() && !more ==> file.Left(file.pos) == 0
        decreases more, |buf| - n
      {
        var got := file.Read(|buf| - n);
        if got.None? {
          return Err;
        }
        var read := |got.value|;
        buf := buf[..n] + got.value + buf[n + read..];
        if read == 0 {
          more := false;
        } else {
          assert buf[..n + read] == file.data[range.start..range.start + n] + got.value;
          n := n + read;
        }
      }
      buf := buf[..n];
      return Ok(Some(range.len));
    }
  }
}
