// A compressed file read through its decoder, which may hand over less than
// was asked for.
module ZstFile {
  import opened Text
  import opened FrameCutting

  class LocalSeekableZstdFile {
    const decoder: VfsFile
    var pos: nat

    constructor (decoder: VfsFile)
      ensures this.decoder == decoder && pos == 0
    {
      this.decoder, pos := decoder, 0;
    }

    method Seek(p: nat) returns (ok: bool)
      modifies this, decoder
      ensures ok <==> !decoder.plan(old(decoder.calls)).Fails?
      ensures ok ==> pos == decoder.pos == p
      ensures !ok ==> pos == old(pos) && decoder.pos == old(decoder.pos)
    {
      ok := decoder.Seek(p);
      if ok {
        pos := p;
      }
    }

    // `read`: fills the caller's buffer from the front, leaves what it could
    // not fill, and moves the position by what it filled. As long as every read
    // of the decoder makes progress, it fills all there is.
    method Read(buf: array<Byte>) returns (r: Result<nat>)
      modifies this, decoder, buf
      ensures r.Ok? ==>
                && r.value <= buf.Length && pos == old(pos) + r.value
                && decoder.pos == old(decoder.pos) + r.value
                && (r.value > 0 ==>
                      (decoder.pos <= |decoder.data|
                       && buf[..r.value] == decoder.data[old(decoder.pos)..decoder.pos]))
                && buf[r.value..] == old(buf[..])[r.value..]
      ensures r.Err? ==> pos == old(pos)
      ensures decoder.PositiveReads() ==>
                r.Ok? && r.value == Min(buf.Length, decoder.Left(old(decoder.pos)))
    {
      var total: nat := 0;
      var more := true;
      while more && total < buf.Length
        invariant total <= buf.Length && pos == old(pos)
        invariant decoder.pos == old(decoder.pos) + total
        invariant total > 0 ==> decoder.pos <= |decoder.data|
        invariant total > 0 ==> buf[..total] == decoder.data[old(decoder.pos)..decoder.pos]
        invariant buf[total..] == old(buf[..])[total..]
        invariant decoder.PositiveReads() && !more ==> decoder.Left(decoder.pos) == 0
        decreases more, buf.Length - total
      {
        var got := decoder.Read(buf.Length - total);
        if got.None? {
          return Err;
        }
        if got.value == [] {
          more := false;
        } else {
          ghost var before := buf[..];
          Store(buf, total, got.value);
          Stored(before, buf[..], total, got.value);
          Further(old(buf[..]), before, total, |got.value|);
          Joins(decoder.data, old(decoder.pos), total, |got.value|);
          total := total + |got.value|;
        }
      }
      pos := pos + total;
      return Ok(total);
    }
  }

  lemma Stored(before: Bytes, after: Bytes, at: nat, bytes: Bytes)
    requires at + |bytes| <= |before| && after == before[..at] + bytes + before[at + |bytes|..]
    ensures |after| == |before|
    ensures after[..at + |bytes|] == before[..at] + bytes && after[at + |bytes|..] == before[at + |bytes|..]
  {
  }

  lemma Further(a: Bytes, b: Bytes, at: nat, n: nat)
    requires |a| == |b| && at + n <= |a| && a[at..] == b[at..]
    ensures a[at + n..] == b[at + n..]
  {
    assert a[at + n..] == a[at..][n..] && b[at + n..] == b[at..][n..];
  }

  lemma Joins(data: Bytes, from: nat, m: nat, n: nat)
    requires from + m + n <= |data|
    ensures data[from..from + m] + data[from + m..from + m + n] == data[from..from + m + n]
  {
  }

  // Writes some bytes into a buffer.
  method Store(buf: array<Byte>, at: nat, bytes: Bytes)
    requires at + |bytes| <= buf.Length
    modifies buf
    ensures buf[..] == old(buf[..])[..at] + bytes + old(buf[..])[at + |bytes|..]
  {
    for i := 0 to |bytes|
      invariant buf[..] == old(buf[..])[..at] + bytes[..i] + old(buf[..])[at + i..]
    {
      buf[at + i] := bytes[i];
    }
  }
}
