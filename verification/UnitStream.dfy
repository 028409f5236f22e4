// The units of a text read in order as one stream.
module UnitStream {
  import opened Text

  // One call of a reader's client.
  datatype Call = Read(len: nat) | Fill | Consume(amount: nat)

  class UnitsReader {
    const units: seq<Bytes>
    // whether the k-th attempt to read a unit fails
    const fails: nat -> bool
    var attempts: nat
    var next: nat
    var buf: Bytes
    var pos: nat
    // every byte handed on so far
    ghost var delivered: Bytes

    constructor (units: seq<Bytes>, fails: nat -> bool)
      ensures Valid() && this.units == units && this.fails == fails
      ensures delivered == [] && Rest() == Flatten(units)
    {
      this.units, this.fails := units, fails;
      attempts, next, buf, pos, delivered := 0, 0, [], 0, [];
      new;
      assert units[0..] == units;
    }

    ghost predicate Valid()
      reads this
    {
      && pos <= |buf| && next <= |units|
      && delivered + Rest() == Flatten(units)
    }

    // What is still to be delivered.
    ghost function Rest(): (rest: Bytes)
      requires pos <= |buf| && next <= |units|
      reads this
    {
      buf[pos..] + Flatten(units[next..])
    }

    // `fill_buf`: an empty answer means the end of the text.
    method FillBuf() returns (r: Result<Bytes>)
      requires Valid()
      modifies this
      ensures Valid() && Rest() == old(Rest()) && delivered == old(delivered)
      ensures r.Ok? ==> r.value == buf[pos..] && (r.value == [] ==> Rest() == [])
      ensures (forall k: nat :: !fails(k)) ==> r.Ok?
    {
      var more := true;
      while more && pos == |buf|
        invariant pos <= |buf| && next <= |units|
        invariant Rest() == old(Rest()) && delivered == old(delivered)
        invariant !more ==> pos == |buf| && next == |units|
        decreases more, |units| - next
      {
        assert Rest() == Flatten(units[next..]);
        buf, pos := [], 0;
        attempts := attempts + 1;
        if fails(attempts - 1) {
          return Err;
        }
        if next < |units| {
          buf := buf + units[next];
          assert units[next..] == [units[next]] + units[next + 1..];
          next := next + 1;
        } else {
          more := false;
        }
      }
      assert !more ==> units[next..] == [];
      return Ok(buf[pos..]);
    }

    method Consume(amount: nat)
      requires Valid()
      modifies this
      ensures Valid() && next == old(next) && buf == old(buf)
      ensures pos == Min(old(pos) + amount, |buf|)
      ensures delivered == old(delivered) + buf[old(pos)..pos]
      ensures old(Rest()) == buf[old(pos)..pos] + Rest()
    {
      var from := pos;
      pos := Min(pos + amount, |buf|);
      assert buf[from..] == buf[from..pos] + buf[pos..];
      Associative(buf[from..pos], buf[pos..], Flatten(units[next..]));
      Associative(delivered, buf[from..pos], Rest());
      delivered := delivered + buf[from..pos];
    }

    method Read(len: nat) returns (out: Result<Bytes>)
      requires Valid()
      modifies this
      ensures Valid()
      ensures out.Ok? ==>
                && |out.value| <= len
                && delivered == old(delivered) + out.value
                && old(Rest()) == out.value + Rest()
                && (out.value == [] && len > 0 ==> Rest() == [])
      ensures out.Err? ==> delivered == old(delivered) && Rest() == old(Rest())
      ensures (forall k: nat :: !fails(k)) ==> out.Ok?
    {
      var available := FillBuf();
      if available.Err? {
        return Err;
      }
      var n := Min(|available.value|, len);
      var from := pos;
      assert available.value[..n] == buf[from..from + n];
      Consume(n);
      return Ok(available.value[..n]);
    }

    // Any schedule of calls delivers a prefix of the units put together.
    method RunSchedule(calls: seq<Call>)
      requires Valid()
      modifies this
      ensures Valid()
      ensures old(delivered) <= delivered <= Flatten(units)
    {
      for i := 0 to |calls|
        invariant Valid() && old(delivered) <= delivered
      {
        match calls[i] {
          case Read(len) =>
            var _ := Read(len);
          case Fill =>
            var _ := FillBuf();
          case Consume(amount) =>
            Consume(amount);
        }
      }
    }

    // Reading until an empty answer delivers everything, however small the
    // reads are.
    method ReadToEnd(len: nat)
      requires Valid() && len > 0
      requires forall k: nat :: !fails(k)
      modifies this
      ensures Valid() && delivered == Flatten(units)
    {
      var more := true;
      while more
        invariant Valid() && (!more ==> Rest() == [])
        decreases more, |Rest()|
      {
        var out := Read(len);
        more := out.value != [];
      }
    }
  }
}
