/** The client side of muxstream: the ring buffer of a MuxedClient, and the list of clients that want
    to write. */
module MuxedClientBuffer {
  import opened Division
  import opened MuxRing

  /** Position arithmetic of a ring that is a power of two long: masking is the remainder. */
  function Masked(x: nat, n: nat): (p: nat)
    requires n > 0
    ensures p < n
  {
    x % n
  }

  lemma MaskedIs(x: nat, n: nat)
    requires n > 0 && x < 2 * n
    ensures Masked(x, n) == Wrap(x, n)
  {
    ModIs(x, if x < n then 0 else 1, if x < n then x else x - n, n);
  }

  /** One run of bytes stored behind the buffered ones. */
  lemma Stored<T>(buf: seq<T>, pos: nat, size: nat, at: nat, data: seq<T>, buf': seq<T>)
    requires pos < |buf| == |buf'| && size + |data| <= |buf| && at + |data| <= |buf|
    requires at == Wrap(pos + size, |buf|)
    requires forall k :: 0 <= k < |buf| ==> buf'[k] == if at <= k < at + |data| then data[k - at] else buf[k]
    ensures Window(buf', pos, size + |data|) == Window(buf, pos, size) + data
  {
    var n := |buf|;
    var r := Window(buf', pos, size + |data|);
    forall i | 0 <= i < size + |data| ensures r[i] == (Window(buf, pos, size) + data)[i] {
      var k := Wrap(pos + i, n);
      assert r[i] == buf'[k];
    }
  }

  class MuxedClient<T(0)> {
    const buf: array<T>
    var bufPos: nat
    var bufSize: nat
    var receivedBytes: nat
    var connected: bool             // client_stream is set
    ghost var arrived: seq<T>       // everything the multiplexer has pushed
    ghost var taken: seq<T>         // everything the client stream has accepted

    /** What has arrived is what the client has taken, and the buffer behind it. */
    ghost predicate Valid()
      reads this, buf
    {
      && bufPos < buf.Length && bufSize <= buf.Length
      && arrived == taken + Window(buf[..], bufPos, bufSize)
    }

    constructor (size: nat, zero: T)
      requires size > 0
      ensures Valid() && fresh(buf) && buf.Length == size && bufSize == 0 && receivedBytes == 0 && arrived == []
    {
      buf := new T[size](_ => zero);
      bufPos, bufSize, receivedBytes, connected, arrived, taken := 0, 0, 0, true, [], [];
    }

    /** One run that the client stream has accepted. */
    method Take(amt: nat)
      requires Valid() && amt <= bufSize && bufPos + amt <= buf.Length
      modifies this`bufPos, this`bufSize, this`receivedBytes, this`taken
      ensures Valid() && bufSize == old(bufSize) - amt && receivedBytes == old(receivedBytes) + amt
      ensures taken == old(taken) + old(buf[bufPos..bufPos + amt])
    {
      hide Window;
      MaskedIs(bufPos + amt, buf.Length);
      ghost var run := buf[..][bufPos..bufPos + amt];
      Reassociated(taken, run, arrived, buf[..], bufPos, bufSize, amt);
      assert run == buf[bufPos..bufPos + amt];
      taken := taken + run;
      bufPos := Masked(bufPos + amt, buf.Length);
      bufSize := bufSize - amt;
      receivedBytes := receivedBytes + amt;
    }

    /** drain: push to the client stream until it takes less than it is offered. */
    method Drain()
      requires Valid()
      modifies this`bufPos, this`bufSize, this`receivedBytes, this`taken
      ensures Valid() && bufSize <= old(bufSize)
      ensures receivedBytes - old(receivedBytes) == |taken| - |old(taken)| == old(bufSize) - bufSize
      ensures old(taken) <= taken
      ensures !connected ==> bufSize == old(bufSize)
    {
      hide Window;
      while connected && bufSize > 0
        invariant Valid() && bufSize <= old(bufSize) && old(taken) <= taken
        invariant receivedBytes - old(receivedBytes) == |taken| - |old(taken)| == old(bufSize) - bufSize
        invariant !connected ==> bufSize == old(bufSize)
        decreases bufSize
      {
        var wamt := if buf.Length - bufPos < bufSize then buf.Length - bufPos else bufSize;
        var amt: nat :| amt <= wamt;   // what the client stream takes
        Take(amt);
        if amt != wamt {
          break;
        }
      }
    }

    /** push from the multiplexer: store run by run, draining in between, until everything is stored
        or the buffer is full.  What fits the buffer at once is stored completely. */
    method Push(data: seq<T>) returns (result: nat)
      requires Valid()
      modifies this`bufPos, this`bufSize, this`receivedBytes, this`taken, this`arrived, buf
      ensures Valid() && result <= |data| && arrived == old(arrived) + data[..result]
      ensures result < |data| ==> bufSize == buf.Length
      ensures |data| <= buf.Length - old(bufSize) ==> result == |data|
      ensures bufSize + (receivedBytes - old(receivedBytes)) == old(bufSize) + result
    {
      hide Window;
      result := 0;
      assert data[..0] == [];
      while result < |data| && bufSize < buf.Length
        invariant Valid() && result <= |data| && arrived == old(arrived) + data[..result]
        invariant old(receivedBytes) <= receivedBytes
        invariant bufSize + (receivedBytes - old(receivedBytes)) == old(bufSize) + result
        decreases |data| - result
      {
        MaskedIs(bufPos + bufSize, buf.Length);
        var pos := Masked(bufPos + bufSize, buf.Length);
        var room := if buf.Length - bufSize < buf.Length - pos then buf.Length - bufSize else buf.Length - pos;
        var amt := if |data| - result < room then |data| - result else room;
        Store(pos, data[result..result + amt]);
        assert data[..result] + data[result..result + amt] == data[..result + amt];
        assert (old(arrived) + data[..result]) + data[result..result + amt]
            == old(arrived) + (data[..result] + data[result..result + amt]);
        result := result + amt;
        Drain();
      }
    }

    /** memcpy of one run behind the buffered bytes */
    method Store(pos: nat, data: seq<T>)
      requires Valid() && bufSize + |data| <= buf.Length && pos + |data| <= buf.Length
      requires pos == Wrap(bufPos + bufSize, buf.Length)
      modifies this`bufSize, this`arrived, buf
      ensures Valid() && bufSize == old(bufSize) + |data| && arrived == old(arrived) + data
    {
      hide Window;
      ghost var was := buf[..];
      for i := 0 to |data|
        invariant bufSize == old(bufSize) && arrived == old(arrived)
        invariant forall k :: 0 <= k < buf.Length ==> buf[k] == if pos <= k < pos + i then data[k - pos] else was[k]
      {
        buf[pos + i] := data[i];
      }
      Stored(was, bufPos, bufSize, pos, data, buf[..]);
      assert taken + (Window(was, bufPos, bufSize) + data) == (taken + Window(was, bufPos, bufSize)) + data;
      arrived := arrived + data;
      bufSize := bufSize + |data|;
    }
  }

  lemma Reassociated<T>(taken: seq<T>, run: seq<T>, arrived: seq<T>, buf: seq<T>, pos: nat, size: nat, amt: nat)
    requires pos < |buf| && size <= |buf| && amt <= size && pos + amt <= |buf| && run == buf[pos..pos + amt]
    requires arrived == taken + Window(buf, pos, size)
    ensures arrived == (taken + run) + Window(buf, Wrap(pos + amt, |buf|), size - amt)
  {
    hide Window;
    WindowShrinks(buf, pos, size, amt);
    var rest := Window(buf, Wrap(pos + amt, |buf|), size - amt);
    assert taken + (run + rest) == (taken + run) + rest;
  }
}
