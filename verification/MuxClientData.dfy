/** The client_data object of tcpmux: a circular output buffer towards the local socket, and the
    credit counters that go with it.  What the local socket accepts is left open. */
module MuxClientData {
  import opened MuxRing
  import opened MuxClients
  import opened Options

  /** Storing behind a window makes it longer and leaves its old part alone. */
  lemma {:induction false} PutExtendsWindow<T>(ring: seq<T>, opos: nat, csz: nat, data: seq<T>)
    requires opos < |ring| && csz + |data| <= |ring|
    ensures Window(Put(ring, Wrap(opos + csz, |ring|), data), opos, csz + |data|) == Window(ring, opos, csz) + data
    decreases |data|
  {
    if data != [] {
      var at := Wrap(opos + csz, |ring|);
      var ring' := ring[at := data[0]];
      var w, w' := Window(ring, opos, csz), Window(ring', opos, csz + 1);
      forall i | 0 <= i < csz + 1 ensures w'[i] == (w + data[..1])[i] {
        assert w'[i] == ring'[Wrap(opos + i, |ring|)];
      }
      assert w' == w + data[..1];
      PutExtendsWindow(ring', opos, csz + 1, data[1..]);
      assert data == data[..1] + data[1..];
      assert Window(ring, opos, csz) + data[..1] + data[1..] == Window(ring, opos, csz) + data;
    }
  }

  /** Draining in several writes counts like draining in one. */
  lemma DrainTwice(c: Client, t: int, a: nat, b: nat)
    requires 0 <= c.rkarma
    ensures c.Drain(t, a).Drain(t, b) == c.Drain(t, a + b) && c.Drain(t, 0) == c
  {
  }

  class ClientData {
    const threshold: int    // ACK_THRESHOLD
    const outBuf: array<int>
    var open: bool
    var rdead: bool
    var wkarma: int
    var rkarma: int
    var queued: bool
    var outPos: nat
    var outSz: nat

    ghost predicate Valid()
      reads this
    {
      outPos < outBuf.Length && outSz <= outBuf.Length && 0 < threshold && (open ==> 0 <= rkarma)
    }

    ghost function View(): Client
      reads this
    {
      Client(open, rdead, wkarma, rkarma, outSz, queued)
    }

    /** The bytes on their way to the local socket. */
    ghost function Pending(): seq<int>
      reads this, outBuf
      requires Valid()
    {
      Window(outBuf[..], outPos, outSz)
    }

    /** get_client for an unknown id, when the connection it opens does not fail at once. */
    constructor (karma: nat, threshold: int)
      requires 0 < threshold <= karma
      ensures Valid() && fresh(outBuf) && outBuf.Length == karma && this.threshold == threshold
      ensures View() == Born(threshold, true) && Pending() == []
    {
      this.threshold := threshold;
      outBuf := new int[karma];
      open, rdead, wkarma, rkarma, queued := true, false, 0, 0, false;
      outPos, outSz := 0, 0;
    }

    method SetRKarma(nkarma: int)
      modifies this`rkarma, this`queued
      ensures View() == old(View()).SetRKarma(threshold, nkarma)
    {
      var noqueue := 0 <= rkarma && rkarma < threshold;
      rkarma := nkarma;
      if noqueue && (nkarma == -1 || threshold <= nkarma) {
        queued := true;
      }
    }

    method Disconnect()
      modifies this`open, this`rkarma, this`queued
      ensures View() == old(View()).Disconnect(threshold)
    {
      open := false;
      SetRKarma(-1);
    }

    /** A data packet for this client: its bytes go behind those that are waiting, unless there is
        no room for them. */
    method Deliver(data: seq<int>) returns (ok: bool)
      requires Valid()
      modifies this`outSz, outBuf
      ensures Valid()
      ensures var r := Arrive(Limits(outBuf.Length, threshold), old(View()), Data(|data|));
              if ok then r == Some(Some(View())) else r == None
      ensures Pending() == if ok then old(Pending()) + data else old(Pending())
    {
      if outBuf.Length - outSz < |data| {
        return false;
      }
      PutExtendsWindow(outBuf[..], outPos, outSz, data);
      outSz := WriteCbuf(outBuf, outPos, outSz, data, false);
      return true;
    }

    /** One write() of clientw took `amt` bytes. */
    method Wrote(amt: nat) returns (bs: seq<int>)
      requires Valid() && open && amt <= outSz && outPos + amt <= outBuf.Length
      modifies this`rkarma, this`queued, this`outPos, this`outSz
      ensures Valid() && outSz == old(outSz) - amt && rkarma == old(rkarma) + amt
      ensures old(Pending()) == bs + Pending() && |bs| == amt
      ensures View() == old(View()).Drain(threshold, amt)
    {
      WindowShrinks(outBuf[..], outPos, outSz, amt);
      hide Window;
      bs := outBuf[outPos..outPos + amt];
      var noqueue := 0 <= rkarma && rkarma < threshold;
      rkarma := rkarma + amt;
      outPos := outPos + amt;
      outPos := outPos - if outPos >= outBuf.Length then outBuf.Length else 0;
      outSz := outSz - amt;
      if noqueue && threshold <= rkarma {
        queued := true;
      }
    }

    /** clientw: hand waiting bytes to the local socket, oldest first, and count them as ready to
        be acknowledged; a failing socket disconnects the client. */
    method ClientW() returns (wire: seq<int>)
      requires Valid()
      modifies this`open, this`rkarma, this`queued, this`outPos, this`outSz
      ensures Valid()
      ensures old(Pending()) == wire + Pending()
      ensures !old(open) ==> wire == [] && View() == old(View())
      ensures open ==> View() == old(View()).Drain(threshold, |wire|)
      ensures old(open) && !open ==> View() == old(View()).Drain(threshold, |wire|).Disconnect(threshold)
    {
      hide Window;
      wire := [];
      if !open {
        return;
      }
      ghost var c, p := View(), Pending();
      DrainTwice(c, threshold, 0, 0);
      while outSz > 0
        invariant Valid() && open && |wire| + outSz == c.outSz
        invariant p == wire + Pending()
        invariant View() == c.Drain(threshold, |wire|)
        decreases outSz
      {
        var sz := outBuf.Length - outPos;
        sz := if outSz < sz then outSz else sz;
        var amt :| -2 <= amt <= sz;   // what write() returns; -2 when it would block
        if amt == 0 || amt == -1 {
          Disconnect();
          return;
        } else if amt == -2 {
          return;
        }
        var bs := Wrote(amt);
        DrainTwice(c, threshold, |wire|, amt);
        assert wire + (bs + Pending()) == (wire + bs) + Pending();
        wire := wire + bs;
      }
    }
  }
}
