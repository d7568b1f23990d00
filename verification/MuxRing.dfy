/** The circular buffers of tcpmux: the replay ring of the last GLOBAL_KARMA bytes written to the
    peer, and the per-client output buffers.  Both are filled by write_cbuf. */
module MuxRing {
  import opened Division

  /** `x` folded back into a buffer of `n` slots, for an offset that is at most one turn ahead. */
  function Wrap(x: nat, n: nat): nat
    requires n > 0
  {
    if x >= n then x - n else x
  }

  /** The ring after storing `data` one element at a time from slot `at` on. */
  function Put<T>(ring: seq<T>, at: nat, data: seq<T>): (r: seq<T>)
    requires at < |ring|
    ensures |r| == |ring|
    decreases |data|
  {
    if data == [] then ring else Put(ring[at := data[0]], Wrap(at + 1, |ring|), data[1..])
  }

  /** The ring remembers the newest elements of `sent`: slots before `pos` hold the last turn's
      elements, slots from `pos` on those of the turn before (once there has been one). */
  ghost predicate Holds<T>(ring: seq<T>, pos: nat, sent: seq<T>) {
    && pos < |ring|
    && pos <= |sent|
    && pos == |sent| % |ring|
    && (forall j :: 0 <= j < pos ==> ring[j] == sent[|sent| - pos + j])
    && (forall j :: pos <= j < |ring| && |ring| + pos <= |sent| + j ==> ring[j] == sent[|sent| - pos - |ring| + j])
  }

  lemma ModAdd(a: nat, k: nat, n: nat)
    requires n > 0
    ensures (a % n + k) % n == (a + k) % n
  {
    var q := a / n;
    var q', r' := (a % n + k) / n, (a % n + k) % n;
    assert a + k == (q + q') * n + r';
    ModIs(a + k, q + q', r', n);
  }

  /** A ring position `k` slots further on. */
  function Advance(pos: nat, k: nat, n: nat): (p: nat)
    requires n > 0
    ensures p < n
  {
    (pos + k) % n
  }

  lemma AdvanceTwice(pos: nat, j: nat, k: nat, n: nat)
    requires n > 0
    ensures Advance(Advance(pos, j, n), k, n) == Advance(pos, j + k, n)
  {
    ModAdd(pos + j, k, n);
  }

  lemma AdvanceZero(pos: nat, n: nat)
    requires pos < n
    ensures Advance(pos, 0, n) == pos
  {
    ModIs(pos, 0, pos, n);
  }

  /** Storing more elements keeps the ring a memory of everything stored so far. */
  lemma {:induction false} PutHolds<T>(ring: seq<T>, pos: nat, sent: seq<T>, data: seq<T>)
    requires Holds(ring, pos, sent)
    ensures Holds(Put(ring, pos, data), Advance(pos, |data|, |ring|), sent + data)
    decreases |data|
  {
    if data == [] {
      assert sent + data == sent;
      ModIs(pos, 0, pos, |ring|);
    } else {
      var ring', pos', sent' := ring[pos := data[0]], Wrap(pos + 1, |ring|), sent + [data[0]];
      ModSuccessor(|sent|, |ring|);
      if pos' == 0 {
        forall j | 0 <= j < |ring| && |ring| <= |sent'| + j
          ensures ring'[j] == sent'[|sent'| - |ring| + j]
        {
        }
      }
      assert Holds(ring', pos', sent');
      PutHolds(ring', pos', sent', data[1..]);
      assert sent' + data[1..] == sent + data;
      ModSuccessor(pos, |ring|);
      ModIs(pos, 0, pos, |ring|);
      ModAdd(pos + 1, |data| - 1, |ring|);
    }
  }

  /** The position and length of the first contiguous run among the newest `debt` elements. */
  function DebtRun(pos: nat, debt: nat, n: nat): (run: (nat, nat))
    requires pos < n && debt <= n
  {
    if debt <= pos then (pos - debt, debt) else (pos - debt + n, debt - pos)
  }

  /** That run is exactly the oldest part of the last `debt` elements: a replay that starts there
      continues the sequence where the peer stopped reading, across the wrap of the ring. */
  lemma DebtRunIsOldest<T>(ring: seq<T>, pos: nat, sent: seq<T>, debt: nat)
    requires Holds(ring, pos, sent) && 0 < debt <= |sent| && debt <= |ring|
    ensures var (start, len) := DebtRun(pos, debt, |ring|);
            && 0 < len <= debt && start + len <= |ring|
            && ring[start..start + len] == sent[|sent| - debt..|sent| - debt + len]
  {
    var (start, len) := DebtRun(pos, debt, |ring|);
    assert ring[start..start + len] == sent[|sent| - debt..|sent| - debt + len];
  }

  /** Storing a chunk that fits before the end of the ring is one block copy. */
  lemma {:induction false} PutChunk<T>(ring: seq<T>, at: nat, chunk: seq<T>, rest: seq<T>)
    requires at + |chunk| <= |ring| && at < |ring|
    ensures Put(ring, at, chunk + rest)
         == Put(ring[..at] + chunk + ring[at + |chunk|..], Wrap(at + |chunk|, |ring|), rest)
    decreases |chunk|
  {
    if chunk == [] {
      assert chunk + rest == rest;
      assert ring[..at] + chunk + ring[at..] == ring;
    } else {
      var c := chunk[0];
      var ring' := ring[at := c];
      assert (chunk + rest)[1..] == chunk[1..] + rest;
      if |chunk| == 1 {
        assert ring[..at] + chunk + ring[at + 1..] == ring';
        assert chunk[1..] + rest == rest;
      } else {
        PutChunk(ring', at + 1, chunk[1..], rest);
        assert ring'[..at + 1] + chunk[1..] + ring'[at + |chunk|..] == ring[..at] + chunk + ring[at + |chunk|..];
      }
    }
  }

  /** Advancing a folded position by at most one turn. */
  lemma ModAdvance(a: nat, amt: nat, n: nat)
    requires 0 < n && amt <= n
    ensures (a + amt) % n == Wrap(a % n + amt, n) < n
  {
    ModAdd(a, amt, n);
    var r := a % n + amt;
    ModIs(r, if r >= n then 1 else 0, Wrap(r, n), n);
  }

  /** The `csz` elements of a ring that start at slot `opos`. */
  function Window<T>(ring: seq<T>, opos: nat, csz: nat): (w: seq<T>)
    requires opos < |ring| && csz <= |ring|
    ensures |w| == csz
  {
    seq(csz, i requires 0 <= i < csz => ring[Wrap(opos + i, |ring|)])
  }

  /** Taking a run from the front leaves the rest, across the wrap. */
  lemma WindowShrinks<T>(ring: seq<T>, opos: nat, csz: nat, amt: nat)
    requires opos < |ring| && csz <= |ring| && amt <= csz && opos + amt <= |ring|
    ensures Window(ring, opos, csz) == ring[opos..opos + amt] + Window(ring, Wrap(opos + amt, |ring|), csz - amt)
  {
    var w, w' := Window(ring, opos, csz), Window(ring, Wrap(opos + amt, |ring|), csz - amt);
    forall i | 0 <= i < csz ensures w[i] == (ring[opos..opos + amt] + w')[i] {
      assert w[i] == ring[Wrap(opos + i, |ring|)];
      if i >= amt { assert w'[i - amt] == ring[Wrap(Wrap(opos + amt, |ring|) + (i - amt), |ring|)]; }
    }
  }

  /** One memcpy of write_cbuf. */
  method CopyChunk<T>(cdata: array<T>, cpos: nat, chunk: seq<T>)
    requires cpos + |chunk| <= cdata.Length
    modifies cdata
    ensures cdata[..] == old(cdata[..cpos]) + chunk + old(cdata[cpos + |chunk|..])
  {
    forall i | 0 <= i < |chunk| {
      cdata[cpos + i] := chunk[i];
    }
  }

  /** write_cbuf: store `wdata` behind the `csz` elements that start at `opos`.  With `rotate` the
      fill count is itself a ring position and is folded back; without it the data must fit. */
  method WriteCbuf<T>(cdata: array<T>, opos: nat, csz: nat, wdata: seq<T>, rotate: bool) returns (csz': nat)
    requires opos < cdata.Length
    requires if rotate then csz < cdata.Length else csz + |wdata| <= cdata.Length
    modifies cdata
    ensures cdata[..] == Put(old(cdata[..]), Wrap(opos + csz, cdata.Length), wdata)
    ensures csz' == if rotate then Advance(csz, |wdata|, cdata.Length) else csz + |wdata|
  {
    var n := cdata.Length;
    csz' := csz;
    var rest := wdata;
    ghost var done := 0;
    if rotate { ModIs(csz, 0, csz, n); }
    while |rest| > 0
      invariant done + |rest| == |wdata|
      invariant if rotate then csz' < n && csz' == (csz + done) % n else csz' == csz + done
      invariant Put(old(cdata[..]), Wrap(opos + csz, n), wdata) == Put(cdata[..], Wrap(opos + csz', n), rest)
      decreases |rest|
    {
      var cpos := opos + csz';
      cpos := cpos - if cpos >= n then n else 0;
      var amt := n - cpos;
      amt := if |rest| < amt then |rest| else amt;
      assert rest == rest[..amt] + rest[amt..];
      PutChunk(cdata[..], cpos, rest[..amt], rest[amt..]);
      CopyChunk(cdata, cpos, rest[..amt]);
      if rotate { ModAdvance(csz + done, amt, n); }
      csz' := csz' + amt;
      if rotate && csz' >= n {
        csz' := csz' - n;
      }
      rest := rest[amt..];
      done := done + amt;
    }
  }
}
