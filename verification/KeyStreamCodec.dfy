/** The encoder of the key-stream codec and the key manager whose keys it uses up. */
module KeyStreamCodec {
  import opened KeyStreamFrames

  /** Which key is in use, how far, and how often the key has been changed. */
  datatype Tenure = Tenure(cur: nat, pos: nat, changes: nat)

  /** A frame together with the tenure of the key it was encoded under. */
  datatype Emitted = Emitted(changes: nat, frame: Frame)

  ghost predicate Usable(keys: seq<seq<Octet>>, block: nat, t: Tenure) {
    block > 0 && t.cur < |keys| && t.pos <= |keys[t.cur]| && forall key <- keys :: 8 <= |key| < LIMIT
  }

  function Min(a: nat, b: nat): nat { if a > b then b else a }

  /** The key for the next `count` bytes: the current one if they fit, and else the next one. */
  function Advance(keys: seq<seq<Octet>>, t: Tenure, count: nat): Tenure
    requires t.cur < |keys|
  {
    if count + t.pos > |keys[t.cur]| then Tenure(if t.cur + 1 >= |keys| then 0 else t.cur + 1, 0, t.changes + 1) else t
  }

  /** One turn of the loop of encode: the frame, its length and the state behind it. */
  function EmitOne(keys: seq<seq<Octet>>, block: nat, t: Tenure, data: seq<Octet>): (r: (Emitted, Tenure))
    requires Usable(keys, block, t) && data != []
    ensures Usable(keys, block, r.1) && 0 < |r.0.frame.payload| <= |data| && InRange(keys, r.0.frame)
  {
    var t1 := Advance(keys, t, Min(|data|, block));
    var key := keys[t1.cur];
    var count := Min(Min(|data|, block), |key|);
    (Emitted(t1.changes, Frame(Num(key), t1.pos, XorWith(data[..count], key, t1.pos))), t1.(pos := t1.pos + count))
  }

  function Emit(keys: seq<seq<Octet>>, block: nat, t: Tenure, data: seq<Octet>): (r: (seq<Emitted>, Tenure))
    requires Usable(keys, block, t)
    ensures Usable(keys, block, r.1)
    decreases |data|
  {
    if data == [] then ([], t)
    else
      var (e, t') := EmitOne(keys, block, t, data);
      var (es, t'') := Emit(keys, block, t', data[|e.frame.payload|..]);
      ([e] + es, t'')
  }

  function Frames(es: seq<Emitted>): (fs: seq<Frame>)
    ensures |fs| == |es| && forall i :: 0 <= i < |es| ==> fs[i] == es[i].frame
  {
    seq(|es|, i requires 0 <= i < |es| => es[i].frame)
  }

  /** Every frame uses a range inside its key. */
  lemma {:induction false} EmitInRange(keys: seq<seq<Octet>>, block: nat, t: Tenure, data: seq<Octet>)
    requires Usable(keys, block, t)
    ensures AllInRange(keys, Frames(Emit(keys, block, t, data).0))
    decreases |data|
  {
    hide InRange, EmitOne;
    if data != [] {
      var (e, t') := EmitOne(keys, block, t, data);
      var rest := data[|e.frame.payload|..];
      EmitInRange(keys, block, t', rest);
      assert Frames(Emit(keys, block, t, data).0) == [e.frame] + Frames(Emit(keys, block, t', rest).0);
    }
  }

  lemma PlainOne(keys: seq<seq<Octet>>, block: nat, t: Tenure, data: seq<Octet>)
    requires Usable(keys, block, t) && data != [] && GoodKeys(keys)
    ensures var e := EmitOne(keys, block, t, data).0; Plain(keys, e.frame) == data[..|e.frame.payload|]
  {
    var t1 := Advance(keys, t, Min(|data|, block));
    var f := EmitOne(keys, block, t, data).0.frame;
    XorWithTwice(data[..|f.payload|], keys[t1.cur], t1.pos);
    hide XorWith;
    assert forall i :: 0 <= i < |keys| && Num(keys[i]) == f.num ==> i == t1.cur;
  }

  /** The frames stand for the data, in order. */
  lemma {:induction false} EmitPlain(keys: seq<seq<Octet>>, block: nat, t: Tenure, data: seq<Octet>)
    requires Usable(keys, block, t) && GoodKeys(keys)
    ensures AllInRange(keys, Frames(Emit(keys, block, t, data).0))
    ensures PlainAll(keys, Frames(Emit(keys, block, t, data).0)) == data
    decreases |data|
  {
    hide InRange, EmitOne, Plain, GoodKeys, Usable, XorWith;
    EmitInRange(keys, block, t, data);
    if data != [] {
      var (e, t') := EmitOne(keys, block, t, data);
      var rest := data[|e.frame.payload|..];
      EmitPlain(keys, block, t', rest);
      PlainOne(keys, block, t, data);
      var fs := Frames(Emit(keys, block, t, data).0);
      assert fs[1..] == Frames(Emit(keys, block, t', rest).0) && fs[0] == e.frame;
      assert data == data[..|e.frame.payload|] + rest;
    }
  }

  /** The parts of one turn. */
  lemma EmitOneIs(keys: seq<seq<Octet>>, block: nat, t: Tenure, data: seq<Octet>, t1: Tenure, count: nat, f: Frame)
    requires Usable(keys, block, t) && data != [] && t1 == Advance(keys, t, Min(|data|, block)) && t1.cur < |keys|
    requires count == Min(Min(|data|, block), |keys[t1.cur]|) && t1.pos + count <= |keys[t1.cur]|
    requires f == Frame(Num(keys[t1.cur]), t1.pos, XorWith(data[..count], keys[t1.cur], t1.pos))
    ensures EmitOne(keys, block, t, data) == (Emitted(t1.changes, f), t1.(pos := t1.pos + count))
  {
    hide XorWith, Num, Advance, InRange;
  }

  lemma OneEnciphers(keys: seq<seq<Octet>>, block: nat, t: Tenure, data: seq<Octet>)
    requires Usable(keys, block, t) && data != []
    ensures var f := EmitOne(keys, block, t, data).0.frame; var k := Advance(keys, t, Min(|data|, block)).cur;
            && |f.num| == 8 && f.pos < LIMIT && |f.payload| < LIMIT && k < |keys|
            && Enciphers(Wire(f), keys[k], f.pos, data[..|f.payload|])
  {
    hide XorWith, Wire, Enciphers, InRange;
    var t1 := Advance(keys, t, Min(|data|, block));
    WireEnciphers(keys[t1.cur], t1.pos, data[..Min(Min(|data|, block), |keys[t1.cur]|)]);
  }

  /** Every byte of the data goes out exclusive-ored with the key byte the frame in front of it names. */
  lemma {:induction false} EmitEnciphers(keys: seq<seq<Octet>>, block: nat, t: Tenure, data: seq<Octet>)
    requires Usable(keys, block, t)
    ensures AllInRange(keys, Frames(Emit(keys, block, t, data).0))
    ensures Ciphertext(keys, WireAll(keys, Frames(Emit(keys, block, t, data).0)), data)
    decreases |data|
  {
    hide InRange, EmitOne, Enciphers, Wire, Advance;
    EmitInRange(keys, block, t, data);
    if data != [] {
      var (e, t') := EmitOne(keys, block, t, data);
      var n := |e.frame.payload|;
      EmitEnciphers(keys, block, t', data[n..]);
      OneEnciphers(keys, block, t, data);
      var fs := Frames(Emit(keys, block, t, data).0);
      var wire, rest := Wire(e.frame), WireAll(keys, Frames(Emit(keys, block, t', data[n..]).0));
      assert fs[1..] == Frames(Emit(keys, block, t', data[n..]).0) && fs[0] == e.frame;
      assert (wire + rest)[..16 + n] == wire && (wire + rest)[16 + n..] == rest;
      assert CiphertextFrom(keys, wire + rest, data, Advance(keys, t, Min(|data|, block)).cur, e.frame.pos, n);
    }
  }

  // No part of a key is used twice under one tenure

  predicate NotAfter(c: nat, p: nat, d: nat, q: nat) { c < d || (c == d && p <= q) }

  function End(e: Emitted): nat { e.frame.pos + |e.frame.payload| }

  /** The frames use ranges one behind the other, from `lo` to `hi`. */
  ghost predicate Ascending(es: seq<Emitted>, lo: Tenure, hi: Tenure) {
    && NotAfter(lo.changes, lo.pos, hi.changes, hi.pos)
    && (forall e <- es ::
          NotAfter(lo.changes, lo.pos, e.changes, e.frame.pos) && NotAfter(e.changes, End(e), hi.changes, hi.pos))
    && (forall i, j :: 0 <= i < j < |es| ==> NotAfter(es[i].changes, End(es[i]), es[j].changes, es[j].frame.pos))
  }

  lemma AscendingJoined(a: seq<Emitted>, b: seq<Emitted>, lo: Tenure, mid: Tenure, hi: Tenure)
    requires Ascending(a, lo, mid) && Ascending(b, mid, hi)
    ensures Ascending(a + b, lo, hi)
  {
    var es := a + b;
    forall i, j | 0 <= i < j < |es| ensures NotAfter(es[i].changes, End(es[i]), es[j].changes, es[j].frame.pos) {
      if i < |a| <= j {
        assert es[i] == a[i] && es[j] == b[j - |a|];
        assert a[i] in a && b[j - |a|] in b;
      }
    }
  }

  lemma {:induction false} EmitAscending(keys: seq<seq<Octet>>, block: nat, t: Tenure, data: seq<Octet>)
    requires Usable(keys, block, t)
    ensures var r := Emit(keys, block, t, data); Ascending(r.0, t, r.1)
    decreases |data|
  {
    if data != [] {
      var (e, t') := EmitOne(keys, block, t, data);
      EmitAscending(keys, block, t', data[|e.frame.payload|..]);
      hide Emit, EmitOne;
      var (rest, last) := Emit(keys, block, t', data[|e.frame.payload|..]);
      AscendingJoined([e], rest, t, t', last);
    }
  }

  /** All calls of encode, one after the other. */
  function EmitCalls(keys: seq<seq<Octet>>, block: nat, t: Tenure, calls: seq<seq<Octet>>): (r: (seq<Emitted>, Tenure))
    requires Usable(keys, block, t)
    ensures Usable(keys, block, r.1)
  {
    if calls == [] then ([], t)
    else
      var last := |calls| - 1;
      var (es, t') := EmitCalls(keys, block, t, calls[..last]);
      var (es', t'') := Emit(keys, block, t', calls[last]);
      (es + es', t'')
  }

  lemma {:induction false} CallsAscending(keys: seq<seq<Octet>>, block: nat, t: Tenure, calls: seq<seq<Octet>>)
    requires Usable(keys, block, t)
    ensures var r := EmitCalls(keys, block, t, calls); Ascending(r.0, t, r.1)
  {
    hide Ascending, Emit;
    if calls == [] {
      NothingAscends(t);
    } else {
      var last := |calls| - 1;
      CallsAscending(keys, block, t, calls[..last]);
      var (es, t') := EmitCalls(keys, block, t, calls[..last]);
      EmitAscending(keys, block, t', calls[last]);
      AscendingJoined(es, Emit(keys, block, t', calls[last]).0, t, t', Emit(keys, block, t', calls[last]).1);
    }
  }

  lemma NothingAscends(t: Tenure)
    ensures Ascending([], t, t)
  {
  }

  /** Two frames encoded under the same tenure of a key use disjoint ranges of it, in any number of
      calls of encode. */
  lemma TenuresAreDisjoint(keys: seq<seq<Octet>>, block: nat, t: Tenure, calls: seq<seq<Octet>>, i: nat, j: nat)
    requires Usable(keys, block, t) && i < j < |EmitCalls(keys, block, t, calls).0|
    requires EmitCalls(keys, block, t, calls).0[i].changes == EmitCalls(keys, block, t, calls).0[j].changes
    ensures var es := EmitCalls(keys, block, t, calls).0; End(es[i]) <= es[j].frame.pos
  {
    hide EmitCalls;
    CallsAscending(keys, block, t, calls);
  }

  lemma {:induction false} PlainAppend(keys: seq<seq<Octet>>, fs: seq<Frame>, gs: seq<Frame>)
    requires GoodKeys(keys) && AllInRange(keys, fs) && AllInRange(keys, gs)
    ensures AllInRange(keys, fs + gs) && PlainAll(keys, fs + gs) == PlainAll(keys, fs) + PlainAll(keys, gs)
    ensures WireAll(keys, fs + gs) == WireAll(keys, fs) + WireAll(keys, gs)
    decreases |fs|
  {
    hide InRange, Plain, Wire, GoodKeys;
    if fs == [] {
      assert fs + gs == gs;
    } else {
      PlainAppend(keys, fs[1..], gs);
      Packable(keys, fs[0]);
      assert (fs + gs)[1..] == fs[1..] + gs;
    }
  }

  lemma {:induction false} CallsPlain(keys: seq<seq<Octet>>, block: nat, t: Tenure, calls: seq<seq<Octet>>)
    requires Usable(keys, block, t) && GoodKeys(keys)
    ensures AllInRange(keys, Frames(EmitCalls(keys, block, t, calls).0))
    ensures PlainAll(keys, Frames(EmitCalls(keys, block, t, calls).0)) == Joined(calls)
  {
    hide AllInRange, PlainAll, Emit, GoodKeys;
    if calls == [] {
      NothingPlain(keys);
      assert Frames([]) == [];
    } else {
      var last := |calls| - 1;
      CallsPlain(keys, block, t, calls[..last]);
      var (es, t') := EmitCalls(keys, block, t, calls[..last]);
      EmitPlain(keys, block, t', calls[last]);
      var es' := Emit(keys, block, t', calls[last]).0;
      assert Frames(es + es') == Frames(es) + Frames(es');
      PlainAppend(keys, Frames(es), Frames(es'));
    }
  }

  lemma NothingPlain(keys: seq<seq<Octet>>)
    requires GoodKeys(keys)
    ensures AllInRange(keys, []) && PlainAll(keys, []) == []
  {
  }

  lemma {:induction false} CallsInRange(keys: seq<seq<Octet>>, block: nat, t: Tenure, calls: seq<seq<Octet>>)
    requires Usable(keys, block, t)
    ensures AllInRange(keys, Frames(EmitCalls(keys, block, t, calls).0))
  {
    hide InRange, Emit;
    if calls != [] {
      var last := |calls| - 1;
      CallsInRange(keys, block, t, calls[..last]);
      var (es, t') := EmitCalls(keys, block, t, calls[..last]);
      EmitInRange(keys, block, t', calls[last]);
      var es' := Emit(keys, block, t', calls[last]).0;
      assert Frames(es + es') == Frames(es) + Frames(es');
    }
  }

  /** What all calls of encode put on the wire. */
  ghost function Sent(keys: seq<seq<Octet>>, block: nat, t: Tenure, calls: seq<seq<Octet>>): seq<Octet>
    requires Usable(keys, block, t)
  {
    CallsInRange(keys, block, t, calls);
    WireAll(keys, Frames(EmitCalls(keys, block, t, calls).0))
  }

  /** The round trip: whatever calls of encode produce, cut into any chunks on the way, the relay on
      the other side puts out exactly the data that was encoded. */
  lemma RoundTrip(keys: seq<seq<Octet>>, block: nat, t: Tenure, calls: seq<seq<Octet>>, chunks: seq<seq<Octet>>)
    requires Usable(keys, block, t) && GoodKeys(keys) && Joined(chunks) == Sent(keys, block, t, calls)
    ensures ReceiveAll(keys, chunks) == Relay(Joined(calls), [])
  {
    hide EmitCalls, AllInRange, PlainAll, WireAll, Joined, ReceiveAll, Frames;
    CallsPlain(keys, block, t, calls);
    AnyChunking(keys, Frames(EmitCalls(keys, block, t, calls).0), chunks);
  }

  /** What encode has emitted at the end, when it has emitted `es` so far. */
  function EmitAfter(keys: seq<seq<Octet>>, block: nat, t: Tenure, data: seq<Octet>, es: seq<Emitted>)
      : (seq<Emitted>, Tenure)
    requires Usable(keys, block, t)
  {
    var (rest, t') := Emit(keys, block, t, data);
    (es + rest, t')
  }

  lemma EmitBounds(keys: seq<seq<Octet>>, block: nat, t: Tenure, data: seq<Octet>, es: seq<Emitted>)
    requires Usable(keys, block, t)
    ensures EmitAfter(keys, block, t, [], es) == (es, t)
    ensures EmitAfter(keys, block, t, data, []) == Emit(keys, block, t, data)
  {
    hide EmitOne;
    assert es + [] == es && [] + Emit(keys, block, t, data).0 == Emit(keys, block, t, data).0;
  }

  lemma EmitTurn(keys: seq<seq<Octet>>, block: nat, t: Tenure, data: seq<Octet>, es: seq<Emitted>)
    requires Usable(keys, block, t) && data != []
    ensures var (e, t') := EmitOne(keys, block, t, data);
            EmitAfter(keys, block, t, data, es) == EmitAfter(keys, block, t', data[|e.frame.payload|..], es + [e])
  {
    hide EmitOne;
    var (e, t') := EmitOne(keys, block, t, data);
    var (rest, t'') := Emit(keys, block, t', data[|e.frame.payload|..]);
    assert es + ([e] + rest) == (es + [e]) + rest;
  }

  // The objects

  class Key {
    const key: seq<Octet>
    var curpos: nat

    constructor (data: seq<Octet>)
      ensures key == data && curpos == 0
    {
      key := data;
      curpos := 0;
    }
  }

  function Datas(keys: seq<Key>): (d: seq<seq<Octet>>)
    ensures |d| == |keys| && forall i :: 0 <= i < |d| ==> d[i] == keys[i].key
  {
    seq(|keys|, i requires 0 <= i < |keys| => keys[i].key)
  }

  class KeyManager {
    const blockSize: nat
    var keys: seq<Key>
    var curKey: int
    ghost var changes: nat

    /** Only the key in use has been used. */
    ghost predicate Valid()
      reads this, keys
    {
      && 8 <= blockSize < LIMIT
      && (forall k <- keys :: 8 <= |k.key| < LIMIT)
      && (forall i, j :: 0 <= i < j < |keys| ==> keys[i] != keys[j])
      && -1 <= curKey < |keys|
      && (forall i :: 0 <= i < |keys| && i != curKey ==> keys[i].curpos == 0)
      && (curKey >= 0 ==> keys[curKey].curpos <= |keys[curKey].key|)
    }

    ghost function View(): (t: Tenure)
      requires Valid() && curKey >= 0
      reads this, keys
      ensures Usable(Datas(keys), blockSize, t)
    {
      Tenure(curKey, keys[curKey].curpos, changes)
    }

    constructor (packetSize: nat)
      requires 8 <= packetSize < LIMIT
      ensures Valid() && keys == [] && curKey == -1 && blockSize == packetSize
    {
      blockSize := packetSize;
      keys := [];
      curKey := -1;
      changes := 0;
    }

    /** next_key */
    method NextKey()
      requires Valid() && curKey >= 0
      modifies this`curKey, this`changes, keys
      ensures Valid() && curKey >= 0
      ensures View() == Tenure(if old(curKey) + 1 >= |keys| then 0 else old(curKey) + 1, 0, old(changes) + 1)
    {
      keys[curKey].curpos := 0;
      curKey := curKey + 1;
      if curKey >= |keys| {
        curKey := 0;
      }
      keys[curKey].curpos := 0;
      changes := changes + 1;
    }

    /** The header and payload of one frame, from the key in use. */
    method WriteFrame(data: seq<Octet>, count: nat) returns (bytes: seq<Octet>, ghost f: Frame)
      requires Valid() && curKey >= 0 && count <= |data| && count + keys[curKey].curpos <= |keys[curKey].key|
      modifies keys
      ensures Valid() && View() == old(View()).(pos := old(View()).pos + count)
      ensures var key := keys[curKey].key; var pos := old(View()).pos;
              && f == Frame(Num(key), pos, XorWith(data[..count], key, pos)) && bytes == Wire(f)
              && Enciphers(bytes, key, pos, data[..count])
    {
      hide XorWith, Pack, Enciphers;
      var key := keys[curKey];
      f := Frame(Num(key.key), key.curpos, XorWith(data[..count], key.key, key.curpos));
      bytes := key.key[..8] + Pack(key.curpos) + Pack(count) + XorWith(data[..count], key.key, key.curpos);
      WireEnciphers(key.key, key.curpos, data[..count]);
      key.curpos := key.curpos + count;
    }

    /** Take the next key when `count` more bytes do not fit into the one in use. */
    method ChooseKey(count: nat)
      requires Valid() && curKey >= 0
      modifies this`curKey, this`changes, keys
      ensures Valid() && curKey >= 0 && View() == Advance(Datas(keys), old(View()), count)
    {
      if count + keys[curKey].curpos > |keys[curKey].key| {
        NextKey();
      }
    }

    lemma InUse()
      requires Valid() && curKey >= 0
      ensures curKey < |keys| && View().cur == curKey && keys[curKey].curpos == View().pos && View().changes == changes
    {
    }

    /** One turn of the loop of encode. */
    method EncodeOne(data: seq<Octet>) returns (bytes: seq<Octet>, count: nat, ghost e: Emitted)
      requires Valid() && curKey >= 0 && data != []
      modifies this`curKey, this`changes, keys
      ensures Valid() && curKey >= 0
      ensures (e, View()) == EmitOne(Datas(keys), blockSize, old(View()), data)
      ensures count == |e.frame.payload| && bytes == Wire(e.frame)
    {
      hide XorWith, Wire, Num, InRange, Enciphers, EmitOne, KeyManager.Valid, KeyManager.View;
      ghost var t := View();
      count := if |data| > blockSize then blockSize else |data|;
      ChooseKey(count);
      InUse();
      ghost var t1 := View();
      if count > |keys[curKey].key| {
        count := |keys[curKey].key|;
      }
      ghost var f;
      bytes, f := WriteFrame(data, count);
      EmitOneIs(Datas(keys), blockSize, t, data, t1, count, f);
      InUse();
      e := Emitted(changes, f);
    }

    /** Codec.encode; there is nothing to encode with before the first keys have arrived. */
    method Encode(data: seq<Octet>) returns (result: seq<Octet>, ok: bool, ghost es: seq<Emitted>)
      requires Valid()
      modifies this`curKey, this`changes, keys
      ensures Valid() && ok == (old(curKey) >= 0)
      ensures !ok ==> curKey == old(curKey) && result == []
      ensures ok ==> curKey >= 0 && (es, View()) == Emit(Datas(keys), blockSize, old(View()), data)
      ensures ok ==> AllInRange(Datas(keys), Frames(es)) && result == WireAll(Datas(keys), Frames(es))
      ensures ok ==> Ciphertext(Datas(keys), result, data)
    {
      hide Ciphertext, EmitOne, Wire, AllInRange, Emit, EmitAfter, WireAll, Frames, KeyManager.Valid, KeyManager.View;
      result, es := [], [];
      if curKey < 0 {
        return result, false, es;
      }
      ghost var ks, t0 := Datas(keys), View();
      EmitBounds(ks, blockSize, t0, data, []);
      NothingSent(ks);
      var rest := data;
      while |rest| > 0
        invariant Valid() && curKey >= 0 && AllInRange(ks, Frames(es)) && result == WireAll(ks, Frames(es))
        invariant EmitAfter(ks, blockSize, View(), rest, es) == Emit(ks, blockSize, t0, data)
        decreases |rest|
      {
        EmitTurn(ks, blockSize, View(), rest, es);
        var bytes, count, e := EncodeOne(rest);
        FramesOneMore(es, e);
        WireOneMore(ks, Frames(es), e.frame);
        result := result + bytes;
        es := es + [e];
        rest := rest[count..];
      }
      EmitBounds(ks, blockSize, View(), rest, es);
      assert rest == [];
      EmitEnciphers(ks, blockSize, t0, data);
      ok := true;
    }
  }

  lemma FramesOneMore(es: seq<Emitted>, e: Emitted)
    ensures Frames(es + [e]) == Frames(es) + [e.frame]
  {
  }

  lemma NothingSent(keys: seq<seq<Octet>>)
    ensures Frames([]) == [] && AllInRange(keys, []) && WireAll(keys, []) == []
  {
  }

  lemma {:induction false} WireOneMore(keys: seq<seq<Octet>>, fs: seq<Frame>, f: Frame)
    requires AllInRange(keys, fs) && InRange(keys, f)
    ensures |f.num| == 8 && f.pos < LIMIT && |f.payload| < LIMIT
    ensures AllInRange(keys, fs + [f]) && WireAll(keys, fs + [f]) == WireAll(keys, fs) + Wire(f)
    decreases |fs|
  {
    hide InRange, Wire;
    Packable(keys, f);
    if fs == [] {
      assert fs + [f] == [f] && WireAll(keys, []) == [];
      assert WireAll(keys, [f]) == Wire(f) + WireAll(keys, []);
    } else {
      Packable(keys, fs[0]);
      WireOneMore(keys, fs[1..], f);
      assert (fs + [f])[1..] == fs[1..] + [f];
    }
  }
}
