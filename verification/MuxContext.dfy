/** The mux_context object: the main loop of tcpmux updates it in place.  What a call of write() or
    read() accepts or returns is left open; `wire` collects the bytes handed to write(). */
module MuxContext {
  import opened Division
  import opened MuxRing
  import opened MuxWire
  import opened MuxEndpoint

  // Steps compose

  lemma {:induction false} PutPut<T>(ring: seq<T>, at: nat, a: seq<T>, b: seq<T>)
    requires at < |ring|
    ensures Put(ring, at, a + b) == Put(Put(ring, at, a), Advance(at, |a|, |ring|), b)
    decreases |a|
  {
    var n := |ring|;
    if a == [] {
      assert a + b == b;
      AdvanceZero(at, n);
    } else {
      assert (a + b)[1..] == a[1..] + b;
      PutPut(ring[at := a[0]], Wrap(at + 1, n), a[1..], b);
      AdvanceTwice(at, 1, |a| - 1, n);
      ModSuccessor(at, n);
      AdvanceZero(at, n);
    }
  }

  lemma WriteNewTwice(e: Endpoint, j: nat, k: nat)
    requires e.Shaped() && j + k <= |e.wbuf|
    ensures e.WriteNew(j).WriteNew(k) == e.WriteNew(j + k)
    ensures e.WriteNew(j).wbuf[..k] == e.wbuf[j..j + k]
    ensures e.wbuf[..j] + e.wbuf[j..j + k] == e.wbuf[..j + k]
  {
    PutPut(e.ring, e.pos, e.wbuf[..j], e.wbuf[j..j + k]);
    AdvanceTwice(e.pos, j, k, e.N());
    hide Put, Advance;
    assert e.wbuf[..j + k] == e.wbuf[..j] + e.wbuf[j..j + k];
    assert e.wbuf[j..][..k] == e.wbuf[j..j + k] && e.wbuf[j..][k..] == e.wbuf[j + k..];
    assert e.sent + e.wbuf[..j] + e.wbuf[j..j + k] == e.sent + e.wbuf[..j + k];
  }

  /** Bytes of the first run of the debt are the oldest ones that are owed. */
  lemma DebtPart<T>(ring: seq<T>, pos: nat, sent: seq<T>, debt: nat, bs: seq<T>)
    requires Holds(ring, pos, sent) && 0 < debt <= |sent| && debt <= |ring|
    requires var (start, len) := DebtRun(pos, debt, |ring|);
             |bs| <= len && start + |bs| <= |ring| && bs == ring[start..start + |bs|]
    ensures |bs| <= debt && bs == sent[|sent| - debt..|sent| - debt + |bs|]
  {
    DebtRunIsOldest(ring, pos, sent, debt);
    hide Holds;
    var (start, len) := DebtRun(pos, debt, |ring|);
    var b := |sent| - debt;
    assert bs == ring[start..start + len][..|bs|] == sent[b..b + len][..|bs|] == sent[b..b + |bs|];
  }

  lemma WriteNothing(e: Endpoint)
    requires e.Shaped()
    ensures e.WriteNew(0) == e
  {
    AdvanceZero(e.pos, e.N());
    assert e.wbuf[..0] == [] && e.wbuf[0..] == e.wbuf && e.sent + [] == e.sent;
  }

  /** The parser fed one byte at a time. */
  function Feed(e: Endpoint, bs: seq<Byte>): (r: Outcome)
    requires e.Shaped()
    ensures r.Done? ==> r.e.Shaped()
    decreases |bs|
  {
    if bs == [] then Done(e)
    else if e.Wanted() <= 0 then Failed
    else
      match e.Receive(bs[..1])
      case Failed => Failed
      case Done(e') => Feed(e', bs[1..])
  }

  lemma {:induction false} FeedSplit(e: Endpoint, a: seq<Byte>, b: seq<Byte>)
    requires e.Shaped()
    ensures var r := Feed(e, a);
            Feed(e, a + b) == if r.Failed? then Failed else Feed(r.e, b)
    decreases |a|
  {
    hide DecodeInt;
    if a == [] {
      assert a + b == b;
    } else {
      assert (a + b)[..1] == a[..1] && (a + b)[1..] == a[1..] + b;
      if 0 < e.Wanted() && e.Receive(a[..1]).Done? {
        FeedSplit(e.Receive(a[..1]).e, a[1..], b);
      }
    }
  }

  lemma TakeTwice(e: Endpoint, a: seq<Byte>, b: seq<Byte>)
    requires e.Shaped()
    ensures e.Take(a).Take(b) == e.Take(a + b)
  {
    AdvanceTwice(e.rpos, |a|, |b|, e.N());
    hide Advance;
    assert e.rin + a + b == e.rin + (a + b) && e.read + a + b == e.read + (a + b);
  }

  /** A read of any size has the effect of its bytes: chunking does not matter to the parser. */
  lemma {:induction false} ReceiveIsFeed(e: Endpoint, bs: seq<Byte>)
    requires e.Shaped() && 0 < |bs| <= e.Wanted()
    ensures e.Receive(bs) == Feed(e, bs)
    decreases |bs|
  {
    hide DecodeInt;
    assert bs == bs[..1] + bs[1..];
    if |bs| == 1 {
      assert bs[..1] == bs && bs[1..] == [];
    } else {
      var e1 := e.Take(bs[..1]);
      if |e.rin| >= HEADER { assert e1.rin[4..8] == e.rin[4..8]; }
      assert !e1.PacketComplete() && |bs[1..]| <= e1.Wanted();
      TakeTwice(e, bs[..1], bs[1..]);
      ReceiveIsFeed(e1, bs[1..]);
    }
  }

  /** One more read behind what has been fed so far, seen from the whole input. */
  lemma FeedMore(e0: Endpoint, avail: seq<Byte>, from: nat, to: nat)
    requires e0.Shaped() && from < to <= |avail|
    requires Feed(e0, avail[..from]).Done? && to - from <= Feed(e0, avail[..from]).e.Wanted()
    ensures var r := Feed(e0, avail[..from]).e.Receive(avail[from..to]);
            Feed(e0, avail[..to]) == r && (r.Failed? ==> Feed(e0, avail).Failed?)
  {
    hide Put, Advance, DecodeInt;
    ReceiveIsFeed(Feed(e0, avail[..from]).e, avail[from..to]);
    FeedSplit(e0, avail[..from], avail[from..to]);
    assert avail[..to] == avail[..from] + avail[from..to];
    FeedSplit(e0, avail[..to], avail[to..]);
    assert avail == avail[..to] + avail[to..];
  }

  /** Nothing more can be fed once the parser asks for nothing. */
  lemma FeedStuck(e0: Endpoint, avail: seq<Byte>, from: nat)
    requires e0.Shaped() && from < |avail|
    requires Feed(e0, avail[..from]).Done? && Feed(e0, avail[..from]).e.Wanted() <= 0
    ensures Feed(e0, avail).Failed?
  {
    hide Put, Advance, DecodeInt;
    FeedSplit(e0, avail[..from], avail[from..]);
    assert avail == avail[..from] + avail[from..];
  }

  /** The ring remembers what was sent, the debt included. */
  ghost predicate Backed(e: Endpoint) { Holds(e.ring, e.pos, e.sent) && e.debt <= |e.sent| }

  lemma WriteNewBacked(e: Endpoint, k: nat)
    requires e.Shaped() && Backed(e) && k <= |e.wbuf|
    ensures e.WriteNew(k).Shaped() && Backed(e.WriteNew(k))
  {
    PutHolds(e.ring, e.pos, e.sent, e.wbuf[..k]);
    hide Put, Holds, Advance;
  }

  lemma Rest<T>(s: seq<T>, from: nat, k: nat)
    requires from + k <= |s|
    ensures s[from..][..k] == s[from..from + k] && s[from..][k..] == s[from + k..]
  {
  }

  class Context {
    var stream: array<Byte>
    var streamKarma: int
    var streamPos: nat
    var streamDebt: nat
    var rstreamPos: nat
    var rstreamKarma: int
    var wpos: nat
    var wout: seq<Byte>              // the staged packet, header included
    var rin: seq<Byte>               // what has been read of the current packet
    var karmaQueue: seq<(int, int)>  // clients with something to acknowledge
    ghost var sent: seq<Byte>
    ghost var staged: seq<Packet>
    ghost var received: seq<Byte>
    ghost var parsed: seq<Packet>

    ghost function View(): Endpoint
      reads this, stream
      requires wpos <= |wout|
    {
      Endpoint(stream[..], streamKarma, streamPos, streamDebt, wout[wpos..], rstreamPos, rstreamKarma, rin,
               sent, staged, received, parsed)
    }

    ghost predicate Valid()
      reads this, stream
    {
      && wpos <= |wout|
      && View().Shaped()
      && 0 <= streamKarma
      && Backed(View())
    }

    constructor (n: nat)
      requires n > 1
      ensures Valid() && fresh(stream) && View() == Endpoint.Fresh(n)
    {
      stream := new Byte[n](_ => 0);
      streamKarma, streamPos, streamDebt := n - 1, 0, 0;
      rstreamPos, rstreamKarma := 0, 0;
      wpos, wout, rin, karmaQueue := 0, [], [], [];
      sent, staged, received, parsed := [], [], [], [];
      new;
      assert stream[..] == Endpoint.Fresh(n).ring;
    }

    /** write_mainfd, for a write() that took `amt` bytes of the staged packet. */
    method WriteMainfd(amt: int)
      requires Valid() && amt <= |wout| - wpos && amt <= streamKarma && streamDebt == 0
      modifies this, stream
      ensures stream == old(stream) && Valid()
      ensures View() == if amt < 0 then old(View()) else old(View()).WriteNew(amt)
      ensures unchanged(`karmaQueue, `wout, `streamDebt)
      ensures amt >= 0 ==> wpos == old(wpos) + amt && streamKarma == old(streamKarma) - amt
    {
      hide Put, Holds, Advance, Backed;
      if amt < 0 {
        return;
      }
      ghost var e := View();
      WriteNewBacked(e, amt);
      Rest(wout, wpos, amt);
      var bs := wout[wpos..wpos + amt];
      streamKarma := streamKarma - amt;
      streamPos := WriteCbuf(stream, 0, streamPos, bs, true);
      sent := sent + bs;
      wpos := wpos + amt;
      assert View() == e.WriteNew(amt);
    }

    /** One write() of the oldest `debt` bytes that are owed, up to the end of the ring. */
    method WriteDebt(debt: nat) returns (bs: seq<Byte>)
      requires Valid() && 0 < debt <= streamDebt
      ensures |bs| <= debt && bs == sent[|sent| - debt..|sent| - debt + |bs|]
    {
      var pos: int := streamPos - debt;
      var sz: int := debt;
      if pos < 0 {
        pos := pos + stream.Length;
        sz := sz - streamPos;
      }
      var amt :| -1 <= amt <= sz;   // what write() returns
      bs := if amt <= 0 then [] else stream[pos..pos + amt];
      DebtPart(stream[..], streamPos, sent, debt, bs);
    }

    /** The first loop of mainw: write the debt again, oldest byte first.  Stops early when the
        link takes nothing more. */
    method AbsolveDebt() returns (wire: seq<Byte>, more: bool)
      requires Valid()
      modifies this`streamDebt
      ensures Valid() && streamDebt <= old(streamDebt)
      ensures View() == old(View()).PayDebt(old(streamDebt) - streamDebt)
      ensures wire == sent[|sent| - old(streamDebt)..|sent| - streamDebt]
      ensures more ==> streamDebt == 0
    {
      hide Holds;
      wire := [];
      while streamDebt > 0
        invariant Valid() && streamDebt <= old(streamDebt)
        invariant wire == sent[|sent| - old(streamDebt)..|sent| - streamDebt]
      {
        var bs := WriteDebt(streamDebt);
        if |bs| == 0 {
          more := false;
          return;
        }
        wire := wire + bs;
        streamDebt := streamDebt - |bs|;
      }
      more := true;
    }

    /** One write() of the staged packet, within the credit that is left. */
    method WriteStaged() returns (amt: int)
      requires Valid() && streamDebt == 0 && wpos < |wout| && streamKarma > 0
      modifies this, stream
      ensures stream == old(stream) && Valid() && streamDebt == 0 && wout == old(wout)
      ensures amt <= |wout| - old(wpos) && amt <= old(streamKarma)
      ensures var k := if amt < 0 then 0 else amt;
              View() == old(View()).WriteNew(k) && wpos == old(wpos) + k && streamKarma == old(streamKarma) - k
    {
      hide Put, Holds, Advance, Backed, Endpoint.WriteNew;
      WriteNothing(View());
      var numb := streamKarma;
      numb := if |wout| - wpos < numb then |wout| - wpos else numb;
      amt :| -1 <= amt <= numb;   // what write() returns
      WriteMainfd(amt);
    }

    /** The last loop of mainw: write as much of the staged packet as link and credit allow. */
    method DumpStaged() returns (wire: seq<Byte>)
      requires Valid() && streamDebt == 0
      modifies this, stream
      ensures stream == old(stream) && Valid()
      ensures |wire| <= |old(View()).wbuf| && |wire| <= old(streamKarma)
      ensures View() == old(View()).WriteNew(|wire|)
      ensures wire == old(View()).wbuf[..|wire|]
    {
      hide Put, Holds, Advance, Backed, Endpoint.WriteNew;
      wire := [];
      ghost var e0 := View();
      WriteNothing(e0);
      while wpos < |wout|
        invariant stream == old(stream) && Valid() && streamDebt == 0 && wout == old(wout)
        invariant wpos == old(wpos) + |wire| <= |wout|
        invariant 0 <= streamKarma == old(streamKarma) - |wire|
        invariant View() == e0.WriteNew(|wire|)
        invariant wire == wout[old(wpos)..wpos]
        decreases |wout| - wpos
      {
        if streamKarma == 0 {
          return;
        }
        WriteNothing(View());
        var amt := WriteStaged();
        if amt <= 0 {
          return;
        }
        WriteNewTwice(e0, |wire|, amt);
        wire := wire + wout[wpos - amt..wpos];
      }
    }

    /** mainw without fetching new packets: the bytes that reach the link are the debt, oldest
        first, and then the staged packet; nothing new goes out before the debt is paid. */
    method MainW() returns (wire: seq<Byte>)
      requires Valid()
      modifies this, stream
      ensures stream == old(stream) && Valid()
      ensures wire <= old(sent[|sent| - streamDebt..] + wout[wpos..])
      ensures var paid := if |wire| <= old(streamDebt) then |wire| else old(streamDebt);
              && |wire| - paid <= |old(wout[wpos..])|
              && View() == old(View()).PayDebt(paid).WriteNew(|wire| - paid)
    {
      ghost var e, owed := View(), sent[|sent| - streamDebt..];
      var more: bool;
      wire, more := AbsolveDebt();
      assert wire == owed[..|wire|];
      hide Put, Holds, Advance;
      WriteNothing(View());
      if more {
        ghost var e1 := View();
        var rest := DumpStaged();
        assert wire == owed && e1.wbuf == e.wbuf;
        wire := wire + rest;
      }
    }

    /** The peer's position has arrived. */
    method FinishHandshake(h: nat)
      requires wpos <= |wout| && View().Shaped() && h < stream.Length
      modifies this`streamDebt
      ensures View() == old(View()).Resume(h)
    {
      var debt: int := streamPos - h;
      debt := debt + if debt < 0 then stream.Length else 0;
      streamDebt := debt;
    }

    /** write_ack: acknowledge everything read, and as many queued clients as fit. */
    method WriteAck() returns (ghost taken: seq<(int, int)>)
      requires Valid() && wpos == |wout|
      requires 0 <= rstreamKarma < 0x8000_0000 && GoodEntries(karmaQueue)
      modifies this`wout, this`wpos, this`staged, this`rstreamKarma, this`karmaQueue
      ensures Valid()
      ensures old(karmaQueue) == taken + karmaQueue && (karmaQueue != [] ==> |taken| == (VPACKETSIZE - 4) / 8)
      ensures old(View()).CanStageAck(taken) && View() == old(View()).StageAck(taken)
    {
      hide Holds;
      taken := [];
      var amount, queue := rstreamKarma, karmaQueue;
      var data := EncodeInt(amount);
      while queue != [] && |data| + 8 <= VPACKETSIZE
        invariant karmaQueue == taken + queue
        invariant |data| == 4 + 8 * |taken| <= VPACKETSIZE
        invariant GoodEntries(taken) && GoodEntries(queue)
        invariant data == AckPayload(amount, taken)
        decreases |queue|
      {
        var cd := queue[0];
        assert (taken + [cd])[..|taken|] == taken;
        data := data + EncodeInt(cd.0) + EncodeInt(cd.1);
        queue := queue[1..];
        taken := taken + [cd];
      }
      karmaQueue := queue;
      hide AckPayload, EncodeInt;
      ghost var m: Packet := Message(CONTROL_ID, data);
      wout := EncodeInt(CONTROL_ID) + EncodeInt(|data|) + data;
      rstreamKarma := 0;
      wpos := 0;
      staged := staged + [m];
      assert wout[wpos..] == wout == Encode(m);
    }

    /** mainr, one read: the bytes go into the packet being read; when that is complete it is
        delivered, and a control packet gives credit back. */
    method ReadOnce(bs: seq<Byte>) returns (ok: bool)
      requires wpos <= |wout| && View().Shaped() && 0 < |bs| <= View().Wanted()
      modifies this`rin, this`rstreamPos, this`rstreamKarma, this`streamKarma, this`received, this`parsed
      ensures wpos <= |wout| && View().Shaped()
      ensures old(View()).Receive(bs) == if ok then Done(View()) else Failed
    {
      hide Advance, DecodeInt;
      rstreamPos := Advance(rstreamPos, |bs|, stream.Length);
      rstreamKarma := rstreamKarma + |bs|;
      rin := rin + bs;
      received := received + bs;
      if |rin| > HEADER && |rin| == HEADER + SizeField(rin) {
        var m := Decode(rin);
        if !WellFormed(m) {
          return false;
        }
        var karma := streamKarma + AckAmount(m);
        if m.id == CONTROL_ID && !(0 <= karma <= stream.Length) {
          return false;
        }
        streamKarma := karma;
        rin := [];
        parsed := parsed + [m];
      }
      return true;
    }

    /** mainr: read until the link has nothing more, a packet at a time.  `avail` is what the link
        will deliver; how it is cut into reads is left open, and makes no difference. */
    method MainR(avail: seq<Byte>) returns (ok: bool, consumed: nat)
      requires wpos <= |wout| && View().Shaped()
      modifies this`rin, this`rstreamPos, this`rstreamKarma, this`streamKarma, this`received, this`parsed
      ensures consumed <= |avail| && wpos <= |wout|
      ensures ok ==> Feed(old(View()), avail[..consumed]) == Done(View())
      ensures !ok ==> Feed(old(View()), avail).Failed?
    {
      hide Advance, DecodeInt, Endpoint.Receive;
      ghost var e0 := View();
      consumed := 0;
      while consumed < |avail|
        invariant consumed <= |avail| && wpos <= |wout| && View().Shaped()
        invariant Feed(e0, avail[..consumed]) == Done(View())
      {
        var rsz := HEADER;
        if rsz <= |rin| {
          if SizeField(rin) <= 0 || SizeField(rin) > VPACKETSIZE {
            FeedStuck(e0, avail, consumed);
            return false, consumed;
          }
          rsz := rsz + SizeField(rin);
        }
        var count := rsz - |rin|;
        if count <= 0 {
          FeedStuck(e0, avail, consumed);
          return false, consumed;
        }
        count := if |avail| - consumed < count then |avail| - consumed else count;
        var amt :| 0 <= amt <= count;   // what read() returns; 0 when it would block
        if amt == 0 {
          return true, consumed;
        }
        FeedMore(e0, avail, consumed, consumed + amt);
        ok := ReadOnce(avail[consumed..consumed + amt]);
        if !ok {
          return;
        }
        consumed := consumed + amt;
      }
      ok := true;
    }
  }
}
