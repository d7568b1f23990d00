/** Two tcpmux endpoints and the connections between them.  Connections may break at any byte, in
    either direction, and be noticed late by either side.

    The client side of the link (`a`, the mux) opens connections and sends its key and read
    position; the server side (`b`, the demux) takes over a session when it has read both, and
    answers with its own read position.  The session resumes on the next connection unless the
    server has lost it: it finds a context by its key only when the last handshake of that context
    was completed, and it burns contexts that have been idle.  What holds then, and when, is
    StreamsArePrefixes. */
module MuxSession {
  import opened Division
  import opened MuxRing
  import opened MuxSides
  import opened MuxWire
  import opened MuxEndpoint
  import opened Options

  datatype Phase = Idle | Waiting | Up   // the mux side's view of its connection

  datatype Session = Session(
    a: Endpoint, b: Endpoint,
    known: bool,           // `b` is a context that the key of `a` leads to
    phase: Phase,
    offered: bool,         // the newest connection of `a` has not reached `b` yet
    bOpen: bool,           // `b` holds a connection
    joined: bool,          // `a` and `b` hold the two ends of one unbroken connection
    reply: Option<nat>,    // b's position, travelling in front of `toA`
    toA: seq<Byte>,        // bytes `a` can still read from the connection it holds
    toB: seq<Byte>)        // bytes `b` can still read from the connection it holds
  {
    function Me(side: Side): Endpoint { if side == Mux then a else b }

    function Incoming(side: Side): seq<Byte> { if side == Mux then toA else toB }

    function With(side: Side, e: Endpoint): Session {
      if side == Mux then this.(a := e) else this.(b := e)
    }

    /** Bytes written by `side` reach the peer's queue unless the connection is gone. */
    function Carry(side: Side, bs: seq<Byte>): Session {
      if !joined then this
      else if side == Mux then this.(toB := toB + bs) else this.(toA := toA + bs)
    }

    /** The context a connection of `a` leads to: the one with its key, or a new one. */
    function Context(): Endpoint { if known then b else Endpoint.Fresh(a.N()) }

    /** The handshake is over, so mainr and mainw work on the packet stream. */
    predicate Streaming(side: Side) { if side == Mux then phase == Up else bOpen }
  }

  datatype Event =
    | Connect                                          // `a` opens a connection and sends its position
    | Accept                                           // `b` takes over the session on that connection
    | AcceptAbandoned(h: nat)                          // `b` takes a connection `a` has already given up
    | KeyOnly(newest: bool, keepReply: bool)           // `b` reads the key of that, or an older one, and no more
    | Burn                                             // the context of `b` is dropped
    | Handshake                                        // `a` reads b's position
    | Break(keepA: nat, keepB: nat, keepReply: bool)   // the connection dies; only these prefixes survive
    | HangUp(side: Side)                               // `side` drops the connection it holds
    | StageData(side: Side, m: Packet)
    | StageAck(side: Side, entries: seq<(int, int)>)
    | Pay(side: Side, k: nat)                          // `k` owed bytes written again
    | Write(side: Side, k: nat)                        // `k` new bytes written
    | Read(side: Side, k: nat)                         // `k` bytes read

  predicate Enabled(s: Session, ev: Event) {
    match ev
    case Connect => s.phase == Idle
    case Accept => s.phase == Waiting && s.offered
    case AcceptAbandoned(h) => h < s.a.N()
    case KeyOnly(newest, keepReply) => newest ==> s.phase == Waiting && s.offered
    case Burn => true
    case Handshake => s.phase == Waiting && s.reply.Some?
    case Break(keepA, keepB, keepReply) =>
      keepA <= |s.toA| && keepB <= |s.toB| && (keepReply || keepA == 0)
    case HangUp(side) => true
    case StageData(side, m) => s.Streaming(side) && s.Me(side).debt == 0 && s.Me(side).wbuf == [] && m.id > 0
    case StageAck(side, entries) =>
      && s.Streaming(side) && s.Me(side).debt == 0 && s.Me(side).wbuf == []
      && 4 + 8 * |entries| <= VPACKETSIZE
      && GoodEntries(entries)
    case Pay(side, k) => s.Streaming(side) && s.Me(side).Shaped() && 0 < s.Me(side).debt
        && k <= |s.Me(side).DebtBytes()|
    case Write(side, k) =>
      s.Streaming(side) && s.Me(side).debt == 0 && k <= |s.Me(side).wbuf| && k <= s.Me(side).karma
    case Read(side, k) =>
      s.Streaming(side) && 0 < k <= |s.Incoming(side)| && (0 < s.Me(side).Wanted() ==> k <= s.Me(side).Wanted())
  }

  /** The state after an event, or nothing when an assertion or a range check of the main loop
      fails and it gives up. */
  function Next(s: Session, ev: Event): Option<Session>
    requires Enabled(s, ev)
  {
    match ev
    case Connect => Some(s.(phase := Waiting, offered := true))
    case Accept =>
      var c := s.Context();
      if !(c.Shaped() && s.a.rpos < c.N()) then None
      else Some(s.(b := c.Resume(s.a.rpos), known := true, offered := false, bOpen := true, joined := true,
                   reply := Some(c.rpos), toA := [], toB := []))
    case AcceptAbandoned(h) =>
      var c := s.Context();
      if !(c.Shaped() && h < c.N()) then None
      else Some(s.(b := c.Resume(h), known := true, bOpen := true, joined := false, toB := []))
    case KeyOnly(newest, keepReply) =>
      var t := s.(known := false, bOpen := false, joined := false, toB := []);
      Some(if newest then t.(offered := false, reply := if keepReply then Some(s.Context().rpos) else None) else t)
    case Burn => Some(s.(known := false, bOpen := false, joined := false, toB := []))
    case Handshake =>
      if !(s.a.Shaped() && s.reply.value < s.a.N()) then None
      else Some(s.(a := s.a.Resume(s.reply.value), phase := Up, reply := None))
    case Break(keepA, keepB, keepReply) =>
      Some(s.(joined := false, toA := s.toA[..keepA], toB := s.toB[..keepB],
              reply := if keepReply then s.reply else None))
    case HangUp(Mux) =>
      Some(s.(phase := Idle, offered := false, joined := false, reply := None, toA := []))
    case HangUp(Demux) => Some(s.(bOpen := false, joined := false, toB := []))
    case StageData(side, m) => Some(s.With(side, s.Me(side).Stage(m)))
    case StageAck(side, entries) =>
      if !s.Me(side).CanStageAck(entries) then None
      else Some(s.With(side, s.Me(side).StageAck(entries)))
    case Pay(side, k) =>
      Some(s.Carry(side, s.Me(side).DebtBytes()[..k]).With(side, s.Me(side).PayDebt(k)))
    case Write(side, k) =>
      if !s.Me(side).Shaped() then None
      else Some(s.Carry(side, s.Me(side).wbuf[..k]).With(side, s.Me(side).WriteNew(k)))
    case Read(side, k) =>
      var e, bs := s.Me(side), s.Incoming(side);
      if !e.Shaped() || e.Wanted() <= 0 then None
      else
        match e.Receive(bs[..k])
        case Failed => None
        case Done(e') =>
          Some(if side == Mux then s.(a := e', toA := bs[k..]) else s.(b := e', toB := bs[k..]))
  }

  // The invariant

  /** The packets of one direction: the sender's bytes are its packets, the reader cut the bytes it
      has read at the same places. */
  ghost predicate Packets(sent: seq<Byte>, wbuf: seq<Byte>, staged: seq<Packet>,
                          read: seq<Byte>, rin: seq<Byte>, parsed: seq<Packet>) {
    && sent + wbuf == EncodeAll(staged)
    && read == EncodeAll(parsed) + rin
    && parsed <= staged
  }

  /** The credit of one direction: no credit appears or disappears.  `acks` are the packets of the
      opposite direction, of which the first `seen` have been processed. */
  ghost predicate Credit(n: int, karma: int, unread: int, rkarma: int, acks: seq<Packet>, seen: nat) {
    && 0 <= karma && 0 <= rkarma && 0 <= unread
    && (forall m <- acks :: 0 <= AckAmount(m))
    && seen <= |acks|
    && karma + unread + rkarma + AckSum(acks[seen..]) == n - 1
  }

  /** What one direction of the link keeps, connected or not: the receiver has read a prefix of
      what the sender wrote, cut at the same packet boundaries; the ring still holds everything
      the receiver may be missing; and no credit appears or disappears. */
  ghost predicate Flow(x: Endpoint, y: Endpoint, toY: seq<Byte>) {
    && 1 < x.N() == y.N() <= 0x8000_0000
    && x.Shaped()
    && Holds(x.ring, x.pos, x.sent)
    && y.read + toY <= x.sent
    && y.rpos == |y.read| % x.N()
    && y.Partial()
    && Packets(x.sent, x.wbuf, x.staged, y.read, y.rin, y.parsed)
    && x.parsed <= y.staged
    && Credit(x.N(), x.karma, |x.sent| - |y.read|, y.rkarma, y.staged, |x.parsed|)
    && y.rkarma + AckSum(y.staged) == |y.read|   // what was read is acknowledged, or will be
  }

  /** The debt of `x` is exactly what `y` has not read and is not about to read. */
  ghost predicate Exact(x: Endpoint, y: Endpoint, toY: seq<Byte>) {
    && x.debt <= |x.sent|
    && y.read + toY == x.sent[..|x.sent| - x.debt]
  }

  ghost predicate Inv(s: Session) {
    && Flow(s.a, s.b, s.toB)
    && Flow(s.b, s.a, s.toA)
    && (s.bOpen ==> s.known)
    && (s.joined ==> s.bOpen && s.phase != Idle && Exact(s.b, s.a, s.toA))
    && (s.joined && s.phase == Up ==> Exact(s.a, s.b, s.toB))
    && (s.joined && s.phase == Waiting ==> s.toB == [] && s.reply == Some(s.b.rpos))
    && (s.reply.Some? ==> s.reply.value < s.a.N())
  }

  ghost predicate Initial(s: Session, n: nat) {
    && 1 < n <= 0x8000_0000
    && s == Session(Endpoint.Fresh(n), Endpoint.Fresh(n), false, Idle, false, false, false, None, [], [])
  }

  lemma InitialInv(s: Session, n: nat)
    requires Initial(s, n)
    ensures Inv(s)
  {
  }

  // Preservation, one kind of step at a time

  lemma AckSumNonNegative(ms: seq<Packet>)
    requires forall m <- ms :: 0 <= AckAmount(m)
    ensures 0 <= AckSum(ms)
  {
  }

  /** Unread bytes never fill the ring. */
  lemma UnreadFits(x: Endpoint, y: Endpoint, toY: seq<Byte>)
    requires Flow(x, y, toY)
    ensures |y.read| <= |x.sent| && |x.sent| - |y.read| < x.N() && 0 <= y.rkarma < x.N()
    ensures 0 <= AckSum(y.staged[|x.parsed|..])
  {
    AckSumNonNegative(y.staged[|x.parsed|..]);
  }

  /** The modular difference of the two positions is the true number of unread bytes. */
  lemma ResumeIsExact(x: Endpoint, y: Endpoint, toY: seq<Byte>)
    requires Flow(x, y, toY)
    ensures x.N() == y.N() && x.Shaped() && y.rpos < x.N() && Exact(x.Resume(y.rpos), y, [])
    ensures x.Resume(y.rpos).debt == |x.sent| - |y.read|
  {
    UnreadFits(x, y, toY);
    var n, d := x.N(), |x.sent| - |y.read|;
    ModAdd(|y.read|, d, n);
    var r := y.rpos + d;
    ModIs(r, if r < n then 0 else 1, if r < n then r else r - n, n);
    assert x.sent[..|y.read|] == y.read;
  }

  lemma StageKeeps(x: Endpoint, y: Endpoint, toX: seq<Byte>, toY: seq<Byte>, x': Endpoint, m: Packet, paid: nat)
    requires Flow(x, y, toY) && Flow(y, x, toX)
    requires x.wbuf == [] && paid == AckAmount(m) && paid <= x.rkarma
    requires x' == x.Stage(m).(rkarma := x.rkarma - paid)
    ensures Flow(x', y, toY) && Flow(y, x', toX)
  {
    hide Holds, AckAmount, Encode, EncodeAll, AckSum;
    EncodeAllSnoc(x.staged, m);
    assert x.sent + x.wbuf == x.sent;
    assert x'.staged[|y.parsed|..] == x.staged[|y.parsed|..] + [m];
    AckSumAppend(x.staged[|y.parsed|..], m);
    AckSumAppend(x.staged, m);
  }

  /** New bytes that reach the link continue what is on its way. */
  lemma WriteExact(x: Endpoint, y: Endpoint, toY: seq<Byte>, k: nat)
    requires x.Shaped() && x.debt == 0 && k <= |x.wbuf| && Exact(x, y, toY)
    ensures Exact(x.WriteNew(k), y, toY + x.wbuf[..k])
    ensures y.read + (toY + x.wbuf[..k]) == x.sent + x.wbuf[..k]
  {
    hide Put, Advance;
    var x' := x.WriteNew(k);
    assert x.sent[..|x.sent|] == x.sent && x'.sent[..|x'.sent|] == x'.sent;
    assert y.read + (toY + x.wbuf[..k]) == (y.read + toY) + x.wbuf[..k];
  }

  lemma WriteKeeps(x: Endpoint, y: Endpoint, toX: seq<Byte>, toY: seq<Byte>, k: nat, carried: bool)
    requires Flow(x, y, toY) && Flow(y, x, toX)
    requires x.debt == 0 && k <= |x.wbuf| && k <= x.karma
    requires carried ==> Exact(x, y, toY)
    ensures var toY' := if carried then toY + x.wbuf[..k] else toY;
            Flow(x.WriteNew(k), y, toY') && Flow(y, x.WriteNew(k), toX) && (carried ==> Exact(x.WriteNew(k), y, toY'))
  {
    hide Put, EncodeAll, AckSum, Exact, Holds;
    PutHolds(x.ring, x.pos, x.sent, x.wbuf[..k]);
    Moved(x.sent, x.wbuf, k);
    if carried { WriteExact(x, y, toY, k); }
    assert y.read + toY <= x.sent + x.wbuf[..k];
  }

  lemma Moved<T>(sent: seq<T>, wbuf: seq<T>, k: nat)
    requires k <= |wbuf|
    ensures sent + wbuf[..k] + wbuf[k..] == sent + wbuf
  {
    assert wbuf == wbuf[..k] + wbuf[k..];
  }

  /** What is replayed is the part of the stream right behind what is already on its way. */
  lemma OwedBytes(x: Endpoint, y: Endpoint, toY: seq<Byte>, k: nat)
    requires Flow(x, y, toY) && Exact(x, y, toY) && 0 < x.debt && k <= |x.DebtBytes()|
    ensures k <= x.debt && Exact(x.PayDebt(k), y, toY + x.DebtBytes()[..k])
  {
    hide Put, Holds, Packets, Credit;
    DebtRunIsOldest(x.ring, x.pos, x.sent, x.debt);
    LongerPrefix(x.sent, |x.sent| - x.debt, x.DebtBytes(), k, y.read, toY);
  }

  lemma LongerPrefix<T>(sent: seq<T>, from: nat, run: seq<T>, k: nat, read: seq<T>, toY: seq<T>)
    requires from + |run| <= |sent| && run == sent[from..from + |run|] && k <= |run| && read + toY == sent[..from]
    ensures read + (toY + run[..k]) == sent[..from + k]
  {
    assert run[..k] == sent[from..from + k];
    assert read + (toY + run[..k]) == (read + toY) + run[..k];
  }

  lemma PayKeeps(x: Endpoint, y: Endpoint, toX: seq<Byte>, toY: seq<Byte>, k: nat, carried: bool)
    requires Flow(x, y, toY) && Flow(y, x, toX) && 0 < x.debt && k <= |x.DebtBytes()|
    requires carried ==> Exact(x, y, toY)
    ensures k <= x.debt
    ensures var toY' := if carried then toY + x.DebtBytes()[..k] else toY;
            Flow(x.PayDebt(k), y, toY') && Flow(y, x.PayDebt(k), toX) && (carried ==> Exact(x.PayDebt(k), y, toY'))
  {
    hide Put, Holds, Packets, Credit;
    if carried {
      OwedBytes(x, y, toY, k);
    }
  }

  /** Reading bytes that are next in line keeps the direction they came from. */
  lemma TakeKeeps(x: Endpoint, y: Endpoint, toY: seq<Byte>, k: nat)
    requires Flow(x, y, toY) && y.Shaped() && 0 < k <= |toY|
    ensures var y' := y.Take(toY[..k]);
            && y'.Shaped() && y'.rpos == |y'.read| % x.N()
            && y'.read + toY[k..] == y.read + toY
            && Packets(x.sent, x.wbuf, x.staged, y'.read, y'.rin, y'.parsed)
            && Credit(x.N(), x.karma, |x.sent| - |y'.read|, y'.rkarma, y'.staged, |x.parsed|)
  {
    hide Put, Holds, EncodeAll, AckSum;
    ModAdd(|y.read|, k, x.N());
    assert toY == toY[..k] + toY[k..];
    assert y.read + toY[..k] == EncodeAll(y.parsed) + (y.rin + toY[..k]);
  }

  /** A size field that has been read is the size of the packet that was sent; a packet that is
      complete is the next one that was staged. */
  lemma ParserInStep(sent: seq<Byte>, wbuf: seq<Byte>, staged: seq<Packet>, y: Endpoint)
    requires Packets(sent, wbuf, staged, y.read, y.rin, y.parsed) && y.read <= sent
    ensures |y.rin| >= HEADER ==> 0 < SizeField(y.rin) <= VPACKETSIZE
    ensures y.PacketComplete() ==>
      |y.parsed| < |staged| && Decode(y.rin) == staged[|y.parsed|] && y.rin == Encode(staged[|y.parsed|])
  {
    hide EncodeAll, Encode, DecodeInt;
    var rest := staged[|y.parsed|..];
    assert staged == y.parsed + rest;
    EncodeAllSplit(y.parsed, rest);
    assert EncodeAll(y.parsed) + y.rin <= EncodeAll(y.parsed) + EncodeAll(rest);
    assert y.rin <= EncodeAll(rest) by {
      var p := EncodeAll(y.parsed);
      assert (p + y.rin)[|p|..] == y.rin && (p + EncodeAll(rest))[|p|..] == EncodeAll(rest);
    }
    if |y.rin| >= HEADER {
      NextPacket(rest, y.rin);
      assert rest[0] == staged[|y.parsed|];
    }
  }

  lemma WantedIsPositive(x: Endpoint, y: Endpoint, toY: seq<Byte>)
    requires Flow(x, y, toY)
    ensures 0 < y.Wanted()
  {
    hide Holds, EncodeAll, DecodeInt, Credit;
    ParserInStep(x.sent, x.wbuf, x.staged, y);
  }

  /** A complete packet leaves the parser without tripping the range check of read_ack. */
  lemma DeliverKeeps(x: Endpoint, y: Endpoint, toX: seq<Byte>)
    requires Flow(y, x, toX)
    requires Packets(x.sent, x.wbuf, x.staged, y.read, y.rin, y.parsed) && y.read <= x.sent
    requires y.PacketComplete()
    ensures y.Deliver().Done?
    ensures var y' := y.Deliver().e;
            && y' == y.(rin := [], karma := y'.karma, parsed := y'.parsed)
            && Packets(x.sent, x.wbuf, x.staged, y'.read, y'.rin, y'.parsed)
            && y'.parsed <= x.staged
            && Credit(y.N(), y'.karma, |y.sent| - |x.read|, x.rkarma, x.staged, |y'.parsed|)
  {
    hide Holds, EncodeAll, Encode, DecodeInt;
    ParserInStep(x.sent, x.wbuf, x.staged, y);
    var m := Decode(y.rin);
    var acks := x.staged[|y.parsed|..];
    assert acks[0] == m && acks[1..] == x.staged[|y.parsed| + 1..];
    AckSumNonNegative(acks[1..]);
    assert AckSum(acks) == AckAmount(m) + AckSum(acks[1..]);
    EncodeAllSnoc(y.parsed, m);
    assert EncodeAll(y.parsed + [m]) + [] == y.read;
  }

  lemma ReceiveKeeps(x: Endpoint, y: Endpoint, toX: seq<Byte>, toY: seq<Byte>, k: nat)
    requires Flow(x, y, toY) && Flow(y, x, toX)
    requires 0 < k <= |toY| && (0 < y.Wanted() ==> k <= y.Wanted())
    ensures y.Shaped() && 0 < y.Wanted() && y.Receive(toY[..k]).Done?
    ensures var y' := y.Receive(toY[..k]).e;
            && Flow(x, y', toY[k..]) && Flow(y', x, toX)
            && y'.read + toY[k..] == y.read + toY
  {
    hide Holds, EncodeAll, Encode, AckSum, DecodeInt;
    WantedIsPositive(x, y, toY);
    TakeKeeps(x, y, toY, k);
    var t := y.Take(toY[..k]);
    ParserInStep(x.sent, x.wbuf, x.staged, t);
    if |y.rin| >= HEADER { assert t.rin[4..8] == y.rin[4..8]; }
    assert Flow(t, x, toX);
    if t.PacketComplete() {
      hide Packets, Credit;
      DeliverKeeps(x, t, toX);
    }
  }

  lemma StagingIsAllowed(x: Endpoint, y: Endpoint, toX: seq<Byte>, entries: seq<(int, int)>)
    requires Flow(y, x, toX) && 4 + 8 * |entries| <= VPACKETSIZE
    requires GoodEntries(entries)
    ensures x.CanStageAck(entries)
    ensures AckAmount(Message(CONTROL_ID, AckPayload(x.rkarma, entries))) == x.rkarma
  {
    UnreadFits(y, x, toX);
    AckAmountOf(x.rkarma, entries);
  }

  // Every step

  lemma ReadStep(s: Session, side: Side, k: nat)
    requires Inv(s) && Enabled(s, Read(side, k))
    ensures Next(s, Read(side, k)).Some? && Inv(Next(s, Read(side, k)).value)
  {
    hide Flow;
    if side == Mux {
      ReceiveKeeps(s.b, s.a, s.toB, s.toA, k);
    } else {
      ReceiveKeeps(s.a, s.b, s.toA, s.toB, k);
    }
  }

  lemma WriteStep(s: Session, side: Side, k: nat)
    requires Inv(s) && Enabled(s, Write(side, k))
    ensures Next(s, Write(side, k)).Some? && Inv(Next(s, Write(side, k)).value)
  {
    var Session(a, b, _, _, _, _, joined, _, toA, toB) := s;
    assert s.Me(side).Shaped();
    if side == Mux {
      WriteKeeps(a, b, toA, toB, k, joined);
    } else {
      WriteKeeps(b, a, toB, toA, k, joined);
    }
    hide Flow;
  }

  lemma PayStep(s: Session, side: Side, k: nat)
    requires Inv(s) && Enabled(s, Pay(side, k))
    ensures Next(s, Pay(side, k)).Some? && Inv(Next(s, Pay(side, k)).value)
  {
    hide Flow;
    var Session(a, b, _, _, _, _, joined, _, toA, toB) := s;
    if side == Mux {
      PayKeeps(a, b, toA, toB, k, joined);
    } else {
      PayKeeps(b, a, toB, toA, k, joined);
    }
  }

  lemma StageAckKeeps(x: Endpoint, y: Endpoint, toX: seq<Byte>, toY: seq<Byte>, entries: seq<(int, int)>)
    requires Flow(x, y, toY) && Flow(y, x, toX) && x.wbuf == [] && 4 + 8 * |entries| <= VPACKETSIZE
    requires GoodEntries(entries)
    ensures x.CanStageAck(entries) && Flow(x.StageAck(entries), y, toY) && Flow(y, x.StageAck(entries), toX)
  {
    StagingIsAllowed(x, y, toX, entries);
    hide Flow, AckPayload, Encode, AckAmount;
    var m: Packet := Message(CONTROL_ID, AckPayload(x.rkarma, entries));
    StageKeeps(x, y, toX, toY, x.StageAck(entries), m, x.rkarma);
  }

  lemma StageDataStep(s: Session, side: Side, m: Packet)
    requires Inv(s) && Enabled(s, StageData(side, m))
    ensures Next(s, StageData(side, m)).Some? && Inv(Next(s, StageData(side, m)).value)
  {
    hide Flow, Encode, EncodeAll, AckSum, Holds;
    UnreadFits(s.a, s.b, s.toB);
    UnreadFits(s.b, s.a, s.toA);
    if side == Mux {
      StageKeeps(s.a, s.b, s.toA, s.toB, s.a.Stage(m), m, 0);
    } else {
      StageKeeps(s.b, s.a, s.toB, s.toA, s.b.Stage(m), m, 0);
    }
  }

  lemma StageAckStep(s: Session, side: Side, entries: seq<(int, int)>)
    requires Inv(s) && Enabled(s, StageAck(side, entries))
    ensures Next(s, StageAck(side, entries)).Some? && Inv(Next(s, StageAck(side, entries)).value)
  {
    hide Flow, Encode, GoodEntries, AckPayload;
    if side == Mux {
      StageAckKeeps(s.a, s.b, s.toA, s.toB, entries);
    } else {
      StageAckKeeps(s.b, s.a, s.toB, s.toA, entries);
    }
  }

  /** Losing a suffix of what is under way loses nothing for good. */
  lemma ShorterIncoming(x: Endpoint, y: Endpoint, toY: seq<Byte>, toY': seq<Byte>)
    requires Flow(x, y, toY) && toY' <= toY
    ensures Flow(x, y, toY')
  {
    hide Packets, Credit, Holds;
  }

  lemma ResumeKeeps(x: Endpoint, y: Endpoint, toX: seq<Byte>, toY: seq<Byte>, h: nat)
    requires Flow(x, y, toY) && Flow(y, x, toX) && h < x.N()
    ensures Flow(x.Resume(h), y, toY) && Flow(y, x.Resume(h), toX)
  {
    hide Packets, Credit, Holds;
  }

  lemma NoPackets(ms: seq<Packet>)
    requires EncodeAll(ms) == []
    ensures ms == []
  {
  }

  /** A context that knows nothing can take the place of another one whose peer has read nothing. */
  lemma FreshKeeps(x: Endpoint, y: Endpoint, toX: seq<Byte>, toY: seq<Byte>)
    requires Flow(x, y, toY) && Flow(y, x, toX) && x.read == []
    ensures Flow(x, Endpoint.Fresh(x.N()), []) && Flow(Endpoint.Fresh(x.N()), x, [])
  {
    assert x.parsed == [] by { NoPackets(x.parsed); }
    assert y.staged[0..] == y.staged && x.staged[0..] == x.staged;
    hide AckAmount, Encode;
  }

  /** The context of `b` is lost, and `a` has read, or will read, something that came from it. */
  predicate Forgets(s: Session, ev: Event) {
    && !s.known
    && match ev
       case Accept => s.a.read != []
       case AcceptAbandoned(_) => s.a.read + s.toA != []
       case _ => false
  }

  /** The context a connection leads to is in step with `a`, unless it is a new one too late. */
  lemma ContextFlows(s: Session, ev: Event)
    requires Inv(s) && (ev.Accept? || ev.AcceptAbandoned?) && !Forgets(s, ev)
    ensures var c, toA := s.Context(), if ev.Accept? then [] else s.toA;
            Flow(s.a, c, []) && Flow(c, s.a, toA) && c.N() == s.a.N()
  {
    var toA := if ev.Accept? then [] else s.toA;
    if s.known {
      hide Flow;
      ShorterIncoming(s.a, s.b, s.toB, []);
      ShorterIncoming(s.b, s.a, s.toA, toA);
      ResumeIsExact(s.a, s.b, s.toB);
    } else {
      hide Flow;
      FreshKeeps(s.a, s.b, s.toA, s.toB);
    }
  }

  lemma AcceptStep(s: Session, ev: Event)
    requires Inv(s) && Enabled(s, ev) && (ev.Accept? || ev.AcceptAbandoned?) && !Forgets(s, ev)
    ensures Next(s, ev).Some? && Inv(Next(s, ev).value)
  {
    hide Flow;
    var c, toA := s.Context(), if ev.Accept? then [] else s.toA;
    ContextFlows(s, ev);
    ResumeIsExact(c, s.a, toA);
    ResumeIsExact(s.a, c, []);
    ResumeKeeps(c, s.a, [], toA, if ev.Accept? then s.a.rpos else ev.h);
  }

  lemma LinkStep(s: Session, ev: Event)
    requires Inv(s) && Enabled(s, ev)
    requires ev.Connect? || ev.KeyOnly? || ev.Burn? || ev.Handshake? || ev.Break? || ev.HangUp?
    ensures Next(s, ev).Some? && Inv(Next(s, ev).value)
  {
    hide Flow;
    var Session(a, b, _, _, _, _, joined, reply, toA, toB) := s;
    ResumeIsExact(b, a, toA);
    ResumeIsExact(a, b, toB);
    match ev
    case Connect =>
    case KeyOnly(newest, keepReply) => ShorterIncoming(a, b, toB, []);
    case Burn => ShorterIncoming(a, b, toB, []);
    case Handshake =>
      ResumeKeeps(a, b, toA, toB, reply.value);
    case Break(keepA, keepB, keepReply) =>
      ShorterIncoming(a, b, toB, toB[..keepB]);
      ShorterIncoming(b, a, toA, toA[..keepA]);
    case HangUp(side) =>
      ShorterIncoming(a, b, toB, []);
      ShorterIncoming(b, a, toA, []);
  }

  /** Every step of every event keeps the invariant, unless it forgets, and no assertion or range
      check of the main loop fails. */
  lemma StepInv(s: Session, ev: Event)
    requires Inv(s) && Enabled(s, ev) && !Forgets(s, ev)
    ensures Next(s, ev).Some? && Inv(Next(s, ev).value)
  {
    match ev
    case Read(side, k) => ReadStep(s, side, k);
    case Write(side, k) => WriteStep(s, side, k);
    case Pay(side, k) => PayStep(s, side, k);
    case StageData(side, m) => StageDataStep(s, side, m);
    case StageAck(side, entries) => StageAckStep(s, side, entries);
    case Accept => AcceptStep(s, ev);
    case AcceptAbandoned(_) => AcceptStep(s, ev);
    case _ => LinkStep(s, ev);
  }

  // Whole runs

  /** The states of a run, from a fresh session of two endpoints with rings of `n` bytes. */
  ghost predicate Run(n: nat, states: seq<Session>, events: seq<Event>) {
    && |states| == |events| + 1 && Initial(states[0], n)
    && forall i :: 0 <= i < |events| ==>
        Enabled(states[i], events[i]) && Next(states[i], events[i]) == Some(states[i + 1])
  }

  /** None of the first `k` events forgets. */
  ghost predicate Remembers(states: seq<Session>, events: seq<Event>, k: nat)
    requires |states| == |events| + 1 && k <= |events|
  {
    forall i :: 0 <= i < k ==> !Forgets(states[i], events[i])
  }

  /** Nothing is lost, duplicated or reordered in either direction: what has been read, and what can
      be read next, is a prefix of what the peer wrote, and packets come out whole and in order. */
  predicate Streams(s: Session) {
    && s.b.read + s.toB <= s.a.sent && s.a.read + s.toA <= s.b.sent
    && s.b.parsed <= s.a.staged && s.a.parsed <= s.b.staged
  }

  lemma {:induction false} RunInv(n: nat, states: seq<Session>, events: seq<Event>, k: nat)
    requires Run(n, states, events) && k <= |events| && Remembers(states, events, k)
    ensures Inv(states[k])
    decreases k
  {
    hide Inv, Enabled, Next, Forgets;
    if k == 0 {
      InitialInv(states[0], n);
    } else {
      RunInv(n, states, events, k - 1);
      assert !Forgets(states[k - 1], events[k - 1]);
      StepInv(states[k - 1], events[k - 1]);
    }
  }

  lemma InvStreams(s: Session)
    requires Inv(s)
    ensures Streams(s)
  {
  }

  lemma ForgettingShows(s: Session, ev: Event)
    requires Enabled(s, ev) && Forgets(s, ev) && Next(s, ev).Some?
    ensures !Streams(Next(s, ev).value)
  {
  }

  /** In a run the streams are prefixes in every state if and only if no event forgets.  So drops
      and reconnects do no harm, as long as every position that follows the key arrives and no
      context is burned, or while `a` has read nothing. */
  lemma StreamsArePrefixes(n: nat, states: seq<Session>, events: seq<Event>)
    requires Run(n, states, events)
    ensures (forall s <- states :: Streams(s)) <==> Remembers(states, events, |events|)
  {
    hide Inv, Enabled, Next, Forgets, Streams;
    if Remembers(states, events, |events|) {
      forall i | 0 <= i < |states| ensures Streams(states[i]) {
        RunInv(n, states, events, i);
        InvStreams(states[i]);
      }
    } else {
      var i :| 0 <= i < |events| && Forgets(states[i], events[i]);
      assert Enabled(states[i], events[i]) && Next(states[i], events[i]) == Some(states[i + 1]);
      ForgettingShows(states[i], events[i]);
      assert states[i + 1] in states;
    }
  }

  /** The main loop never gives up in a run that forgets nothing. */
  lemma NoStepFails(n: nat, states: seq<Session>, events: seq<Event>, ev: Event)
    requires Run(n, states, events) && Remembers(states, events, |events|)
    requires Enabled(states[|events|], ev)
    ensures Next(states[|events|], ev).Some?
  {
    hide Inv, Next, Enabled;
    var s := states[|events|];
    RunInv(n, states, events, |events|);
    if Forgets(s, ev) {
      FreshTakesOver(s, ev);
    } else {
      StepInv(s, ev);
    }
  }

  lemma FreshTakesOver(s: Session, ev: Event)
    requires Inv(s) && Enabled(s, ev) && Forgets(s, ev)
    ensures Next(s, ev).Some?
  {
  }

  /** Credit is conserved: what `x` may still send, what is unread, what is read but unacknowledged
      and what is acknowledged but not yet processed always add up to one less than the ring. */
  lemma CreditIsConserved(n: nat, states: seq<Session>, events: seq<Event>, side: Side)
    requires Run(n, states, events) && Remembers(states, events, |events|)
    ensures var s := states[|events|];
            var x, y := s.Me(side), s.Me(side.Other());
            && |x.parsed| <= |y.staged| && |y.read| <= |x.sent|
            && x.karma + (|x.sent| - |y.read|) + y.rkarma + AckSum(y.staged[|x.parsed|..]) == x.N() - 1
            && 0 <= x.karma && 0 <= y.rkarma && |x.sent| - |y.read| < x.N()
  {
    var s := states[|events|];
    RunInv(n, states, events, |events|);
    hide Run, Remembers;
    UnreadFits(s.a, s.b, s.toB);
    UnreadFits(s.b, s.a, s.toA);
  }

  /** On an unbroken connection the bytes under way and the debt are together exactly what the
      peer has not read; when both are gone the peer has read everything. */
  lemma NothingIsLost(n: nat, states: seq<Session>, events: seq<Event>)
    requires Run(n, states, events) && Remembers(states, events, |events|)
    requires states[|events|].joined && states[|events|].phase == Up
    ensures var s := states[|events|];
            && s.a.debt <= |s.a.sent| && s.b.read + s.toB + s.a.sent[|s.a.sent| - s.a.debt..] == s.a.sent
            && s.b.debt <= |s.b.sent| && s.a.read + s.toA + s.b.sent[|s.b.sent| - s.b.debt..] == s.b.sent
  {
    var s := states[|events|];
    RunInv(n, states, events, |events|);
    hide Flow, Run, Remembers;
    ExactIsAll(s.a, s.b, s.toB);
    ExactIsAll(s.b, s.a, s.toA);
  }

  lemma ExactIsAll(x: Endpoint, y: Endpoint, toY: seq<Byte>)
    requires Exact(x, y, toY)
    ensures y.read + toY + x.sent[|x.sent| - x.debt..] == x.sent
  {
    assert x.sent == x.sent[..|x.sent| - x.debt] + x.sent[|x.sent| - x.debt..];
  }
}
