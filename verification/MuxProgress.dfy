/** Packets do get through: on an unbroken connection, whatever is staged and fits the credit reaches the
    parser of the peer, and acknowledgments give the credit back. */
module MuxProgress {
  import opened MuxEndpoint
  import opened MuxRing
  import opened MuxSession
  import opened MuxSides
  import opened MuxWire
  import opened Options

  /** The events lead from one state to the other, without a failure. */
  ghost predicate Leads(s: Session, events: seq<Event>, t: Session)
    decreases |events|
  {
    if events == [] then s == t
    else Enabled(s, events[0]) && Next(s, events[0]).Some? && Leads(Next(s, events[0]).value, events[1..], t)
  }

  lemma {:induction false} LeadsOn(s: Session, a: seq<Event>, t: Session, b: seq<Event>, u: Session)
    requires Leads(s, a, t) && Leads(t, b, u)
    ensures Leads(s, a + b, u)
    decreases |a|
  {
    hide Enabled, Next;
    if a == [] {
      assert a + b == b;
    } else {
      assert (a + b)[0] == a[0] && (a + b)[1..] == a[1..] + b;
      LeadsOn(Next(s, a[0]).value, a[1..], t, b, u);
    }
  }

  lemma OneEvent(s: Session, ev: Event, t: Session)
    requires Enabled(s, ev) && Next(s, ev) == Some(t)
    ensures Leads(s, [ev], t)
  {
    hide Enabled, Next;
    assert Leads(t, [], t) && [ev][1..] == [];
  }

  /** Connected, with nothing owed, staged or under way in the direction from `side`. */
  ghost predicate Quiet(s: Session, side: Side) {
    && Inv(s) && s.joined && s.phase == Up
    && s.Me(side).debt == 0 && s.Me(side).wbuf == []
    && s.Incoming(side.Other()) == [] && s.Me(side.Other()).rin == []
  }

  /** `side` has staged the packet `m` and written nothing of it yet. */
  ghost predicate Loaded(s: Session, side: Side, m: Packet) {
    && Inv(s) && s.joined && s.phase == Up
    && s.Me(side).debt == 0 && s.Me(side).wbuf == Encode(m) && |Encode(m)| <= s.Me(side).karma
    && s.Incoming(side.Other()) == [] && s.Me(side.Other()).rin == []
  }

  /** All of `m` is on its way. */
  ghost predicate OnItsWay(s: Session, side: Side, m: Packet) {
    && Inv(s) && s.joined && s.phase == Up
    && s.Me(side).debt == 0 && s.Me(side).wbuf == []
    && s.Incoming(side.Other()) == Encode(m) && s.Me(side.Other()).rin == []
  }

  /** Its header has been read. */
  ghost predicate HeaderRead(s: Session, side: Side, m: Packet) {
    && Inv(s) && s.joined && s.phase == Up
    && s.Me(side).debt == 0 && s.Me(side).wbuf == []
    && s.Incoming(side.Other()) == m.payload && s.Me(side.Other()).rin == Encode(m)[..HEADER]
  }

  lemma Written(s: Session, side: Side, m: Packet)
    requires Loaded(s, side, m)
    ensures Enabled(s, Write(side, |Encode(m)|)) && Next(s, Write(side, |Encode(m)|)).Some?
    ensures var t := Next(s, Write(side, |Encode(m)|)).value;
            && OnItsWay(t, side, m)
            && t.Me(side) == s.Me(side).WriteNew(|Encode(m)|) && t.Me(side.Other()) == s.Me(side.Other())
            && t.Incoming(side) == s.Incoming(side)
  {
    hide Inv, Encode, Put, Advance;
    InvIsShaped(s, side);
    var k := |Encode(m)|;
    WriteStep(s, side, k);
    assert Encode(m)[..k] == Encode(m) && Encode(m)[k..] == [] && [] + Encode(m) == Encode(m);
  }

  lemma InvIsShaped(s: Session, side: Side)
    requires Inv(s)
    ensures s.a.Shaped() && s.b.Shaped() && (s.joined ==> s.bOpen)
  {
  }

  lemma FirstRead(s: Session, side: Side, m: Packet)
    requires OnItsWay(s, side, m)
    ensures var ev := Read(side.Other(), HEADER);
            && Enabled(s, ev) && Next(s, ev).Some?
            && (var t := Next(s, ev).value;
                && HeaderRead(t, side, m)
                && t.Me(side) == s.Me(side) && t.Me(side.Other()) == s.Me(side.Other()).Take(Encode(m)[..HEADER])
                && t.Incoming(side) == s.Incoming(side))
  {
    hide Inv, Encode, Advance, DecodeInt;
    InvIsShaped(s, side);
    PacketLayout(m);
    DecodeEncode(m);
    ReadStep(s, side.Other(), HEADER);
    var bs := Encode(m)[..HEADER];
    assert [] + bs == bs && bs[4..8] == Encode(m)[4..8];
  }

  /** What the parser makes of a whole packet. */
  function Parsed(y: Endpoint, m: Packet): Endpoint {
    y.(rin := [], karma := y.karma + AckAmount(m), parsed := y.parsed + [m])
  }

  lemma SecondRead(s: Session, side: Side, m: Packet)
    requires HeaderRead(s, side, m)
    ensures var ev := Read(side.Other(), |m.payload|);
            && Enabled(s, ev) && Next(s, ev).Some?
            && (var t := Next(s, ev).value;
                && Quiet(t, side)
                && t.Me(side) == s.Me(side) && t.Incoming(side) == s.Incoming(side)
                && t.Me(side.Other()) == Parsed(s.Me(side.Other()).Take(m.payload), m))
  {
    hide Inv, Encode, Advance, DecodeInt, AckAmount;
    InvIsShaped(s, side);
    PacketLayout(m);
    DecodeEncode(m);
    var y := s.Me(side.Other());
    assert y.rin[4..8] == Encode(m)[4..8] && y.rin + m.payload == Encode(m);
    ReadStep(s, side.Other(), |m.payload|);
    assert m.payload[..|m.payload|] == m.payload;
  }

  /** A staged packet that fits the credit is written, and read in two reads. */
  lemma LoadedGetsThrough(s: Session, side: Side, m: Packet) returns (t: Session)
    requires Loaded(s, side, m)
    ensures Leads(s, [Write(side, |Encode(m)|), Read(side.Other(), HEADER), Read(side.Other(), |m.payload|)], t)
    ensures Quiet(t, side) && t.Incoming(side) == s.Incoming(side)
    ensures t.Me(side).karma == s.Me(side).karma - |Encode(m)| && t.Me(side).staged == s.Me(side).staged
    ensures t.Me(side).rkarma == s.Me(side).rkarma && t.Me(side).parsed == s.Me(side).parsed
    ensures t.Me(side).rin == s.Me(side).rin
    ensures var y, y' := s.Me(side.Other()), t.Me(side.Other());
            && y'.parsed == y.parsed + [m] && y'.staged == y.staged && y'.wbuf == y.wbuf && y'.debt == y.debt
            && y'.karma == y.karma + AckAmount(m) && y'.rkarma == y.rkarma + |Encode(m)|
  {
    hide Loaded, OnItsWay, HeaderRead, Quiet, Enabled, Next, Encode, Put, Advance, AckAmount;
    var w, r, q := Write(side, |Encode(m)|), Read(side.Other(), HEADER), Read(side.Other(), |m.payload|);
    Written(s, side, m);
    var s1 := Next(s, w).value;
    FirstRead(s1, side, m);
    var s2 := Next(s1, r).value;
    SecondRead(s2, side, m);
    t := Next(s2, q).value;
    OneEvent(s, w, s1);
    OneEvent(s1, r, s2);
    OneEvent(s2, q, t);
    LeadsOn(s, [w], s1, [r], s2);
    LeadsOn(s, [w] + [r], s2, [q], t);
    assert [w] + [r] + [q] == [w, r, q];
    assert |Encode(m)| == HEADER + |m.payload|;
  }

  // Data and acknowledgments

  /** Nothing is under way in either direction. */
  ghost predicate QuietBothWays(s: Session) { Quiet(s, Mux) && Quiet(s, Demux) }

  /** A packet of client data. */
  lemma DataGetsThrough(s: Session, side: Side, m: Packet) returns (t: Session, events: seq<Event>)
    requires QuietBothWays(s) && m.id > 0 && |Encode(m)| <= s.Me(side).karma
    ensures Leads(s, events, t) && QuietBothWays(t)
    ensures var x, y, x', y' := s.Me(side), s.Me(side.Other()), t.Me(side), t.Me(side.Other());
            && y'.parsed == y.parsed + [m] && x'.parsed == x.parsed
            && x'.karma == x.karma - |Encode(m)| && y'.rkarma == y.rkarma + |Encode(m)|
            && y'.karma == y.karma && x'.rkarma == x.rkarma
  {
    hide Inv, Encode, EncodeInt, DecodeInt;
    var ev := StageData(side, m);
    InvIsShaped(s, side);
    StageDataStep(s, side, m);
    var s1 := Next(s, ev).value;
    assert Loaded(s1, side, m);
    hide Loaded, Enabled, Next;
    t := LoadedGetsThrough(s1, side, m);
    OneEvent(s, ev, s1);
    var rest := [Write(side, |Encode(m)|), Read(side.Other(), HEADER), Read(side.Other(), |m.payload|)];
    LeadsOn(s, [ev], s1, rest, t);
    events := [ev] + rest;
  }

  /** An acknowledgment: the peer may write again what has been read. */
  lemma AckGetsThrough(s: Session, side: Side) returns (t: Session, events: seq<Event>)
    requires QuietBothWays(s) && HEADER + 4 <= s.Me(side).karma
    ensures Leads(s, events, t) && QuietBothWays(t)
    ensures var x, y, x', y' := s.Me(side), s.Me(side.Other()), t.Me(side), t.Me(side.Other());
            && x'.rkarma == 0 && y'.karma == y.karma + x.rkarma && x'.parsed == x.parsed
            && |y'.parsed| == |y.parsed| + 1 && y.parsed <= y'.parsed && AckAmount(y'.parsed[|y.parsed|]) == x.rkarma
  {
    hide Inv, Encode, EncodeInt, DecodeInt;
    var ev := StageAck(side, []);
    InvIsShaped(s, side);
    StageAckStep(s, side, []);
    var s1 := Next(s, ev).value;
    var x := s.Me(side);
    var m: Packet := Message(CONTROL_ID, AckPayload(x.rkarma, []));
    AckAmountOf(x.rkarma, []);
    hide AckAmount;
    assert |Encode(m)| == HEADER + 4;
    assert Loaded(s1, side, m);
    hide Loaded, Enabled, Next;
    t := LoadedGetsThrough(s1, side, m);
    OneEvent(s, ev, s1);
    var rest := [Write(side, |Encode(m)|), Read(side.Other(), HEADER), Read(side.Other(), |m.payload|)];
    LeadsOn(s, [ev], s1, rest, t);
    events := [ev] + rest;
  }

  function Size(ms: seq<Packet>): nat { if ms == [] then 0 else |Encode(ms[0])| + Size(ms[1..]) }

  /** Any number of packets that fit the credit together. */
  lemma {:induction false} AllGetThrough(s: Session, side: Side, ms: seq<Packet>)
    returns (t: Session, events: seq<Event>)
    requires QuietBothWays(s) && (forall m <- ms :: m.id > 0) && Size(ms) <= s.Me(side).karma
    ensures Leads(s, events, t) && QuietBothWays(t)
    ensures var x, y, x', y' := s.Me(side), s.Me(side.Other()), t.Me(side), t.Me(side.Other());
            && y'.parsed == y.parsed + ms && x'.parsed == x.parsed
            && x'.karma == x.karma - Size(ms) && y'.rkarma == y.rkarma + Size(ms)
            && y'.karma == y.karma && x'.rkarma == x.rkarma
    decreases |ms|
  {
    hide QuietBothWays, Encode, Next, Enabled;
    if ms == [] {
      t, events := s, [];
    } else {
      var u, es := DataGetsThrough(s, side, ms[0]);
      var es';
      t, es' := AllGetThrough(u, side, ms[1..]);
      LeadsOn(s, es, u, es', t);
      events := es + es';
      assert ms == [ms[0]] + ms[1..];
      var p := s.Me(side.Other()).parsed;
      assert p + [ms[0]] + ms[1..] == p + ms;
    }
  }

  /** Packets and the acknowledgment that follows them: the packets have been delivered, in order, and all
      the credit they took is back. */
  lemma ExchangeRestoresCredit(s: Session, side: Side, ms: seq<Packet>) returns (t: Session, events: seq<Event>)
    requires QuietBothWays(s) && (forall m <- ms :: m.id > 0) && Size(ms) <= s.Me(side).karma
    requires HEADER + 4 <= s.Me(side.Other()).karma
    ensures Leads(s, events, t) && QuietBothWays(t)
    ensures t.Me(side.Other()).parsed == s.Me(side.Other()).parsed + ms
    ensures t.Me(side).karma == s.Me(side).karma + s.Me(side.Other()).rkarma && t.Me(side.Other()).rkarma == 0
  {
    hide QuietBothWays, Encode, Size, AckAmount;
    var u, es := AllGetThrough(s, side, ms);
    assert side.Other().Other() == side;
    var es';
    t, es' := AckGetsThrough(u, side.Other());
    LeadsOn(s, es, u, es', t);
    events := es + es';
  }

  // Connecting

  /** Everything but the debt is as it was. */
  predicate SameButDebt(x: Endpoint, x': Endpoint) { x' == x.(debt := x'.debt) }

  /** Whatever has happened before, as long as the server side still has the context: both ends drop their
      connections and connect again, and each end owes exactly what the other one has not read. */
  lemma ReconnectIsExact(s: Session) returns (t: Session, events: seq<Event>)
    requires Inv(s) && s.known
    ensures Leads(s, events, t) && Inv(t) && t.joined && t.phase == Up && t.toA == [] && t.toB == []
    ensures SameButDebt(s.a, t.a) && t.a.debt == |s.a.sent| - |s.b.read|
    ensures SameButDebt(s.b, t.b) && t.b.debt == |s.b.sent| - |s.a.read|
  {
    hide Flow, Endpoint.Resume, Endpoint.Shaped;
    events := [HangUp(Mux), HangUp(Demux), Connect, Accept, Handshake];
    LinkStep(s, events[0]);
    var s1 := Next(s, events[0]).value;
    LinkStep(s1, events[1]);
    var s2 := Next(s1, events[1]).value;
    LinkStep(s2, events[2]);
    var s3 := Next(s2, events[2]).value;
    ResumeIsExact(s3.b, s3.a, s3.toA);
    AcceptStep(s3, events[3]);
    var s4 := Next(s3, events[3]).value;
    ResumeIsExact(s4.a, s4.b, s4.toB);
    LinkStep(s4, events[4]);
    t := Next(s4, events[4]).value;
    DebtOnly(s3.b, s3.a.rpos);
    DebtOnly(s4.a, s4.b.rpos);
    FiveEvents(s, events, s1, s2, s3, s4, t);
  }

  lemma DebtOnly(x: Endpoint, h: nat)
    requires x.Shaped() && h < x.N()
    ensures SameButDebt(x, x.Resume(h))
  {
  }

  lemma FiveEvents(s: Session, events: seq<Event>, s1: Session, s2: Session, s3: Session, s4: Session, t: Session)
    requires |events| == 5
    requires Enabled(s, events[0]) && Next(s, events[0]) == Some(s1)
    requires Enabled(s1, events[1]) && Next(s1, events[1]) == Some(s2)
    requires Enabled(s2, events[2]) && Next(s2, events[2]) == Some(s3)
    requires Enabled(s3, events[3]) && Next(s3, events[3]) == Some(s4)
    requires Enabled(s4, events[4]) && Next(s4, events[4]) == Some(t)
    ensures Leads(s, events, t)
  {
    hide Enabled, Next;
    OneEvent(s, events[0], s1);
    OneEvent(s1, events[1], s2);
    OneEvent(s2, events[2], s3);
    OneEvent(s3, events[3], s4);
    OneEvent(s4, events[4], t);
    LeadsOn(s, [events[0]], s1, [events[1]], s2);
    LeadsOn(s, [events[0]] + [events[1]], s2, [events[2]], s3);
    LeadsOn(s, [events[0]] + [events[1]] + [events[2]], s3, [events[3]], s4);
    LeadsOn(s, [events[0]] + [events[1]] + [events[2]] + [events[3]], s4, [events[4]], t);
    assert events == [events[0]] + [events[1]] + [events[2]] + [events[3]] + [events[4]];
  }

  /** A new session is quiet as soon as it is connected, with full credit both ways. */
  lemma FirstConnection(s: Session, n: nat) returns (t: Session, events: seq<Event>)
    requires Initial(s, n)
    ensures Leads(s, events, t) && QuietBothWays(t) && t.a.karma == t.b.karma == n - 1
  {
    InitialInv(s, n);
    events := [Connect, Accept, Handshake];
    LinkStep(s, Connect);
    var s1 := Next(s, Connect).value;
    AcceptStep(s1, Accept);
    var s2 := Next(s1, Accept).value;
    LinkStep(s2, Handshake);
    t := Next(s2, Handshake).value;
    hide Inv;
    OneEvent(s, Connect, s1);
    OneEvent(s1, Accept, s2);
    OneEvent(s2, Handshake, t);
    LeadsOn(s, [Connect], s1, [Accept], s2);
    LeadsOn(s, [Connect] + [Accept], s2, [Handshake], t);
    assert events == [Connect] + [Accept] + [Handshake];
  }
}
