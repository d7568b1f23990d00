/** The link and one of its clients together: packets are staged from the client's state, and what
    the parser delivers reaches the client.  Every id is such a client, and what happens to the
    others does not touch it. */
module MuxProgram {
  import C = MuxClients
  import S = MuxSession
  import opened MuxDispatch
  import opened MuxEndpoint
  import opened MuxRing
  import opened MuxSides
  import opened MuxWire
  import opened Options

  /** `l` is the client `id` at both ends, with what the link carries for it. */
  datatype Program = Program(s: S.Session, l: C.Link)

  datatype Event =
    | OnLink(link: S.Event)                                    // connections, and bytes written
    | Send(side: Side, m: Packet)                              // mainw takes a packet from a client
    | Acknowledge(side: Side, entries: seq<(int, int)>)        // write_ack
    | Read(side: Side, k: nat, ok: bool)                       // mainr, down to the client
    | OnClient(client: C.Event)                                // the local socket of the client

  /** The entry write_ack makes for the client. */
  function Report(c: C.Client): C.Msg { if c.rkarma == -1 then C.Bye else C.Ack(c.rkarma) }

  /** No new context takes the place of one that has been used: see MuxSession.Forgets. */
  predicate SameContext(s: S.Session, ev: S.Event) { ev.Accept? || ev.AcceptAbandoned? ==> s.Context() == s.b }

  predicate Enabled(lim: C.Limits, id: int, p: Program, ev: Event) {
    match ev
    case OnLink(e) =>
      !e.StageData? && !e.StageAck? && !e.Read? && S.Enabled(p.s, e) && SameContext(p.s, e)
    case Send(side, m) =>
      S.Enabled(p.s, S.StageData(side, m)) && (m.id == id ==> C.Enabled(lim, p.l, C.Send(side, |m.payload|)))
    case Acknowledge(side, entries) =>
      && S.Enabled(p.s, S.StageAck(side, entries))
      && (Spoken(entries, id) != [] ==>
            C.Enabled(lim, p.l, C.Report(side)) && Spoken(entries, id) == [Report(p.l.Me(side).value)])
    case Read(side, k, ok) => S.Enabled(p.s, S.Read(side, k))
    case OnClient(e) => (e.Accept? || e.Drain? || e.HangUp?) && C.Enabled(lim, p.l, e)
  }

  /** The next `count` messages reach the client. */
  function Deliver(lim: C.Limits, l: C.Link, side: Side, count: nat, ok: bool): Option<C.Link>
    decreases count
  {
    if count == 0 then Some(l)
    else if l.Incoming(side) == [] then None
    else
      var r := C.Next(lim, l, C.Receive(side, ok));
      if r.None? then None else Deliver(lim, r.value, side, count - 1, ok)
  }

  /** What the packets say that the endpoint has parsed since. */
  function News(before: Endpoint, after: Endpoint, id: int): seq<C.Msg> {
    if |before.parsed| <= |after.parsed| then Queue(after.parsed[|before.parsed|..], id) else []
  }

  function Both(s: Option<S.Session>, l: Option<C.Link>): Option<Program> {
    if s.None? || l.None? then None else Some(Program(s.value, l.value))
  }

  /** The state after an event, or nothing when a check of the link or of the client fails. */
  function Next(lim: C.Limits, id: int, p: Program, ev: Event): Option<Program>
    requires Enabled(lim, id, p, ev)
  {
    match ev
    case OnLink(e) => Both(S.Next(p.s, e), Some(p.l))
    case Send(side, m) =>
      Both(S.Next(p.s, S.StageData(side, m)),
           if m.id == id then C.Next(lim, p.l, C.Send(side, |m.payload|)) else Some(p.l))
    case Acknowledge(side, entries) =>
      Both(S.Next(p.s, S.StageAck(side, entries)),
           if Spoken(entries, id) == [] then Some(p.l) else C.Next(lim, p.l, C.Report(side)))
    case Read(side, k, ok) =>
      var r := S.Next(p.s, S.Read(side, k));
      if r.None? then None
      else Both(r, Deliver(lim, p.l, side, |News(p.s.Me(side), r.value.Me(side), id)|, ok))
    case OnClient(e) => Both(Some(p.s), C.Next(lim, p.l, e))
  }

  /** What is under way from `x` to `y` for the client. */
  ghost predicate Carries(x: Endpoint, y: Endpoint, q: seq<C.Msg>, id: int) {
    |y.parsed| <= |x.staged| && q == Queue(x.staged[|y.parsed|..], id)
  }

  ghost predicate Inv(lim: C.Limits, id: int, p: Program) {
    && S.Inv(p.s) && C.Inv(lim, p.l)
    && Carries(p.s.a, p.s.b, p.l.md, id) && Carries(p.s.b, p.s.a, p.l.dm, id)
  }

  // Steps

  /** One more packet is staged. */
  lemma CarriesMore(x: Endpoint, y: Endpoint, q: seq<C.Msg>, id: int, m: Packet)
    requires Carries(x, y, q, id)
    ensures Queue([m], id) == Messages(m, id)
    ensures |y.parsed| <= |x.staged + [m]| && Queue((x.staged + [m])[|y.parsed|..], id) == q + Messages(m, id)
  {
    hide Messages;
    QueueSplit(x.staged[|y.parsed|..], [m], id);
    assert (x.staged + [m])[|y.parsed|..] == x.staged[|y.parsed|..] + [m];
    assert [m][1..] == [] && Messages(m, id) + [] == Messages(m, id);
  }

  /** The messages of the packet that was parsed leave the queue. */
  lemma CarriesLess(x: Endpoint, before: Endpoint, after: Endpoint, q: seq<C.Msg>, id: int)
    requires Carries(x, before, q, id) && before.parsed <= after.parsed <= x.staged
    ensures var news := News(before, after, id);
            |news| <= |q| && q[..|news|] == news && Carries(x, after, q[|news|..], id)
  {
    hide Messages;
    var a, b := after.parsed[|before.parsed|..], x.staged[|after.parsed|..];
    assert x.staged[|before.parsed|..] == a + b;
    QueueSplit(a, b, id);
  }

  /** A client event leaves the queue it reads from alone, but for its head. */
  lemma ReceivePops(lim: C.Limits, l: C.Link, side: Side, ok: bool)
    requires l.Incoming(side) != [] && C.Next(lim, l, C.Receive(side, ok)).Some?
    ensures var l' := C.Next(lim, l, C.Receive(side, ok)).value;
            l'.Incoming(side) == l.Incoming(side)[1..] && l'.Incoming(side.Other()) == l.Incoming(side.Other())
  {
  }

  lemma {:induction false} DeliverKeeps(lim: C.Limits, l: C.Link, side: Side, count: nat, ok: bool)
    requires lim.Sane() && C.Inv(lim, l) && count <= |l.Incoming(side)|
    ensures var r := Deliver(lim, l, side, count, ok);
            && r.Some? && C.Inv(lim, r.value)
            && r.value.Incoming(side) == l.Incoming(side)[count..]
            && r.value.Incoming(side.Other()) == l.Incoming(side.Other())
    decreases count
  {
    hide C.Inv, C.Next;
    if count > 0 {
      C.StepInv(lim, l, C.Receive(side, ok));
      ReceivePops(lim, l, side, ok);
      DeliverKeeps(lim, C.Next(lim, l, C.Receive(side, ok)).value, side, count - 1, ok);
    }
  }

  /** A read leaves everything alone but the reader, who parses at most some more packets. */
  lemma ReadMoves(s: S.Session, side: Side, k: nat)
    requires S.Enabled(s, S.Read(side, k)) && S.Next(s, S.Read(side, k)).Some?
    ensures var t := S.Next(s, S.Read(side, k)).value;
            && t.Me(side.Other()) == s.Me(side.Other()) && t.Me(side).staged == s.Me(side).staged
            && s.Me(side).parsed <= t.Me(side).parsed
  {
    hide DecodeInt;
  }

  /** Neither end stages or parses anything. */
  predicate Silent(s: S.Session, t: S.Session) {
    && t.a.staged == s.a.staged && t.a.parsed == s.a.parsed
    && t.b.staged == s.b.staged && t.b.parsed == s.b.parsed
  }

  lemma WritesAreSilent(s: S.Session, ev: S.Event)
    requires S.Enabled(s, ev) && S.Next(s, ev).Some? && (ev.Pay? || ev.Write?)
    ensures Silent(s, S.Next(s, ev).value)
  {
    hide DecodeInt, Put, Advance, Endpoint.DebtBytes, GoodEntries;
  }

  lemma HandshakesAreSilent(s: S.Session, ev: S.Event)
    requires S.Enabled(s, ev) && S.Next(s, ev).Some? && (ev.Accept? || ev.AcceptAbandoned? || ev.Handshake?)
    requires SameContext(s, ev)
    ensures Silent(s, S.Next(s, ev).value)
  {
    hide DecodeInt, Put, Advance, Endpoint.DebtBytes, GoodEntries;
  }

  /** Other events of the link neither stage nor parse anything. */
  lemma LinkIsSilent(s: S.Session, ev: S.Event)
    requires S.Enabled(s, ev) && S.Next(s, ev).Some? && SameContext(s, ev)
    requires !ev.StageData? && !ev.StageAck? && !ev.Read?
    ensures Silent(s, S.Next(s, ev).value)
  {
    hide DecodeInt, Put, Advance, Endpoint.DebtBytes, GoodEntries;
    if ev.Pay? || ev.Write? {
      WritesAreSilent(s, ev);
    } else if ev.Accept? || ev.AcceptAbandoned? || ev.Handshake? {
      HandshakesAreSilent(s, ev);
    }
  }

  lemma SameContextRemembers(s: S.Session, ev: S.Event)
    requires S.Inv(s) && SameContext(s, ev)
    ensures !S.Forgets(s, ev)
  {
    hide DecodeInt;
  }

  lemma LinkStep(lim: C.Limits, id: int, p: Program, ev: Event)
    requires lim.Sane() && Inv(lim, id, p) && Enabled(lim, id, p, ev) && ev.OnLink?
    ensures Next(lim, id, p, ev).Some? && Inv(lim, id, Next(lim, id, p, ev).value)
  {
    hide S.Inv, C.Inv, S.Next, S.Enabled, S.Forgets, Queue, SameContext;
    SameContextRemembers(p.s, ev.link);
    S.StepInv(p.s, ev.link);
    LinkIsSilent(p.s, ev.link);
  }

  lemma ReadStep(lim: C.Limits, id: int, p: Program, ev: Event)
    requires lim.Sane() && Inv(lim, id, p) && Enabled(lim, id, p, ev) && ev.Read?
    ensures Next(lim, id, p, ev).Some? && Inv(lim, id, Next(lim, id, p, ev).value)
  {
    hide S.Inv, C.Inv, S.Next, S.Enabled, Queue, News, Carries;
    var Read(side, k, ok) := ev;
    S.StepInv(p.s, S.Read(side, k)) by { assert !S.Forgets(p.s, S.Read(side, k)); }
    ReadMoves(p.s, side, k);
    var t := S.Next(p.s, S.Read(side, k)).value;
    S.InvStreams(t);
    var x, y, y' := p.s.Me(side.Other()), p.s.Me(side), t.Me(side);
    CarriesLess(x, y, y', p.l.Incoming(side), id);
    DeliverKeeps(lim, p.l, side, |News(y, y', id)|, ok);
    OtherWay(y, y', x, p.l.Incoming(side.Other()), id);
  }

  lemma OtherWay(y: Endpoint, y': Endpoint, x: Endpoint, q: seq<C.Msg>, id: int)
    requires y'.staged == y.staged && Carries(y, x, q, id)
    ensures Carries(y', x, q, id)
  {
  }

  /** What a client event puts on the link. */
  lemma ClientPosts(lim: C.Limits, l: C.Link, ev: C.Event)
    requires !ev.Receive? && C.Enabled(lim, l, ev) && C.Next(lim, l, ev).Some?
    ensures var l' := C.Next(lim, l, ev).value;
            match ev
            case Send(side, n) =>
              && l'.Incoming(side.Other()) == l.Incoming(side.Other()) + [C.Data(n)]
              && l'.Incoming(side) == l.Incoming(side)
            case Report(side) =>
              && l'.Incoming(side.Other()) == l.Incoming(side.Other()) + [Report(l.Me(side).value)]
              && l'.Incoming(side) == l.Incoming(side)
            case _ => l'.md == l.md && l'.dm == l.dm
  {
  }

  /** A packet has been staged, and the client knows of it. */
  lemma StagedKeeps(lim: C.Limits, id: int, p: Program, side: Side, m: Packet, t: S.Session, l: C.Link)
    requires Inv(lim, id, p) && S.Inv(t) && C.Inv(lim, l)
    requires t.Me(side).staged == p.s.Me(side).staged + [m] && t.Me(side).parsed == p.s.Me(side).parsed
    requires t.Me(side.Other()) == p.s.Me(side.Other())
    requires l.Incoming(side.Other()) == p.l.Incoming(side.Other()) + Messages(m, id)
    requires l.Incoming(side) == p.l.Incoming(side)
    ensures Inv(lim, id, Program(t, l))
  {
    hide S.Inv, C.Inv, Queue, Messages;
    var x, y := p.s.Me(side), p.s.Me(side.Other());
    CarriesMore(x, y, p.l.Incoming(side.Other()), id, m);
  }

  function AckPacket(e: Endpoint, entries: seq<(int, int)>): Packet
    requires e.CanStageAck(entries)
  {
    Message(CONTROL_ID, AckPayload(e.rkarma, entries))
  }

  lemma StageEffect(s: S.Session, side: Side, ev: S.Event)
    requires S.Enabled(s, ev) && S.Next(s, ev).Some?
    requires (ev.StageData? || ev.StageAck?) && ev.side == side
    ensures var t := S.Next(s, ev).value;
            && t.Me(side.Other()) == s.Me(side.Other()) && t.Me(side).parsed == s.Me(side).parsed
            && (ev.StageData? ==> t.Me(side).staged == s.Me(side).staged + [ev.m])
            && (ev.StageAck? ==> s.Me(side).CanStageAck(ev.entries))
            && (ev.StageAck? ==> t.Me(side).staged == s.Me(side).staged + [AckPacket(s.Me(side), ev.entries)])
  {
    hide Encode, AckPayload, GoodEntries;
  }

  lemma SendStep(lim: C.Limits, id: int, p: Program, ev: Event)
    requires lim.Sane() && id > 0 && Inv(lim, id, p) && Enabled(lim, id, p, ev) && ev.Send?
    ensures Next(lim, id, p, ev).Some? && Inv(lim, id, Next(lim, id, p, ev).value)
  {
    hide S.Inv, C.Inv, S.Next, S.Enabled, C.Next, C.Enabled, Queue, Carries;
    var Send(side, m) := ev;
    S.StepInv(p.s, S.StageData(side, m)) by { assert !S.Forgets(p.s, S.StageData(side, m)); }
    StageEffect(p.s, side, S.StageData(side, m));
    var t, l := S.Next(p.s, S.StageData(side, m)).value, p.l;
    if m.id == id {
      C.StepInv(lim, p.l, C.Send(side, |m.payload|));
      ClientPosts(lim, p.l, C.Send(side, |m.payload|));
      l := C.Next(lim, p.l, C.Send(side, |m.payload|)).value;
    } else {
      assert p.l.Incoming(side.Other()) + [] == p.l.Incoming(side.Other());
      assert m.id > 0 by { StagesData(p.s, side, m); }
    }
    StagedKeeps(lim, id, p, side, m, t, l);
  }

  lemma StagesData(s: S.Session, side: Side, m: Packet)
    requires S.Enabled(s, S.StageData(side, m))
    ensures m.id > 0
  {
  }

  lemma AcknowledgeStep(lim: C.Limits, id: int, p: Program, ev: Event)
    requires lim.Sane() && id > 0 && Inv(lim, id, p) && Enabled(lim, id, p, ev) && ev.Acknowledge?
    ensures Next(lim, id, p, ev).Some? && Inv(lim, id, Next(lim, id, p, ev).value)
  {
    hide S.Inv, C.Inv, S.Next, S.Enabled, C.Next, C.Enabled, Queue, Carries, Messages, Spoken, AckPayload;
    var Acknowledge(side, entries) := ev;
    S.StepInv(p.s, S.StageAck(side, entries)) by { assert !S.Forgets(p.s, S.StageAck(side, entries)); }
    StageEffect(p.s, side, S.StageAck(side, entries));
    AckRoundTrip(p.s.Me(side), entries, id);
    var t, l := S.Next(p.s, S.StageAck(side, entries)).value, p.l;
    if Spoken(entries, id) != [] {
      C.StepInv(lim, p.l, C.Report(side));
      ClientPosts(lim, p.l, C.Report(side));
      l := C.Next(lim, p.l, C.Report(side)).value;
    } else {
      assert p.l.Incoming(side.Other()) + [] == p.l.Incoming(side.Other());
    }
    StagedKeeps(lim, id, p, side, AckPacket(p.s.Me(side), entries), t, l);
  }

  lemma ClientStep(lim: C.Limits, id: int, p: Program, ev: Event)
    requires lim.Sane() && Inv(lim, id, p) && Enabled(lim, id, p, ev) && ev.OnClient?
    ensures Next(lim, id, p, ev).Some? && Inv(lim, id, Next(lim, id, p, ev).value)
  {
    hide S.Inv, C.Inv, C.Next, Carries, Queue;
    C.StepInv(lim, p.l, ev.client);
    ClientPosts(lim, p.l, ev.client);
  }

  /** No check of the link and no check of the client fails, and the two stay in step. */
  lemma StepInv(lim: C.Limits, id: int, p: Program, ev: Event)
    requires lim.Sane() && id > 0 && Inv(lim, id, p) && Enabled(lim, id, p, ev)
    ensures Next(lim, id, p, ev).Some? && Inv(lim, id, Next(lim, id, p, ev).value)
  {
    match ev
    case OnLink(_) => LinkStep(lim, id, p, ev);
    case Send(_, _) => SendStep(lim, id, p, ev);
    case Acknowledge(_, _) => AcknowledgeStep(lim, id, p, ev);
    case Read(_, _, _) => ReadStep(lim, id, p, ev);
    case OnClient(_) => ClientStep(lim, id, p, ev);
  }

  // Runs

  ghost predicate Initial(p: Program, n: nat) {
    S.Initial(p.s, n) && p.l == C.Link(None, None, [], [])
  }

  ghost predicate Run(lim: C.Limits, id: int, n: nat, states: seq<Program>, events: seq<Event>) {
    && |states| == |events| + 1 && Initial(states[0], n)
    && forall i :: 0 <= i < |events| ==>
         Enabled(lim, id, states[i], events[i]) && Next(lim, id, states[i], events[i]) == Some(states[i + 1])
  }

  lemma {:induction false} RunInv(lim: C.Limits, id: int, n: nat, states: seq<Program>, events: seq<Event>, k: nat)
    requires lim.Sane() && id > 0 && Run(lim, id, n, states, events) && k <= |events|
    ensures Inv(lim, id, states[k])
    decreases k
  {
    hide S.Inv, C.Inv, Next, Enabled;
    if k == 0 {
      S.InitialInv(states[0].s, n);
      NoClient(lim);
    } else {
      RunInv(lim, id, n, states, events, k - 1);
      assert Enabled(lim, id, states[k - 1], events[k - 1]);
      assert Next(lim, id, states[k - 1], events[k - 1]) == Some(states[k]);
      StepInv(lim, id, states[k - 1], events[k - 1]);
    }
  }

  lemma NoClient(lim: C.Limits)
    ensures C.Inv(lim, C.Link(None, None, [], []))
  {
  }

  /** In every run of the whole program, for every client id: no size field, position or credit of the
      link is refused, no assertion on a client's credit fails, no id is unexpected, and a packet never
      lacks room. */
  lemma NoStepFails(lim: C.Limits, id: int, n: nat, states: seq<Program>, events: seq<Event>, ev: Event)
    requires lim.Sane() && id > 0 && Run(lim, id, n, states, events) && Enabled(lim, id, states[|events|], ev)
    ensures Next(lim, id, states[|events|], ev).Some?
  {
    hide Inv, Next, Enabled;
    RunInv(lim, id, n, states, events, |events|);
    StepInv(lim, id, states[|events|], ev);
  }

  /** And what waits at the client's peer, with the bytes the link still carries for this lifetime of
      the client, always fits the buffer: the packets counted here are those staged and not parsed. */
  lemma RoomForStaged(lim: C.Limits, id: int, n: nat, states: seq<Program>, events: seq<Event>, side: Side)
    requires lim.Sane() && id > 0 && Run(lim, id, n, states, events) && states[|events|].l.Me(side).Some?
    ensures var p := states[|events|];
            var x, y := p.s.Me(side.Other()), p.s.Me(side);
            && |y.parsed| <= |x.staged|
            && p.l.Me(side).value.outSz + C.InFlight(C.Lifetime(Queue(x.staged[|y.parsed|..], id))) <= lim.karma
  {
    hide S.Inv, C.Inv, Next, Enabled, Queue, C.InFlight, C.Lifetime;
    RunInv(lim, id, n, states, events, |events|);
    C.InvRoom(lim, states[|events|].l, side);
  }
}
