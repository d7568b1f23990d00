/** One multiplexed client of tcpmux, seen from both endpoints: its credit in each direction, its
    disconnect handshake, and the reuse of its id for later clients.  The two queues are the
    client's messages on the link, which delivers them in order (see MuxSession). */
module MuxClients {
  import opened MuxSides
  import opened Options

  datatype Limits = Limits(karma: int, threshold: int)   // CLIENT_KARMA, ACK_THRESHOLD
  {
    predicate Sane() { 0 < threshold <= karma }
  }

  datatype Msg = Data(n: int) | Ack(k: int) | Bye   // Bye is an acknowledgment of -1

  /** client_data: what an endpoint knows about the client. */
  datatype Client = Client(
    open: bool,     // the local socket is alive
    rdead: bool,    // the peer has said goodbye, the answer is still to be sent
    wkarma: int,    // bytes that may still be sent
    rkarma: int,    // bytes to acknowledge, or -1 for a goodbye
    outSz: int,     // bytes waiting for the local socket
    queued: bool)   // on the list of clients to acknowledge
  {
    /** set_rkarma */
    function SetRKarma(t: int, r: int): Client {
      var noqueue := 0 <= rkarma < t;
      this.(rkarma := r, queued := queued || (noqueue && (r == -1 || t <= r)))
    }

    /** disconnect_client */
    function Disconnect(t: int): Client {
      this.(open := false).SetRKarma(t, -1)
    }

    /** `n` waiting bytes have gone to the local socket. */
    function Drain(t: int, n: int): Client {
      this.(outSz := outSz - n).SetRKarma(t, rkarma + n)
    }

    predicate SaidBye() { !open && rkarma == 0 }
  }

  datatype Link = Link(m: Option<Client>, d: Option<Client>, md: seq<Msg>, dm: seq<Msg>)
  {
    function Me(side: Side): Option<Client> { if side == Mux then m else d }

    function Incoming(side: Side): seq<Msg> { if side == Mux then dm else md }

    function With(side: Side, c: Option<Client>): Link {
      if side == Mux then this.(m := c) else this.(d := c)
    }

    function Post(side: Side, msg: Msg): Link {
      if side == Mux then this.(md := md + [msg]) else this.(dm := dm + [msg])
    }

    function Pop(side: Side): Link
      requires Incoming(side) != []
    {
      if side == Mux then this.(dm := dm[1..]) else this.(md := md[1..])
    }
  }

  datatype Event =
    | Accept                        // a new connection at the mux takes this free id
    | Send(side: Side, n: int)      // `n` bytes read from the local socket and staged
    | Drain(side: Side, n: int)     // `n` bytes written to the local socket
    | HangUp(side: Side)            // the local socket is lost
    | Report(side: Side)            // write_ack reaches this client
    | Receive(side: Side, ok: bool) // next message; `ok`: a connection it opens does not fail at once

  predicate Enabled(lim: Limits, s: Link, ev: Event) {
    match ev
    case Accept => s.m.None?
    case Send(side, n) => s.Me(side).Some? && s.Me(side).value.open && 0 < n <= s.Me(side).value.wkarma
    case Drain(side, n) => s.Me(side).Some? && s.Me(side).value.open && 0 < n <= s.Me(side).value.outSz
    case HangUp(side) => s.Me(side).Some? && s.Me(side).value.open
    case Report(side) => s.Me(side).Some? && s.Me(side).value.queued
    case Receive(side, ok) => s.Incoming(side) != []
  }

  /** get_client on the demux side: an unknown id is a new client. */
  function Born(t: int, ok: bool): Client {
    var c := Client(true, false, 0, 0, 0, false);
    if ok then c else c.Disconnect(t)
  }

  /** One packet or acknowledgment entry reaches an endpoint; nothing when there is no room for it. */
  function Arrive(lim: Limits, c: Client, msg: Msg): Option<Option<Client>> {
    match msg
    case Data(n) =>
      if lim.karma - c.outSz < n then None else Some(Some(c.(outSz := c.outSz + n)))
    case Ack(k) => Some(Some(c.(wkarma := c.wkarma + k)))
    case Bye =>
      if c.open then Some(Some(c.(rdead := true).Disconnect(lim.threshold)))
      else if c.rkarma == 0 then Some(None)
      else Some(Some(c.(rdead := true)))
  }

  /** The state after an event, or nothing when an assertion fails or the main loop gives up. */
  function Next(lim: Limits, s: Link, ev: Event): Option<Link>
    requires Enabled(lim, s, ev)
  {
    match ev
    case Accept =>
      Some(s.(m := Some(Client(true, false, lim.karma, 0, 0, false).SetRKarma(lim.threshold, lim.karma))))
    case Send(side, n) =>
      var c := s.Me(side).value;
      Some(s.With(side, Some(c.(wkarma := c.wkarma - n))).Post(side, Data(n)))
    case Drain(side, n) =>
      var c := s.Me(side).value;
      Some(s.With(side, Some(c.Drain(lim.threshold, n))))
    case HangUp(side) => Some(s.With(side, Some(s.Me(side).value.Disconnect(lim.threshold))))
    case Report(side) =>
      var c := s.Me(side).value;
      if !(c.rkarma == -1 || lim.threshold <= c.rkarma <= lim.karma) || (c.rdead && c.rkarma != -1) then None
      else
        var msg := if c.rkarma == -1 then Bye else Ack(c.rkarma);
        Some(s.With(side, if c.rdead then None else Some(c.(rkarma := 0, queued := false))).Post(side, msg))
    case Receive(side, ok) =>
      var msg := s.Incoming(side)[0];
      if side == Mux && s.m.None? then
        if msg.Data? then None else Some(s.Pop(side))
      else
        var c := if s.Me(side).None? then Born(lim.threshold, ok) else s.Me(side).value;
        var r := Arrive(lim, c, msg);
        if r.None? then None else Some(s.With(side, r.value).Pop(side))
  }

  // The invariant

  function InFlight(q: seq<Msg>): int {
    if q == [] then 0 else (if q[0].Data? then q[0].n else 0) + InFlight(q[1..])
  }

  function Acks(q: seq<Msg>): int {
    if q == [] then 0 else (if q[0].Ack? then q[0].k else 0) + Acks(q[1..])
  }

  predicate Positive(q: seq<Msg>) {
    forall x <- q :: (x.Data? ==> 0 < x.n) && (x.Ack? ==> 0 < x.k)
  }

  /** No goodbye, or one goodbye at the very end. */
  predicate Ends(q: seq<Msg>, bye: bool) {
    && (forall i :: 0 <= i < |q| - 1 ==> q[i] != Bye)
    && (bye <==> q != [] && q[|q| - 1] == Bye)
  }

  function Pos(x: int): int { if x < 0 then 0 else x }

  ghost predicate Ok(lim: Limits, c: Client) {
    && 0 <= c.wkarma && 0 <= c.outSz && -1 <= c.rkarma
    && (c.rkarma == -1 ==> !c.open)
    && (!c.open ==> c.rkarma <= 0)
    && (c.rdead ==> c.rkarma == -1)
    && (c.queued <==> c.rkarma == -1 || lim.threshold <= c.rkarma)
  }

  /** Credit of the bytes `x` sends to `y` in one lifetime of the client: what `x` may still send,
      what is under way, what waits at `y`, what `y` has yet to acknowledge and the
      acknowledgments under way.  None is lost as long as `y` is connected. */
  ghost predicate Credit(lim: Limits, x: Client, y: Client, xy: seq<Msg>, yx: seq<Msg>) {
    var sum := x.wkarma + InFlight(xy) + y.outSz + Pos(y.rkarma) + Acks(yx);
    sum <= lim.karma && (y.open ==> sum == lim.karma)
  }

  /** Both endpoints know the client. */
  ghost predicate Both(lim: Limits, m: Client, d: Client, md: seq<Msg>, dm: seq<Msg>) {
    && Ok(lim, m) && Ok(lim, d) && Positive(md) && Positive(dm)
    && Credit(lim, m, d, md, dm) && Credit(lim, d, m, dm, md)
    && Ends(md, m.SaidBye() && !d.rdead) && (d.rdead ==> m.SaidBye() && md == [])
    && Ends(dm, d.SaidBye() && !m.rdead) && (m.rdead ==> d.SaidBye() && dm == [])
  }

  /** Only the mux knows the client yet. */
  ghost predicate Unborn(lim: Limits, m: Client, md: seq<Msg>) {
    && Ok(lim, m) && Positive(md) && !m.rdead && Ends(md, m.SaidBye())
    && m.wkarma + InFlight(md) == lim.karma
    && (var sum := m.outSz + Pos(m.rkarma) + Acks(md); sum <= lim.karma && (m.open ==> sum == lim.karma))
  }

  /** One endpoint has forgotten the client; the other has said goodbye and is owed one. */
  ghost predicate Left(lim: Limits, c: Client, q: seq<Msg>) {
    && Ok(lim, c) && c.SaidBye() && Positive(q) && Ends(q, true)
    && c.outSz + InFlight(q) <= lim.karma
  }

  ghost predicate Inv(lim: Limits, s: Link) {
    match (s.m, s.d)
    case (Some(m), Some(d)) =>
      || Both(lim, m, d, s.md, s.dm)
      || (s.dm == [] && exists i :: 0 <= i <= |s.md| && Left(lim, d, s.md[..i]) && Unborn(lim, m, s.md[i..]))
    case (Some(m), None) => (s.dm == [] && Unborn(lim, m, s.md)) || (s.md == [] && Left(lim, m, s.dm))
    case (None, Some(d)) => s.dm == [] && Left(lim, d, s.md)
    case (None, None) => s.md == [] && s.dm == []
  }

  // Queues

  lemma {:induction false} Appended(q: seq<Msg>, msg: Msg)
    ensures InFlight(q + [msg]) == InFlight(q) + if msg.Data? then msg.n else 0
    ensures Acks(q + [msg]) == Acks(q) + if msg.Ack? then msg.k else 0
    decreases |q|
  {
    if q == [] {
      assert q + [msg] == [msg] && [msg][1..] == [];
    } else {
      assert (q + [msg])[1..] == q[1..] + [msg];
      Appended(q[1..], msg);
    }
  }

  lemma NonNegative(q: seq<Msg>)
    requires Positive(q)
    ensures 0 <= InFlight(q) && 0 <= Acks(q)
  {
  }

  lemma Headed(q: seq<Msg>)
    requires Positive(q) && q != []
    ensures Positive(q[1..]) && 0 <= InFlight(q[1..]) && 0 <= Acks(q[1..])
  {
    NonNegative(q[1..]);
  }

  // Steps between two endpoints that both know the client

  lemma BothSend(lim: Limits, x: Client, y: Client, xy: seq<Msg>, yx: seq<Msg>, n: int)
    requires lim.Sane() && Both(lim, x, y, xy, yx) && x.open && 0 < n <= x.wkarma
    ensures Both(lim, x.(wkarma := x.wkarma - n), y, xy + [Data(n)], yx)
  {
    Appended(xy, Data(n));
  }

  lemma BothDrain(lim: Limits, x: Client, y: Client, xy: seq<Msg>, yx: seq<Msg>, n: int)
    requires lim.Sane() && Both(lim, x, y, xy, yx) && x.open && 0 < n <= x.outSz
    ensures Both(lim, x.Drain(lim.threshold, n), y, xy, yx)
  {
  }

  lemma BothHangUp(lim: Limits, x: Client, y: Client, xy: seq<Msg>, yx: seq<Msg>)
    requires lim.Sane() && Both(lim, x, y, xy, yx) && x.open
    ensures Both(lim, x.Disconnect(lim.threshold), y, xy, yx)
  {
  }

  lemma BothReport(lim: Limits, x: Client, y: Client, xy: seq<Msg>, yx: seq<Msg>)
    requires lim.Sane() && Both(lim, x, y, xy, yx) && x.queued
    ensures x.rkarma == -1 || lim.threshold <= x.rkarma <= lim.karma
    ensures var msg := if x.rkarma == -1 then Bye else Ack(x.rkarma);
            if x.rdead then msg == Bye && yx == [] && Left(lim, y, xy + [msg])
            else Both(lim, x.(rkarma := 0, queued := false), y, xy + [msg], yx)
  {
    var msg := if x.rkarma == -1 then Bye else Ack(x.rkarma);
    Appended(xy, msg);
    NonNegative(xy);
    NonNegative(yx);
  }

  lemma BothReceive(lim: Limits, x: Client, y: Client, xy: seq<Msg>, yx: seq<Msg>)
    requires lim.Sane() && Both(lim, x, y, xy, yx) && xy != []
    ensures var r := Arrive(lim, y, xy[0]);
            && r.Some?
            && if r.value.None? then xy[1..] == [] && Left(lim, x, yx) else Both(lim, x, r.value.value, xy[1..], yx)
  {
    Headed(xy);
    NonNegative(yx);
    if xy[0] == Bye {
      assert |xy| == 1;
    }
  }

  lemma BothSymmetric(lim: Limits, x: Client, y: Client, xy: seq<Msg>, yx: seq<Msg>)
    ensures Both(lim, x, y, xy, yx) == Both(lim, y, x, yx, xy)
  {
  }

  // Steps while the demux does not know the client yet

  lemma UnbornIsBoth(lim: Limits, m: Client, md: seq<Msg>, ok: bool)
    requires lim.Sane() && Unborn(lim, m, md)
    ensures Both(lim, m, Born(lim.threshold, ok), md, [])
  {
  }

  lemma UnbornStep(lim: Limits, s: Link, m: Client, q: seq<Msg>, ev: Event)
    requires lim.Sane() && Unborn(lim, m, q) && Enabled(lim, Link(Some(m), None, q, []), ev)
    requires ev.Send? || ev.Drain? || ev.HangUp? || ev.Report?
    ensures var r := Next(lim, Link(Some(m), None, q, []), ev);
            r.Some? && r.value.m.Some? && r.value.d.None? && r.value.dm == []
            && q <= r.value.md && Unborn(lim, r.value.m.value, r.value.md)
  {
    NonNegative(q);
    match ev
    case Send(_, n) => Appended(q, Data(n));
    case Report(_) => Appended(q, if m.rkarma == -1 then Bye else Ack(m.rkarma));
    case _ =>
  }

  lemma LeftReceive(lim: Limits, c: Client, q: seq<Msg>)
    requires lim.Sane() && Left(lim, c, q)
    ensures q != [] && Arrive(lim, c, q[0]).Some?
    ensures var r := Arrive(lim, c, q[0]).value;
            if r.None? then q[1..] == [] else Left(lim, r.value, q[1..])
  {
    Headed(q);
  }

  // Every step

  /** Both endpoints know the client: whatever the mux does, they stay in step. */
  lemma BothStepMux(lim: Limits, s: Link, m: Client, d: Client, ev: Event)
    requires lim.Sane() && s.m == Some(m) && s.d == Some(d) && Both(lim, m, d, s.md, s.dm) && Enabled(lim, s, ev)
    requires !ev.Accept? && ev.side == Mux
    ensures Next(lim, s, ev).Some? && Inv(lim, Next(lim, s, ev).value)
  {
    hide Both, Left;
    match ev
    case Send(_, n) => BothSend(lim, m, d, s.md, s.dm, n);
    case Drain(_, n) => BothDrain(lim, m, d, s.md, s.dm, n);
    case HangUp(_) => BothHangUp(lim, m, d, s.md, s.dm);
    case Report(_) => BothReport(lim, m, d, s.md, s.dm);
    case Receive(_, _) =>
      BothSymmetric(lim, m, d, s.md, s.dm);
      BothReceive(lim, d, m, s.dm, s.md);
      var r := Arrive(lim, m, s.dm[0]).value;
      if r.Some? { BothSymmetric(lim, r.value, d, s.md, s.dm[1..]); }
  }

  lemma BothStepDemux(lim: Limits, s: Link, m: Client, d: Client, ev: Event)
    requires lim.Sane() && s.m == Some(m) && s.d == Some(d) && Both(lim, m, d, s.md, s.dm) && Enabled(lim, s, ev)
    requires !ev.Accept? && ev.side == Demux
    ensures Next(lim, s, ev).Some? && Inv(lim, Next(lim, s, ev).value)
  {
    hide Both, Left;
    BothSymmetric(lim, m, d, s.md, s.dm);
    match ev
    case Send(_, n) =>
      BothSend(lim, d, m, s.dm, s.md, n);
      BothSymmetric(lim, d.(wkarma := d.wkarma - n), m, s.dm + [Data(n)], s.md);
    case Drain(_, n) =>
      BothDrain(lim, d, m, s.dm, s.md, n);
      BothSymmetric(lim, d.Drain(lim.threshold, n), m, s.dm, s.md);
    case HangUp(_) =>
      BothHangUp(lim, d, m, s.dm, s.md);
      BothSymmetric(lim, d.Disconnect(lim.threshold), m, s.dm, s.md);
    case Report(_) =>
      BothReport(lim, d, m, s.dm, s.md);
      BothSymmetric(lim, d.(rkarma := 0, queued := false), m,
                    s.dm + [if d.rkarma == -1 then Bye else Ack(d.rkarma)], s.md);
    case Receive(_, _) => BothReceive(lim, m, d, s.md, s.dm);
  }

  lemma LeftIsSilent(lim: Limits, c: Client, q: seq<Msg>)
    requires lim.Sane() && Left(lim, c, q)
    ensures !c.open && !c.queued && q != []
  {
  }

  /** The mux has given the id to a new client while the demux still waits for the goodbye of the
      old one: the two lifetimes do not mix. */
  ghost predicate Overlap(lim: Limits, s: Link, m: Client, d: Client, i: nat) {
    && s.m == Some(m) && s.d == Some(d) && s.dm == [] && i <= |s.md|
    && Left(lim, d, s.md[..i]) && Unborn(lim, m, s.md[i..])
  }

  lemma OverlapReceive(lim: Limits, s: Link, m: Client, d: Client, i: nat, ok: bool)
    requires lim.Sane() && Overlap(lim, s, m, d, i)
    ensures s.md != [] && Next(lim, s, Receive(Demux, ok)).Some? && Inv(lim, Next(lim, s, Receive(Demux, ok)).value)
  {
    var old', new' := s.md[..i], s.md[i..];
    LeftReceive(lim, d, old');
    LeftIsSilent(lim, d, old');
    hide Unborn, Arrive, Both, Left;
    var s' := Next(lim, s, Receive(Demux, ok)).value;
    assert s'.md[..i - 1] == old'[1..] && s'.md[i - 1..] == new';
  }

  /** What the mux does depends neither on the demux nor on what is queued before. */
  lemma MuxActsAlone(lim: Limits, s: Link, d: Option<Client>, before: seq<Msg>, ev: Event)
    requires (ev.Send? || ev.Drain? || ev.HangUp? || ev.Report?) && ev.side == Mux && Enabled(lim, s, ev)
    requires Next(lim, s, ev).Some?
    ensures var s2 := s.(d := d, md := before + s.md);
            Enabled(lim, s2, ev) && Next(lim, s2, ev).Some?
            && var r := Next(lim, s, ev).value; Next(lim, s2, ev).value == r.(d := d, md := before + r.md)
  {
    match ev
    case Send(_, n) => assert before + (s.md + [Data(n)]) == (before + s.md) + [Data(n)];
    case Report(_) =>
      var msg := if s.m.value.rkarma == -1 then Bye else Ack(s.m.value.rkarma);
      assert before + (s.md + [msg]) == (before + s.md) + [msg];
    case _ =>
  }

  lemma OverlapStep(lim: Limits, s: Link, m: Client, d: Client, i: nat, ev: Event)
    requires lim.Sane() && Overlap(lim, s, m, d, i) && Enabled(lim, s, ev)
    ensures Next(lim, s, ev).Some? && Inv(lim, Next(lim, s, ev).value)
  {
    LeftIsSilent(lim, d, s.md[..i]);
    hide Left, Unborn, Both;
    if ev.Receive? {
      OverlapReceive(lim, s, m, d, i, ev.ok);
    } else {
      var old', new' := s.md[..i], s.md[i..];
      assert s.md == old' + new';
      var alone := Link(Some(m), None, new', []);
      UnbornStep(lim, s, m, new', ev);
      MuxActsAlone(lim, alone, Some(d), old', ev);
      assert alone.(d := Some(d), md := old' + new') == s;
      var r := Next(lim, alone, ev).value;
      hide Next;
      assert (old' + r.md)[..i] == old' && (old' + r.md)[i..] == r.md;
    }
  }

  /** Every event keeps the invariant; "No room for incoming packet", an unexpected id and the
      assertions on the credit to acknowledge never happen. */
  lemma StepInv(lim: Limits, s: Link, ev: Event)
    requires lim.Sane() && Inv(lim, s) && Enabled(lim, s, ev)
    ensures Next(lim, s, ev).Some? && Inv(lim, Next(lim, s, ev).value)
  {
    match (s.m, s.d)
    case (Some(m), Some(d)) =>
      if Both(lim, m, d, s.md, s.dm) {
        if ev.side == Mux { BothStepMux(lim, s, m, d, ev); } else { BothStepDemux(lim, s, m, d, ev); }
      } else {
        var i :| 0 <= i <= |s.md| && Left(lim, d, s.md[..i]) && Unborn(lim, m, s.md[i..]);
        assert Overlap(lim, s, m, d, i);
        OverlapStep(lim, s, m, d, i, ev);
      }
    case (Some(m), None) =>
      if s.dm == [] && Unborn(lim, m, s.md) {
        if ev.Receive? {
          var d := Born(lim.threshold, ev.ok);
          UnbornIsBoth(lim, m, s.md, ev.ok);
          BothStepDemux(lim, s.(d := Some(d)), m, d, ev);
        } else {
          UnbornStep(lim, s, m, s.md, ev);
        }
      } else {
        LeftReceive(lim, m, s.dm);
      }
    case (None, Some(d)) =>
      if ev.Accept? {
        var m := Next(lim, s, ev).value.m.value;
        assert s.md[..|s.md|] == s.md && s.md[|s.md|..] == [];
        assert Unborn(lim, m, []);
      } else {
        LeftReceive(lim, d, s.md);
      }
    case (None, None) =>
  }

  ghost predicate Reachable(lim: Limits, s: Link, events: seq<Event>)
    decreases |events|
  {
    if events == [] then s == Link(None, None, [], [])
    else
      var front, last := events[..|events| - 1], events[|events| - 1];
      exists p: Link :: Reachable(lim, p, front) && Enabled(lim, p, last) && Next(lim, p, last) == Some(s)
  }

  lemma {:induction false} ReachableInv(lim: Limits, s: Link, events: seq<Event>)
    requires lim.Sane() && Reachable(lim, s, events)
    ensures Inv(lim, s)
    decreases |events|
  {
    if events != [] {
      var front, last := events[..|events| - 1], events[|events| - 1];
      var p: Link :| Reachable(lim, p, front) && Enabled(lim, p, last) && Next(lim, p, last) == Some(s);
      ReachableInv(lim, p, front);
      StepInv(lim, p, last);
    }
  }

  /** No run of any number of lifetimes of an id ends in an abort. */
  lemma NoStepFails(lim: Limits, s: Link, events: seq<Event>, ev: Event)
    requires lim.Sane() && Reachable(lim, s, events) && Enabled(lim, s, ev)
    ensures Next(lim, s, ev).Some?
  {
    ReachableInv(lim, s, events);
    StepInv(lim, s, ev);
  }

  /** A queue cut behind its first goodbye: what is left of one lifetime. */
  function Lifetime(q: seq<Msg>): seq<Msg> {
    if q == [] then [] else if q[0] == Bye then [Bye] else [q[0]] + Lifetime(q[1..])
  }

  lemma {:induction false} LifetimeIs(q: seq<Msg>, i: nat)
    requires i <= |q| && Ends(q[..i], true)
    ensures Lifetime(q) == q[..i]
    decreases |q|
  {
    assert q[..i][0] == q[0];
    if i > 1 {
      assert q[..i][1..] == q[1..][..i - 1];
      assert q[..i][0] != Bye;
      var t, u := q[..i], q[1..][..i - 1];
      forall k | 0 <= k < i - 2 ensures u[k] != Bye { assert u[k] == t[k + 1]; }
      LifetimeIs(q[1..], i - 1);
      assert q[..i] == [q[0]] + q[1..][..i - 1];
    }
  }

  /** Whatever is under way to an endpoint that knows the client fits its buffer, together with
      what is waiting there already: the rest of this lifetime, before any later one. */
  lemma InvRoom(lim: Limits, s: Link, side: Side)
    requires Inv(lim, s) && s.Me(side).Some?
    ensures 0 <= s.Me(side).value.outSz
    ensures s.Me(side).value.outSz + InFlight(Lifetime(s.Incoming(side))) <= lim.karma
  {
    match (s.m, s.d)
    case (Some(m), Some(d)) =>
      if Both(lim, m, d, s.md, s.dm) {
        BothRoom(lim, m, d, s.md, s.dm);
        BothRoom(lim, d, m, s.dm, s.md);
      } else {
        var i :| 0 <= i <= |s.md| && Left(lim, d, s.md[..i]) && Unborn(lim, m, s.md[i..]);
        LifetimeIs(s.md, i);
        NonNegative(s.md[i..]);
      }
    case (Some(m), None) =>
      if s.dm != [] {
        assert s.dm[..|s.dm|] == s.dm;
        LifetimeIs(s.dm, |s.dm|);
      } else {
        NonNegative(s.md);
      }
    case (None, Some(d)) =>
      assert s.md[..|s.md|] == s.md;
      LifetimeIs(s.md, |s.md|);
    case (None, None) =>
  }

  lemma AlwaysRoom(lim: Limits, s: Link, events: seq<Event>, side: Side)
    requires lim.Sane() && Reachable(lim, s, events) && s.Me(side).Some?
    ensures 0 <= s.Me(side).value.outSz
    ensures s.Me(side).value.outSz + InFlight(Lifetime(s.Incoming(side))) <= lim.karma
  {
    hide Inv, InFlight, Lifetime;
    ReachableInv(lim, s, events);
    InvRoom(lim, s, side);
  }

  lemma BothRoom(lim: Limits, x: Client, y: Client, xy: seq<Msg>, yx: seq<Msg>)
    requires Both(lim, x, y, xy, yx)
    ensures Lifetime(xy) == xy && y.outSz + InFlight(xy) <= lim.karma
  {
    NonNegative(yx);
    assert xy[..|xy|] == xy;
    if xy != [] && xy[|xy| - 1] == Bye {
      LifetimeIs(xy, |xy|);
    } else {
      NoBye(xy);
    }
  }

  lemma {:induction false} NoBye(q: seq<Msg>)
    requires Ends(q, false)
    ensures Lifetime(q) == q
    decreases |q|
  {
    if q != [] {
      if |q| > 1 { assert q[|q| - 1] == q[1..][|q| - 2]; }
      NoBye(q[1..]);
    }
  }

  /** While both sides are connected no credit is missing: what the sender may send, what is under
      way, what waits at the receiver and what is being acknowledged add up to the full credit. */
  lemma FullCredit(lim: Limits, s: Link, events: seq<Event>)
    requires lim.Sane() && Reachable(lim, s, events)
    requires s.m.Some? && s.m.value.open && s.d.Some? && s.d.value.open
    ensures var m, d := s.m.value, s.d.value;
            && m.wkarma + InFlight(s.md) + d.outSz + d.rkarma + Acks(s.dm) == lim.karma
            && d.wkarma + InFlight(s.dm) + m.outSz + m.rkarma + Acks(s.md) == lim.karma
  {
    ReachableInv(lim, s, events);
  }

  // Bytes and credit get through

  /** A client that both ends know, with its sockets open and nothing on the way to `side`'s peer. */
  ghost predicate Talking(lim: Limits, s: Link, side: Side) {
    && Inv(lim, s) && s.m.Some? && s.d.Some? && s.m.value.open && s.d.value.open
    && s.Incoming(side.Other()) == []
  }

  /** Bytes staged at one end are handed to the socket of the other end, which then owes an acknowledgment
      for them and asks to send it from the threshold on. */
  lemma BytesGetThrough(lim: Limits, s: Link, side: Side, n: int, ok: bool) returns (t: Link)
    requires lim.Sane() && Talking(lim, s, side) && 0 < n <= s.Me(side).value.wkarma
    ensures Enabled(lim, s, Send(side, n)) && Next(lim, s, Send(side, n)).Some?
    ensures var s1 := Next(lim, s, Send(side, n)).value;
            && Enabled(lim, s1, Receive(side.Other(), ok)) && Next(lim, s1, Receive(side.Other(), ok)).Some?
            && (var s2 := Next(lim, s1, Receive(side.Other(), ok)).value;
                Enabled(lim, s2, Drain(side.Other(), n)) && Next(lim, s2, Drain(side.Other(), n)) == Some(t))
    ensures Talking(lim, t, side) && t.Incoming(side) == s.Incoming(side)
    ensures var x, y := s.Me(side).value, s.Me(side.Other()).value;
            && t.Me(side) == Some(x.(wkarma := x.wkarma - n))
            && t.Me(side.Other()) == Some(y.(rkarma := y.rkarma + n, queued := lim.threshold <= y.rkarma + n))
  {
    hide Inv;
    StepInv(lim, s, Send(side, n));
    var s1 := Next(lim, s, Send(side, n)).value;
    OpenIsOk(lim, s, side.Other());
    StepInv(lim, s1, Receive(side.Other(), ok));
    var s2 := Next(lim, s1, Receive(side.Other(), ok)).value;
    OpenIsOk(lim, s2, side.Other());
    StepInv(lim, s2, Drain(side.Other(), n));
    t := Next(lim, s2, Drain(side.Other(), n)).value;
    OpenIsOk(lim, t, side.Other());
    OpenIsOk(lim, t, side);
  }

  lemma OpenIsOk(lim: Limits, s: Link, side: Side)
    requires lim.Sane() && Inv(lim, s) && s.m.Some? && s.d.Some? && s.Me(side).value.open
    ensures var c := s.Me(side).value;
            && 0 <= c.rkarma && 0 <= c.outSz && !c.rdead && (c.queued <==> lim.threshold <= c.rkarma)
  {
  }

  /** An acknowledgment gives the sender as much credit as the receiver owed. */
  lemma CreditGetsThrough(lim: Limits, s: Link, side: Side, ok: bool) returns (t: Link)
    requires lim.Sane() && Talking(lim, s, side) && s.Me(side).value.queued
    ensures Enabled(lim, s, Report(side)) && Next(lim, s, Report(side)).Some?
    ensures var s1 := Next(lim, s, Report(side)).value;
            Enabled(lim, s1, Receive(side.Other(), ok)) && Next(lim, s1, Receive(side.Other(), ok)) == Some(t)
    ensures Talking(lim, t, side) && t.Incoming(side) == s.Incoming(side)
    ensures var x, y := s.Me(side).value, s.Me(side.Other()).value;
            && t.Me(side) == Some(x.(rkarma := 0, queued := false))
            && t.Me(side.Other()) == Some(y.(wkarma := y.wkarma + x.rkarma))
  {
    hide Inv;
    OpenIsOk(lim, s, side);
    StepInv(lim, s, Report(side));
    var s1 := Next(lim, s, Report(side)).value;
    StepInv(lim, s1, Receive(side.Other(), ok));
    t := Next(lim, s1, Receive(side.Other(), ok)).value;
  }
}
