/** Flow control of muxstream: two ends multiplex clients over one reliable link; every client may
    have a buffer's worth of bytes unacknowledged, and half a buffer is acknowledged at a time. */
module MuxStreamCredit {

  datatype Packet =
    | Data(id: nat, n: nat)   // body bytes that have not reached the receiver yet
    | Ack(id: nat)            // a packet of length 0

  /** The counters of one end, by client: unacked_bytes, buf_size and received_bytes. */
  datatype End = End(unacked: seq<int>, buffered: seq<int>, received: seq<int>)

  /** `size` is the client buffer, `maxPacket` the largest packet body, `clients` how many there are. */
  datatype Limits = Limits(size: nat, maxPacket: nat, clients: nat)
  {
    predicate Sane() { size > 0 && size % 2 == 0 }

    function Half(): nat { size / 2 }
  }

  /** Packets on the way, the staged one included, oldest first. */
  datatype Link = Link(a: End, b: End, ab: seq<Packet>, ba: seq<Packet>) {
    /** The same link, seen from the other end. */
    function Flip(): Link { Link(b, a, ba, ab) }
  }

  function Fresh(n: nat): End { End(seq(n, _ => 0), seq(n, _ => 0), seq(n, _ => 0)) }

  function Start(lim: Limits): Link { Link(Fresh(lim.clients), Fresh(lim.clients), [], []) }

  /** What the end `a` can do; the same events happen at `b` by symmetry. */
  datatype Event =
    | Stage(id: nat, count: nat)      // a client pushes `count` bytes to the multiplexer
    | Arrive(k: nat)                  // k bytes of the body of the oldest packet from the peer, or an acknowledgment
    | Drain(id: nat, k: nat)          // the client takes k buffered bytes
    | SendAck(id: nat)

  function Min(x: int, y: int): int { if x < y then x else y }

  predicate Enabled(lim: Limits, s: Link, ev: Event) {
    match ev
    case Stage(id, count) => id < lim.clients && |s.a.unacked| == lim.clients
    case Arrive(k) => s.ba != [] && s.ba[0].id < lim.clients && |s.a.buffered| == |s.a.unacked| == lim.clients
                      && (s.ba[0].Data? ==> 0 < k <= s.ba[0].n)
    case Drain(id, k) => id < lim.clients && |s.a.buffered| == |s.a.received| == lim.clients && k <= s.a.buffered[id]
    case SendAck(id) => id < lim.clients && |s.a.received| == lim.clients && s.a.received[id] >= lim.Half()
  }

  datatype Outcome = Fine(s: Link) | AssertFails

  function Next(lim: Limits, s: Link, ev: Event): Outcome
    requires Enabled(lim, s, ev)
  {
    match ev
    case Stage(id, count) =>
      var amt := Min(lim.size - s.a.unacked[id], Min(count, lim.maxPacket));
      if amt < 0 then AssertFails   // the subtraction of unsigned numbers wraps around
      else if amt == 0 then Fine(s)
      else Fine(s.(a := s.a.(unacked := s.a.unacked[id := s.a.unacked[id] + amt]), ab := s.ab + [Data(id, amt)]))
    case Arrive(k) =>
      (match s.ba[0]
       case Data(id, n) =>
         if s.a.buffered[id] + k > lim.size then AssertFails   // muxed streams shouldn't outpace their buffers
         else Fine(s.(a := s.a.(buffered := s.a.buffered[id := s.a.buffered[id] + k]),
                      ba := if k == n then s.ba[1..] else [Data(id, n - k)] + s.ba[1..]))
       case Ack(id) =>
         if s.a.unacked[id] < lim.Half() then AssertFails
         else Fine(s.(a := s.a.(unacked := s.a.unacked[id := s.a.unacked[id] - lim.Half()]), ba := s.ba[1..])))
    case Drain(id, k) =>
      Fine(s.(a := s.a.(buffered := s.a.buffered[id := s.a.buffered[id] - k],
          received := s.a.received[id := s.a.received[id] + k])))
    case SendAck(id) =>
      Fine(s.(a := s.a.(received := s.a.received[id := s.a.received[id] - lim.Half()]), ab := s.ab + [Ack(id)]))
  }

  // Accounting

  function InFlight(q: seq<Packet>, id: nat): nat {
    if q == [] then 0
    else InFlight(q[..|q| - 1], id) + if q[|q| - 1].Data? && q[|q| - 1].id == id then q[|q| - 1].n else 0
  }

  function Acks(q: seq<Packet>, id: nat): nat {
    if q == [] then 0 else Acks(q[..|q| - 1], id) + if q[|q| - 1].Ack? && q[|q| - 1].id == id then 1 else 0
  }

  lemma Appended(q: seq<Packet>, p: Packet, id: nat)
    ensures InFlight(q + [p], id) == InFlight(q, id) + if p.Data? && p.id == id then p.n else 0
    ensures Acks(q + [p], id) == Acks(q, id) + if p.Ack? && p.id == id then 1 else 0
  {
    assert (q + [p])[..|q + [p]| - 1] == q;
  }

  lemma {:induction false} Prepended(q: seq<Packet>, p: Packet, id: nat)
    ensures InFlight([p] + q, id) == InFlight(q, id) + if p.Data? && p.id == id then p.n else 0
    ensures Acks([p] + q, id) == Acks(q, id) + if p.Ack? && p.id == id then 1 else 0
    decreases |q|
  {
    var r := [p] + q;
    if q == [] {
      assert r == [p] && r[..0] == [];
    } else {
      var front := q[..|q| - 1];
      Prepended(front, p, id);
      assert r[..|r| - 1] == [p] + front && r[|r| - 1] == q[|q| - 1];
    }
  }

  ghost predicate Shaped(lim: Limits, e: End) {
    && |e.unacked| == |e.buffered| == |e.received| == lim.clients
    && forall id :: 0 <= id < lim.clients ==> 0 <= e.buffered[id] && 0 <= e.received[id] && e.unacked[id] <= lim.size
  }

  /** What client `id` of one end has not had acknowledged is on the way, in the buffer of the other
      end, taken there but not acknowledged, or acknowledged by packets on the way back. */
  ghost predicate Balanced(lim: Limits, x: End, y: End, xy: seq<Packet>, yx: seq<Packet>, id: nat)
    requires Shaped(lim, x) && Shaped(lim, y) && id < lim.clients
  {
    x.unacked[id] == InFlight(xy, id) + y.buffered[id] + y.received[id] + lim.Half() * Acks(yx, id)
  }

  ghost predicate GoodIds(lim: Limits, q: seq<Packet>) { forall p <- q :: p.id < lim.clients && (p.Data? ==> p.n > 0) }

  ghost predicate Inv(lim: Limits, s: Link) {
    && Shaped(lim, s.a) && Shaped(lim, s.b) && GoodIds(lim, s.ab) && GoodIds(lim, s.ba)
    && forall id :: 0 <= id < lim.clients ==>
        Balanced(lim, s.a, s.b, s.ab, s.ba, id) && Balanced(lim, s.b, s.a, s.ba, s.ab, id)
  }

  lemma FlipInv(lim: Limits, s: Link)
    requires Inv(lim, s)
    ensures Inv(lim, s.Flip())
  {
  }

  lemma Products(h: nat, n: nat)
    ensures h * (n + 1) == h * n + h && h * n >= 0
  {
  }

  /** The front of the queue counts. */
  lemma FrontCounts(q: seq<Packet>)
    requires q != []
    ensures forall id :: InFlight(q, id) == InFlight(q[1..], id) + if q[0].Data? && q[0].id == id then q[0].n else 0
    ensures forall id :: Acks(q, id) == Acks(q[1..], id) + if q[0].Ack? && q[0].id == id then 1 else 0
  {
    forall id: nat
      ensures InFlight(q, id) == InFlight(q[1..], id) + if q[0].Data? && q[0].id == id then q[0].n else 0
      ensures Acks(q, id) == Acks(q[1..], id) + if q[0].Ack? && q[0].id == id then 1 else 0
    {
      assert q == [q[0]] + q[1..];
      Prepended(q[1..], q[0], id);
    }
  }

  lemma AppendedAll(q: seq<Packet>, p: Packet)
    ensures forall id :: InFlight(q + [p], id) == InFlight(q, id) + if p.Data? && p.id == id then p.n else 0
    ensures forall id :: Acks(q + [p], id) == Acks(q, id) + if p.Ack? && p.id == id then 1 else 0
  {
    forall id: nat
      ensures InFlight(q + [p], id) == InFlight(q, id) + if p.Data? && p.id == id then p.n else 0
      ensures Acks(q + [p], id) == Acks(q, id) + if p.Ack? && p.id == id then 1 else 0
    {
      Appended(q, p, id);
    }
  }

  lemma StageKeeps(lim: Limits, s: Link, id: nat, count: nat)
    requires lim.Sane() && Inv(lim, s) && Enabled(lim, s, Stage(id, count))
    ensures Next(lim, s, Stage(id, count)).Fine? && Inv(lim, Next(lim, s, Stage(id, count)).s)
  {
    hide InFlight, Acks;
    var amt := Min(lim.size - s.a.unacked[id], Min(count, lim.maxPacket));
    if amt > 0 { AppendedAll(s.ab, Data(id, amt)); }
    var s' := Next(lim, s, Stage(id, count)).s;
    forall j | 0 <= j < lim.clients
      ensures Balanced(lim, s'.a, s'.b, s'.ab, s'.ba, j) && Balanced(lim, s'.b, s'.a, s'.ba, s'.ab, j)
    {
      assert Balanced(lim, s.a, s.b, s.ab, s.ba, j) && Balanced(lim, s.b, s.a, s.ba, s.ab, j);
    }
  }

  lemma SendAckKeeps(lim: Limits, s: Link, id: nat)
    requires lim.Sane() && Inv(lim, s) && Enabled(lim, s, SendAck(id))
    ensures Next(lim, s, SendAck(id)).Fine? && Inv(lim, Next(lim, s, SendAck(id)).s)
  {
    hide InFlight, Acks;
    AppendedAll(s.ab, Ack(id));
    Products(lim.Half(), Acks(s.ab, id));
    var s' := Next(lim, s, SendAck(id)).s;
    forall j | 0 <= j < lim.clients
      ensures Balanced(lim, s'.a, s'.b, s'.ab, s'.ba, j) && Balanced(lim, s'.b, s'.a, s'.ba, s'.ab, j)
    {
      assert Balanced(lim, s.a, s.b, s.ab, s.ba, j) && Balanced(lim, s.b, s.a, s.ba, s.ab, j);
    }
  }

  lemma DrainKeeps(lim: Limits, s: Link, id: nat, k: nat)
    requires lim.Sane() && Inv(lim, s) && Enabled(lim, s, Drain(id, k))
    ensures Next(lim, s, Drain(id, k)).Fine? && Inv(lim, Next(lim, s, Drain(id, k)).s)
  {
    hide InFlight, Acks;
    var s' := Next(lim, s, Drain(id, k)).s;
    forall j | 0 <= j < lim.clients
      ensures Balanced(lim, s'.a, s'.b, s'.ab, s'.ba, j) && Balanced(lim, s'.b, s'.a, s'.ba, s'.ab, j)
    {
      assert Balanced(lim, s.a, s.b, s.ab, s.ba, j) && Balanced(lim, s.b, s.a, s.ba, s.ab, j);
    }
  }

  /** A body always fits, and an acknowledgment is always covered. */
  lemma ArrivalFits(lim: Limits, s: Link)
    requires lim.Sane() && Inv(lim, s) && s.ba != []
    ensures s.ba[0].id < lim.clients
    ensures s.ba[0].Data? ==> s.a.buffered[s.ba[0].id] + s.ba[0].n <= lim.size
    ensures s.ba[0].Ack? ==> s.a.unacked[s.ba[0].id] >= lim.Half()
  {
    hide InFlight, Acks;
    var p := s.ba[0];
    assert p in s.ba;
    FrontCounts(s.ba);
    Products(lim.Half(), Acks(s.ba[1..], p.id));
    Products(lim.Half(), Acks(s.ab, p.id));
    assert Balanced(lim, s.a, s.b, s.ab, s.ba, p.id) && Balanced(lim, s.b, s.a, s.ba, s.ab, p.id);
  }

  lemma ArriveKeeps(lim: Limits, s: Link, k: nat)
    requires lim.Sane() && Inv(lim, s) && Enabled(lim, s, Arrive(k))
    ensures Next(lim, s, Arrive(k)).Fine? && Inv(lim, Next(lim, s, Arrive(k)).s)
  {
    hide InFlight, Acks;
    ArrivalFits(lim, s);
    FrontCounts(s.ba);
    var p, rest := s.ba[0], s.ba[1..];
    assert forall q <- rest :: q in s.ba;
    assert p in s.ba;
    if p.Ack? {
      Products(lim.Half(), Acks(rest, p.id));
    } else if k < p.n {
      var left := [Data(p.id, p.n - k)] + rest;
      FrontCounts(left);
      assert left[1..] == rest;
    }
    var s' := Next(lim, s, Arrive(k)).s;
    forall j | 0 <= j < lim.clients
      ensures Balanced(lim, s'.a, s'.b, s'.ab, s'.ba, j) && Balanced(lim, s'.b, s'.a, s'.ba, s'.ab, j)
    {
      assert Balanced(lim, s.a, s.b, s.ab, s.ba, j) && Balanced(lim, s.b, s.a, s.ba, s.ab, j);
    }
  }

  lemma NextKeeps(lim: Limits, s: Link, ev: Event)
    requires lim.Sane() && Inv(lim, s) && Enabled(lim, s, ev)
    ensures Next(lim, s, ev).Fine? && Inv(lim, Next(lim, s, ev).s)
  {
    hide Inv, Next, Enabled;
    match ev
    case Stage(id, count) => StageKeeps(lim, s, id, count);
    case Arrive(k) => ArriveKeeps(lim, s, k);
    case Drain(id, k) => DrainKeeps(lim, s, id, k);
    case SendAck(id) => SendAckKeeps(lim, s, id);
  }

  // Runs

  /** An event at the end `a`, or with `other` set at the end `b`. */
  datatype Step = Step(other: bool, ev: Event)

  predicate CanStep(lim: Limits, s: Link, step: Step) { Enabled(lim, if step.other then s.Flip() else s, step.ev) }

  function After(lim: Limits, s: Link, step: Step): Outcome
    requires CanStep(lim, s, step)
  {
    if step.other then
      match Next(lim, s.Flip(), step.ev)
      case Fine(t) => Fine(t.Flip())
      case AssertFails => AssertFails
    else Next(lim, s, step.ev)
  }

  ghost predicate Reachable(lim: Limits, s: Link, steps: seq<Step>)
    decreases |steps|
  {
    if steps == [] then s == Start(lim)
    else
      var last := |steps| - 1;
      exists s0 :: Reachable(lim, s0, steps[..last]) && CanStep(lim, s0, steps[last])
          && After(lim, s0, steps[last]) == Fine(s)
  }

  lemma StartInv(lim: Limits)
    ensures Inv(lim, Start(lim))
  {
  }

  lemma StepKeeps(lim: Limits, s: Link, step: Step)
    requires lim.Sane() && Inv(lim, s) && CanStep(lim, s, step)
    ensures After(lim, s, step).Fine? && Inv(lim, After(lim, s, step).s)
  {
    hide Inv, Next, Enabled;
    if step.other {
      FlipInv(lim, s);
      NextKeeps(lim, s.Flip(), step.ev);
      FlipInv(lim, Next(lim, s.Flip(), step.ev).s);
    } else {
      NextKeeps(lim, s, step.ev);
    }
  }

  lemma {:induction false} ReachableInv(lim: Limits, s: Link, steps: seq<Step>)
    requires lim.Sane() && Reachable(lim, s, steps)
    ensures Inv(lim, s)
    decreases |steps|
  {
    hide Inv, After, CanStep, Start;
    if steps == [] {
      StartInv(lim);
    } else {
      var last := |steps| - 1;
      var s0 :| Reachable(lim, s0, steps[..last]) && CanStep(lim, s0, steps[last]) && After(lim, s0, steps[last])
          == Fine(s);
      ReachableInv(lim, s0, steps[..last]);
      StepKeeps(lim, s0, steps[last]);
    }
  }

  /** No assertion of the multiplexer fails in any run. */
  lemma NoAssertFails(lim: Limits, s: Link, steps: seq<Step>, step: Step)
    requires lim.Sane() && Reachable(lim, s, steps) && CanStep(lim, s, step)
    ensures After(lim, s, step).Fine?
  {
    hide Inv, After, CanStep, Reachable;
    ReachableInv(lim, s, steps);
    StepKeeps(lim, s, step);
  }

  /** unacked_bytes is accounted for, for every client and both directions, in every run. */
  lemma UnackedIsExact(lim: Limits, s: Link, steps: seq<Step>, id: nat)
    requires lim.Sane() && Reachable(lim, s, steps) && id < lim.clients
    ensures |s.a.unacked| == |s.b.unacked| == |s.a.buffered| == |s.b.buffered| == |s.a.received| == |s.b.received|
        == lim.clients
    ensures s.a.unacked[id]
         == InFlight(s.ab, id) + s.b.buffered[id] + s.b.received[id] + lim.Half() * Acks(s.ba, id) <= lim.size
    ensures s.b.unacked[id]
         == InFlight(s.ba, id) + s.a.buffered[id] + s.a.received[id] + lim.Half() * Acks(s.ab, id) <= lim.size
  {
    hide Reachable, InFlight, Acks;
    ReachableInv(lim, s, steps);
    assert Balanced(lim, s.a, s.b, s.ab, s.ba, id) && Balanced(lim, s.b, s.a, s.ba, s.ab, id);
  }

  // Bytes and acknowledgments get through

  /** What a client pushes on a link that carries nothing arrives and can be taken: as many bytes as the
      window, the packet size and the push allow. */
  lemma BytesGetThrough(lim: Limits, s: Link, id: nat, count: nat) returns (t: Link)
    requires lim.Sane() && Inv(lim, s) && s.ab == [] && id < lim.clients
    requires 0 < Min(lim.size - s.a.unacked[id], Min(count, lim.maxPacket))
    ensures var n := Min(lim.size - s.a.unacked[id], Min(count, lim.maxPacket));
            var (stage, arrive) := (Step(false, Stage(id, count)), Step(true, Arrive(n)));
            var drain := Step(true, Drain(id, n));
            && CanStep(lim, s, stage) && After(lim, s, stage).Fine?
            && (var s1 := After(lim, s, stage).s;
                && CanStep(lim, s1, arrive) && After(lim, s1, arrive).Fine?
                && (var s2 := After(lim, s1, arrive).s;
                    && CanStep(lim, s2, drain) && After(lim, s2, drain) == Fine(t)))
            && t == s.(a := s.a.(unacked := s.a.unacked[id := s.a.unacked[id] + n]),
                       b := s.b.(received := s.b.received[id := s.b.received[id] + n]))
  {
    hide Inv, InFlight, Acks;
    InvShaped(lim, s);
    var n := Min(lim.size - s.a.unacked[id], Min(count, lim.maxPacket));
    StepKeeps(lim, s, Step(false, Stage(id, count)));
    var s1 := After(lim, s, Step(false, Stage(id, count))).s;
    InvShaped(lim, s1);
    assert s1.ab == [Data(id, n)] && s1.ab[1..] == [];
    StepKeeps(lim, s1, Step(true, Arrive(n)));
    var s2 := After(lim, s1, Step(true, Arrive(n))).s;
    StepKeeps(lim, s2, Step(true, Drain(id, n)));
    t := After(lim, s2, Step(true, Drain(id, n))).s;
    assert s.b.buffered[id := s.b.buffered[id] + n][id := s.b.buffered[id]] == s.b.buffered;
  }

  /** Half a buffer that has been taken is acknowledged, and may be sent again. */
  lemma CreditComesBack(lim: Limits, s: Link, id: nat) returns (t: Link)
    requires lim.Sane() && Inv(lim, s) && s.ba == [] && id < lim.clients && s.b.received[id] >= lim.Half()
    ensures var (ack, arrive) := (Step(true, SendAck(id)), Step(false, Arrive(0)));
            && CanStep(lim, s, ack) && After(lim, s, ack).Fine?
            && (var s1 := After(lim, s, ack).s;
                && CanStep(lim, s1, arrive) && After(lim, s1, arrive) == Fine(t))
            && t == s.(a := s.a.(unacked := s.a.unacked[id := s.a.unacked[id] - lim.Half()]),
                       b := s.b.(received := s.b.received[id := s.b.received[id] - lim.Half()]))
  {
    hide Inv, InFlight, Acks;
    InvShaped(lim, s);
    StepKeeps(lim, s, Step(true, SendAck(id)));
    var s1 := After(lim, s, Step(true, SendAck(id))).s;
    InvShaped(lim, s1);
    assert s1.ba == [Ack(id)] && s1.ba[1..] == [];
    StepKeeps(lim, s1, Step(false, Arrive(0)));
    t := After(lim, s1, Step(false, Arrive(0))).s;
  }

  lemma InvShaped(lim: Limits, s: Link)
    requires Inv(lim, s)
    ensures Shaped(lim, s.a) && Shaped(lim, s.b)
  {
  }
}
