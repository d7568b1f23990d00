/** How a tcpmux session is lost: runs in which a connection dies behind the key of its handshake. */
module MuxLoss {
  import opened Division
  import opened MuxEndpoint
  import opened MuxRing
  import opened MuxSession
  import opened MuxSides
  import opened MuxWire
  import opened Options

  /** The run goes on with one more event. */
  lemma Extended(n: nat, states: seq<Session>, events: seq<Event>, ev: Event) returns (t: Session)
    requires Run(n, states, events) && Enabled(states[|events|], ev) && Next(states[|events|], ev).Some?
    ensures Next(states[|events|], ev) == Some(t) && Run(n, states + [t], events + [ev])
  {
    hide Next, Enabled, Initial;
    t := Next(states[|events|], ev).value;
    var states', events' := states + [t], events + [ev];
    forall i | 0 <= i < |events'|
      ensures Enabled(states'[i], events'[i]) && Next(states'[i], events'[i]) == Some(states'[i + 1])
    {
      if i < |events| {
        assert Enabled(states[i], events[i]) && Next(states[i], events[i]) == Some(states[i + 1]);
      }
    }
  }

  /** The connection breaks behind the key, and `a` connects once more. */
  lemma HandshakeInterrupted(n: nat, states: seq<Session>, events: seq<Event>)
    returns (states': seq<Session>, events': seq<Event>)
    requires Run(n, states, events)
    ensures Run(n, states', events')
    ensures var s, t := states[|events|], states'[|events'|];
            t == s.(known := false, phase := Waiting, offered := true, bOpen := false, joined := false,
                reply := None, toA := [], toB := [])
  {
    hide Run;
    assert |states| == |events| + 1 by { RunLength(n, states, events); }
    states', events' := states, events;
    states', events' := Step(n, states', events', HangUp(Mux));
    states', events' := Step(n, states', events', Connect);
    states', events' := Step(n, states', events', KeyOnly(true, false));
    states', events' := Step(n, states', events', HangUp(Mux));
    states', events' := Step(n, states', events', Connect);
  }

  lemma RunLength(n: nat, states: seq<Session>, events: seq<Event>)
    requires Run(n, states, events)
    ensures |states| == |events| + 1
  {
  }

  lemma Step(n: nat, states: seq<Session>, events: seq<Event>, ev: Event)
    returns (states': seq<Session>, events': seq<Event>)
    requires Run(n, states, events) && |states| == |events| + 1
    requires Enabled(states[|events|], ev) && Next(states[|events|], ev).Some?
    ensures Run(n, states', events') && |states'| == |events'| + 1
    ensures Some(states'[|events'|]) == Next(states[|events|], ev)
    ensures Remembers(states, events, |events|) && !Forgets(states[|events|], ev) ==>
        Remembers(states', events', |events'|)
  {
    hide Run, Next, Enabled, Forgets;
    var t := Extended(n, states, events, ev);
    states', events' := states + [t], events + [ev];
  }

  /** Wherever `a` has read anything, an interrupted handshake loses the session: the bytes `a` has
      read are not among those its new peer wrote. */
  lemma SessionIsLost(n: nat, states: seq<Session>, events: seq<Event>)
    returns (states': seq<Session>, events': seq<Event>)
    requires Run(n, states, events) && Remembers(states, events, |events|) && states[|events|].a.read != []
    ensures Run(n, states', events') && |states'| == |events'| + 1
    ensures var s, t := states[|events|], states'[|events'|];
            && s.a.Shaped() && s.a.N() == n > 1 && t.a == s.a && t.b == Endpoint.Fresh(n).Resume(s.a.rpos)
            && t.joined && t.bOpen && t.phase == Waiting && t.reply == Some(0) && t.toA == [] && !Streams(t)
  {
    RunInv(n, states, events, |events|);
    RunSize(n, states, events, |events|);
    states', events' := HandshakeInterrupted(n, states, events);
    RunLength(n, states', events');
    hide Run, Remembers;
    assert states[|events|].a.Shaped();
    hide Inv;
    states', events' := Step(n, states', events', Accept);
  }

  lemma {:induction false} RunSize(n: nat, states: seq<Session>, events: seq<Event>, k: nat)
    requires Run(n, states, events) && k <= |events|
    ensures states[k].a.N() == n && n > 1
    decreases k
  {
    if k > 0 {
      RunSize(n, states, events, k - 1);
      assert Next(states[k - 1], events[k - 1]) == Some(states[k]);
      SizeStays(states[k - 1], events[k - 1]);
    }
  }

  lemma SizeStays(s: Session, ev: Event)
    requires Enabled(s, ev) && Next(s, ev).Some?
    ensures Next(s, ev).value.a.N() == s.a.N()
  {
    hide Put, Encode, DecodeInt, AckPayload, AckAmount, GoodEntries, Advance, Endpoint.DebtBytes;
  }

  // What comes of it

  function Zeros(k: nat): (r: seq<Byte>)
    ensures |r| == k
  {
    seq(k, _ => 0)
  }

  lemma ZerosHaveNoSize(rin: seq<Byte>)
    requires rin == Zeros(8)
    ensures SizeField(rin) == 0
  {
  }

  /** The new context owes bytes it never wrote: what its ring holds are zeros. */
  lemma OwesZeros(n: nat, h: nat, k: nat)
    requires 0 < h < n && k <= n - h
    ensures var b := Endpoint.Fresh(n).Resume(h);
            b.Shaped() && 0 < b.debt && k <= |b.DebtBytes()| && b.DebtBytes()[..k] == Zeros(k)
  {
  }

  lemma AnswerIsRead(s: Session)
    requires s.phase == Waiting && s.reply == Some(0) && s.a.Shaped()
    ensures Enabled(s, Handshake) && Next(s, Handshake) == Some(s.(a := s.a.Resume(0), phase := Up, reply := None))
  {
  }

  lemma ZerosArePaid(s: Session, n: nat, h: nat)
    requires 0 < h <= n - 9 && s.bOpen && s.joined && s.b == Endpoint.Fresh(n).Resume(h) && s.toA == []
    ensures Enabled(s, Pay(Demux, 9)) && Next(s, Pay(Demux, 9)) == Some(s.(b := s.b.PayDebt(9), toA := Zeros(9)))
  {
    OwesZeros(n, h, 9);
    hide Endpoint.DebtBytes, Zeros;
    assert [] + Zeros(9) == Zeros(9);
  }

  lemma ZerosAreRefused(s: Session)
    requires s.phase == Up && s.a.Shaped() && s.a.rin == [] && s.toA == Zeros(9)
    ensures Enabled(s, Read(Mux, 8)) && Next(s, Read(Mux, 8)).Some?
    ensures var t := Next(s, Read(Mux, 8)).value; Enabled(t, Read(Mux, 1)) && Next(t, Read(Mux, 1)) == None
  {
    hide DecodeInt, Advance;
    var e := s.a.Take(Zeros(8));
    assert s.toA[..8] == Zeros(8) && e.rin == Zeros(8) by { assert [] + Zeros(8) == Zeros(8); }
    ZerosHaveNoSize(e.rin);
  }

  lemma HasRead(s: Session)
    requires Inv(s) && 0 < s.a.rpos
    ensures s.a.read != []
  {
  }

  /** After an interrupted handshake between two packets, with nine bytes of the ring still to go,
      the new context replays zeros and `a` refuses the packet they would be. */
  lemma PeerGivesUp(n: nat, states: seq<Session>, events: seq<Event>)
    returns (states': seq<Session>, events': seq<Event>)
    requires Run(n, states, events) && Remembers(states, events, |events|)
    requires states[|events|].a.rin == [] && 0 < states[|events|].a.rpos <= n - 9
    ensures Run(n, states', events') && |states'| == |events'| + 1
    ensures Enabled(states'[|events'|], Read(Mux, 1)) && Next(states'[|events'|], Read(Mux, 1)) == None
  {
    hide Inv, Run, Remembers, Streams, Next, Enabled, Zeros, Put, DecodeInt;
    RunLength(n, states, events);
    RunInv(n, states, events, |events|);
    HasRead(states[|events|]);
    var a := states[|events|].a;
    states', events' := SessionIsLost(n, states, events);
    AnswerIsRead(states'[|events'|]);
    states', events' := Step(n, states', events', Handshake);
    ZerosArePaid(states'[|events'|], n, a.rpos);
    states', events' := Step(n, states', events', Pay(Demux, 9));
    ZerosAreRefused(states'[|events'|]);
    states', events' := Step(n, states', events', Read(Mux, 8));
  }

  // Such a run

  const HELLO: Packet := Message(1, [0])

  lemma Hello(e: Endpoint)
    requires e.Shaped() && e.rin == [] && e.rpos + 9 < e.N()
    ensures |Encode(HELLO)| == 9 && e.Wanted() == 8
    ensures var t := e.Take(Encode(HELLO)[..8]);
            && e.Receive(Encode(HELLO)[..8]) == Done(t) && t.Shaped() && t.Wanted() == 1
            && t.Receive(Encode(HELLO)[8..]).Done?
            && t.Receive(Encode(HELLO)[8..]).e.rin == [] && t.Receive(Encode(HELLO)[8..]).e.rpos == e.rpos + 9
  {
    hide DecodeInt, Encode, Advance;
    var bs := Encode(HELLO);
    DecodeEncode(HELLO);
    Near(e.rpos, 8, e.N());
    Near(e.rpos + 8, 1, e.N());
    assert [] + bs[..8] == bs[..8] && bs[..8] + bs[8..] == bs;
    assert bs[..8][4..8] == bs[4..8];
  }

  lemma Near(pos: nat, k: nat, n: nat)
    requires pos + k < n
    ensures Advance(pos, k, n) == pos + k
  {
    ModIs(pos + k, 0, pos + k, n);
  }

  lemma HelloIsWritten(s: Session)
    requires s.bOpen && s.joined && s.toA == [] && s.b.debt == 0 && s.b.wbuf == [] && s.b.Shaped() && s.b.karma >= 9
    ensures Enabled(s, StageData(Demux, HELLO)) && Next(s, StageData(Demux, HELLO)).Some?
    ensures var t := Next(s, StageData(Demux, HELLO)).value;
            && Enabled(t, Write(Demux, 9)) && Next(t, Write(Demux, 9)).Some?
            && var u := Next(t, Write(Demux, 9)).value;
               u.a == s.a && u.phase == s.phase && u.toA == Encode(HELLO)
  {
    hide Put, Advance;
    var bs := Encode(HELLO);
    assert [] + bs[..9] == bs;
  }

  lemma HelloIsRead(s: Session)
    requires s.phase == Up && s.toA == Encode(HELLO) && s.a.Shaped() && s.a.rin == [] && s.a.rpos + 9 < s.a.N()
    ensures Enabled(s, Read(Mux, 8)) && Next(s, Read(Mux, 8)).Some?
    ensures var t := Next(s, Read(Mux, 8)).value;
            && Enabled(t, Read(Mux, 1)) && Next(t, Read(Mux, 1)).Some?
            && Next(t, Read(Mux, 1)).value.a.rin == [] && Next(t, Read(Mux, 1)).value.a.rpos == s.a.rpos + 9
  {
    Hello(s.a);
    hide Encode, Endpoint.Receive, Endpoint.Take, Endpoint.Wanted;
    assert Encode(HELLO)[8..][..1] == Encode(HELLO)[8..];
  }

  lemma Connected(n: nat) returns (states: seq<Session>, events: seq<Event>)
    requires 1 < n <= 0x8000_0000
    ensures Run(n, states, events) && |states| == |events| + 1 && Remembers(states, events, |events|)
    ensures var s := states[|events|];
            && s.a == Endpoint.Fresh(n) && s.b == Endpoint.Fresh(n)
            && s.bOpen && s.joined && s.phase == Up && s.toA == []
  {
    var f := Endpoint.Fresh(n);
    var s0 := Session(f, f, false, Idle, false, false, false, None, [], []);
    var s1 := s0.(phase := Waiting, offered := true);
    var s2 := s1.(known := true, offered := false, bOpen := true, joined := true, reply := Some(0));
    var s3 := s2.(phase := Up, reply := None);
    assert f.Resume(0) == f;
    states, events := [s0, s1, s2, s3], [Connect, Accept, Handshake];
  }

  lemma HelloRun(n: nat) returns (states: seq<Session>, events: seq<Event>)
    requires 18 <= n <= 0x8000_0000
    ensures Run(n, states, events) && |states| == |events| + 1 && Remembers(states, events, |events|)
    ensures states[|events|].a.rin == [] && states[|events|].a.rpos == 9
  {
    states, events := Connected(n);
    hide Run, Remembers, Next, Enabled, Encode, EncodeInt;
    HelloIsWritten(states[|events|]);
    states, events := Step(n, states, events, StageData(Demux, HELLO));
    states, events := Step(n, states, events, Write(Demux, 9));
    HelloIsRead(states[|events|]);
    states, events := Step(n, states, events, Read(Mux, 8));
    states, events := Step(n, states, events, Read(Mux, 1));
  }

  /** The session is really lost in some run, for every ring of at least 18 bytes: one packet is
      read, a handshake is interrupted, and the main loop of `a` gives up. */
  lemma SomeRunGivesUp(n: nat) returns (states: seq<Session>, events: seq<Event>)
    requires 18 <= n <= 0x8000_0000
    ensures Run(n, states, events) && |states| == |events| + 1
    ensures Enabled(states[|events|], Read(Mux, 1)) && Next(states[|events|], Read(Mux, 1)) == None
  {
    hide Run, Remembers, Next, Enabled;
    states, events := HelloRun(n);
    states, events := PeerGivesUp(n, states, events);
  }
}
