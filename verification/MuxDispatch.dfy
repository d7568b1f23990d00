/** From packets on a link to the messages of one client: what mainr hands to a client, and the
    order in which it does so. */
module MuxDispatch {
  import opened MuxWire
  import opened MuxEndpoint
  import opened MuxSession
  import opened MuxSides
  import C = MuxClients

  /** The client entries of a control packet, behind its first word. */
  function Entries(words: seq<Byte>): seq<(int, int)>
  {
    if |words| < 8 then [] else [(DecodeInt(words[..4]), DecodeInt(words[4..8]))] + Entries(words[8..])
  }

  /** What entries say to one client: an amount acknowledged, or a goodbye. */
  function Spoken(entries: seq<(int, int)>, id: int): seq<C.Msg>
  {
    if entries == [] then []
    else
      var (who, karma) := entries[0];
      (if who != id then [] else if karma >= 0 then [C.Ack(karma)] else [C.Bye]) + Spoken(entries[1..], id)
  }

  /** What a packet says to one client. */
  function Messages(m: Packet, id: int): seq<C.Msg> {
    if m.id == CONTROL_ID then Spoken(Entries(m.payload[4..]), id)
    else if m.id == id then [C.Data(|m.payload|)]
    else []
  }

  function Queue(ms: seq<Packet>, id: int): seq<C.Msg> {
    if ms == [] then [] else Messages(ms[0], id) + Queue(ms[1..], id)
  }

  function Concat(entries: seq<(int, int)>): seq<Byte>
    requires GoodEntries(entries)
  {
    if entries == [] then [] else EncodeInt(entries[0].0) + EncodeInt(entries[0].1) + Concat(entries[1..])
  }

  lemma {:induction false} ConcatSnoc(entries: seq<(int, int)>, e: (int, int))
    requires GoodEntries(entries + [e])
    ensures GoodEntries(entries) && Concat(entries + [e]) == Concat(entries) + EncodeInt(e.0) + EncodeInt(e.1)
    decreases |entries|
  {
    hide EncodeInt;
    if entries == [] {
      assert entries + [e] == [e] && [e][1..] == [];
    } else {
      assert (entries + [e])[1..] == entries[1..] + [e];
      ConcatSnoc(entries[1..], e);
    }
  }

  lemma {:induction false} AckPayloadIsConcat(amount: int, entries: seq<(int, int)>)
    requires IsInt32(amount) && GoodEntries(entries)
    ensures AckPayload(amount, entries) == EncodeInt(amount) + Concat(entries)
    decreases |entries|
  {
    hide EncodeInt;
    if entries != [] {
      var front, last := entries[..|entries| - 1], entries[|entries| - 1];
      assert entries == front + [last];
      AckPayloadIsConcat(amount, front);
      ConcatSnoc(front, last);
    }
  }

  lemma {:induction false} EntriesOfConcat(entries: seq<(int, int)>)
    requires GoodEntries(entries)
    ensures Entries(Concat(entries)) == entries
    decreases |entries|
  {
    if entries != [] {
      var (who, karma) := entries[0];
      IntRoundTrip(who);
      IntRoundTrip(karma);
      EntriesOfConcat(entries[1..]);
      hide EncodeInt, DecodeInt;
      var a, b, rest := EncodeInt(who), EncodeInt(karma), Concat(entries[1..]);
      var words := a + b + rest;
      assert words[..4] == a && words[4..8] == b && words[8..] == rest;
    }
  }

  /** read_ack finds exactly the entries write_ack put in, in the same order. */
  lemma AckRoundTrip(e: Endpoint, entries: seq<(int, int)>, id: int)
    requires e.CanStageAck(entries)
    ensures Messages(Message(CONTROL_ID, AckPayload(e.rkarma, entries)), id) == Spoken(entries, id)
  {
    AckPayloadIsConcat(e.rkarma, entries);
    EntriesOfConcat(entries);
    hide EncodeInt, DecodeInt;
    assert AckPayload(e.rkarma, entries)[4..] == Concat(entries);
  }

  lemma {:induction false} QueueSplit(a: seq<Packet>, b: seq<Packet>, id: int)
    ensures Queue(a + b, id) == Queue(a, id) + Queue(b, id)
    decreases |a|
  {
    if a == [] {
      assert a + b == b;
    } else {
      assert (a + b)[1..] == a[1..] + b;
      QueueSplit(a[1..], b, id);
    }
  }

  /** For every client: what it has been told so far, followed by what is still under way, is
      everything the other endpoint ever said to it, in that order, however often the connection
      broke in between. */
  lemma ClientQueuesAreFifo(n: nat, states: seq<Session>, events: seq<Event>, side: Side, id: int)
    requires Run(n, states, events) && Remembers(states, events, |events|)
    ensures var x, y := states[|events|].Me(side), states[|events|].Me(side.Other());
            && |y.parsed| <= |x.staged|
            && Queue(y.parsed, id) + Queue(x.staged[|y.parsed|..], id) == Queue(x.staged, id)
  {
    hide Inv, Queue;
    RunInv(n, states, events, |events|);
    InvStreams(states[|events|]);
    var x, y := states[|events|].Me(side), states[|events|].Me(side.Other());
    QueueSplit(y.parsed, x.staged[|y.parsed|..], id);
    assert y.parsed + x.staged[|y.parsed|..] == x.staged;
  }
}
