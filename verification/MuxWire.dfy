/** Virtual packets of tcpmux as they travel on the link: a four-byte id and a four-byte size in
    network order, then the payload.  Id -1 marks a control packet whose payload starts with the
    number of link bytes it acknowledges. */
module MuxWire {

  type Byte = b: int | 0 <= b < 256

  const HEADER: nat := 8
  const VPACKETSIZE: nat := 1024
  const CONTROL_ID: int := -1

  datatype Message = Message(id: int, payload: seq<Byte>)

  predicate IsInt32(v: int) { -0x8000_0000 <= v < 0x8000_0000 }

  predicate WellFormed(m: Message) {
    && IsInt32(m.id)
    && 0 < |m.payload| <= VPACKETSIZE
    && (m.id == CONTROL_ID ==> 4 <= |m.payload|)
  }

  type Packet = m: Message | WellFormed(m) witness Message(0, [0])

  function EncodeInt(v: int): (s: seq<Byte>)
    requires IsInt32(v)
    ensures |s| == 4
  {
    var u := if v < 0 then v + 0x1_0000_0000 else v;
    [u / 0x100_0000, u / 0x1_0000 % 256, u / 256 % 256, u % 256]
  }

  function DecodeInt(s: seq<Byte>): int
    requires |s| == 4
  {
    var u: int := s[0] as int * 0x100_0000 + s[1] as int * 0x1_0000 + s[2] as int * 256 + s[3] as int;
    if u >= 0x8000_0000 then u - 0x1_0000_0000 else u
  }

  lemma IntRoundTrip(v: int)
    requires IsInt32(v)
    ensures DecodeInt(EncodeInt(v)) == v
  {
    var u := if v < 0 then v + 0x1_0000_0000 else v;
    assert u / 256 / 256 == u / 0x1_0000 && u / 0x1_0000 / 256 == u / 0x100_0000;
  }

  /** Network order: the first byte is the most significant one. */
  lemma NetworkOrder(v: int)
    requires IsInt32(v)
    ensures var s := EncodeInt(v);
            s[0] as int * 0x100_0000 + s[1] as int * 0x1_0000 + s[2] as int * 0x100 + s[3] as int
              == if v < 0 then v + 0x1_0000_0000 else v
  {
    IntRoundTrip(v);
  }

  function Encode(m: Packet): (s: seq<Byte>)
    ensures |s| == HEADER + |m.payload|
  {
    EncodeInt(m.id) + EncodeInt(|m.payload|) + m.payload
  }

  /** What a stream of packets looks like on the link. */
  function EncodeAll(ms: seq<Packet>): seq<Byte>
  {
    if ms == [] then [] else EncodeAll(ms[..|ms| - 1]) + Encode(ms[|ms| - 1])
  }

  /** The size field of a packet whose header has been read. */
  function SizeField(rin: seq<Byte>): int
    requires |rin| >= HEADER
  {
    DecodeInt(rin[4..8])
  }

  function Decode(rin: seq<Byte>): Message
    requires |rin| >= HEADER
  {
    Message(DecodeInt(rin[..4]), rin[HEADER..])
  }

  lemma EncodeAllSnoc(ms: seq<Packet>, m: Packet)
    ensures EncodeAll(ms + [m]) == EncodeAll(ms) + Encode(m)
  {
    assert (ms + [m])[..|ms + [m]| - 1] == ms;
  }

  lemma {:induction false} EncodeAllSplit(a: seq<Packet>, b: seq<Packet>)
    ensures EncodeAll(a + b) == EncodeAll(a) + EncodeAll(b)
    decreases |b|
  {
    if b == [] {
      assert a + b == a;
    } else {
      var front, last := b[..|b| - 1], b[|b| - 1];
      assert a + b == (a + front) + [last] && b == front + [last];
      calc {
        EncodeAll(a + b);
        { EncodeAllSnoc(a + front, last); }
        EncodeAll(a + front) + Encode(last);
        { EncodeAllSplit(a, front); }
        EncodeAll(a) + EncodeAll(front) + Encode(last);
        EncodeAll(a) + (EncodeAll(front) + Encode(last));
        { EncodeAllSnoc(front, last); }
        EncodeAll(a) + EncodeAll(b);
      }
    }
  }

  lemma DecodeEncode(m: Packet)
    ensures Decode(Encode(m)) == m
    ensures SizeField(Encode(m)) == |m.payload|
  {
    IntRoundTrip(m.id);
    IntRoundTrip(|m.payload|);
    var s := Encode(m);
    assert s[..4] == EncodeInt(m.id) && s[4..8] == EncodeInt(|m.payload|) && s[HEADER..] == m.payload;
  }

  /** Where the parts of a packet stand. */
  lemma PacketLayout(m: Packet)
    ensures var s := Encode(m);
            && |s| == 8 + |m.payload| && s[..4] == EncodeInt(m.id) && s[4..8] == EncodeInt(|m.payload|)
            && s[8..] == m.payload
  {
    hide EncodeInt;
  }

  lemma OnePacket(m: Packet)
    ensures EncodeAll([m]) == Encode(m)
  {
    hide Encode;
    EncodeAllSnoc([], m);
    assert [] + [m] == [m] && EncodeAll([]) == [] && [] + Encode(m) == Encode(m);
  }

  lemma FirstPacket(ms: seq<Packet>)
    requires ms != []
    ensures EncodeAll(ms) == Encode(ms[0]) + EncodeAll(ms[1..])
  {
    hide Encode, EncodeAll;
    OnePacket(ms[0]);
    EncodeAllSplit([ms[0]], ms[1..]);
    assert ms == [ms[0]] + ms[1..];
  }

  /** The packet boundary can be found from any prefix of the encoded stream that covers the
      header, and what is cut out there is the next packet that was sent. */
  lemma NextPacket(ms: seq<Packet>, rin: seq<Byte>)
    requires |rin| >= HEADER && rin <= EncodeAll(ms)
    ensures ms != [] && SizeField(rin) == |ms[0].payload|
    ensures |rin| == HEADER + SizeField(rin) ==> rin == Encode(ms[0]) && Decode(rin) == ms[0]
  {
    hide Encode, DecodeInt;
    var all := EncodeAll(ms);
    assert ms != [];
    FirstPacket(ms);
    DecodeEncode(ms[0]);
    hide EncodeAll;
    var first := Encode(ms[0]);
    assert rin[4..8] == all[4..8] == first[4..8];
    if |rin| == HEADER + SizeField(rin) {
      assert rin == all[..|rin|] == first;
    }
  }

  // Control packets

  function AckPayload(amount: int, entries: seq<(int, int)>): (s: seq<Byte>)
    requires IsInt32(amount) && forall e <- entries :: IsInt32(e.0) && IsInt32(e.1)
    ensures |s| == 4 + 8 * |entries|
    decreases |entries|
  {
    if entries == [] then EncodeInt(amount)
    else
      var e := entries[|entries| - 1];
      AckPayload(amount, entries[..|entries| - 1]) + EncodeInt(e.0) + EncodeInt(e.1)
  }

  /** Where the parts of an acknowledgment stand. */
  lemma {:induction false} AckLayout(amount: int, entries: seq<(int, int)>, i: nat)
    requires IsInt32(amount) && (forall e <- entries :: IsInt32(e.0) && IsInt32(e.1)) && i < |entries|
    ensures var s := AckPayload(amount, entries); var at := 4 + 8 * i;
            && s[..4] == EncodeInt(amount)
            && s[at..at + 4] == EncodeInt(entries[i].0) && s[at + 4..at + 8] == EncodeInt(entries[i].1)
    decreases |entries|
  {
    hide EncodeInt;
    var last := |entries| - 1;
    var front, e := AckPayload(amount, entries[..last]), entries[last];
    var s := AckPayload(amount, entries);
    assert s == front + EncodeInt(e.0) + EncodeInt(e.1);
    if i < last {
      AckLayout(amount, entries[..last], i);
      var at := 4 + 8 * i;
      assert s[at..at + 4] == front[at..at + 4] && s[at + 4..at + 8] == front[at + 4..at + 8];
    } else {
      LastEntry(front, EncodeInt(e.0), EncodeInt(e.1));
    }
    AckStart(amount, entries);
  }

  lemma LastEntry(front: seq<Byte>, a: seq<Byte>, b: seq<Byte>)
    requires |a| == |b| == 4
    ensures var s, n := front + a + b, |front|; s[n..n + 4] == a && s[n + 4..n + 8] == b
  {
  }

  lemma {:induction false} AckStart(amount: int, entries: seq<(int, int)>)
    requires IsInt32(amount) && forall e <- entries :: IsInt32(e.0) && IsInt32(e.1)
    ensures AckPayload(amount, entries)[..4] == EncodeInt(amount)
    decreases |entries|
  {
    hide EncodeInt;
    if entries != [] {
      AckStart(amount, entries[..|entries| - 1]);
      assert AckPayload(amount, entries)[..4] == AckPayload(amount, entries[..|entries| - 1])[..4];
    }
  }

  /** Link bytes a packet gives back to its receiver. */
  function AckAmount(m: Packet): int
  {
    if m.id == CONTROL_ID then DecodeInt(m.payload[..4]) else 0
  }

  lemma {:induction false} AckAmountOf(amount: int, entries: seq<(int, int)>)
    requires IsInt32(amount) && forall e <- entries :: IsInt32(e.0) && IsInt32(e.1)
    requires 4 + 8 * |entries| <= VPACKETSIZE
    ensures AckAmount(Message(CONTROL_ID, AckPayload(amount, entries))) == amount
    decreases |entries|
  {
    if entries == [] {
      IntRoundTrip(amount);
      assert AckPayload(amount, entries)[..4] == EncodeInt(amount);
    } else {
      AckAmountOf(amount, entries[..|entries| - 1]);
      assert AckPayload(amount, entries)[..4] == AckPayload(amount, entries[..|entries| - 1])[..4];
    }
  }

  function AckSum(ms: seq<Packet>): int
  {
    if ms == [] then 0 else AckAmount(ms[0]) + AckSum(ms[1..])
  }

  lemma {:induction false} AckSumAppend(ms: seq<Packet>, m: Packet)
    ensures AckSum(ms + [m]) == AckSum(ms) + AckAmount(m)
    decreases |ms|
  {
    if ms == [] {
      assert ms + [m] == [m] && [m][1..] == [];
    } else {
      assert (ms + [m])[1..] == ms[1..] + [m];
      AckSumAppend(ms[1..], m);
    }
  }
}
