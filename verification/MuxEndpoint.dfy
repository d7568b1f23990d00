/** One end of a tcpmux link: the state that survives a lost connection, and what every operation
    of the main loop does to it.  `Endpoint` is the state as a value; `MuxContext` is the object
    that the main loop updates in place, and its methods are proved to perform these steps. */
module MuxEndpoint {
  import opened MuxRing
  import opened MuxWire

  predicate GoodEntries(entries: seq<(int, int)>) { forall e <- entries :: IsInt32(e.0) && IsInt32(e.1) }

  datatype Endpoint = Endpoint(
    ring: seq<Byte>,        // the last |ring| bytes written to the link
    karma: int,             // bytes that may still be written before an acknowledgment
    pos: nat,               // ring position behind the last byte written
    debt: nat,              // newest bytes that must be written again
    wbuf: seq<Byte>,        // what is left of the staged packet
    rpos: nat,              // position of the last byte read, in the peer's ring
    rkarma: int,            // bytes read but not yet acknowledged
    rin: seq<Byte>,         // the packet that is being read
    // history, never looked at by the operations
    sent: seq<Byte>,        // every byte accepted by write_mainfd
    staged: seq<Packet>,    // every packet staged for writing
    read: seq<Byte>,        // every byte taken by the packet parser
    parsed: seq<Packet>)    // every packet the parser delivered
  {
    function N(): nat { |ring| }

    /** make_context: everything zero, full credit. */
    static function Fresh(n: nat): Endpoint {
      Endpoint(seq(n, _ => 0), n - 1, 0, 0, [], 0, 0, [], [], [], [], [])
    }

    predicate Shaped() { pos < N() && rpos < N() && debt <= N() }

    // Writing

    /** Stage one packet of client data. */
    function Stage(m: Packet): Endpoint {
      this.(wbuf := Encode(m), staged := staged + [m])
    }

    predicate CanStageAck(entries: seq<(int, int)>) {
      && 0 <= rkarma < 0x8000_0000
      && 4 + 8 * |entries| <= VPACKETSIZE
      && GoodEntries(entries)
    }

    /** write_ack: acknowledge everything read so far, with some client entries behind it. */
    function StageAck(entries: seq<(int, int)>): Endpoint
      requires CanStageAck(entries)
    {
      Stage(Message(CONTROL_ID, AckPayload(rkarma, entries))).(rkarma := 0)
    }

    /** write_mainfd: the link took `k` bytes of the staged packet. */
    function WriteNew(k: nat): Endpoint
      requires Shaped() && k <= |wbuf|
    {
      this.(ring := Put(ring, pos, wbuf[..k]), pos := Advance(pos, k, N()), karma := karma - k,
            wbuf := wbuf[k..], sent := sent + wbuf[..k])
    }

    /** The bytes offered to the link next while there is debt. */
    function DebtBytes(): seq<Byte>
      requires Shaped() && debt > 0
    {
      var (start, len) := DebtRun(pos, debt, N());
      ring[start..start + len]
    }

    function PayDebt(k: nat): Endpoint
      requires k <= debt
    {
      this.(debt := debt - k)
    }

    /** The peer reported having read up to its position `h`. */
    function Resume(h: nat): Endpoint
      requires Shaped() && h < N()
    {
      this.(debt := if pos < h then pos - h + N() else pos - h)
    }

    // Reading

    /** How many bytes the parser asks the link for; nothing for a header with a bad size. */
    function Wanted(): int
    {
      if |rin| < HEADER then HEADER - |rin|
      else if 0 < SizeField(rin) <= VPACKETSIZE then HEADER + SizeField(rin) - |rin|
      else 0
    }

    /** The link handed over `bs`, no more than wanted. */
    function Take(bs: seq<Byte>): Endpoint
      requires Shaped()
    {
      this.(rin := rin + bs, rpos := Advance(rpos, |bs|, N()), rkarma := rkarma + |bs|, read := read + bs)
    }

    /** The parser is still waiting for bytes of the current packet. */
    predicate Partial() { |rin| < HEADER || |rin| < HEADER + SizeField(rin) }

    predicate PacketComplete() { |rin| > HEADER && |rin| == HEADER + SizeField(rin) }

    /** A complete packet leaves the parser; a control packet gives credit back. */
    function Deliver(): Outcome
      requires PacketComplete()
    {
      var m := Decode(rin);
      if !WellFormed(m) then Failed
      else
        var karma' := karma + AckAmount(m);
        if m.id == CONTROL_ID && !(0 <= karma' <= N()) then Failed
        else Done(this.(rin := [], karma := karma', parsed := parsed + [m]))
    }

    /** mainr: one read of at most the wanted size, and the packet it completes. */
    function Receive(bs: seq<Byte>): Outcome
      requires Shaped() && 0 < |bs| <= Wanted()
    {
      var e := Take(bs);
      if e.PacketComplete() then e.Deliver() else Done(e)
    }
  }

  datatype Outcome = Done(e: Endpoint) | Failed
}
