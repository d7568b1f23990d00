/** The decoding side of the key-stream proxy: the loop of decode, and the buffer that keeps what a
    chunk leaves over. */
module KeyStreamRelay {
  import opened KeyStreamFrames

  /** Codec.decode; `diff` is the number of bytes at the end of `data` that it has not used. */
  method DecodeData(keys: seq<seq<Octet>>, data: seq<Octet>) returns (result: seq<Octet>, diff: nat, errors: nat)
    requires forall key <- keys :: |key| >= 8
    ensures var d := Decode(keys, data); result == d.result && errors == d.errors
    ensures diff <= |data| && data[|data| - diff..] == Decode(keys, data).rest
  {
    hide Parse;
    result, errors := [], 0;
    var rest := data;
    while |rest| > 16
      invariant |rest| <= |data| && rest == data[|data| - |rest|..]
      invariant var d := Decode(keys, rest); Decode(keys, data) == Decoded(result + d.result, d.rest, d.errors)
      decreases |rest|
    {
      match Parse(keys, rest) {
        case NoKey =>
          return result, 0, 1;
        case Incomplete =>
          return result, |rest|, 2;
        case OutOfKey =>
          return result, |rest|, 3;
        case Piece(plain, size) =>
          ghost var d := Decode(keys, rest[size..]);
          assert result + (plain + d.result) == (result + plain) + d.result;
          result := result + plain;
          rest := rest[size..];
      }
    }
    diff := |rest|;
  }

  class Channel {
    const keys: seq<seq<Octet>>
    var buffer: seq<Octet>
    ghost var out: seq<Octet>

    constructor (keys: seq<seq<Octet>>)
      ensures this.keys == keys && buffer == [] && out == []
    {
      this.keys, buffer, out := keys, [], [];
    }

    /** relay_data for a chunk that arrives from the encoding side. */
    method RelayData(chunk: seq<Octet>) returns (result: seq<Octet>)
      requires forall key <- keys :: |key| >= 8
      modifies this
      ensures Relay(out, buffer) == Receive(keys, Relay(old(out), old(buffer)), chunk)
      ensures out == old(out) + result
    {
      hide Decode;
      var data := chunk;
      if |buffer| > 0 {
        data := buffer + data;
      }
      assert data == buffer + chunk;
      var diff, errors;
      result, diff, errors := DecodeData(keys, data);
      buffer := if diff > 0 then data[|data| - diff..] else [];
      out := out + result;
    }
  }
}
