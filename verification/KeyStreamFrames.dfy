/** The frames of the key-stream codec: an 8-byte key number, a position in that key, a length, and
    that many bytes xored with the key from the position on.  Numbers are little-endian. */
module KeyStreamFrames {
  import opened Butterfly
  import opened XorIndex

  type Octet = b: int | 0 <= b < 256

  // Exclusive or of bytes

  lemma ByteRange()
    ensures PowerOfTwo(256)
  {
    assert Doubled(256, 128) && Doubled(256, 64) && Doubled(256, 32) && Doubled(256, 16);
    assert Doubled(256, 8) && Doubled(256, 4) && Doubled(256, 2);
  }

  function XorOctet(a: Octet, b: Octet): Octet {
    ByteRange();
    XorHigh(a, b, false, false, 256);
    XorNat(a, b)
  }

  lemma {:induction false} XorNatTwice(a: nat, b: nat)
    ensures XorNat(XorNat(a, b), b) == a
    decreases a + b
  {
    if a == 0 && b == 0 {
    } else {
      XorNatTwice(a / 2, b / 2);
      XorStep(a, b);
      XorStep(XorNat(a, b), b);
    }
  }

  /** `data` xored with the key from `pos` on. */
  function XorWith(data: seq<Octet>, key: seq<Octet>, pos: nat): (r: seq<Octet>)
    requires pos + |data| <= |key|
    ensures |r| == |data|
  {
    seq(|data|, i requires 0 <= i < |data| => XorOctet(data[i], key[pos + i]))
  }

  lemma XorWithTwice(data: seq<Octet>, key: seq<Octet>, pos: nat)
    requires pos + |data| <= |key|
    ensures XorWith(XorWith(data, key, pos), key, pos) == data
  {
    var r := XorWith(XorWith(data, key, pos), key, pos);
    forall i | 0 <= i < |data| ensures r[i] == data[i] { XorNatTwice(data[i], key[pos + i]); }
  }

  // Numbers

  const LIMIT: nat := 0x1_0000_0000

  function Pack(v: nat): (s: seq<Octet>)
    requires v < LIMIT
    ensures |s| == 4
  {
    var u: int := v;
    [u % 256, u / 256 % 256, u / 0x1_0000 % 256, u / 0x100_0000]
  }

  function Unpack(s: seq<Octet>): (v: nat)
    requires |s| == 4
    ensures v < LIMIT
  {
    s[0] as int + s[1] as int * 256 + s[2] as int * 0x1_0000 + s[3] as int * 0x100_0000
  }

  lemma UnpackPack(v: nat)
    requires v < LIMIT
    ensures Unpack(Pack(v)) == v
  {
    assert v / 256 / 256 == v / 0x1_0000 && v / 0x1_0000 / 256 == v / 0x100_0000;
  }

  // Frames

  datatype Frame = Frame(num: seq<Octet>, pos: nat, payload: seq<Octet>)

  /** The key number of a key: its first 8 bytes. */
  function Num(key: seq<Octet>): (n: seq<Octet>)
    requires |key| >= 8
    ensures |n| == 8
  {
    key[..8]
  }

  ghost predicate GoodKeys(keys: seq<seq<Octet>>) {
    && (forall key <- keys :: 8 <= |key| < LIMIT)
    && (forall i, j :: 0 <= i < j < |keys| ==> Num(keys[i]) != Num(keys[j]))
  }

  /** The frame uses a range inside one of the keys. */
  predicate InRange(keys: seq<seq<Octet>>, f: Frame) {
    |f.num| == 8 && |f.payload| > 0 &&
    exists i :: 0 <= i < |keys| && 8 <= |keys[i]| < LIMIT && f.num == Num(keys[i]) && f.pos + |f.payload| <= |keys[i]|
  }

  function Wire(f: Frame): (s: seq<Octet>)
    requires |f.num| == 8 && f.pos < LIMIT && |f.payload| < LIMIT
    ensures |s| == 16 + |f.payload|
  {
    f.num + Pack(f.pos) + Pack(|f.payload|) + f.payload
  }

  // What stands on the wire, byte by byte

  /** One frame: the key number, the position and the length, least significant byte first, and every
      byte of `data` exclusive-ored with the byte of the key that far behind the position. */
  ghost predicate Enciphers(wire: seq<Octet>, key: seq<Octet>, pos: nat, data: seq<Octet>) {
    && |key| >= 8 && pos + |data| <= |key| && |wire| == 16 + |data|
    && (forall i :: 0 <= i < 8 ==> wire[i] == key[i])
    && wire[8] as int + 0x100 * wire[9] as int + 0x1_0000 * wire[10] as int + 0x100_0000 * wire[11] as int == pos
    && wire[12] as int + 0x100 * wire[13] as int + 0x1_0000 * wire[14] as int + 0x100_0000 * wire[15] as int == |data|
    && (forall i :: 0 <= i < |data| ==> wire[16 + i] as int == XorNat(data[i], key[pos + i]))
  }

  /** Frames, one behind the other, that encipher `data` with some of the keys. */
  ghost predicate Ciphertext(keys: seq<seq<Octet>>, wire: seq<Octet>, data: seq<Octet>)
    decreases |data|
  {
    if data == [] then wire == []
    else exists k: nat, pos: nat, n: nat :: CiphertextFrom(keys, wire, data, k, pos, n)
  }

  ghost predicate CiphertextFrom(keys: seq<seq<Octet>>, wire: seq<Octet>, data: seq<Octet>, k: nat, pos: nat, n: nat)
    decreases |data|, 0
  {
    && k < |keys| && 0 < n <= |data| && 16 + n <= |wire|
    && Enciphers(wire[..16 + n], keys[k], pos, data[..n]) && Ciphertext(keys, wire[16 + n..], data[n..])
  }

  lemma PackedBytes(v: nat)
    requires v < LIMIT
    ensures var s := Pack(v);
            s[0] as int + 0x100 * s[1] as int + 0x1_0000 * s[2] as int + 0x100_0000 * s[3] as int == v
  {
    UnpackPack(v);
  }

  lemma WireEnciphers(key: seq<Octet>, pos: nat, data: seq<Octet>)
    requires |key| >= 8 && pos + |data| <= |key| < LIMIT
    ensures Enciphers(Wire(Frame(Num(key), pos, XorWith(data, key, pos))), key, pos, data)
  {
    hide Pack, XorNat;
    PackedBytes(pos);
    PackedBytes(|data|);
    var payload := XorWith(data, key, pos);
    var wire := Wire(Frame(Num(key), pos, payload));
    WireFields(Frame(Num(key), pos, payload), []);
    assert wire + [] == wire;
    assert wire[..8] == key[..8];
    forall i | 0 <= i < 4 ensures wire[8 + i] == Pack(pos)[i] && wire[12 + i] == Pack(|data|)[i] {
      assert wire[8..12][i] == wire[8 + i] && wire[12..16][i] == wire[12 + i];
    }
    forall i | 0 <= i < |data| ensures wire[16 + i] as int == XorNat(data[i], key[pos + i]) {
      assert wire[16..16 + |data|][i] == wire[16 + i];
    }
  }

  ghost predicate AllInRange(keys: seq<seq<Octet>>, fs: seq<Frame>) {
    forall f <- fs :: InRange(keys, f)
  }

  lemma Packable(keys: seq<seq<Octet>>, f: Frame)
    requires InRange(keys, f)
    ensures |f.num| == 8 && f.pos < LIMIT && 0 < |f.payload| < LIMIT
  {
  }

  ghost function WireAll(keys: seq<seq<Octet>>, fs: seq<Frame>): seq<Octet>
    requires AllInRange(keys, fs)
  {
    if fs == [] then []
    else
      Packable(keys, fs[0]);
      Wire(fs[0]) + WireAll(keys, fs[1..])
  }

  /** get_key_by_num: the first key with that number. */
  function FindKey(keys: seq<seq<Octet>>, num: seq<Octet>, from: nat): (i: nat)
    requires from <= |keys| && forall key <- keys :: |key| >= 8
    ensures from <= i <= |keys| && (i < |keys| ==> Num(keys[i]) == num)
    ensures forall j :: from <= j < i ==> Num(keys[j]) != num
    decreases |keys| - from
  {
    if from == |keys| then from
    else if Num(keys[from]) == num then from
    else FindKey(keys, num, from + 1)
  }

  lemma FindKeyIs(keys: seq<seq<Octet>>, i: nat)
    requires GoodKeys(keys) && i < |keys|
    ensures FindKey(keys, Num(keys[i]), 0) == i
  {
  }

  // Decoding

  datatype Decoded = Decoded(result: seq<Octet>, rest: seq<Octet>, errors: nat)

  datatype Parsed = Incomplete | NoKey | OutOfKey | Piece(plain: seq<Octet>, size: nat)

  /** What the loop of decode finds at the front of its data.  A position outside the key is an
      IndexError in the source. */
  function Parse(keys: seq<seq<Octet>>, data: seq<Octet>): (p: Parsed)
    requires (forall key <- keys :: |key| >= 8) && |data| > 16
    ensures p.Piece? ==> 16 <= p.size <= |data|
  {
    var i := FindKey(keys, data[..8], 0);
    var pos, count := Unpack(data[8..12]), Unpack(data[12..16]);
    if i == |keys| then NoKey
    else if count > |data| - 16 then Incomplete
    else if pos + count > |keys[i]| then OutOfKey
    else Piece(XorWith(data[16..16 + count], keys[i], pos), 16 + count)
  }

  function Decode(keys: seq<seq<Octet>>, data: seq<Octet>): Decoded
    requires forall key <- keys :: |key| >= 8
    decreases |data|
  {
    if |data| <= 16 then Decoded([], data, 0)
    else
      match Parse(keys, data)
      case NoKey => Decoded([], [], 1)
      case Incomplete => Decoded([], data, 2)
      case OutOfKey => Decoded([], data, 3)
      case Piece(plain, size) =>
        var d := Decode(keys, data[size..]);
        Decoded(plain + d.result, d.rest, d.errors)
  }

  // A frame at the front

  lemma WireFields(f: Frame, tail: seq<Octet>)
    requires |f.num| == 8 && f.pos < LIMIT && |f.payload| < LIMIT
    ensures var data := Wire(f) + tail;
            && data[..8] == f.num && data[8..12] == Pack(f.pos) && data[12..16] == Pack(|f.payload|)
            && data[16..16 + |f.payload|] == f.payload && data[16 + |f.payload|..] == tail
  {
    hide Pack;
  }

  /** The bytes a frame stands for. */
  function Plain(keys: seq<seq<Octet>>, f: Frame): (s: seq<Octet>)
    requires GoodKeys(keys) && InRange(keys, f)
    ensures |s| == |f.payload|
  {
    var i :| 0 <= i < |keys| && 8 <= |keys[i]| < LIMIT && f.num == Num(keys[i]) && f.pos + |f.payload| <= |keys[i]|;
    XorWith(f.payload, keys[i], f.pos)
  }

  function PlainAll(keys: seq<seq<Octet>>, fs: seq<Frame>): seq<Octet>
    requires GoodKeys(keys) && AllInRange(keys, fs)
  {
    if fs == [] then [] else Plain(keys, fs[0]) + PlainAll(keys, fs[1..])
  }

  lemma ParseWire(keys: seq<seq<Octet>>, f: Frame, tail: seq<Octet>)
    requires GoodKeys(keys) && InRange(keys, f)
    ensures |f.num| == 8 && f.pos < LIMIT && 0 < |f.payload| < LIMIT
    ensures Parse(keys, Wire(f) + tail) == Piece(Plain(keys, f), 16 + |f.payload|)
  {
    hide Wire, Pack, XorWith, FindKey, Unpack;
    Packable(keys, f);
    WireFields(f, tail);
    UnpackPack(f.pos);
    UnpackPack(|f.payload|);
    var i :| 0 <= i < |keys| && 8 <= |keys[i]| < LIMIT && f.num == Num(keys[i]) && f.pos + |f.payload| <= |keys[i]|;
    FindKeyIs(keys, i);
  }

  /** Decoding the frames of a stream gives the plain bytes, and leaves nothing over. */
  lemma {:induction false} DecodeWireAll(keys: seq<seq<Octet>>, fs: seq<Frame>)
    requires GoodKeys(keys) && AllInRange(keys, fs)
    ensures Decode(keys, WireAll(keys, fs)) == Decoded(PlainAll(keys, fs), [], 0)
  {
    hide Wire, Plain, Parse, InRange;
    if fs != [] {
      var f, tail := fs[0], WireAll(keys, fs[1..]);
      Packable(keys, f);
      ParseWire(keys, f, tail);
      DecodeWireAll(keys, fs[1..]);
      assert (Wire(f) + tail)[16 + |f.payload|..] == tail;
    }
  }

  // Chunks

  lemma ParseLonger(keys: seq<seq<Octet>>, a: seq<Octet>, b: seq<Octet>)
    requires (forall key <- keys :: |key| >= 8) && |a| > 16
    ensures Parse(keys, a) == NoKey ==> Parse(keys, a + b) == NoKey
    ensures Parse(keys, a).Piece? ==> Parse(keys, a + b) == Parse(keys, a)
  {
    hide XorWith, FindKey, Unpack;
    assert (a + b)[..8] == a[..8] && (a + b)[8..12] == a[8..12] && (a + b)[12..16] == a[12..16];
    var count := Unpack(a[12..16]);
    if count <= |a| - 16 { assert (a + b)[16..16 + count] == a[16..16 + count]; }
  }

  /** Decoding in two parts, with the rest of the first kept for the second, is decoding at once. */
  lemma {:induction false} DecodeSplit(keys: seq<seq<Octet>>, a: seq<Octet>, b: seq<Octet>)
    requires forall key <- keys :: |key| >= 8
    requires Decode(keys, a).errors == 0 || Decode(keys, a).errors == 2
    ensures var d := Decode(keys, a); var e := Decode(keys, d.rest + b);
            Decode(keys, a + b) == Decoded(d.result + e.result, e.rest, e.errors)
    decreases |a|
  {
    hide Parse;
    if |a| > 16 && Parse(keys, a).Piece? {
      var p := Parse(keys, a);
      ParseLonger(keys, a, b);
      DecodeSplit(keys, a[p.size..], b);
      assert (a + b)[p.size..] == a[p.size..] + b;
      var d := Decode(keys, a[p.size..]);
      var e := Decode(keys, d.rest + b);
      assert p.plain + (d.result + e.result) == (p.plain + d.result) + e.result;
    } else {
      assert Decode(keys, a).rest == a && [] + Decode(keys, a + b).result == Decode(keys, a + b).result;
    }
  }

  /** A stream cut anywhere is decoded without an error that loses data. */
  lemma {:induction false} CutIsHarmless(keys: seq<seq<Octet>>, fs: seq<Frame>, n: nat)
    requires GoodKeys(keys) && AllInRange(keys, fs) && n <= |WireAll(keys, fs)|
    ensures var d := Decode(keys, WireAll(keys, fs)[..n]); d.errors == 0 || d.errors == 2
    decreases |fs|
  {
    hide Wire, Plain, InRange, Parse;
    var s := WireAll(keys, fs);
    if fs != [] && n > 16 {
      var f, tail := fs[0], WireAll(keys, fs[1..]);
      Packable(keys, f);
      ParseWire(keys, f, tail);
      var size := 16 + |f.payload|;
      if n >= size {
        assert s[..n] == Wire(f) + tail[..n - size];
        ParseWire(keys, f, tail[..n - size]);
        assert s[..n][size..] == tail[..n - size];
        CutIsHarmless(keys, fs[1..], n - size);
      } else {
        CutFrame(keys, f, s[..n], tail);
      }
    }
  }

  lemma CutFrame(keys: seq<seq<Octet>>, f: Frame, a: seq<Octet>, tail: seq<Octet>)
    requires GoodKeys(keys) && InRange(keys, f) && 16 < |a|
    requires |f.num| == 8 && f.pos < LIMIT && |f.payload| < LIMIT && |a| < 16 + |f.payload| && a <= Wire(f) + tail
    ensures Parse(keys, a) == Incomplete
  {
    hide Wire, Pack, XorWith, FindKey, Unpack;
    WireFields(f, tail);
    UnpackPack(|f.payload|);
    var s := Wire(f) + tail;
    assert a[..8] == s[..8] && a[12..16] == s[12..16];
    var i :| 0 <= i < |keys| && 8 <= |keys[i]| < LIMIT && f.num == Num(keys[i]) && f.pos + |f.payload| <= |keys[i]|;
    FindKeyIs(keys, i);
  }

  // The relay

  datatype Relay = Relay(out: seq<Octet>, buffer: seq<Octet>)

  /** relay_data on the decoding side: what was left over goes in front of the new chunk. */
  function Receive(keys: seq<seq<Octet>>, r: Relay, chunk: seq<Octet>): Relay
    requires forall key <- keys :: |key| >= 8
  {
    var d := Decode(keys, r.buffer + chunk);
    Relay(r.out + d.result, d.rest)
  }

  function ReceiveAll(keys: seq<seq<Octet>>, chunks: seq<seq<Octet>>): Relay
    requires forall key <- keys :: |key| >= 8
  {
    if chunks == [] then Relay([], [])
    else Receive(keys, ReceiveAll(keys, chunks[..|chunks| - 1]), chunks[|chunks| - 1])
  }

  function Joined(chunks: seq<seq<Octet>>): seq<Octet> {
    if chunks == [] then [] else Joined(chunks[..|chunks| - 1]) + chunks[|chunks| - 1]
  }

  lemma {:induction false} ChunksDecode(keys: seq<seq<Octet>>, fs: seq<Frame>, chunks: seq<seq<Octet>>)
    requires GoodKeys(keys) && AllInRange(keys, fs) && Joined(chunks) <= WireAll(keys, fs)
    ensures var d := Decode(keys, Joined(chunks));
            (d.errors == 0 || d.errors == 2) && ReceiveAll(keys, chunks) == Relay(d.result, d.rest)
    decreases |chunks|
  {
    hide Decode, WireAll, AllInRange;
    var s := Joined(chunks);
    assert s == WireAll(keys, fs)[..|s|];
    CutIsHarmless(keys, fs, |s|);
    if chunks == [] {
      DecodeNothing(keys);
    } else {
      var last := |chunks| - 1;
      var front := Joined(chunks[..last]);
      ChunksDecode(keys, fs, chunks[..last]);
      assert front == WireAll(keys, fs)[..|front|];
      DecodeSplit(keys, front, chunks[last]);
    }
  }

  lemma DecodeNothing(keys: seq<seq<Octet>>)
    requires forall key <- keys :: |key| >= 8
    ensures Decode(keys, []) == Decoded([], [], 0)
  {
  }

  /** However the bytes of a stream are cut into chunks, the relay puts out the plain bytes and
      keeps nothing back. */
  lemma AnyChunking(keys: seq<seq<Octet>>, fs: seq<Frame>, chunks: seq<seq<Octet>>)
    requires GoodKeys(keys) && AllInRange(keys, fs) && Joined(chunks) == WireAll(keys, fs)
    ensures ReceiveAll(keys, chunks) == Relay(PlainAll(keys, fs), [])
  {
    hide Decode, WireAll, AllInRange, PlainAll;
    ChunksDecode(keys, fs, chunks);
    DecodeWireAll(keys, fs);
  }
}
