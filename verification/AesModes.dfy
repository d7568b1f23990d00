/** CBC and CTR mode, as functions of any block cipher and as the loops over buffers that run AES. */
module AesModes {
  import opened AesBlock
  import opened AesCipher
  import opened Division

  type Cipher = Block -> Block

  ghost predicate Undoes(d: Cipher, e: Cipher) { forall b: Block :: d(e(b)) == b }

  /** xor_buf: `data` xored with the first bytes of `b`. */
  function XorBuf(b: Block, data: seq<bv8>): (r: seq<bv8>)
    requires |data| <= 16
    ensures |r| == |data|
  {
    seq(|data|, i requires 0 <= i < |data| => Plus(data[i], b[i]))
  }

  lemma XorBufTwice(b: Block, data: seq<bv8>)
    requires |data| <= 16
    ensures XorBuf(b, XorBuf(b, data)) == data
  {
    hide Plus;
    var r := XorBuf(b, XorBuf(b, data));
    forall i | 0 <= i < |data| ensures r[i] == data[i] { PlusTwice(data[i], b[i]); }
  }

  // CBC

  function CbcEncrypt(e: Cipher, iv: Block, data: seq<bv8>): (r: seq<bv8>)
    requires |data| % 16 == 0
    ensures |r| == |data|
    decreases |data|
  {
    if data == [] then []
    else
      var c: Block := e(XorBuf(iv, data[..16]));
      c + CbcEncrypt(e, c, data[16..])
  }

  function CbcDecrypt(d: Cipher, iv: Block, data: seq<bv8>): (r: seq<bv8>)
    requires |data| % 16 == 0
    ensures |r| == |data|
    decreases |data|
  {
    if data == [] then []
    else
      XorBuf(iv, d(data[..16])) + CbcDecrypt(d, data[..16], data[16..])
  }

  /** Block `k` of some data. */
  function BlockAt(data: seq<bv8>, k: nat): Block
    requires 16 * k + 16 <= |data|
  {
    data[16 * k..16 * k + 16]
  }

  /** Block `k` of the ciphertext is the encryption of block `k` of the plaintext, each byte xored with that
      of the ciphertext block in front of it, or of the iv. */
  lemma {:induction false} CbcEncryptAt(e: Cipher, iv: Block, data: seq<bv8>, k: nat, x: Block)
    requires |data| % 16 == 0 && 16 * k + 16 <= |data|
    requires var c := if k == 0 then iv else BlockAt(CbcEncrypt(e, iv, data), k - 1);
             forall j :: 0 <= j < 16 ==> x[j] == Plus(data[16 * k + j], c[j])
    ensures BlockAt(CbcEncrypt(e, iv, data), k) == e(x)
    decreases k
  {
    hide Plus;
    var c: Block := e(XorBuf(iv, data[..16]));
    var rest := CbcEncrypt(e, c, data[16..]);
    if k == 0 {
      assert x == XorBuf(iv, data[..16]);
      assert (c + rest)[..16] == c;
    } else {
      assert BlockAt(c + rest, k) == BlockAt(rest, k - 1);
      assert if k == 1 then BlockAt(c + rest, 0) == c else BlockAt(c + rest, k - 1) == BlockAt(rest, k - 2);
      CbcEncryptAt(e, c, data[16..], k - 1, x);
    }
  }

  /** Decryption undoes encryption in CBC mode. */
  lemma {:induction false} CbcRoundTrip(e: Cipher, d: Cipher, iv: Block, data: seq<bv8>)
    requires |data| % 16 == 0 && Undoes(d, e)
    ensures CbcDecrypt(d, iv, CbcEncrypt(e, iv, data)) == data
    decreases |data|
  {
    hide Plus;
    if data != [] {
      assert |data| >= 16;
      var x: Block := XorBuf(iv, data[..16]);
      var c: Block := e(x);
      var rest := CbcEncrypt(e, c, data[16..]);
      CbcRoundTrip(e, d, c, data[16..]);
      assert (c + rest)[..16] == c && (c + rest)[16..] == rest;
      assert d(c) == x;
      XorBufTwice(iv, data[..16]);
      assert data == data[..16] + data[16..];
    }
  }

  /** The last block of a CBC encryption. */
  function CbcMac(e: Cipher, iv: Block, data: seq<bv8>): Block
    requires |data| % 16 == 0
    decreases |data|
  {
    if data == [] then iv else CbcMac(e, e(XorBuf(iv, data[..16])), data[16..])
  }

  lemma {:induction false} CbcMacIsLast(e: Cipher, iv: Block, data: seq<bv8>)
    requires |data| % 16 == 0 && data != []
    ensures CbcMac(e, iv, data) == CbcEncrypt(e, iv, data)[|data| - 16..]
    decreases |data|
  {
    hide XorBuf;
    var c: Block := e(XorBuf(iv, data[..16]));
    if |data| > 16 {
      CbcMacIsLast(e, c, data[16..]);
    } else {
      assert data[16..] == [] && CbcEncrypt(e, iv, data) == c + [] == c;
    }
  }

  // CTR

  /** Big-endian increment; it stops at the first byte that does not wrap around. */
  function Increment(s: seq<bv8>): (r: seq<bv8>)
    ensures |r| == |s|
  {
    if s == [] then []
    else
      var front, b := s[..|s| - 1], s[|s| - 1] + 1;
      if b != 0 then front + [b] else Increment(front) + [b]
  }

  function Value(s: seq<bv8>): nat {
    if s == [] then 0 else 256 * Value(s[..|s| - 1]) + s[|s| - 1] as nat
  }

  function Power256(n: nat): (p: nat)
    ensures p > 0
  {
    if n == 0 then 1 else 256 * Power256(n - 1)
  }

  lemma {:induction false} ValueBound(s: seq<bv8>)
    ensures Value(s) < Power256(|s|)
  {
    if s != [] { ValueBound(s[..|s| - 1]); }
  }

  lemma ByteSuccessor(b: bv8)
    ensures (b + 1) as nat == if b as nat == 255 then 0 else b as nat + 1
    ensures b + 1 == 0 <==> b as nat == 255
  {
  }

  /** The increment adds 1 to the number, which wraps around to 0. */
  lemma {:induction false} IncrementAddsOne(s: seq<bv8>)
    ensures Value(Increment(s)) == if Value(s) + 1 == Power256(|s|) then 0 else Value(s) + 1
    decreases |s|
  {
    if s != [] {
      var front, last := s[..|s| - 1], s[|s| - 1];
      ByteSuccessor(last);
      IncrementAddsOne(front);
      ValueBound(front);
      var b := last + 1;
      var f := if b != 0 then front else Increment(front);
      assert Increment(s) == f + [b];
      assert (f + [b])[..|f + [b]| - 1] == f;
    }
  }

  /** increment_iv with a counter of the last `size` bytes; nothing happens when there are none. */
  function IncrementLast(iv: Block, size: int): Block
    requires size <= 16
  {
    if size <= 0 then iv else iv[..16 - size] + Increment(iv[16 - size..])
  }

  function Ctr(e: Cipher, iv: Block, data: seq<bv8>): (r: seq<bv8>)
    ensures |r| == |data|
    decreases |data|
  {
    if |data| <= 16 then XorBuf(e(iv), data)
    else XorBuf(e(iv), data[..16]) + Ctr(e, IncrementLast(iv, 16), data[16..])
  }

  /** CTR encryption is its own inverse. */
  lemma {:induction false} CtrTwice(e: Cipher, iv: Block, data: seq<bv8>)
    ensures Ctr(e, iv, Ctr(e, iv, data)) == data
    decreases |data|
  {
    hide XorBuf, IncrementLast;
    if |data| <= 16 {
      XorBufTwice(e(iv), data);
    } else {
      var a, b := XorBuf(e(iv), data[..16]), Ctr(e, IncrementLast(iv, 16), data[16..]);
      XorBufTwice(e(iv), data[..16]);
      CtrTwice(e, IncrementLast(iv, 16), data[16..]);
      assert (a + b)[..16] == a && (a + b)[16..] == b;
      assert data == data[..16] + data[16..];
    }
  }

  /** The counter after `k` blocks. */
  function Counter(iv: Block, k: nat): Block {
    if k == 0 then iv else IncrementLast(Counter(iv, k - 1), 16)
  }

  lemma {:induction false} CounterFromNext(iv: Block, k: nat)
    ensures Counter(IncrementLast(iv, 16), k) == Counter(iv, k + 1)
  {
    hide IncrementLast;
    if k > 0 { CounterFromNext(iv, k - 1); }
  }

  lemma WholeIncrement(iv: Block)
    ensures IncrementLast(iv, 16) == Increment(iv)
  {
    assert iv[0..] == iv && iv[..0] == [];
  }

  /** The counter of block `k` is the initial one plus k, modulo 2^128. */
  lemma {:induction false} CounterValue(iv: Block, k: nat)
    ensures Value(Counter(iv, k)) == (Value(iv) + k) % Power256(16)
  {
    hide Power256, Value, Increment, IncrementLast, Counter;
    var p := Power256(16);
    if k == 0 {
      ValueBound(iv);
      ModIs(Value(iv), 0, Value(iv), p);
      NoCounter(iv);
    } else {
      CounterValue(iv, k - 1);
      NextCounter(iv, k);
      IncrementAddsOne(Counter(iv, k - 1));
      ModSuccessor(Value(iv) + k - 1, p);
    }
  }

  lemma NoCounter(iv: Block)
    ensures Counter(iv, 0) == iv
  {
  }

  lemma NextCounter(iv: Block, k: nat)
    requires k > 0
    ensures Counter(iv, k) == Increment(Counter(iv, k - 1))
  {
    hide IncrementLast;
    WholeIncrement(Counter(iv, k - 1));
  }

  /** Byte `j` of block `k` is xored with byte `j` of the encryption of counter `k`. */
  lemma {:induction false} CtrAt(e: Cipher, iv: Block, data: seq<bv8>, k: nat, j: nat)
    requires j < 16 && 16 * k + j < |data|
    ensures Ctr(e, iv, data)[16 * k + j] == Plus(data[16 * k + j], e(Counter(iv, k))[j])
    decreases k
  {
    hide IncrementLast, Plus;
    if k > 0 {
      CtrAt(e, IncrementLast(iv, 16), data[16..], k - 1, j);
      CounterFromNext(iv, k - 1);
    }
  }
}
