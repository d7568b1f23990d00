/** The counter-mode loops of AES, in place: increment_iv, xor_buf and aes_encrypt_ctr. */
module AesCtr {
  import opened AesBlock
  import opened AesBuffers
  import opened AesCipher
  import opened AesModes

  // increment_iv

  lemma IncrementStep(s: seq<bv8>, m: nat)
    requires 0 < m <= |s|
    ensures var b := s[m - 1] + 1;
            Increment(s[..m]) == if b != 0 then s[..m - 1] + [b] else Increment(s[..m - 1]) + [b]
  {
    assert s[..m][..m - 1] == s[..m - 1];
  }

  /** The loop of increment_iv on the counting bytes: the bytes from `m` on have wrapped to 0. */
  ghost predicate Wrapped(was: seq<bv8>, now: seq<bv8>, m: nat) {
    |now| == |was| && m <= |was| && now[..m] == was[..m] && Increment(was) == Increment(was[..m]) + now[m..]
  }

  lemma WrappedStart(was: seq<bv8>)
    ensures Wrapped(was, was, |was|)
  {
    assert was[..|was|] == was && was[|was|..] == [] && Increment(was) + [] == Increment(was);
  }

  lemma WrappedTurn(was: seq<bv8>, now: seq<bv8>, m: nat, next: seq<bv8>)
    requires Wrapped(was, now, m) && 0 < m && next == now[m - 1 := now[m - 1] + 1]
    ensures next[m - 1] == 0 ==> Wrapped(was, next, m - 1)
    ensures next[m - 1] != 0 || m == 1 ==> next == Increment(was)
  {
    hide Increment;
    IncrementStep(was, m);
    var b := next[m - 1];
    assert now[m - 1] == now[..m][m - 1] == was[m - 1];
    assert now[..m][..m - 1] == was[..m][..m - 1];
    assert next == was[..m - 1] + [b] + now[m..];
    assert next[m - 1..] == [b] + now[m..];
    Assoc(Increment(was[..m - 1]), [b], now[m..]);
    if m == 1 { NoIncrement(was[..0]); }
  }

  lemma NoIncrement(s: seq<bv8>)
    requires s == []
    ensures Increment(s) == []
  {
  }

  method IncrementIv(iv: array<bv8>, counterSize: int)
    requires iv.Length == 16 && counterSize <= 16
    modifies iv
    ensures iv[..] == IncrementLast(old(iv[..]), counterSize)
  {
    hide Increment, Wrapped;
    ghost var was := iv[..];
    ghost var lo := if counterSize > 0 then 16 - counterSize else 16;
    WrappedStart(was[lo..]);
    var idx := 15;
    while idx >= 16 - counterSize
      invariant lo - 1 <= idx <= 15 && (counterSize > 0 ==> idx >= lo) && (counterSize <= 0 ==> idx == 15)
      invariant iv[..lo] == was[..lo] && Wrapped(was[lo..], iv[lo..], idx + 1 - lo)
      decreases idx
    {
      ghost var now := iv[lo..];
      WrappedTurn(was[lo..], now, idx + 1 - lo, now[idx - lo := now[idx - lo] + 1]);
      iv[idx] := iv[idx] + 1;
      assert iv[lo..] == now[idx - lo := now[idx - lo] + 1];
      if iv[idx] != 0 || idx == 16 - counterSize {
        assert iv[..] == iv[..lo] + iv[lo..];
        return;
      }
      idx := idx - 1;
    }
    assert counterSize <= 0;
    assert iv[..] == iv[..lo] == was;
  }

  // aes_encrypt_ctr

  /** xor_buf on the part of a buffer from `at` on */
  method XorInto(b: Block, buf: array<bv8>, at: nat, len: nat)
    requires len <= 16 && at + len <= buf.Length
    modifies buf
    ensures buf[..] == old(buf[..at]) + XorBuf(b, old(buf[at..at + len])) + old(buf[at + len..])
  {
    hide Plus;
    ghost var x := XorBuf(b, buf[at..at + len]);
    for idx := 0 to len
      invariant forall k :: 0 <= k < buf.Length ==> buf[k] == if at <= k < at + idx then x[k - at] else old(buf[k])
    {
      buf[at + idx] := Plus(buf[at + idx], b[idx]);
    }
    ghost var r := old(buf[..at]) + x + old(buf[at + len..]);
    assert buf[..] == r;
  }

  /** The loop: `done` has been encrypted, in a buffer that held `pre`, the data and `post`. */
  ghost predicate Counting(e: Cipher, iv: Block, data: seq<bv8>, pre: seq<bv8>, post: seq<bv8>,
                           now: seq<bv8>, done: seq<bv8>, cur: Block) {
    |done| <= |data| && now == pre + done + data[|done|..] + post
    && Ctr(e, iv, data) == done + Ctr(e, cur, data[|done|..])
  }

  lemma CountingStart(e: Cipher, iv: Block, pre: seq<bv8>, data: seq<bv8>, post: seq<bv8>)
    ensures Counting(e, iv, data, pre, post, pre + data + post, [], iv)
  {
    hide Ctr;
    assert data[0..] == data && [] + Ctr(e, iv, data) == Ctr(e, iv, data) && pre + [] == pre;
  }

  lemma CtrStep(e: Cipher, iv: Block, data: seq<bv8>)
    ensures |data| > 16 ==> Ctr(e, iv, data) == XorBuf(e(iv), data[..16]) + Ctr(e, IncrementLast(iv, 16), data[16..])
    ensures |data| <= 16 ==> Ctr(e, iv, data) == XorBuf(e(iv), data)
  {
  }

  /** A part of the buffer. */
  lemma Part(pre: seq<bv8>, done: seq<bv8>, data: seq<bv8>, post: seq<bv8>, len: nat)
    requires |done| + len <= |data|
    ensures var now := pre + done + data[|done|..] + post; var at := |pre| + |done|;
            && now[at..at + len] == data[|done|..][..len] && now[..at] == pre + done
            && now[at + len..] == data[|done| + len..] + post && data[|done|..][len..] == data[|done| + len..]
  {
  }

  lemma CountingTurn(e: Cipher, iv: Block, data: seq<bv8>, pre: seq<bv8>, post: seq<bv8>, now: seq<bv8>,
      done: seq<bv8>, cur: Block)
    requires Counting(e, iv, data, pre, post, now, done, cur) && |data| - |done| > 16
    ensures |pre| + |done| + 16 <= |now|
    ensures var at := |pre| + |done|; var x := XorBuf(e(cur), now[at..at + 16]);
            Counting(e, iv, data, pre, post, now[..at] + x + now[at + 16..], done + x, IncrementLast(cur, 16))
  {
    hide Ctr, XorBuf, IncrementLast;
    CtrStep(e, cur, data[|done|..]);
    Part(pre, done, data, post, 16);
    var at := |pre| + |done|;
    var x := XorBuf(e(cur), now[at..at + 16]);
    assert (pre + done) + x + (data[|done| + 16..] + post) == pre + (done + x) + data[|done| + 16..] + post;
    Assoc(done, x, Ctr(e, IncrementLast(cur, 16), data[|done| + 16..]));
  }

  lemma CountingEnd(e: Cipher, iv: Block, data: seq<bv8>, pre: seq<bv8>, post: seq<bv8>, now: seq<bv8>,
      done: seq<bv8>, cur: Block)
    requires Counting(e, iv, data, pre, post, now, done, cur) && |data| - |done| <= 16
    ensures |pre| + |data| <= |now|
    ensures var at, len := |pre| + |done|, |data| - |done|; var x := XorBuf(e(cur), now[at..at + len]);
            now[..at] + x + now[at + len..] == pre + Ctr(e, iv, data) + post
  {
    hide Ctr, XorBuf, IncrementLast;
    CtrStep(e, cur, data[|done|..]);
    var len := |data| - |done|;
    Part(pre, done, data, post, len);
    var at := |pre| + |done|;
    var x := XorBuf(e(cur), now[at..at + len]);
    assert data[|done|..][..len] == data[|done|..];
    assert data[|done| + len..] == [];
    assert (pre + done) + x + ([] + post) == pre + (done + x) + post;
  }

  /** Encrypt the counter and xor it into the buffer. */
  method CtrBlock(buf: array<bv8>, at: nat, len: nat, key: seq<bv32>, keysize: nat, cur: Block)
    requires GoodKey(key, keysize) && len <= 16 && at + len <= buf.Length
    modifies buf
    ensures var was := old(buf[..]);
            buf[..] == was[..at] + XorBuf(CipherOf(key, keysize)(cur), was[at..at + len]) + was[at + len..]
  {
    hide XorBuf, Encrypt;
    ghost var now := buf[..];
    var outBuf := AesEncrypt(cur, key, keysize);
    assert now[..at] == buf[..at] && now[at..at + len] == buf[at..at + len] && now[at + len..] == buf[at + len..];
    XorInto(outBuf, buf, at, len);
  }

  /** aes_encrypt_ctr on `len` bytes of a buffer, in place. */
  method CtrInPlace(buf: array<bv8>, at: nat, len: nat, key: seq<bv32>, keysize: nat, iv: Block)
    requires GoodKey(key, keysize) && at + len <= buf.Length
    modifies buf
    ensures buf[..] == old(buf[..at]) + Ctr(CipherOf(key, keysize), iv, old(buf[at..at + len])) + old(buf[at + len..])
  {
    hide Ctr, XorBuf, IncrementLast, Counting, CipherOf;
    ghost var e, data, pre, post := CipherOf(key, keysize), buf[at..at + len], buf[..at], buf[at + len..];
    ghost var done: seq<bv8> := [];
    assert buf[..] == pre + data + post;
    CountingStart(e, iv, pre, data, post);
    var ivBuf := new bv8[16](i requires 0 <= i < 16 => iv[i]);
    assert ivBuf[..] == iv;
    var idx := 0;
    if len > 16 {
      while idx < len - 16
        invariant idx == |done| <= len && fresh(ivBuf) && ivBuf != buf
        invariant Counting(e, iv, data, pre, post, buf[..], done, ivBuf[..])
      {
        ghost var now, cur := buf[..], ivBuf[..];
        CountingTurn(e, iv, data, pre, post, now, done, cur);
        CtrBlock(buf, at + idx, 16, key, keysize, ivBuf[..]);
        IncrementIv(ivBuf, 16);
        done := done + XorBuf(e(cur), now[at + idx..at + idx + 16]);
        idx := idx + 16;
      }
    }
    CountingEnd(e, iv, data, pre, post, buf[..], done, ivBuf[..]);
    CtrBlock(buf, at + idx, len - idx, key, keysize, ivBuf[..]);
  }

  /** aes_encrypt_ctr, which is aes_decrypt_ctr as well. */
  method AesEncryptCtr(input: array<bv8>, inLen: nat, out: array<bv8>, key: seq<bv32>, keysize: nat, iv: Block)
    requires GoodKey(key, keysize) && inLen <= input.Length && inLen <= out.Length
    modifies out
    ensures out[..] == Ctr(CipherOf(key, keysize), iv, old(input[..inLen])) + old(out[inLen..])
  {
    hide Ctr, CipherOf;
    ghost var data, post := input[..inLen], out[inLen..];
    if input != out {
      for i := 0 to inLen
        invariant out[..i] == input[..i] && out[inLen..] == post
      {
        out[i] := input[i];
      }
    }
    assert out[0..inLen] == data && out[..0] == [];
    CtrInPlace(out, 0, inLen, key, keysize, iv);
    assert out[..] == [] + Ctr(CipherOf(key, keysize), iv, data) + post == Ctr(CipherOf(key, keysize), iv, data) + post;
  }

  /** aes_decrypt_ctr behind aes_encrypt_ctr, in place, gives the buffer back. */
  method EncryptAndDecryptCtr(buf: array<bv8>, inLen: nat, key: seq<bv32>, keysize: nat, iv: Block)
    requires GoodKey(key, keysize) && inLen <= buf.Length
    modifies buf
    ensures buf[..] == old(buf[..])
  {
    hide Ctr, CipherOf;
    ghost var was := buf[..];
    AesEncryptCtr(buf, inLen, buf, key, keysize, iv);
    Front(Ctr(CipherOf(key, keysize), iv, was[..inLen]), was[inLen..], buf[..]);
    CtrTwice(CipherOf(key, keysize), iv, was[..inLen]);
    AesEncryptCtr(buf, inLen, buf, key, keysize, iv);
    assert was == was[..inLen] + was[inLen..];
  }
}
