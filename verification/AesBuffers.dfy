/** The loops of the AES modes over buffers; input and output may be the same buffer. */
module AesBuffers {
  import opened AesBlock
  import opened AesModes

  function CipherOf(key: seq<bv32>, keysize: nat): Cipher
    requires GoodKeysize(keysize) && 4 * RoundCount(keysize) + 4 <= |key|
  {
    (b: Block) => Encrypt(b, key, keysize)
  }

  function DecipherOf(key: seq<bv32>, keysize: nat): Cipher
    requires GoodKeysize(keysize) && 4 * RoundCount(keysize) + 4 <= |key|
  {
    (b: Block) => Decrypt(b, key, keysize)
  }

  lemma CipherUndone(key: seq<bv32>, keysize: nat)
    requires GoodKey(key, keysize)
    ensures Undoes(DecipherOf(key, keysize), CipherOf(key, keysize))
  {
    hide Encrypt, Decrypt;
    forall b: Block ensures Decrypt(Encrypt(b, key, keysize), key, keysize) == b { DecryptEncrypt(b, key, keysize); }
  }

  // CBC

  lemma CbcStep(e: Cipher, iv: Block, data: seq<bv8>)
    requires |data| % 16 == 0 && |data| >= 16
    ensures var c := e(XorBuf(iv, data[..16])); CbcEncrypt(e, iv, data) == c + CbcEncrypt(e, c, data[16..])
  {
  }

  lemma CbcBackStep(d: Cipher, iv: Block, data: seq<bv8>)
    requires |data| % 16 == 0 && |data| >= 16
    ensures CbcDecrypt(d, iv, data) == XorBuf(iv, d(data[..16])) + CbcDecrypt(d, data[..16], data[16..])
  {
  }

  /** memcpy of one block */
  method PutBlock(out: array<bv8>, at: nat, b: Block)
    requires at + 16 <= out.Length
    modifies out
    ensures out[..] == old(out[..at]) + b + old(out[at + 16..])
  {
    for i := 0 to 16
      invariant forall k :: 0 <= k < out.Length ==> out[k] == if at <= k < at + i then b[k - at] else old(out[k])
    {
      out[at + i] := b[i];
    }
    var r := old(out[..at]) + b + old(out[at + 16..]);
    assert out[..] == r;
  }

  /** The output so far, with the old contents behind it. */
  ghost predicate Progress(now: seq<bv8>, was: seq<bv8>, done: seq<bv8>) {
    |now| == |was| && |done| <= |was| && now == done + was[|done|..]
  }

  lemma Extended(was: seq<bv8>, now: seq<bv8>, done: seq<bv8>, b: seq<bv8>, next: seq<bv8>)
    requires Progress(now, was, done) && |done| + |b| <= |was|
    requires next == now[..|done|] + b + now[|done| + |b|..]
    ensures Progress(next, was, done + b)
  {
  }

  /** One turn of the loop of aes_encrypt_cbc. */
  method CbcEncryptBlock(input: array<bv8>, at: nat, out: array<bv8>, key: seq<bv32>, keysize: nat, ivBuf: Block)
      returns (c: Block)
    requires GoodKey(key, keysize) && at + 16 <= input.Length && at + 16 <= out.Length
    modifies out
    ensures c == CipherOf(key, keysize)(XorBuf(ivBuf, old(input[at..at + 16])))
    ensures out[..] == old(out[..at]) + c + old(out[at + 16..]) && input[at + 16..] == old(input[at + 16..])
  {
    hide XorBuf, Encrypt;
    ghost var rest := input[at + 16..];
    var x: Block := XorBuf(ivBuf, input[at..at + 16]);
    c := AesEncrypt(x, key, keysize);
    PutBlock(out, at, c);
    if input == out { Beyond(old(out[..at]), c, rest); }
  }

  lemma Beyond(a: seq<bv8>, b: seq<bv8>, c: seq<bv8>)
    ensures (a + b + c)[|a| + |b|..] == c
  {
  }

  /** One turn of the loop of aes_decrypt_cbc. */
  method CbcDecryptBlock(input: array<bv8>, at: nat, out: array<bv8>, key: seq<bv32>, keysize: nat, ivBuf: Block)
      returns (c: Block, next: Block)
    requires GoodKey(key, keysize) && at + 16 <= input.Length && at + 16 <= out.Length
    modifies out
    ensures next == old(input[at..at + 16]) && c == XorBuf(ivBuf, DecipherOf(key, keysize)(next))
    ensures out[..] == old(out[..at]) + c + old(out[at + 16..]) && input[at + 16..] == old(input[at + 16..])
  {
    hide XorBuf, Decrypt;
    ghost var rest := input[at + 16..];
    next := input[at..at + 16];
    var y := AesDecrypt(next, key, keysize);
    c := XorBuf(ivBuf, y);
    PutBlock(out, at, c);
    if input == out { Beyond(old(out[..at]), c, rest); }
  }

  lemma Assoc(a: seq<bv8>, b: seq<bv8>, c: seq<bv8>)
    ensures a + (b + c) == (a + b) + c
  {
  }

  /** A block of what is left, and what is left behind it. */
  lemma Slices(s: seq<bv8>, src: seq<bv8>, at: nat, n: nat)
    requires |s| == |src| && at + 16 <= n <= |s| && s[at..] == src[at..]
    ensures s[at..at + 16] == src[at..n][..16] && src[at..n][16..] == src[at + 16..n]
    ensures s[at + 16..] == src[at + 16..]
  {
    assert s[at..][..16] == s[at..at + 16] && src[at..][..16] == src[at..n][..16];
    assert s[at..][16..] == s[at + 16..] && src[at..][16..] == src[at + 16..];
  }

  // What the loops keep: `src` is the input at the start and `s` the input now, `was` and `now` the
  // output, of which `done` has been written

  ghost predicate Working(src: seq<bv8>, n: nat, s: seq<bv8>, was: seq<bv8>, now: seq<bv8>, done: seq<bv8>) {
    |s| == |src| && |done| <= n <= |src| && n <= |was| && |done| % 16 == n % 16 == 0 && s[|done|..] == src[|done|..]
    && Progress(now, was, done)
  }

  lemma WorkingStart(src: seq<bv8>, n: nat, was: seq<bv8>)
    requires n <= |src| && n <= |was| && n % 16 == 0
    ensures Working(src, n, src, was, was, []) && src[0..n] == src[..n]
  {
  }

  lemma WorkingTurn(src: seq<bv8>, n: nat, s: seq<bv8>, was: seq<bv8>, now: seq<bv8>, done: seq<bv8>,
                    b: Block, s': seq<bv8>, next: seq<bv8>)
    requires Working(src, n, s, was, now, done) && |done| < n
    requires next == now[..|done|] + b + now[|done| + 16..] && |s'| == |s| && s'[|done| + 16..] == s[|done| + 16..]
    ensures Working(src, n, s', was, next, done + b)
  {
    Extended(was, now, done, b, next);
    hide Progress;
    Slices(s, src, |done|, n);
  }

  lemma WorkingEnd(src: seq<bv8>, n: nat, s: seq<bv8>, was: seq<bv8>, now: seq<bv8>, done: seq<bv8>)
    requires Working(src, n, s, was, now, done) && |done| == n
    ensures now == done + was[n..] && src[n..n] == []
  {
  }

  ghost predicate Encrypting(e: Cipher, iv: Block, src: seq<bv8>, n: nat, done: seq<bv8>, ivBuf: Block) {
    |done| <= n <= |src| && |done| % 16 == n % 16 == 0
    && CbcEncrypt(e, iv, src[..n]) == done + CbcEncrypt(e, ivBuf, src[|done|..n])
  }

  lemma EncryptingStart(e: Cipher, iv: Block, src: seq<bv8>, n: nat)
    requires n <= |src| && n % 16 == 0
    ensures Encrypting(e, iv, src, n, [], iv)
  {
    hide CbcEncrypt;
    assert src[0..n] == src[..n] && [] + CbcEncrypt(e, iv, src[..n]) == CbcEncrypt(e, iv, src[..n]);
  }

  lemma EncryptingTurn(e: Cipher, iv: Block, src: seq<bv8>, n: nat, done: seq<bv8>, ivBuf: Block, c: Block)
    requires Encrypting(e, iv, src, n, done, ivBuf) && |done| < n && c == e(XorBuf(ivBuf, src[|done|..n][..16]))
    ensures Encrypting(e, iv, src, n, done + c, c)
  {
    hide CbcEncrypt, XorBuf;
    CbcStep(e, ivBuf, src[|done|..n]);
    Slices(src, src, |done|, n);
    Assoc(done, c, CbcEncrypt(e, c, src[|done| + 16..n]));
  }

  lemma EncryptingEnd(e: Cipher, iv: Block, src: seq<bv8>, n: nat, done: seq<bv8>, ivBuf: Block)
    requires Encrypting(e, iv, src, n, done, ivBuf) && |done| == n
    ensures CbcEncrypt(e, iv, src[..n]) == done
  {
    assert src[n..n] == [] && CbcEncrypt(e, ivBuf, []) == [] && done + [] == done;
  }

  method AesEncryptCbc(input: array<bv8>, inLen: nat, out: array<bv8>, key: seq<bv32>, keysize: nat, iv: Block)
      returns (ok: bool)
    requires GoodKey(key, keysize) && inLen <= input.Length && inLen <= out.Length
    modifies out
    ensures ok <==> inLen % 16 == 0
    ensures !ok ==> out[..] == old(out[..])
    ensures ok ==> out[..] == CbcEncrypt(CipherOf(key, keysize), iv, old(input[..inLen])) + old(out[inLen..])
  {
    hide CbcEncrypt, XorBuf, CipherOf, Working, Encrypting;
    if inLen % 16 != 0 {
      return false;
    }
    ghost var e, src, was := CipherOf(key, keysize), input[..], out[..];
    ghost var done: seq<bv8> := [];
    var ivBuf := iv;
    var at := 0;
    WorkingStart(src, inLen, was);
    EncryptingStart(e, iv, src, inLen);
    while at < inLen
      invariant at <= inLen && at % 16 == 0 && at == |done|
      invariant Working(src, inLen, input[..], was, out[..], done) && Encrypting(e, iv, src, inLen, done, ivBuf)
    {
      ghost var s, now := input[..], out[..];
      InFront(src, inLen, s, was, now, done);
      var c := CbcEncryptBlock(input, at, out, key, keysize, ivBuf);
      WorkingTurn(src, inLen, s, was, now, done, c, input[..], out[..]);
      EncryptingTurn(e, iv, src, inLen, done, ivBuf, c);
      done := done + c;
      ivBuf := c;
      at := at + 16;
    }
    WorkingEnd(src, inLen, input[..], was, out[..], done);
    EncryptingEnd(e, iv, src, inLen, done, ivBuf);
    ok := true;
  }

  /** The next block of the input is as it was at the start. */
  lemma InFront(src: seq<bv8>, n: nat, s: seq<bv8>, was: seq<bv8>, now: seq<bv8>, done: seq<bv8>)
    requires Working(src, n, s, was, now, done) && |done| < n
    ensures |done| + 16 <= n <= |s| == |src| && s[|done|..|done| + 16] == src[|done|..n][..16]
  {
    Slices(s, src, |done|, n);
  }

  ghost predicate Decrypting(d: Cipher, iv: Block, src: seq<bv8>, n: nat, done: seq<bv8>, ivBuf: Block) {
    |done| <= n <= |src| && |done| % 16 == n % 16 == 0
    && CbcDecrypt(d, iv, src[..n]) == done + CbcDecrypt(d, ivBuf, src[|done|..n])
  }

  lemma DecryptingStart(d: Cipher, iv: Block, src: seq<bv8>, n: nat)
    requires n <= |src| && n % 16 == 0
    ensures Decrypting(d, iv, src, n, [], iv)
  {
    hide CbcDecrypt;
    assert src[0..n] == src[..n] && [] + CbcDecrypt(d, iv, src[..n]) == CbcDecrypt(d, iv, src[..n]);
  }

  lemma DecryptingTurn(d: Cipher, iv: Block, src: seq<bv8>, n: nat, done: seq<bv8>, ivBuf: Block, next: Block, c: Block)
    requires Decrypting(d, iv, src, n, done, ivBuf) && |done| < n
    requires next == src[|done|..n][..16] && c == XorBuf(ivBuf, d(next))
    ensures Decrypting(d, iv, src, n, done + c, next)
  {
    hide CbcDecrypt, XorBuf;
    CbcBackStep(d, ivBuf, src[|done|..n]);
    Slices(src, src, |done|, n);
    Assoc(done, c, CbcDecrypt(d, next, src[|done| + 16..n]));
  }

  lemma DecryptingEnd(d: Cipher, iv: Block, src: seq<bv8>, n: nat, done: seq<bv8>, ivBuf: Block)
    requires Decrypting(d, iv, src, n, done, ivBuf) && |done| == n
    ensures CbcDecrypt(d, iv, src[..n]) == done
  {
    assert src[n..n] == [] && CbcDecrypt(d, ivBuf, []) == [] && done + [] == done;
  }

  method AesDecryptCbc(input: array<bv8>, inLen: nat, out: array<bv8>, key: seq<bv32>, keysize: nat, iv: Block)
      returns (ok: bool)
    requires GoodKey(key, keysize) && inLen <= input.Length && inLen <= out.Length
    modifies out
    ensures ok <==> inLen % 16 == 0
    ensures !ok ==> out[..] == old(out[..])
    ensures ok ==> out[..] == CbcDecrypt(DecipherOf(key, keysize), iv, old(input[..inLen])) + old(out[inLen..])
  {
    hide CbcDecrypt, XorBuf, DecipherOf, Working, Decrypting;
    if inLen % 16 != 0 {
      return false;
    }
    ghost var d, src, was := DecipherOf(key, keysize), input[..], out[..];
    ghost var done: seq<bv8> := [];
    var ivBuf := iv;
    var at := 0;
    WorkingStart(src, inLen, was);
    DecryptingStart(d, iv, src, inLen);
    while at < inLen
      invariant at <= inLen && at % 16 == 0 && at == |done|
      invariant Working(src, inLen, input[..], was, out[..], done) && Decrypting(d, iv, src, inLen, done, ivBuf)
    {
      ghost var s, now := input[..], out[..];
      InFront(src, inLen, s, was, now, done);
      var c, next := CbcDecryptBlock(input, at, out, key, keysize, ivBuf);
      WorkingTurn(src, inLen, s, was, now, done, c, input[..], out[..]);
      DecryptingTurn(d, iv, src, inLen, done, ivBuf, next, c);
      done := done + c;
      ivBuf := next;
      at := at + 16;
    }
    WorkingEnd(src, inLen, input[..], was, out[..], done);
    DecryptingEnd(d, iv, src, inLen, done, ivBuf);
    ok := true;
  }

  /** aes_decrypt_cbc behind aes_encrypt_cbc, in place, gives the buffer back; a length that is not a
      multiple of 16 is refused by both. */
  method EncryptAndDecryptCbc(buf: array<bv8>, inLen: nat, key: seq<bv32>, keysize: nat, iv: Block) returns (ok: bool)
    requires GoodKey(key, keysize) && inLen <= buf.Length
    modifies buf
    ensures buf[..] == old(buf[..])
    ensures ok <==> inLen % 16 == 0
  {
    hide CbcEncrypt, CbcDecrypt, CipherOf, DecipherOf, Undoes;
    ghost var was := buf[..];
    ok := AesEncryptCbc(buf, inLen, buf, key, keysize, iv);
    if ok {
      Front(CbcEncrypt(CipherOf(key, keysize), iv, was[..inLen]), was[inLen..], buf[..]);
      CipherUndone(key, keysize);
      CbcRoundTrip(CipherOf(key, keysize), DecipherOf(key, keysize), iv, was[..inLen]);
    }
    ok := AesDecryptCbc(buf, inLen, buf, key, keysize, iv);
    assert was == was[..inLen] + was[inLen..];
  }

  lemma Front(a: seq<bv8>, b: seq<bv8>, s: seq<bv8>)
    requires s == a + b
    ensures s[..|a|] == a && s[|a|..] == b
  {
  }
}
