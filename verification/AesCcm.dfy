/** CCM as aes.c computes it: a CBC-MAC over the formatted input, and counter mode for the payload and
    the MAC. */
module AesCcm {
  import opened AesBlock
  import opened AesBuffers
  import opened AesCtr
  import opened AesModes
  import opened ByteNumbers
  import Division

  function Zeros(n: nat): (s: seq<bv8>)
    ensures |s| == n
  {
    seq(n, _ => 0)
  }

  /** The lengths aes_encrypt_ccm accepts. */
  predicate GoodLengths(assoc: seq<bv8>, nonce: seq<bv8>, macLen: nat) {
    && (macLen == 4 || macLen == 6 || macLen == 8 || macLen == 10 || macLen == 12 || macLen == 14 || macLen == 16)
    && 7 <= |nonce| <= 13
    && |assoc| <= 32768
  }

  /** ccm_prepare_first_ctr_blk */
  function FirstCounter(nonce: seq<bv8>): (b: Block)
    requires |nonce| <= 13
  {
    [Byte((15 - |nonce| - 1) % 8)] + nonce + Zeros(15 - |nonce|)
  }

  /** The flags of the first block. */
  function Flags(hasAssoc: bool, m: nat, n: nat): nat
    requires n <= 13 && m >= 2
  {
    (m - 2) / 2 % 8 * 8 + (15 - n - 1) % 8 + if hasAssoc then 0x40 else 0
  }

  /** ccm_prepare_first_format_blk; the size of the payload is stored in the last two bytes. */
  function FirstBlock(assocLen: nat, payloadLen: nat, macLen: nat, nonce: seq<bv8>): (b: Block)
    requires |nonce| <= 13 && macLen >= 2
  {
    [Byte(Flags(assocLen > 0, macLen, |nonce|))] + nonce + Zeros(13 - |nonce|)
    + [Byte(payloadLen / 256), Byte(payloadLen)]
  }

  /** ccm_format_assoc_data; a whole block of padding follows when no padding is needed. */
  function AssocData(assoc: seq<bv8>): (s: seq<bv8>)
    ensures |s| % 16 == 0
  {
    var d := [Byte(|assoc| / 256), Byte(|assoc|)] + assoc;
    Division.PaddedIs(|d|, 16);
    d + Zeros(16 - |d| % 16)
  }

  /** ccm_format_payload_data */
  function PayloadData(payload: seq<bv8>): (s: seq<bv8>)
    ensures |s| % 16 == 0
  {
    var pad := |payload| % 16;
    Division.PaddedIs(|payload|, 16);
    payload + Zeros(if pad != 0 then 16 - pad else 0)
  }

  function Joined(a: Block, b: seq<bv8>, c: seq<bv8>): (s: seq<bv8>)
    requires |b| % 16 == 0 && |c| % 16 == 0
    ensures |s| % 16 == 0 && |s| >= 16
  {
    a + b + c
  }

  function Formatted(payload: seq<bv8>, assoc: seq<bv8>, nonce: seq<bv8>, macLen: nat): (s: seq<bv8>)
    requires |nonce| <= 13 && macLen >= 2
    ensures |s| % 16 == 0 && |s| >= 16
  {
    Joined(FirstBlock(|assoc|, |payload|, macLen, nonce), AssocData(assoc), PayloadData(payload))
  }

  // What the MAC covers

  lemma TwoDigits(x: nat)
    ensures x % 65536 == 256 * (x / 256 % 256) + x % 256
  {
    Division.ModIs(x, x / 256 / 256, 256 * (x / 256 % 256) + x % 256, 65536);
  }

  lemma TwoBytes(x: nat, y: nat)
    requires Byte(x) == Byte(y) && Byte(x / 256) == Byte(y / 256)
    ensures x % 65536 == y % 65536
  {
    hide Byte;
    SameBytes(x, y);
    SameBytes(x / 256, y / 256);
    TwoDigits(x);
    TwoDigits(y);
  }

  /** The three parts of the flags. */
  lemma FlagsAre(h: bool, m: nat, n: nat)
    requires 7 <= n <= 13 && m % 2 == 0 && 4 <= m <= 16
    ensures var v := Flags(h, m, n); v % 256 == v && v % 8 == 14 - n && v / 8 % 8 == (m - 2) / 2
  {
    var q, r, t := (m - 2) / 2, 14 - n, if h then 8 else 0;
    assert q < 8 && r < 8 && q % 8 == q && (15 - n - 1) % 8 == r;
    assert Flags(h, m, n) == (t + q) * 8 + r;
    Division.ModIs(Flags(h, m, n), t + q, r, 8);
  }

  lemma FlagsDetermine(h: bool, m: nat, n: nat, h': bool, m': nat, n': nat)
    requires 7 <= n <= 13 && 7 <= n' <= 13 && m % 2 == 0 && m' % 2 == 0 && 4 <= m <= 16 && 4 <= m' <= 16
    requires Byte(Flags(h, m, n)) == Byte(Flags(h', m', n'))
    ensures m == m' && n == n'
  {
    hide Byte, Flags;
    SameBytes(Flags(h, m, n), Flags(h', m', n'));
    FlagsAre(h, m, n);
    FlagsAre(h', m', n');
    assert Flags(h, m, n) == Flags(h', m', n');
  }

  lemma BytesOfFirstBlock(a: nat, p: nat, m: nat, nonce: seq<bv8>)
    requires |nonce| <= 13 && m >= 2
    ensures var b := FirstBlock(a, p, m, nonce);
            && b[0] == Byte(Flags(a > 0, m, |nonce|)) && b[1..1 + |nonce|] == nonce
            && b[14] == Byte(p / 256) && b[15] == Byte(p)
  {
    hide Byte;
  }

  /** The first block determines the nonce, the length of the MAC and, modulo 2^16, that of the payload. */
  lemma FirstBlockDetermines(a: nat, p: nat, m: nat, nonce: seq<bv8>, a': nat, p': nat, m': nat, nonce': seq<bv8>)
    requires 7 <= |nonce| <= 13 && 7 <= |nonce'| <= 13 && m % 2 == 0 && m' % 2 == 0 && 4 <= m <= 16 && 4 <= m' <= 16
    requires FirstBlock(a, p, m, nonce) == FirstBlock(a', p', m', nonce')
    ensures m == m' && nonce == nonce' && p % 65536 == p' % 65536
  {
    hide Byte, Flags, FirstBlock;
    BytesOfFirstBlock(a, p, m, nonce);
    BytesOfFirstBlock(a', p', m', nonce');
    FlagsDetermine(a > 0, m, |nonce|, a' > 0, m', |nonce'|);
    TwoBytes(p, p');
  }

  lemma AssocDataDetermines(a: seq<bv8>, a': seq<bv8>, x: seq<bv8>, x': seq<bv8>)
    requires |a| <= 32768 && |a'| <= 32768 && AssocData(a) + x == AssocData(a') + x'
    ensures a == a' && x == x'
  {
    hide Byte, AssocData;
    SizeOfAssoc(a, x);
    SizeOfAssoc(a', x');
    TwoBytes(|a|, |a'|);
    SameAssocSize(a, a');
    assert x == (AssocData(a) + x)[|AssocData(a)|..] && x' == (AssocData(a') + x')[|AssocData(a)|..];
  }

  lemma SizeOfAssoc(a: seq<bv8>, x: seq<bv8>)
    ensures var s := AssocData(a) + x;
            |s| >= 2 + |a| && s[0] == Byte(|a| / 256) && s[1] == Byte(|a|) && s[2..2 + |a|] == a
  {
    hide Byte;
  }

  lemma SameAssocSize(a: seq<bv8>, a': seq<bv8>)
    requires |a| == |a'|
    ensures |AssocData(a)| == |AssocData(a')|
  {
    hide Byte;
  }

  lemma PayloadDataDetermines(p: seq<bv8>, p': seq<bv8>)
    requires |p| % 65536 == |p'| % 65536 && PayloadData(p) == PayloadData(p')
    ensures p == p'
  {
    var d, d' := PayloadData(p), PayloadData(p');
    assert |d| - 16 < |p| <= |d| && |d| - 16 < |p'| <= |d|;
    assert p == d[..|p|] && p' == d'[..|p|];
  }

  /** Different payloads, associated data, nonces or MAC lengths are formatted differently. */
  lemma FormattedIsInjective(p: seq<bv8>, a: seq<bv8>, nonce: seq<bv8>, m: nat,
                             p': seq<bv8>, a': seq<bv8>, nonce': seq<bv8>, m': nat)
    requires GoodLengths(a, nonce, m) && GoodLengths(a', nonce', m')
    ensures Formatted(p, a, nonce, m) == Formatted(p', a', nonce', m')
       <==> p == p' && a == a' && nonce == nonce' && m == m'
  {
    hide FirstBlock, AssocData, PayloadData, Joined;
    if Formatted(p, a, nonce, m) == Formatted(p', a', nonce', m') {
      var b, b' := FirstBlock(|a|, |p|, m, nonce), FirstBlock(|a'|, |p'|, m', nonce');
      JoinedDetermines(b, AssocData(a), PayloadData(p), b', AssocData(a'), PayloadData(p'));
      FirstBlockDetermines(|a|, |p|, m, nonce, |a'|, |p'|, m', nonce');
      AssocDataDetermines(a, a', PayloadData(p), PayloadData(p'));
      PayloadDataDetermines(p, p');
    }
  }

  lemma JoinedDetermines(a: Block, b: seq<bv8>, c: seq<bv8>, a': Block, b': seq<bv8>, c': seq<bv8>)
    requires |b| % 16 == |c| % 16 == |b'| % 16 == |c'| % 16 == 0 && Joined(a, b, c) == Joined(a', b', c')
    ensures a == a' && b + c == b' + c'
  {
    var s, s' := Joined(a, b, c), Joined(a', b', c');
    assert s[..16] == a && s'[..16] == a' && s[16..] == b + c && s'[16..] == b' + c';
  }

  /** Different nonces start from different counters. */
  lemma CounterDetermines(nonce: seq<bv8>, nonce': seq<bv8>)
    requires 7 <= |nonce| <= 13 && 7 <= |nonce'| <= 13 && FirstCounter(nonce) == FirstCounter(nonce')
    ensures nonce == nonce'
  {
    hide Byte;
    var b, b' := FirstCounter(nonce), FirstCounter(nonce');
    assert b[0] == Byte((15 - |nonce| - 1) % 8) && b'[0] == Byte((15 - |nonce'| - 1) % 8);
    SameBytes((15 - |nonce| - 1) % 8, (15 - |nonce'| - 1) % 8);
    assert nonce == b[1..1 + |nonce|] && nonce' == b'[1..1 + |nonce|];
  }

  function Mac(e: Cipher, payload: seq<bv8>, assoc: seq<bv8>, nonce: seq<bv8>, macLen: nat): (m: seq<bv8>)
    requires |nonce| <= 13 && 2 <= macLen <= 16
    ensures |m| == macLen
  {
    CbcMac(e, Zeros(16), Formatted(payload, assoc, nonce, macLen))[..macLen]
  }

  datatype Sealed = Refused | Sealed(out: seq<bv8>)

  function CcmEncrypt(e: Cipher, payload: seq<bv8>, assoc: seq<bv8>, nonce: seq<bv8>, macLen: nat): Sealed {
    if !GoodLengths(assoc, nonce, macLen) then Refused
    else
      var counter := FirstCounter(nonce);
      Sealed.Sealed(Ctr(e, IncrementLast(counter, 15 - macLen), payload)
                    + Ctr(e, counter, Mac(e, payload, assoc, nonce, macLen)))
  }

  datatype Opened = TooShort | Opened(plaintext: seq<bv8>, macAuth: bool)

  /** The decrypted payload, whatever its MAC. */
  function CcmPlain(e: Cipher, ciphertext: seq<bv8>, nonce: seq<bv8>, macLen: nat): (r: seq<bv8>)
    requires |nonce| <= 13 && macLen <= |ciphertext|
    ensures |r| == |ciphertext| - macLen
  {
    Ctr(e, IncrementLast(FirstCounter(nonce), 15 - macLen), ciphertext[..|ciphertext| - macLen])
  }

  /** The decryption does not check the lengths that the encryption checks. */
  function CcmDecrypt(e: Cipher, ciphertext: seq<bv8>, assoc: seq<bv8>, nonce: seq<bv8>, macLen: nat): Opened
    requires |nonce| <= 13 && 2 <= macLen <= 16
  {
    if |ciphertext| <= macLen then TooShort
    else
      var n := |ciphertext| - macLen;
      var plaintext := CcmPlain(e, ciphertext, nonce, macLen);
      var mac := Ctr(e, FirstCounter(nonce), ciphertext[n..]);
      var auth := mac == Mac(e, plaintext, assoc, nonce, macLen);
      Opened.Opened(if auth then plaintext else Zeros(n), auth)
  }

  /** Decryption gets the payload back, with the MAC accepted, for every cipher and every payload
      except the empty one, which encryption accepts and decryption refuses. */
  lemma CcmRoundTrip(e: Cipher, payload: seq<bv8>, assoc: seq<bv8>, nonce: seq<bv8>, macLen: nat)
    requires GoodLengths(assoc, nonce, macLen)
    ensures CcmEncrypt(e, payload, assoc, nonce, macLen).Sealed?
    ensures CcmDecrypt(e, CcmEncrypt(e, payload, assoc, nonce, macLen).out, assoc, nonce, macLen)
         == if payload == [] then TooShort else Opened.Opened(payload, true)
    ensures CcmPlain(e, CcmEncrypt(e, payload, assoc, nonce, macLen).out, nonce, macLen) == payload
  {
    hide Ctr, Mac, FirstCounter, IncrementLast;
    var counter := FirstCounter(nonce);
    var mac := Mac(e, payload, assoc, nonce, macLen);
    var a, b := Ctr(e, IncrementLast(counter, 15 - macLen), payload), Ctr(e, counter, mac);
    assert (a + b)[..|a|] == a && (a + b)[|a|..] == b;
    CtrTwice(e, IncrementLast(counter, 15 - macLen), payload);
    CtrTwice(e, counter, mac);
  }

  /** Another MAC is rejected: whatever arrives is accepted only with the MAC of what it decrypts to. */
  lemma CcmAcceptsOnlyItsMac(e: Cipher, ciphertext: seq<bv8>, assoc: seq<bv8>, nonce: seq<bv8>, macLen: nat)
    requires GoodLengths(assoc, nonce, macLen) && CcmDecrypt(e, ciphertext, assoc, nonce, macLen).Opened?
    requires CcmDecrypt(e, ciphertext, assoc, nonce, macLen).macAuth
    ensures CcmEncrypt(e, CcmDecrypt(e, ciphertext, assoc, nonce, macLen).plaintext, assoc, nonce, macLen)
         == Sealed.Sealed(ciphertext)
  {
    hide Ctr, Mac, FirstCounter, IncrementLast;
    var n := |ciphertext| - macLen;
    var counter := FirstCounter(nonce);
    CtrTwice(e, IncrementLast(counter, 15 - macLen), ciphertext[..n]);
    CtrTwice(e, counter, ciphertext[n..]);
    assert ciphertext == ciphertext[..n] + ciphertext[n..];
  }

  // The procedures

  lemma MacStep(e: Cipher, iv: Block, data: seq<bv8>)
    requires |data| % 16 == 0 && |data| >= 16
    ensures CbcMac(e, iv, data) == CbcMac(e, e(XorBuf(iv, data[..16])), data[16..])
  {
  }

  /** aes_encrypt_cbc_mac: only the last block is put out. */
  method AesEncryptCbcMac(data: seq<bv8>, key: seq<bv32>, keysize: nat, iv: Block) returns (mac: Block)
    requires GoodKey(key, keysize) && |data| % 16 == 0
    ensures mac == CbcMac(CipherOf(key, keysize), iv, data)
  {
    hide XorBuf, Encrypt, CbcMac;
    ghost var e := CipherOf(key, keysize);
    mac := iv;
    var rest := data;
    while |rest| > 0
      invariant |rest| % 16 == 0 && CbcMac(e, iv, data) == CbcMac(e, mac, rest)
      decreases |rest|
    {
      MacStep(e, mac, rest);
      var x: Block := XorBuf(mac, rest[..16]);
      mac := AesEncrypt(x, key, keysize);
      rest := rest[16..];
    }
    MacEnd(e, mac, rest);
  }

  lemma MacEnd(e: Cipher, iv: Block, data: seq<bv8>)
    requires data == []
    ensures CbcMac(e, iv, data) == iv
  {
  }

  /** memcpy */
  method Copy(data: seq<bv8>, out: array<bv8>, at: nat)
    requires at + |data| <= out.Length
    modifies out
    ensures out[..] == old(out[..])[..at] + data + old(out[..])[at + |data|..]
  {
    for i := 0 to |data|
      invariant forall k :: 0 <= k < out.Length ==> out[k] == if at <= k < at + i then data[k - at] else old(out[..])[k]
    {
      out[at + i] := data[i];
    }
    ghost var r := old(out[..])[..at] + data + old(out[..])[at + |data|..];
    assert out[..] == r;
  }

  /** The payload and the MAC, encrypted where they stand. */
  method SealInPlace(out: array<bv8>, n: nat, macLen: nat, nonce: seq<bv8>, key: seq<bv32>, keysize: nat)
    requires GoodKey(key, keysize) && n + macLen <= out.Length && |nonce| <= 13 && macLen <= 16
    modifies out
    ensures var e, was := CipherOf(key, keysize), old(out[..]);
            out[..] == Ctr(e, IncrementLast(FirstCounter(nonce), 15 - macLen), was[..n])
                       + Ctr(e, FirstCounter(nonce), was[n..n + macLen]) + was[n + macLen..]
  {
    hide Ctr, CipherOf, IncrementLast, FirstCounter;
    ghost var e, was := CipherOf(key, keysize), out[..];
    var counter := FirstCounter(nonce);
    var tempIv := new bv8[16](i requires 0 <= i < 16 => counter[i]);
    assert tempIv[..] == counter;
    IncrementIv(tempIv, 15 - macLen);
    CtrInPlace(out, 0, n, key, keysize, tempIv[..]);
    ghost var a := Ctr(e, IncrementLast(counter, 15 - macLen), was[..n]);
    assert out[..] == a + was[n..] by { FrontDone(was, n, a, out[..]); }
    ghost var now := out[..];
    MacBehind(was, n, macLen, a, now);
    assert out[..n] == now[..n] && out[n..n + macLen] == now[n..n + macLen] && out[n + macLen..] == now[n + macLen..];
    CtrInPlace(out, n, macLen, key, keysize, counter);
  }

  lemma FrontDone(was: seq<bv8>, n: nat, a: seq<bv8>, now: seq<bv8>)
    requires n <= |was| && |a| == n && now == was[..0] + a + was[0 + n..]
    ensures now == a + was[n..]
  {
  }

  lemma MacBehind(was: seq<bv8>, n: nat, m: nat, a: seq<bv8>, now: seq<bv8>)
    requires n + m <= |was| && |a| == n && now == a + was[n..]
    ensures |now| == |was| && now[..n] == a && now[n..n + m] == was[n..n + m] && now[n + m..] == was[n + m..]
  {
  }

  method AesEncryptCcm(payload: seq<bv8>, assoc: seq<bv8>, nonce: seq<bv8>, out: array<bv8>, macLen: nat,
                       key: seq<bv32>, keysize: nat) returns (ok: bool)
    requires GoodKey(key, keysize) && out.Length == |payload| + macLen
    modifies out
    ensures ok <==> GoodLengths(assoc, nonce, macLen)
    ensures ok ==> CcmEncrypt(CipherOf(key, keysize), payload, assoc, nonce, macLen) == Sealed.Sealed(out[..])
  {
    hide Ctr, CipherOf, IncrementLast, FirstCounter, Formatted, CbcMac;
    if macLen != 4 && macLen != 6 && macLen != 8 && macLen != 10 && macLen != 12 && macLen != 14 && macLen != 16 {
      return false;
    }
    if |nonce| < 7 || |nonce| > 13 {
      return false;
    }
    if |assoc| > 32768 {
      return false;
    }
    var mac := AesEncryptCbcMac(Formatted(payload, assoc, nonce, macLen), key, keysize, Zeros(16));
    var n := |payload|;
    ghost var was := out[..];
    Copy(payload, out, 0);
    Copy(mac[..macLen], out, n);
    Assembled(was, payload, mac[..macLen], out[..]);
    SealInPlace(out, n, macLen, nonce, key, keysize);
    assert |out[..]| == n + macLen;
    ok := true;
  }

  lemma Assembled(was: seq<bv8>, payload: seq<bv8>, mac: seq<bv8>, now: seq<bv8>)
    requires |was| == |payload| + |mac|
    requires var mid := was[..0] + payload + was[0 + |payload|..];
        now == mid[..|payload|] + mac + mid[|payload| + |mac|..]
    ensures now[..|payload|] == payload && now[|payload|..|payload| + |mac|] == mac && now[|payload| + |mac|..] == []
  {
  }

  method CopyOf(data: seq<bv8>) returns (a: array<bv8>)
    ensures fresh(a) && a[..] == data
  {
    a := new bv8[|data|](i requires 0 <= i < |data| => data[i]);
  }

  /** Counter mode on a whole buffer. */
  method CtrWhole(buf: array<bv8>, key: seq<bv32>, keysize: nat, iv: Block)
    requires GoodKey(key, keysize)
    modifies buf
    ensures buf[..] == Ctr(CipherOf(key, keysize), iv, old(buf[..]))
  {
    hide Ctr, CipherOf;
    ghost var was := buf[..];
    assert buf[0..buf.Length] == was && buf[..0] == [] && buf[buf.Length..] == [];
    CtrInPlace(buf, 0, buf.Length, key, keysize, iv);
    assert [] + Ctr(CipherOf(key, keysize), iv, was) + [] == Ctr(CipherOf(key, keysize), iv, was);
  }

  /** With `check` off, which is a null pointer for the verdict, the MAC is not looked at. */
  method AesDecryptCcm(ciphertext: seq<bv8>, assoc: seq<bv8>, nonce: seq<bv8>, plaintext: array<bv8>, macLen: nat,
                       check: bool, key: seq<bv32>, keysize: nat) returns (ok: bool, macAuth: bool)
    requires GoodKey(key, keysize) && |nonce| <= 13 && 2 <= macLen <= 16
    requires |ciphertext| > macLen ==> plaintext.Length == |ciphertext| - macLen
    modifies plaintext
    ensures ok <==> |ciphertext| > macLen
    ensures ok && check ==>
      CcmDecrypt(CipherOf(key, keysize), ciphertext, assoc, nonce, macLen) == Opened.Opened(plaintext[..], macAuth)
    ensures ok && !check ==> plaintext[..] == CcmPlain(CipherOf(key, keysize), ciphertext, nonce, macLen)
  {
    hide Ctr, CipherOf, IncrementLast, FirstCounter, Formatted, CbcMac;
    if |ciphertext| <= macLen {
      return false, false;
    }
    var n := |ciphertext| - macLen;
    ghost var was := plaintext[..];
    Copy(ciphertext[..n], plaintext, 0);
    assert plaintext[..] == ciphertext[..n] by { Whole(was, ciphertext[..n], plaintext[..]); }
    var counter := FirstCounter(nonce);
    var tempIv := CopyOf(counter);
    IncrementIv(tempIv, 15 - macLen);
    CtrWhole(plaintext, key, keysize, tempIv[..]);
    if !check {
      return true, false;
    }
    var mac := CopyOf(ciphertext[n..]);
    CtrWhole(mac, key, keysize, counter);
    var macBuf := AesEncryptCbcMac(Formatted(plaintext[..], assoc, nonce, macLen), key, keysize, Zeros(16));
    if mac[..] == macBuf[..macLen] {
      macAuth := true;
    } else {
      macAuth := false;
      ghost var p := plaintext[..];
      Copy(Zeros(n), plaintext, 0);
      assert plaintext[..] == Zeros(n) by { Whole(p, Zeros(n), plaintext[..]); }
    }
    ok := true;
  }

  lemma Whole(was: seq<bv8>, data: seq<bv8>, now: seq<bv8>)
    requires |was| == |data| && now == was[..0] + data + was[0 + |data|..]
    ensures now == data
  {
  }

  /** aes_decrypt_ccm behind aes_encrypt_ccm gives the payload back and accepts its MAC; only an empty
      payload is not opened. */
  method SealAndOpen(payload: seq<bv8>, assoc: seq<bv8>, nonce: seq<bv8>, macLen: nat, check: bool, key: seq<bv32>,
                     keysize: nat, plaintext: array<bv8>) returns (sealed: bool, accepted: bool, macAuth: bool)
    requires GoodKey(key, keysize) && plaintext.Length == |payload|
    modifies plaintext
    ensures sealed <==> GoodLengths(assoc, nonce, macLen)
    ensures accepted <==> sealed && payload != []
    ensures accepted ==> plaintext[..] == payload && (check ==> macAuth)
  {
    hide CipherOf, CcmEncrypt, CcmDecrypt, CcmPlain;
    accepted, macAuth := false, false;
    var out := new bv8[|payload| + macLen];
    sealed := AesEncryptCcm(payload, assoc, nonce, out, macLen, key, keysize);
    if sealed {
      CcmRoundTrip(CipherOf(key, keysize), payload, assoc, nonce, macLen);
      accepted, macAuth := AesDecryptCcm(out[..], assoc, nonce, plaintext, macLen, check, key, keysize);
    }
  }
}
