/** AES on one block, step by step on the state array. */
module AesBlock {
  import opened AesCipher
  import opened AesTables

  type Block = b: seq<bv8> | |b| == 16 witness seq(16, _ => 0)

  predicate IsState(st: array2<bv8>) { st.Length0 == 4 && st.Length1 == 4 }

  function ColumnAt(st: array2<bv8>, c: nat): Column
    requires IsState(st) && c < 4
    reads st
  {
    Column(st[0, c], st[1, c], st[2, c], st[3, c])
  }

  function Read(st: array2<bv8>): State
    requires IsState(st)
    reads st
  {
    State(ColumnAt(st, 0), ColumnAt(st, 1), ColumnAt(st, 2), ColumnAt(st, 3))
  }

  /** A row of the state, from left to right. */
  function RowAt(st: array2<bv8>, r: nat): Column
    requires IsState(st) && r < 4
    reads st
  {
    Column(st[r, 0], st[r, 1], st[r, 2], st[r, 3])
  }

  method SubBytesRow(st: array2<bv8>, r: nat)
    requires IsState(st) && r < 4
    modifies st
    ensures RowAt(st, r) == Map(Sbox, old(RowAt(st, r)))
    ensures forall q :: 0 <= q < 4 && q != r ==> RowAt(st, q) == old(RowAt(st, q))
  {
    hide Sbox;
    st[r, 0] := Sbox(st[r, 0]);
    st[r, 1] := Sbox(st[r, 1]);
    st[r, 2] := Sbox(st[r, 2]);
    st[r, 3] := Sbox(st[r, 3]);
  }

  method SubBytesInPlace(st: array2<bv8>)
    requires IsState(st)
    modifies st
    ensures Read(st) == SubBytes(old(Read(st)))
  {
    hide Sbox;
    SubBytesRow(st, 0);
    SubBytesRow(st, 1);
    SubBytesRow(st, 2);
    SubBytesRow(st, 3);
  }

  method InvSubBytesRow(st: array2<bv8>, r: nat)
    requires IsState(st) && r < 4
    modifies st
    ensures RowAt(st, r) == Map(InvSbox, old(RowAt(st, r)))
    ensures forall q :: 0 <= q < 4 && q != r ==> RowAt(st, q) == old(RowAt(st, q))
  {
    hide InvSbox;
    st[r, 0] := InvSbox(st[r, 0]);
    st[r, 1] := InvSbox(st[r, 1]);
    st[r, 2] := InvSbox(st[r, 2]);
    st[r, 3] := InvSbox(st[r, 3]);
  }

  method InvSubBytesInPlace(st: array2<bv8>)
    requires IsState(st)
    modifies st
    ensures Read(st) == InvSubBytes(old(Read(st)))
  {
    hide InvSbox;
    InvSubBytesRow(st, 0);
    InvSubBytesRow(st, 1);
    InvSubBytesRow(st, 2);
    InvSubBytesRow(st, 3);
  }

  method ShiftRowsRow1(st: array2<bv8>)
    requires IsState(st)
    modifies st
    ensures var x := old(RowAt(st, 1)); RowAt(st, 1) == Column(x.b1, x.b2, x.b3, x.b0)
    ensures RowAt(st, 0) == old(RowAt(st, 0))
    ensures RowAt(st, 2) == old(RowAt(st, 2))
    ensures RowAt(st, 3) == old(RowAt(st, 3))
  {
    var t := st[1, 0];
    st[1, 0] := st[1, 1];
    st[1, 1] := st[1, 2];
    st[1, 2] := st[1, 3];
    st[1, 3] := t;
  }

  method ShiftRowsRow2(st: array2<bv8>)
    requires IsState(st)
    modifies st
    ensures var x := old(RowAt(st, 2)); RowAt(st, 2) == Column(x.b2, x.b3, x.b0, x.b1)
    ensures RowAt(st, 0) == old(RowAt(st, 0))
    ensures RowAt(st, 1) == old(RowAt(st, 1))
    ensures RowAt(st, 3) == old(RowAt(st, 3))
  {
    var t := st[2, 0];
    st[2, 0] := st[2, 2];
    st[2, 2] := t;
    t := st[2, 1];
    st[2, 1] := st[2, 3];
    st[2, 3] := t;
  }

  method ShiftRowsRow3(st: array2<bv8>)
    requires IsState(st)
    modifies st
    ensures var x := old(RowAt(st, 3)); RowAt(st, 3) == Column(x.b3, x.b0, x.b1, x.b2)
    ensures RowAt(st, 0) == old(RowAt(st, 0))
    ensures RowAt(st, 1) == old(RowAt(st, 1))
    ensures RowAt(st, 2) == old(RowAt(st, 2))
  {
    var t := st[3, 0];
    st[3, 0] := st[3, 3];
    st[3, 3] := st[3, 2];
    st[3, 2] := st[3, 1];
    st[3, 1] := t;
  }

  method ShiftRowsInPlace(st: array2<bv8>)
    requires IsState(st)
    modifies st
    ensures Read(st) == ShiftRows(old(Read(st)))
  {
    ShiftRowsRow1(st);
    ShiftRowsRow2(st);
    ShiftRowsRow3(st);
  }

  method InvShiftRowsRow1(st: array2<bv8>)
    requires IsState(st)
    modifies st
    ensures var x := old(RowAt(st, 1)); RowAt(st, 1) == Column(x.b3, x.b0, x.b1, x.b2)
    ensures RowAt(st, 0) == old(RowAt(st, 0))
    ensures RowAt(st, 2) == old(RowAt(st, 2))
    ensures RowAt(st, 3) == old(RowAt(st, 3))
  {
    var t := st[1, 3];
    st[1, 3] := st[1, 2];
    st[1, 2] := st[1, 1];
    st[1, 1] := st[1, 0];
    st[1, 0] := t;
  }

  method InvShiftRowsRow2(st: array2<bv8>)
    requires IsState(st)
    modifies st
    ensures var x := old(RowAt(st, 2)); RowAt(st, 2) == Column(x.b2, x.b3, x.b0, x.b1)
    ensures RowAt(st, 0) == old(RowAt(st, 0))
    ensures RowAt(st, 1) == old(RowAt(st, 1))
    ensures RowAt(st, 3) == old(RowAt(st, 3))
  {
    var t := st[2, 3];
    st[2, 3] := st[2, 1];
    st[2, 1] := t;
    t := st[2, 2];
    st[2, 2] := st[2, 0];
    st[2, 0] := t;
  }

  method InvShiftRowsRow3(st: array2<bv8>)
    requires IsState(st)
    modifies st
    ensures var x := old(RowAt(st, 3)); RowAt(st, 3) == Column(x.b1, x.b2, x.b3, x.b0)
    ensures RowAt(st, 0) == old(RowAt(st, 0))
    ensures RowAt(st, 1) == old(RowAt(st, 1))
    ensures RowAt(st, 2) == old(RowAt(st, 2))
  {
    var t := st[3, 3];
    st[3, 3] := st[3, 0];
    st[3, 0] := st[3, 1];
    st[3, 1] := st[3, 2];
    st[3, 2] := t;
  }

  method InvShiftRowsInPlace(st: array2<bv8>)
    requires IsState(st)
    modifies st
    ensures Read(st) == InvShiftRows(old(Read(st)))
  {
    InvShiftRowsRow1(st);
    InvShiftRowsRow2(st);
    InvShiftRowsRow3(st);
  }

  /** One column of MixColumns, from a copy of the column. */
  method MixColumnInPlace(st: array2<bv8>, c: nat)
    requires IsState(st) && c < 4
    modifies st
    ensures ColumnAt(st, c) == MixColumn(old(ColumnAt(st, c)))
    ensures forall d :: 0 <= d < 4 && d != c ==> ColumnAt(st, d) == old(ColumnAt(st, d))
  {
    hide Twice, Mul3, Plus;
    var col := ColumnAt(st, c);
    Chains(col);
    st[0, c] := Plus(Plus(Plus(Twice(col.b0), Mul3(col.b1)), col.b2), col.b3);
    st[1, c] := Plus(Plus(Plus(col.b0, Twice(col.b1)), Mul3(col.b2)), col.b3);
    st[2, c] := Plus(Plus(Plus(col.b0, col.b1), Twice(col.b2)), Mul3(col.b3));
    st[3, c] := Plus(Plus(Plus(Mul3(col.b0), col.b1), col.b2), Twice(col.b3));
  }

  lemma Chain(a: bv8, b: bv8, c: bv8, d: bv8)
    ensures Plus(Plus(Plus(a, b), c), d) == Plus4(a, b, c, d)
  {
  }

  lemma Chains(c: Column)
    ensures Plus(Plus(Plus(Twice(c.b0), Mul3(c.b1)), c.b2), c.b3) == MixColumn(c).b0
    ensures Plus(Plus(Plus(c.b0, Twice(c.b1)), Mul3(c.b2)), c.b3) == MixColumn(c).b1
    ensures Plus(Plus(Plus(c.b0, c.b1), Twice(c.b2)), Mul3(c.b3)) == MixColumn(c).b2
    ensures Plus(Plus(Plus(Mul3(c.b0), c.b1), c.b2), Twice(c.b3)) == MixColumn(c).b3
  {
    hide Plus, Plus4, Twice, Mul3;
    Chain(Twice(c.b0), Mul3(c.b1), c.b2, c.b3);
    Chain(c.b0, Twice(c.b1), Mul3(c.b2), c.b3);
    Chain(c.b0, c.b1, Twice(c.b2), Mul3(c.b3));
    Chain(Mul3(c.b0), c.b1, c.b2, Twice(c.b3));
  }

  method MixColumnsInPlace(st: array2<bv8>)
    requires IsState(st)
    modifies st
    ensures Read(st) == MixColumns(old(Read(st)))
  {
    hide MixColumn, ColumnAt;
    MixColumnInPlace(st, 0);
    MixColumnInPlace(st, 1);
    MixColumnInPlace(st, 2);
    MixColumnInPlace(st, 3);
  }

  method InvMixColumnInPlace(st: array2<bv8>, c: nat)
    requires IsState(st) && c < 4
    modifies st
    ensures ColumnAt(st, c) == InvMixColumn(old(ColumnAt(st, c)))
    ensures forall d :: 0 <= d < 4 && d != c ==> ColumnAt(st, d) == old(ColumnAt(st, d))
  {
    hide Mul9, Mul11, Mul13, Mul14, Plus;
    var col := ColumnAt(st, c);
    InvChains(col);
    st[0, c] := Plus(Plus(Plus(Mul14(col.b0), Mul11(col.b1)), Mul13(col.b2)), Mul9(col.b3));
    st[1, c] := Plus(Plus(Plus(Mul9(col.b0), Mul14(col.b1)), Mul11(col.b2)), Mul13(col.b3));
    st[2, c] := Plus(Plus(Plus(Mul13(col.b0), Mul9(col.b1)), Mul14(col.b2)), Mul11(col.b3));
    st[3, c] := Plus(Plus(Plus(Mul11(col.b0), Mul13(col.b1)), Mul9(col.b2)), Mul14(col.b3));
  }

  lemma InvChains(c: Column)
    ensures Plus(Plus(Plus(Mul14(c.b0), Mul11(c.b1)), Mul13(c.b2)), Mul9(c.b3)) == InvMixColumn(c).b0
    ensures Plus(Plus(Plus(Mul9(c.b0), Mul14(c.b1)), Mul11(c.b2)), Mul13(c.b3)) == InvMixColumn(c).b1
    ensures Plus(Plus(Plus(Mul13(c.b0), Mul9(c.b1)), Mul14(c.b2)), Mul11(c.b3)) == InvMixColumn(c).b2
    ensures Plus(Plus(Plus(Mul11(c.b0), Mul13(c.b1)), Mul9(c.b2)), Mul14(c.b3)) == InvMixColumn(c).b3
  {
    hide Plus, Plus4, Mul9, Mul11, Mul13, Mul14;
    Chain(Mul14(c.b0), Mul11(c.b1), Mul13(c.b2), Mul9(c.b3));
    Chain(Mul9(c.b0), Mul14(c.b1), Mul11(c.b2), Mul13(c.b3));
    Chain(Mul13(c.b0), Mul9(c.b1), Mul14(c.b2), Mul11(c.b3));
    Chain(Mul11(c.b0), Mul13(c.b1), Mul9(c.b2), Mul14(c.b3));
  }

  method InvMixColumnsInPlace(st: array2<bv8>)
    requires IsState(st)
    modifies st
    ensures Read(st) == InvMixColumns(old(Read(st)))
  {
    hide InvMixColumn, ColumnAt;
    InvMixColumnInPlace(st, 0);
    InvMixColumnInPlace(st, 1);
    InvMixColumnInPlace(st, 2);
    InvMixColumnInPlace(st, 3);
  }

  /** One of the four subkeys. */
  method AddSubkey(st: array2<bv8>, c: nat, w: bv32)
    requires IsState(st) && c < 4
    modifies st
    ensures ColumnAt(st, c) == XorColumn(old(ColumnAt(st, c)), KeyColumn(w))
    ensures forall d :: 0 <= d < 4 && d != c ==> ColumnAt(st, d) == old(ColumnAt(st, d))
  {
    hide Plus, KeyColumn;
    var subkey := KeyColumn(w);
    st[0, c] := Plus(st[0, c], subkey.b0);
    st[1, c] := Plus(st[1, c], subkey.b1);
    st[2, c] := Plus(st[2, c], subkey.b2);
    st[3, c] := Plus(st[3, c], subkey.b3);
  }

  method AddRoundKeyInPlace(st: array2<bv8>, key: seq<bv32>, at: nat, ghost i: nat)
    requires IsState(st) && at == 4 * i && at + 4 <= |key|
    modifies st
    ensures Read(st) == AddRoundKey(old(Read(st)), RoundKey(key, i))
  {
    hide XorColumn, ColumnAt, KeyColumn;
    AddSubkey(st, 0, key[at]);
    AddSubkey(st, 1, key[at + 1]);
    AddSubkey(st, 2, key[at + 2]);
    AddSubkey(st, 3, key[at + 3]);
  }

  // Whole blocks

  /** The bytes of a block go into the state column by column. */
  function StateOf(b: Block): State {
    State(Column(b[0], b[1], b[2], b[3]), Column(b[4], b[5], b[6], b[7]),
          Column(b[8], b[9], b[10], b[11]), Column(b[12], b[13], b[14], b[15]))
  }

  function ColumnBytes(c: Column): (s: seq<bv8>)
    ensures |s| == 4
  {
    [c.b0, c.b1, c.b2, c.b3]
  }

  function BlockOf(s: State): Block {
    ColumnBytes(s.c0) + ColumnBytes(s.c1) + ColumnBytes(s.c2) + ColumnBytes(s.c3)
  }

  lemma BytesOfColumns(a: seq<bv8>, b: seq<bv8>, c: seq<bv8>, d: seq<bv8>, k: nat)
    requires |a| == |b| == |c| == |d| == 4 && k < 4
    ensures var r := a + b + c + d; r[k] == a[k] && r[4 + k] == b[k] && r[8 + k] == c[k] && r[12 + k] == d[k]
  {
  }

  lemma StateOfBlock(s: State)
    ensures StateOf(BlockOf(s)) == s
  {
    var a, b, c, d := ColumnBytes(s.c0), ColumnBytes(s.c1), ColumnBytes(s.c2), ColumnBytes(s.c3);
    BytesOfColumns(a, b, c, d, 0);
    BytesOfColumns(a, b, c, d, 1);
    BytesOfColumns(a, b, c, d, 2);
    BytesOfColumns(a, b, c, d, 3);
  }

  lemma BlockOfState(b: Block)
    ensures BlockOf(StateOf(b)) == b
  {
    var s := StateOf(b);
    ColumnIs(b, 0);
    ColumnIs(b, 4);
    ColumnIs(b, 8);
    ColumnIs(b, 12);
    assert b == b[0..4] + b[4..8] + b[8..12] + b[12..16];
  }

  lemma ColumnIs(b: Block, i: nat)
    requires i <= 12
    ensures ColumnBytes(Column(b[i], b[i + 1], b[i + 2], b[i + 3])) == b[i..i + 4]
  {
  }

  method Load(b: Block) returns (st: array2<bv8>)
    ensures fresh(st) && IsState(st) && Read(st) == StateOf(b)
  {
    st := new bv8[4, 4]((r, c) requires 0 <= r < 4 && 0 <= c < 4 => b[4 * c + r]);
  }

  predicate GoodKeysize(keysize: nat) { keysize == 128 || keysize == 192 || keysize == 256 }

  function RoundCount(keysize: nat): nat
    requires GoodKeysize(keysize)
  {
    if keysize == 128 then 10 else if keysize == 192 then 12 else 14
  }

  ghost predicate GoodKey(key: seq<bv32>, keysize: nat) { GoodKeysize(keysize) && 4 * RoundCount(keysize) + 4 <= |key| }

  function Encrypt(b: Block, key: seq<bv32>, keysize: nat): Block
    requires GoodKeysize(keysize) && 4 * RoundCount(keysize) + 4 <= |key|
  {
    BlockOf(Encrypted(StateOf(b), key, RoundCount(keysize)))
  }

  function Decrypt(b: Block, key: seq<bv32>, keysize: nat): Block
    requires GoodKeysize(keysize) && 4 * RoundCount(keysize) + 4 <= |key|
  {
    BlockOf(Decrypted(StateOf(b), key, RoundCount(keysize)))
  }

  /** aes_decrypt undoes aes_encrypt, whatever the words of the key schedule are. */
  lemma DecryptEncrypt(b: Block, key: seq<bv32>, keysize: nat)
    requires GoodKey(key, keysize)
    ensures Decrypt(Encrypt(b, key, keysize), key, keysize) == b
  {
    hide StateOf, BlockOf, Encrypted, Decrypted;
    var e := Encrypted(StateOf(b), key, RoundCount(keysize));
    StateOfBlock(e);
    DecryptionUndoes(StateOf(b), key, RoundCount(keysize));
    BlockOfState(b);
  }

  /** SubBytes, ShiftRows, MixColumns, AddRoundKey */
  method Round(st: array2<bv8>, key: seq<bv32>, at: nat, ghost i: nat, ghost s: State)
    requires IsState(st) && i > 0 && at == 4 * i && at + 4 <= |key| && Read(st) == Rounds(s, key, i - 1)
    modifies st
    ensures Read(st) == Rounds(s, key, i)
  {
    hide Read, SubBytes, ShiftRows, MixColumns, AddRoundKey, RoundKey;
    SubBytesInPlace(st);
    ShiftRowsInPlace(st);
    MixColumnsInPlace(st);
    AddRoundKeyInPlace(st, key, at, i);
  }

  method LastRound(st: array2<bv8>, key: seq<bv32>, at: nat, ghost i: nat, ghost s: State)
    requires IsState(st) && i > 0 && at == 4 * i && at + 4 <= |key| && Read(st) == Rounds(s, key, i - 1)
    modifies st
    ensures Read(st) == Encrypted(s, key, i)
  {
    hide Read, SubBytes, ShiftRows, AddRoundKey, RoundKey;
    SubBytesInPlace(st);
    ShiftRowsInPlace(st);
    AddRoundKeyInPlace(st, key, at, i);
  }

  method Store(st: array2<bv8>) returns (out: Block)
    requires IsState(st)
    ensures out == BlockOf(Read(st))
  {
    out := [st[0, 0], st[1, 0], st[2, 0], st[3, 0]] + [st[0, 1], st[1, 1], st[2, 1], st[3, 1]]
         + [st[0, 2], st[1, 2], st[2, 2], st[3, 2]] + [st[0, 3], st[1, 3], st[2, 3], st[3, 3]];
  }

  lemma NoRounds(s: State, key: seq<bv32>)
    requires 4 <= |key|
    ensures Rounds(s, key, 0) == AddRoundKey(s, RoundKey(key, 0))
  {
  }

  method AesEncrypt(input: Block, key: seq<bv32>, keysize: nat) returns (out: Block)
    requires GoodKey(key, keysize)
    ensures out == Encrypt(input, key, keysize)
  {
    hide Read, AddRoundKey, RoundKey, StateOf, BlockOf, Encrypted, Rounds;
    ghost var s := StateOf(input);
    var st := Load(input);
    NoRounds(s, key);
    AddRoundKeyInPlace(st, key, 0, 0);
    Round(st, key, 4, 1, s);
    Round(st, key, 8, 2, s);
    Round(st, key, 12, 3, s);
    Round(st, key, 16, 4, s);
    Round(st, key, 20, 5, s);
    Round(st, key, 24, 6, s);
    Round(st, key, 28, 7, s);
    Round(st, key, 32, 8, s);
    Round(st, key, 36, 9, s);
    if keysize != 128 {
      Round(st, key, 40, 10, s);
      Round(st, key, 44, 11, s);
      if keysize != 192 {
        Round(st, key, 48, 12, s);
        Round(st, key, 52, 13, s);
        LastRound(st, key, 56, 14, s);
      } else {
        LastRound(st, key, 48, 12, s);
      }
    } else {
      LastRound(st, key, 40, 10, s);
    }
    out := Store(st);
  }

  /** InvShiftRows, InvSubBytes, AddRoundKey, InvMixColumns */
  method InvRound(st: array2<bv8>, key: seq<bv32>, at: nat, ghost i: nat, ghost t: State)
    requires IsState(st) && i > 0 && at == 4 * i && at + 4 <= |key| && InvRounds(Read(st), key, i) == t
    modifies st
    ensures InvRounds(Read(st), key, i - 1) == t
  {
    hide Read, InvSubBytes, InvShiftRows, InvMixColumns, AddRoundKey, RoundKey;
    InvShiftRowsInPlace(st);
    InvSubBytesInPlace(st);
    AddRoundKeyInPlace(st, key, at, i);
    InvMixColumnsInPlace(st);
  }

  method AesDecrypt(input: Block, key: seq<bv32>, keysize: nat) returns (out: Block)
    requires GoodKey(key, keysize)
    ensures out == Decrypt(input, key, keysize)
  {
    hide Read, AddRoundKey, RoundKey, StateOf, BlockOf, InvSubBytes, InvShiftRows, InvRounds;
    var st := Load(input);
    ghost var n := RoundCount(keysize);
    ghost var t := InvRounds(AddRoundKey(StateOf(input), RoundKey(key, n)), key, n - 1);
    if keysize > 128 {
      if keysize > 192 {
        AddRoundKeyInPlace(st, key, 56, 14);
        InvRound(st, key, 52, 13, t);
        InvRound(st, key, 48, 12, t);
      } else {
        AddRoundKeyInPlace(st, key, 48, 12);
      }
      InvRound(st, key, 44, 11, t);
      InvRound(st, key, 40, 10, t);
    } else {
      AddRoundKeyInPlace(st, key, 40, 10);
    }
    InvRound(st, key, 36, 9, t);
    InvRound(st, key, 32, 8, t);
    InvRound(st, key, 28, 7, t);
    InvRound(st, key, 24, 6, t);
    InvRound(st, key, 20, 5, t);
    InvRound(st, key, 16, 4, t);
    InvRound(st, key, 12, 3, t);
    InvRound(st, key, 8, 2, t);
    InvRound(st, key, 4, 1, t);
    NoInvRounds(Read(st), key);
    InvShiftRowsInPlace(st);
    InvSubBytesInPlace(st);
    AddRoundKeyInPlace(st, key, 0, 0);
    out := Store(st);
  }

  lemma NoInvRounds(t: State, key: seq<bv32>)
    requires 4 <= |key|
    ensures InvRounds(t, key, 0) == t
  {
  }
}
