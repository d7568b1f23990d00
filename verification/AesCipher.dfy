/** The block cipher: the four steps of a round and their inverses, on the state in place and as
    functions of it, and the proof that decryption undoes encryption. */
module AesCipher {
  import opened AesTables

  /** A column of the state. */
  datatype Column = Column(b0: bv8, b1: bv8, b2: bv8, b3: bv8)

  datatype State = State(c0: Column, c1: Column, c2: Column, c3: Column)

  function Map(f: bv8 -> bv8, c: Column): Column { Column(f(c.b0), f(c.b1), f(c.b2), f(c.b3)) }

  function SubBytes(s: State): State { State(Map(Sbox, s.c0), Map(Sbox, s.c1), Map(Sbox, s.c2), Map(Sbox, s.c3)) }

  function InvSubBytes(s: State): State {
    State(Map(InvSbox, s.c0), Map(InvSbox, s.c1), Map(InvSbox, s.c2), Map(InvSbox, s.c3))
  }

  /** Row r moves r columns to the left. */
  function ShiftRows(s: State): State {
    State(Column(s.c0.b0, s.c1.b1, s.c2.b2, s.c3.b3), Column(s.c1.b0, s.c2.b1, s.c3.b2, s.c0.b3),
          Column(s.c2.b0, s.c3.b1, s.c0.b2, s.c1.b3), Column(s.c3.b0, s.c0.b1, s.c1.b2, s.c2.b3))
  }

  function InvShiftRows(s: State): State {
    State(Column(s.c0.b0, s.c3.b1, s.c2.b2, s.c1.b3), Column(s.c1.b0, s.c0.b1, s.c3.b2, s.c2.b3),
          Column(s.c2.b0, s.c1.b1, s.c0.b2, s.c3.b3), Column(s.c3.b0, s.c2.b1, s.c1.b2, s.c0.b3))
  }

  /** Addition in the field with 2^8 elements. */
  function Plus(x: bv8, y: bv8): bv8 { x ^ y }

  function Plus4(a: bv8, b: bv8, c: bv8, d: bv8): bv8 { Plus(Plus(a, b), Plus(c, d)) }

  /** x times 2. */
  function Twice(x: bv8): bv8 { Plus(x << 1, Carry(x)) }

  function Carry(x: bv8): bv8 { if x & 0x80 != 0 then 0x1B else 0 }

  // The columns of gf_mul: x times 2, 3, 9, 11, 13 and 14

  function Mul3(x: bv8): bv8 { Plus(Twice(x), x) }

  function Mul9(x: bv8): bv8 { Plus(Twice(Twice(Twice(x))), x) }

  function Mul11(x: bv8): bv8 { Plus(Twice(Twice(Twice(x))), Plus(Twice(x), x)) }

  function Mul13(x: bv8): bv8 { Plus(Twice(Twice(Twice(x))), Plus(Twice(Twice(x)), x)) }

  function Mul14(x: bv8): bv8 { Plus(Twice(Twice(Twice(x))), Plus(Twice(Twice(x)), Twice(x))) }

  function MixColumn(c: Column): Column {
    Column(Plus4(Twice(c.b0), Mul3(c.b1), c.b2, c.b3),
           Plus4(c.b0, Twice(c.b1), Mul3(c.b2), c.b3),
           Plus4(c.b0, c.b1, Twice(c.b2), Mul3(c.b3)),
           Plus4(Mul3(c.b0), c.b1, c.b2, Twice(c.b3)))
  }

  function InvMixColumn(c: Column): Column {
    Column(Plus4(Mul14(c.b0), Mul11(c.b1), Mul13(c.b2), Mul9(c.b3)),
           Plus4(Mul9(c.b0), Mul14(c.b1), Mul11(c.b2), Mul13(c.b3)),
           Plus4(Mul13(c.b0), Mul9(c.b1), Mul14(c.b2), Mul11(c.b3)),
           Plus4(Mul11(c.b0), Mul13(c.b1), Mul9(c.b2), Mul14(c.b3)))
  }

  function MixColumns(s: State): State { State(MixColumn(s.c0), MixColumn(s.c1), MixColumn(s.c2), MixColumn(s.c3)) }

  function InvMixColumns(s: State): State {
    State(InvMixColumn(s.c0), InvMixColumn(s.c1), InvMixColumn(s.c2), InvMixColumn(s.c3))
  }

  function XorColumn(a: Column, b: Column): Column {
    Column(Plus(a.b0, b.b0), Plus(a.b1, b.b1), Plus(a.b2, b.b2), Plus(a.b3, b.b3))
  }

  function AddRoundKey(s: State, k: State): State {
    State(XorColumn(s.c0, k.c0), XorColumn(s.c1, k.c1), XorColumn(s.c2, k.c2), XorColumn(s.c3, k.c3))
  }

  // Each step is undone

  lemma ColumnSubstituted(c: Column)
    ensures Map(InvSbox, Map(Sbox, c)) == c
  {
    hide Sbox, InvSbox;
    SboxInverse(c.b0);
    SboxInverse(c.b1);
    SboxInverse(c.b2);
    SboxInverse(c.b3);
  }

  lemma SubBytesUndone(s: State)
    ensures InvSubBytes(SubBytes(s)) == s
  {
    hide Map;
    ColumnSubstituted(s.c0);
    ColumnSubstituted(s.c1);
    ColumnSubstituted(s.c2);
    ColumnSubstituted(s.c3);
  }

  lemma ShiftRowsUndone(s: State)
    ensures InvShiftRows(ShiftRows(s)) == s
  {
  }

  // Addition can be regrouped

  lemma PlusAssociative(a: bv8, b: bv8, c: bv8)
    ensures Plus(Plus(a, b), c) == Plus(a, Plus(b, c))
  {
  }

  lemma PlusCommutative(a: bv8, b: bv8)
    ensures Plus(a, b) == Plus(b, a)
  {
  }

  lemma PlusTwice(a: bv8, b: bv8)
    ensures Plus(Plus(a, b), b) == a
  {
  }

  lemma Swap(a: bv8, b: bv8, c: bv8, d: bv8)
    ensures Plus(Plus(a, b), Plus(c, d)) == Plus(Plus(a, c), Plus(b, d))
  {
    hide Plus;
    PlusAssociative(a, b, Plus(c, d));
    PlusAssociative(b, c, d);
    PlusCommutative(b, c);
    PlusAssociative(c, b, d);
    PlusAssociative(a, c, Plus(b, d));
  }

  lemma Pairs(p0: bv8, p1: bv8, p2: bv8, p3: bv8, q0: bv8, q1: bv8, q2: bv8, q3: bv8)
    ensures Plus(Plus4(p0, p1, p2, p3), Plus4(q0, q1, q2, q3))
        == Plus4(Plus(p0, q0), Plus(p1, q1), Plus(p2, q2), Plus(p3, q3))
  {
    hide Plus;
    Swap(Plus(p0, p1), Plus(p2, p3), Plus(q0, q1), Plus(q2, q3));
    Swap(p0, p1, q0, q1);
    Swap(p2, p3, q2, q3);
  }

  /** Summing a square of 16 numbers by rows or by columns. */
  lemma Square(p0: bv8, p1: bv8, p2: bv8, p3: bv8, q0: bv8, q1: bv8, q2: bv8, q3: bv8,
               r0: bv8, r1: bv8, r2: bv8, r3: bv8, s0: bv8, s1: bv8, s2: bv8, s3: bv8)
    ensures Plus4(Plus4(p0, p1, p2, p3), Plus4(q0, q1, q2, q3), Plus4(r0, r1, r2, r3), Plus4(s0, s1, s2, s3))
         == Plus4(Plus4(p0, q0, r0, s0), Plus4(p1, q1, r1, s1), Plus4(p2, q2, r2, s2), Plus4(p3, q3, r3, s3))
  {
    hide Plus;
    Pairs(p0, p1, p2, p3, q0, q1, q2, q3);
    Pairs(r0, r1, r2, r3, s0, s1, s2, s3);
    Pairs(Plus(p0, q0), Plus(p1, q1), Plus(p2, q2), Plus(p3, q3), Plus(r0, s0), Plus(r1, s1), Plus(r2, s2),
        Plus(r3, s3));
  }

  // Multiplication is linear

  lemma CarryPlus(x: bv8, y: bv8)
    ensures Carry(Plus(x, y)) == Plus(Carry(x), Carry(y))
  {
  }

  lemma ShiftPlus(x: bv8, y: bv8)
    ensures Plus(x, y) << 1 == Plus(x << 1, y << 1)
  {
  }

  lemma TwicePlus(x: bv8, y: bv8)
    ensures Twice(Plus(x, y)) == Plus(Twice(x), Twice(y))
  {
    hide Plus, Carry;
    CarryPlus(x, y);
    ShiftPlus(x, y);
    Swap(x << 1, Carry(x), y << 1, Carry(y));
  }

  lemma Mul9Plus(x: bv8, y: bv8)
    ensures Mul9(Plus(x, y)) == Plus(Mul9(x), Mul9(y))
  {
    hide Plus, Twice;
    TwicePlus(x, y);
    TwicePlus(Twice(x), Twice(y));
    TwicePlus(Twice(Twice(x)), Twice(Twice(y)));
    Swap(Twice(Twice(Twice(x))), Twice(Twice(Twice(y))), x, y);
  }

  lemma Mul9Plus4(a: bv8, b: bv8, c: bv8, d: bv8)
    ensures Mul9(Plus4(a, b, c, d)) == Plus4(Mul9(a), Mul9(b), Mul9(c), Mul9(d))
  {
    hide Plus, Mul9;
    Mul9Plus(Plus(a, b), Plus(c, d));
    Mul9Plus(a, b);
    Mul9Plus(c, d);
  }

  lemma Mul11Plus(x: bv8, y: bv8)
    ensures Mul11(Plus(x, y)) == Plus(Mul11(x), Mul11(y))
  {
    hide Plus, Twice;
    TwicePlus(x, y);
    TwicePlus(Twice(x), Twice(y));
    TwicePlus(Twice(Twice(x)), Twice(Twice(y)));
    Swap(Twice(x), Twice(y), x, y);
    Swap(Twice(Twice(Twice(x))), Twice(Twice(Twice(y))), Plus(Twice(x), x), Plus(Twice(y), y));
  }

  lemma Mul11Plus4(a: bv8, b: bv8, c: bv8, d: bv8)
    ensures Mul11(Plus4(a, b, c, d)) == Plus4(Mul11(a), Mul11(b), Mul11(c), Mul11(d))
  {
    hide Plus, Mul11;
    Mul11Plus(Plus(a, b), Plus(c, d));
    Mul11Plus(a, b);
    Mul11Plus(c, d);
  }

  lemma Mul13Plus(x: bv8, y: bv8)
    ensures Mul13(Plus(x, y)) == Plus(Mul13(x), Mul13(y))
  {
    hide Plus, Twice;
    TwicePlus(x, y);
    TwicePlus(Twice(x), Twice(y));
    TwicePlus(Twice(Twice(x)), Twice(Twice(y)));
    Swap(Twice(Twice(x)), Twice(Twice(y)), x, y);
    Swap(Twice(Twice(Twice(x))), Twice(Twice(Twice(y))), Plus(Twice(Twice(x)), x), Plus(Twice(Twice(y)), y));
  }

  lemma Mul13Plus4(a: bv8, b: bv8, c: bv8, d: bv8)
    ensures Mul13(Plus4(a, b, c, d)) == Plus4(Mul13(a), Mul13(b), Mul13(c), Mul13(d))
  {
    hide Plus, Mul13;
    Mul13Plus(Plus(a, b), Plus(c, d));
    Mul13Plus(a, b);
    Mul13Plus(c, d);
  }

  lemma Mul14Plus(x: bv8, y: bv8)
    ensures Mul14(Plus(x, y)) == Plus(Mul14(x), Mul14(y))
  {
    hide Plus, Twice;
    TwicePlus(x, y);
    TwicePlus(Twice(x), Twice(y));
    TwicePlus(Twice(Twice(x)), Twice(Twice(y)));
    Swap(Twice(Twice(x)), Twice(Twice(y)), Twice(x), Twice(y));
    Swap(Twice(Twice(Twice(x))), Twice(Twice(Twice(y))), Plus(Twice(Twice(x)), Twice(x)),
        Plus(Twice(Twice(y)), Twice(y)));
  }

  lemma Mul14Plus4(a: bv8, b: bv8, c: bv8, d: bv8)
    ensures Mul14(Plus4(a, b, c, d)) == Plus4(Mul14(a), Mul14(b), Mul14(c), Mul14(d))
  {
    hide Plus, Mul14;
    Mul14Plus(Plus(a, b), Plus(c, d));
    Mul14Plus(a, b);
    Mul14Plus(c, d);
  }

  /** The products of the two matrices, coefficient by coefficient. */
  lemma Coefficients(x: bv8)
    ensures Plus4(Mul14(Twice(x)), Mul11(x), Mul13(x), Mul9(Mul3(x))) == x
    ensures Plus4(Mul14(Mul3(x)), Mul11(Twice(x)), Mul13(x), Mul9(x)) == 0
    ensures Plus4(Mul14(x), Mul11(Mul3(x)), Mul13(Twice(x)), Mul9(x)) == 0
    ensures Plus4(Mul14(x), Mul11(x), Mul13(Mul3(x)), Mul9(Twice(x))) == 0
  {
  }

  /** One byte of a column that was mixed and mixed back; `a` is that byte, and `b`, `c` and `d` are
      the bytes below it, the column being continued at its top. */
  lemma ByteUnmixed(a: bv8, b: bv8, c: bv8, d: bv8)
    ensures Plus4(Mul14(Plus4(Twice(a), Mul3(b), c, d)), Mul11(Plus4(a, Twice(b), Mul3(c), d)),
                  Mul13(Plus4(a, b, Twice(c), Mul3(d))), Mul9(Plus4(Mul3(a), b, c, Twice(d)))) == a
  {
    hide Plus4, Plus, Twice, Mul3, Mul9, Mul11, Mul13, Mul14;
    Mul14Plus4(Twice(a), Mul3(b), c, d);
    Mul11Plus4(a, Twice(b), Mul3(c), d);
    Mul13Plus4(a, b, Twice(c), Mul3(d));
    Mul9Plus4(Mul3(a), b, c, Twice(d));
    Square(Mul14(Twice(a)), Mul14(Mul3(b)), Mul14(c), Mul14(d), Mul11(a), Mul11(Twice(b)), Mul11(Mul3(c)), Mul11(d),
           Mul13(a), Mul13(b), Mul13(Twice(c)), Mul13(Mul3(d)), Mul9(Mul3(a)), Mul9(b), Mul9(c), Mul9(Twice(d)));
    Coefficients(a);
    Coefficients(b);
    Coefficients(c);
    Coefficients(d);
    OnlyFirst(a);
  }

  lemma OnlyFirst(a: bv8)
    ensures Plus4(a, 0, 0, 0) == a
  {
  }

  lemma Rotate(a: bv8, b: bv8, c: bv8, d: bv8)
    ensures Plus4(a, b, c, d) == Plus4(b, c, d, a)
  {
  }

  lemma MixColumnUndone(c: Column)
    ensures InvMixColumn(MixColumn(c)) == c
  {
    hide Plus4, Plus, Twice, Mul3, Mul9, Mul11, Mul13, Mul14;
    var m := MixColumn(c);
    ByteUnmixed(c.b0, c.b1, c.b2, c.b3);
    RotatedColumn(c.b0, c.b1, c.b2, c.b3);
    RotatedColumn(c.b1, c.b2, c.b3, c.b0);
    RotatedColumn(c.b2, c.b3, c.b0, c.b1);
    ByteUnmixed(c.b1, c.b2, c.b3, c.b0);
    ByteUnmixed(c.b2, c.b3, c.b0, c.b1);
    ByteUnmixed(c.b3, c.b0, c.b1, c.b2);
    Rotate(Mul9(m.b0), Mul14(m.b1), Mul11(m.b2), Mul13(m.b3));
    Rotate(Mul13(m.b0), Mul9(m.b1), Mul14(m.b2), Mul11(m.b3));
    Rotate(Mul9(m.b1), Mul14(m.b2), Mul11(m.b3), Mul13(m.b0));
    Rotate(Mul11(m.b0), Mul13(m.b1), Mul9(m.b2), Mul14(m.b3));
    Rotate(Mul13(m.b1), Mul9(m.b2), Mul14(m.b3), Mul11(m.b0));
    Rotate(Mul9(m.b2), Mul14(m.b3), Mul11(m.b0), Mul13(m.b1));
  }

  /** The mixed column, read from its second byte on, is that of the column read in the same way. */
  lemma RotatedColumn(a: bv8, b: bv8, c: bv8, d: bv8)
    ensures var m, n := MixColumn(Column(a, b, c, d)), MixColumn(Column(b, c, d, a));
            n == Column(m.b1, m.b2, m.b3, m.b0)
  {
    hide Plus4, Plus, Twice, Mul3;
    Rotate(a, Twice(b), Mul3(c), d);
    Rotate(a, b, Twice(c), Mul3(d));
    Rotate(Mul3(a), b, c, Twice(d));
    Rotate(Twice(a), Mul3(b), c, d);
  }

  lemma XorColumnTwice(a: Column, b: Column)
    ensures XorColumn(XorColumn(a, b), b) == a
  {
    hide Plus;
    PlusTwice(a.b0, b.b0);
    PlusTwice(a.b1, b.b1);
    PlusTwice(a.b2, b.b2);
    PlusTwice(a.b3, b.b3);
  }

  lemma AddRoundKeyUndone(s: State, k: State)
    ensures AddRoundKey(AddRoundKey(s, k), k) == s
  {
    hide XorColumn;
    XorColumnTwice(s.c0, k.c0);
    XorColumnTwice(s.c1, k.c1);
    XorColumnTwice(s.c2, k.c2);
    XorColumnTwice(s.c3, k.c3);
  }

  lemma MixColumnsUndone(s: State)
    ensures InvMixColumns(MixColumns(s)) == s
  {
    hide MixColumn, InvMixColumn;
    MixColumnUndone(s.c0);
    MixColumnUndone(s.c1);
    MixColumnUndone(s.c2);
    MixColumnUndone(s.c3);
  }

  // Rounds

  function KeyColumn(w: bv32): Column {
    Column(((w >> 24) & 0xFF) as bv8, ((w >> 16) & 0xFF) as bv8, ((w >> 8) & 0xFF) as bv8, (w & 0xFF) as bv8)
  }

  /** Round key `i` of the key schedule. */
  function RoundKey(key: seq<bv32>, i: nat): State
    requires 4 * i + 4 <= |key|
  {
    State(KeyColumn(key[4 * i]), KeyColumn(key[4 * i + 1]), KeyColumn(key[4 * i + 2]), KeyColumn(key[4 * i + 3]))
  }

  function Rounds(s: State, key: seq<bv32>, i: nat): State
    requires 4 * i + 4 <= |key|
  {
    if i == 0 then AddRoundKey(s, RoundKey(key, 0))
    else AddRoundKey(MixColumns(ShiftRows(SubBytes(Rounds(s, key, i - 1)))), RoundKey(key, i))
  }

  /** Encryption with `nr` rounds; the last one does not mix the columns. */
  function Encrypted(s: State, key: seq<bv32>, nr: nat): State
    requires nr > 0 && 4 * nr + 4 <= |key|
  {
    AddRoundKey(ShiftRows(SubBytes(Rounds(s, key, nr - 1))), RoundKey(key, nr))
  }

  /** The rounds of decryption from `i` down to 1. */
  function InvRounds(t: State, key: seq<bv32>, i: nat): State
    requires 4 * i + 4 <= |key|
    decreases i
  {
    if i == 0 then t
    else InvRounds(InvMixColumns(AddRoundKey(InvSubBytes(InvShiftRows(t)), RoundKey(key, i))), key, i - 1)
  }

  function Decrypted(s: State, key: seq<bv32>, nr: nat): State
    requires nr > 0 && 4 * nr + 4 <= |key|
  {
    AddRoundKey(InvSubBytes(InvShiftRows(InvRounds(AddRoundKey(s, RoundKey(key, nr)), key, nr - 1))), RoundKey(key, 0))
  }

  lemma {:induction false} RoundsUndone(s: State, key: seq<bv32>, i: nat)
    requires 4 * i + 4 <= |key|
    ensures InvRounds(ShiftRows(SubBytes(Rounds(s, key, i))), key, i) == ShiftRows(SubBytes(Rounds(s, key, 0)))
  {
    hide SubBytes, InvSubBytes, ShiftRows, InvShiftRows, MixColumns, InvMixColumns, AddRoundKey, RoundKey;
    if i > 0 {
      var r := Rounds(s, key, i);
      ShiftRowsUndone(SubBytes(r));
      SubBytesUndone(r);
      var m := MixColumns(ShiftRows(SubBytes(Rounds(s, key, i - 1))));
      AddRoundKeyUndone(m, RoundKey(key, i));
      MixColumnsUndone(ShiftRows(SubBytes(Rounds(s, key, i - 1))));
      RoundsUndone(s, key, i - 1);
    }
  }

  /** Decryption undoes encryption, for every key schedule and number of rounds. */
  lemma DecryptionUndoes(s: State, key: seq<bv32>, nr: nat)
    requires nr > 0 && 4 * nr + 4 <= |key|
    ensures Decrypted(Encrypted(s, key, nr), key, nr) == s
  {
    hide SubBytes, InvSubBytes, ShiftRows, InvShiftRows, MixColumns, InvMixColumns, AddRoundKey, RoundKey;
    AddRoundKeyUndone(ShiftRows(SubBytes(Rounds(s, key, nr - 1))), RoundKey(key, nr));
    RoundsUndone(s, key, nr - 1);
    ShiftRowsUndone(SubBytes(Rounds(s, key, 0)));
    SubBytesUndone(Rounds(s, key, 0));
    AddRoundKeyUndone(s, RoundKey(key, 0));
  }
}
