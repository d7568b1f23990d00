/** What the tables and the steps of AES are in the field of 2^8 elements. */
module AesField {
  import opened AesCipher
  import opened AesTables

  /** The part of a product that digit `k` of the left factor gives. */
  function Term(x: bv8, k: nat, y: bv8): bv8
    requires k < 8
  {
    if (x >> k) & 1 == 1 then y else 0
  }

  /** The product: the sum of the doubled right factors that the digits of the left one select. */
  function Times(x: bv8, y: bv8): bv8 {
    var y2 := Twice(y);
    var y4 := Twice(y2);
    var y8 := Twice(y4);
    var y16 := Twice(y8);
    var y32 := Twice(y16);
    var y64 := Twice(y32);
    Plus(Plus4(Term(x, 0, y), Term(x, 1, y2), Term(x, 2, y4), Term(x, 3, y8)),
         Plus4(Term(x, 4, y16), Term(x, 5, y32), Term(x, 6, y64), Term(x, 7, Twice(y64))))
  }

  function Rotated(b: bv8, k: nat): bv8
    requires 0 < k < 8
  {
    (b << k) | (b >> (8 - k))
  }

  /** The affine map of FIPS 197, section 5.1.1. */
  function Affine(b: bv8): bv8 {
    Plus(Plus(b, Plus4(Rotated(b, 1), Rotated(b, 2), Rotated(b, 3), Rotated(b, 4))), 0x63)
  }

  /** The element the S-box entry of `x` is the affine map of. */
  function BehindSbox(x: bv8): bv8 {
    var b := Sbox(x);
    Plus(Plus(Rotated(b, 1), Rotated(b, 3)), Plus(Rotated(b, 6), 0x05))
  }

  lemma AffineUndone(b: bv8)
    ensures Affine(Plus(Plus(Rotated(b, 1), Rotated(b, 3)), Plus(Rotated(b, 6), 0x05))) == b
  {
  }

  // The product of x and the element behind its entry, row by row

  lemma FirstEntries()
    ensures
      && Sbox(1) == 0x7C && Sbox(2) == 0x77 && Sbox(3) == 0x7B && Sbox(4) == 0xF2
      && Sbox(5) == 0x6B && Sbox(6) == 0x6F && Sbox(7) == 0xC5
  {
  }

  lemma NextEntries()
    ensures
      && Sbox(8) == 0x30 && Sbox(9) == 0x01 && Sbox(10) == 0x67 && Sbox(11) == 0x2B
      && Sbox(12) == 0xFE && Sbox(13) == 0xD7 && Sbox(14) == 0xAB && Sbox(15) == 0x76
  {
  }

  lemma SmallEntries()
    ensures
      && BehindSbox(1) == 0x01 && BehindSbox(2) == 0x8D && BehindSbox(3) == 0xF6
      && BehindSbox(4) == 0xCB && BehindSbox(5) == 0x52 && BehindSbox(6) == 0x7B
      && BehindSbox(7) == 0xD1 && BehindSbox(8) == 0xE8 && BehindSbox(9) == 0x4F
      && BehindSbox(10) == 0x29 && BehindSbox(11) == 0xC0 && BehindSbox(12) == 0xB0
      && BehindSbox(13) == 0xE1 && BehindSbox(14) == 0xE5 && BehindSbox(15) == 0xC7
  {
    hide Sbox;
    FirstEntries();
    NextEntries();
  }

  lemma SmallInverses()
    ensures
      && Times(1, 0x01) == 1 && Times(2, 0x8D) == 1 && Times(3, 0xF6) == 1
      && Times(4, 0xCB) == 1 && Times(5, 0x52) == 1 && Times(6, 0x7B) == 1
      && Times(7, 0xD1) == 1 && Times(8, 0xE8) == 1 && Times(9, 0x4F) == 1
      && Times(10, 0x29) == 1 && Times(11, 0xC0) == 1 && Times(12, 0xB0) == 1
      && Times(13, 0xE1) == 1 && Times(14, 0xE5) == 1 && Times(15, 0xC7) == 1
  {
  }

  lemma Inverses0(x: bv8)
    requires x >> 4 == 0 && x != 0
    ensures Times(x, BehindSbox(x)) == 1
  {
    hide Times, BehindSbox;
    SmallEntries();
    SmallInverses();
    assert x == 1 || x == 2 || x == 3 || x == 4 || x == 5 || x == 6 || x == 7 || x == 8 || x == 9 || x == 10 || x == 11
        || x == 12 || x == 13 || x == 14 || x == 15;
  }

  lemma Inverses1(x: bv8)
    requires x >> 4 == 1
    ensures Times(x, BehindSbox(x)) == 1
  {
  }

  lemma Inverses2(x: bv8)
    requires x >> 4 == 2
    ensures Times(x, BehindSbox(x)) == 1
  {
  }

  lemma Inverses3(x: bv8)
    requires x >> 4 == 3
    ensures Times(x, BehindSbox(x)) == 1
  {
  }

  lemma Inverses4(x: bv8)
    requires x >> 4 == 4
    ensures Times(x, BehindSbox(x)) == 1
  {
  }

  lemma Inverses5(x: bv8)
    requires x >> 4 == 5
    ensures Times(x, BehindSbox(x)) == 1
  {
  }

  lemma Inverses6(x: bv8)
    requires x >> 4 == 6
    ensures Times(x, BehindSbox(x)) == 1
  {
  }

  lemma Inverses7(x: bv8)
    requires x >> 4 == 7
    ensures Times(x, BehindSbox(x)) == 1
  {
  }

  lemma Inverses8(x: bv8)
    requires x >> 4 == 8
    ensures Times(x, BehindSbox(x)) == 1
  {
  }

  lemma Inverses9(x: bv8)
    requires x >> 4 == 9
    ensures Times(x, BehindSbox(x)) == 1
  {
  }

  lemma InversesA(x: bv8)
    requires x >> 4 == 10
    ensures Times(x, BehindSbox(x)) == 1
  {
  }

  lemma InversesB(x: bv8)
    requires x >> 4 == 11
    ensures Times(x, BehindSbox(x)) == 1
  {
  }

  lemma InversesC(x: bv8)
    requires x >> 4 == 12
    ensures Times(x, BehindSbox(x)) == 1
  {
  }

  lemma InversesD(x: bv8)
    requires x >> 4 == 13
    ensures Times(x, BehindSbox(x)) == 1
  {
  }

  lemma InversesE(x: bv8)
    requires x >> 4 == 14
    ensures Times(x, BehindSbox(x)) == 1
  {
  }

  lemma InversesF(x: bv8)
    requires x >> 4 == 15
    ensures Times(x, BehindSbox(x)) == 1
  {
  }

  lemma Inverses(x: bv8)
    requires x != 0
    ensures Times(x, BehindSbox(x)) == 1
  {
    hide Times, BehindSbox;
    if x >> 4 == 0 {
      Inverses0(x);
    } else if x >> 4 == 1 {
      Inverses1(x);
    } else if x >> 4 == 2 {
      Inverses2(x);
    } else if x >> 4 == 3 {
      Inverses3(x);
    } else if x >> 4 == 4 {
      Inverses4(x);
    } else if x >> 4 == 5 {
      Inverses5(x);
    } else if x >> 4 == 6 {
      Inverses6(x);
    } else if x >> 4 == 7 {
      Inverses7(x);
    } else if x >> 4 == 8 {
      Inverses8(x);
    } else if x >> 4 == 9 {
      Inverses9(x);
    } else if x >> 4 == 10 {
      InversesA(x);
    } else if x >> 4 == 11 {
      InversesB(x);
    } else if x >> 4 == 12 {
      InversesC(x);
    } else if x >> 4 == 13 {
      InversesD(x);
    } else if x >> 4 == 14 {
      InversesE(x);
    } else {
      InversesF(x);
    }
  }

  lemma BehindFirst()
    ensures BehindSbox(0) == 0
  {
  }

  lemma EntryIsAffine(x: bv8)
    ensures Sbox(x) == Affine(BehindSbox(x))
  {
    hide Sbox, Affine, Rotated, Plus, Plus4;
    AffineUndone(Sbox(x));
  }

  /** Every entry of the S-box is the affine map of the inverse of its index, and that of 0 for 0. */
  lemma SboxIsAffineInverse(x: bv8)
    ensures Sbox(x) == Affine(BehindSbox(x))
    ensures if x == 0 then BehindSbox(x) == 0 else Times(x, BehindSbox(x)) == 1
  {
    hide Times, Affine, BehindSbox;
    EntryIsAffine(x);
    BehindFirst();
    if x != 0 { Inverses(x); }
  }

  // The steps of a round

  lemma TimesOne(x: bv8)
    ensures Times(1, x) == x
  {
  }

  lemma TimesTwo(x: bv8)
    ensures Times(2, x) == Twice(x)
  {
  }

  lemma TimesThree(x: bv8)
    ensures Times(3, x) == Mul3(x)
  {
  }

  lemma SmallProducts(x: bv8)
    ensures Times(1, x) == x && Times(2, x) == Twice(x) && Times(3, x) == Mul3(x)
  {
    hide Times, Twice, Mul3;
    TimesOne(x);
    TimesTwo(x);
    TimesThree(x);
  }

  lemma LargeProducts(x: bv8)
    ensures Times(9, x) == Mul9(x) && Times(11, x) == Mul11(x)
  {
  }

  lemma TimesThirteen(x: bv8)
    ensures Times(13, x) == Mul13(x)
  {
  }

  lemma TimesFourteen(x: bv8)
    ensures Times(14, x) == Mul14(x)
  {
  }

  function ByteOf(c: Column, r: nat): bv8
    requires r < 4
  {
    match r
    case 0 => c.b0
    case 1 => c.b1
    case 2 => c.b2
    case _ => c.b3
  }

  function ColumnOf(s: State, c: nat): Column
    requires c < 4
  {
    match c
    case 0 => s.c0
    case 1 => s.c1
    case 2 => s.c2
    case _ => s.c3
  }

  /** Row r moves r places to the left, around the end. */
  lemma ShiftRowsAt(s: State, r: nat, c: nat)
    requires r < 4 && c < 4
    ensures ByteOf(ColumnOf(ShiftRows(s), c), r) == ByteOf(ColumnOf(s, (c + r) % 4), r)
  {
  }

  /** Coefficient `k` of 3 x^3 + x^2 + x + 2. */
  function Coefficient(k: nat): bv8 {
    match k % 4
    case 0 => 2
    case 3 => 3
    case _ => 1
  }

  /** A column times that polynomial, modulo x^4 + 1: coefficient r collects the products whose exponents
      add up to r. */
  lemma MixColumnAt(c: Column, r: nat)
    requires r < 4
    ensures ByteOf(MixColumn(c), r)
         == Plus4(Times(Coefficient(r + 4), c.b0), Times(Coefficient(r + 3), c.b1), Times(Coefficient(r + 2), c.b2),
                  Times(Coefficient(r + 1), c.b3))
  {
    hide Times, Plus, Twice, Mul3;
    SmallProducts(c.b0);
    SmallProducts(c.b1);
    SmallProducts(c.b2);
    SmallProducts(c.b3);
  }
}
