/** The skew table of a field with a Cantor basis, in which x * x + x is half the number of x: the entry
    of place x of every layer is the logarithm of the element numbered 2x, which the transforms need. */
module SkewValues {
  import opened Butterfly
  import opened LeopardColumns
  import opened LocatorElements
  import opened Powers
  import opened SkewFactors
  import opened SkewTable
  import opened XorIndex
  import Cantor = CantorField
  import Scalars = FieldTransforms

  function Half(x: Element): Element { x >> 1 }

  /** x * (x + 1) is half the number of x, and the inverse of 1 is 1. */
  ghost predicate HalvesNumbers(f: Tables<Element>) {
    && (forall x {:trigger f.Linear(x)} :: f.within(x) ==> f.Linear(x) == Half(x))
    && (forall x {:trigger f.multiplyLog(x, f.inverse(f.one))} :: f.within(x) ==>
          f.multiplyLog(x, f.inverse(f.one)) == x)
  }

  /** The bits from `e` on that the digits of `x` select. */
  function Digits(e: nat, x: nat): Element
    decreases x
  {
    if x == 0 then 0 else Plus(if x % 2 == 1 then One(e) else 0, Digits(e + 1, x / 2))
  }

  /** The number `q` as an element. */
  function Number(q: nat): Element { Digits(0, q) }

  lemma {:induction false} BitsAreDigits(f: Tables<Element>, e: nat, n: nat, x: nat)
    requires f.zero == 0 && (forall a, b :: f.plus(a, b) == Plus(a, b)) && x < Pow2(n)
    ensures Combo(f, Bits(e, n), x) == Digits(e, x)
    decreases n
  {
    hide Bits, One;
    if n == 0 {
    } else {
      FirstBit(f, e, n, x);
      BitsAreDigits(f, e + 1, n - 1, x / 2);
      if x == 0 { NoDigits(); }
    }
  }

  lemma NoDigits()
    ensures Plus(0, 0) == 0
  {
  }

  lemma TwiceNumber(x: nat)
    ensures Number(2 * x) == Digits(1, x)
  {
    PlusNothing(Digits(1, x));
  }

  lemma PlusNothing(v: Element)
    ensures Plus(0, v) == v
  {
  }

  lemma HalfOfBit(e: nat)
    requires 0 < e < 16
    ensures Half(One(e)) == One(e - 1)
  {
    assert One(1) == 2 && One(2) == 4 && One(3) == 8;
    assert One(4) == 0x10 && One(5) == 0x20 && One(6) == 0x40 && One(7) == 0x80;
    assert One(8) == 0x100 && One(9) == 0x200 && One(10) == 0x400 && One(11) == 0x800;
    assert One(12) == 0x1000 && One(13) == 0x2000 && One(14) == 0x4000 && One(15) == 0x8000;
  }

  lemma FirstOne()
    ensures One(0) == 1
  {
  }

  lemma LinearIsHalf(f: Tables<Element>, x: Element)
    requires HalvesNumbers(f) && f.within(x)
    ensures f.Linear(x) == Half(x) && f.multiplyLog(x, f.inverse(f.one)) == x
  {
    hide Tables.Linear;
  }

  /** The next factor of a bit is the bit below it. */
  lemma NextOfBit(f: Tables<Element>, bits: nat, e: nat)
    requires 0 < e < bits <= 16 && f == Field(f.log, f.multiplyLog, f.addMod, One(bits) - 1) && HalvesNumbers(f)
    ensures Next(f, One(1), One(e)) == One(e - 1)
  {
    hide One, Half, Plus, Tables.Linear, Field, HalvesNumbers;
    FieldIsXor(f, One(bits) - 1);
    BitWithin(f, bits, 1);
    BitWithin(f, bits, e);
    BitWithin(f, bits, e - 1);
    LinearIsHalf(f, One(1));
    LinearIsHalf(f, One(e));
    LinearIsHalf(f, One(e - 1));
    HalfOfBit(1);
    HalfOfBit(e);
    FirstOne();
  }

  lemma FirstOfBits(k: nat)
    requires k > 0
    ensures Bits(1, k)[0] == One(1) && Bits(1, k)[1..] == Bits(2, k - 1)
  {
    hide One;
  }

  lemma FirstFactors(f: Tables<Element>, bits: nat)
    requires bits > 0
    ensures Factors(f, bits, 0) == Bits(1, bits - 1)
  {
  }

  /** The factors of every layer are the bits from 2 on. */
  lemma {:induction false} FactorsAreBits(f: Tables<Element>, bits: nat, m: nat)
    requires m < bits <= 16 && f == Field(f.log, f.multiplyLog, f.addMod, One(bits) - 1) && HalvesNumbers(f)
    ensures Factors(f, bits, m) == Bits(1, bits - 1 - m)
    decreases m
  {
    hide One, Field, Next, HalvesNumbers, Factors;
    if m == 0 {
      FirstFactors(f, bits);
    } else {
      LayerOfFactors(f, bits, m - 1);
      FactorsAreBits(f, bits, m - 1);
      var k := bits - m;
      FirstOfBits(k);
      var next, lower := NextAll(f, One(1), Bits(2, k - 1)), Bits(1, k - 1);
      forall i | 0 <= i < k - 1 ensures next[i] == lower[i] {
        NextOfBit(f, bits, 2 + i);
      }
    }
  }

  lemma ValueIs(f: Tables<Element>, t: seq<Element>, bits: nat, m: nat, x: nat)
    requires LogsAre(f, t, bits) && m < bits && Place(m, x) <= |t|
    ensures t[Place(m, x) - 1] == f.log(Combo(f, Factors(f, bits, m), x))
  {
  }

  lemma PlaceFits(m: nat, x: nat, bits: nat)
    requires m < bits && Place(m, x) < Pow2(bits)
    ensures x < Pow2(bits - 1 - m)
  {
    hide Place, Pow2;
    PlaceSteps(m, x, bits - 1 - m);
  }

  /** Entry x of layer m is the logarithm of the element numbered 2x. */
  lemma EntryIs(f: Tables<Element>, t: seq<Element>, bits: nat, m: nat, x: nat)
    requires m < bits <= 16 && f == Field(f.log, f.multiplyLog, f.addMod, One(bits) - 1) && HalvesNumbers(f)
    requires |t| == Pow2(bits) - 1 && LogsAre(f, t, bits) && Place(m, x) <= |t|
    ensures t[Place(m, x) - 1] == f.log(Number(2 * x))
  {
    hide One, Place, Factors, Combo, Digits, Number, Pow2, HalvesNumbers, Field, Plus, Bits, LogsAre;
    FieldIsXor(f, One(bits) - 1);
    FactorsAreBits(f, bits, m);
    PlaceFits(m, x, bits);
    BitsAreDigits(f, 1, bits - 1 - m, x);
    TwiceNumber(x);
    ValueIs(f, t, bits, m, x);
  }

  // The table serves the codec

  /** Both descriptions of the field have the same logarithms. */
  ghost predicate SameLogs(f: Tables<Element>, log: seq<int>) {
    f.log(0) == f.modulus &&
    forall q: nat {:trigger Number(q)} :: 0 < q < |log| ==>
      f.log(Number(q)) != f.modulus && f.log(Number(q)) as int == log[q]
  }

  lemma LogOfNumber(f: Tables<Element>, log: seq<int>, q: nat)
    requires SameLogs(f, log) && q < |log|
    ensures if q == 0 then f.log(Number(q)) == f.modulus
            else f.log(Number(q)) != f.modulus && f.log(Number(q)) as int == log[q]
  {
    if q > 0 { hide Number; }
  }

  lemma {:induction false} PlaceIsAt(m: nat, x: nat)
    ensures Place(m, x) == Scalars.At(Pow2(m), x)
    decreases m
  {
    if m > 0 {
      PlaceIsAt(m - 1, x);
      Twice(Pow2(m - 1), 2 * x + 1);
    }
  }

  lemma Twice(p: nat, q: nat)
    ensures 2 * (p * q) == 2 * p * q
  {
  }

  lemma {:induction false} PowerIs(h: nat) returns (m: nat)
    requires PowerOfTwo(h)
    ensures h == Pow2(m)
    decreases h
  {
    if h == 1 {
      m := 0;
    } else {
      PowerHalf(h);
      m := PowerIs(h / 2);
      m := m + 1;
    }
  }

  lemma LayerFits(m: nat, x: nat, bits: nat)
    requires Place(m, x) < Pow2(bits)
    ensures m < bits && 2 * x < Pow2(bits)
  {
    hide Place, Pow2;
    PlaceSteps(m, x, 0);
    PlaceIsAt(m, x);
    AtLeast(Pow2(m), x);
    PowerMonotone(bits, m);
    assert Pow2(0) == 1 by { PowerSteps(); }
  }

  lemma AtLeast(h: nat, x: nat)
    requires h > 0
    ensures h <= Scalars.At(h, x) && 2 * x < Scalars.At(h, x)
  {
    assert h * (2 * x + 1) == (2 * x + 1) + (h - 1) * (2 * x + 1);
    assert h * (2 * x + 1) == h + h * (2 * x);
    assert h * (2 * x) >= 0;
  }

  /** What the transforms need of the skews, and what the encoder needs of their zeros. */
  lemma TableServesCodec(f: Tables<Element>, t: seq<Element>, bits: nat, k: Cantor.Field<bv8>, exp: nat -> bv8,
      log: seq<int>)
    requires bits <= 16 && f == Field(f.log, f.multiplyLog, f.addMod, One(bits) - 1) && HalvesNumbers(f)
    requires |t| == Pow2(bits) - 1 && LogsAre(f, t, bits) && SameLogs(f, log)
    requires |log| == k.order == Pow2(bits) && Logarithm(k, exp, log) && k.element(0) == 0
    ensures Scalars.SkewIs(k, Skews(SkewsOf(t, f.modulus), exp))
  {
    hide Field, HalvesNumbers, LogsAre, SameLogs, Logarithm, Place, Pow2, PowerOfTwo, Number, One, Scalars.At;
    var table := SkewsOf(t, f.modulus);
    forall h: nat, r: nat | PowerOfTwo(h) && Scalars.At(h, r) < k.order
      ensures Skews(table, exp)(Scalars.At(h, r)) == k.element(2 * r)
    {
      var m := PowerIs(h);
      PlaceIsAt(m, r);
      LayerFits(m, r, bits);
      EntryIs(f, t, bits, m, r);
      LogOfNumber(f, log, 2 * r);
      LocatorElements.LogIs(k, exp, log, 2 * r);
      var p := Place(m, r);
      assert t[p - 1] == f.log(Number(2 * r));
    }
  }
}
