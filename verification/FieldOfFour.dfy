/** The laws of a field with a Cantor basis hold in the field of four elements. */
module FieldOfFour {
  import opened CantorField
  import opened SkewFactors
  import opened XorIndex

  function TimesOfFour(x: Four, y: Four): Four {
    match (x, y)
    case (F0, _) => F0
    case (_, F0) => F0
    case (F1, _) => y
    case (_, F1) => x
    case (F2, F2) => F3
    case (F3, F3) => F2
    case _ => F1
  }

  function OfBits(high: bool, low: bool): Four {
    if high then (if low then F3 else F2) else if low then F1 else F0
  }

  function NumberOfFour(q: nat): Four { OfBits(q / 2 % 2 == 1, q % 2 == 1) }

  function FourByNumbers(): Field<Four> {
    Field(4, F0, F1, (x, y) => PlusOfFour(x, y), (x, y) => TimesOfFour(x, y), (q: nat) => NumberOfFour(q))
  }

  lemma TimesInFour(x: Four, y: Four, z: Four)
    ensures TimesOfFour(x, y) == TimesOfFour(y, x) && TimesOfFour(F1, x) == x
    ensures TimesOfFour(x, TimesOfFour(y, z)) == TimesOfFour(TimesOfFour(x, y), z)
    ensures TimesOfFour(x, PlusOfFour(y, z)) == PlusOfFour(TimesOfFour(x, y), TimesOfFour(x, z))
  {
  }

  lemma SumOfBits(a: bool, b: bool, c: bool, d: bool)
    ensures PlusOfFour(OfBits(a, b), OfBits(c, d)) == OfBits(a != c, b != d)
    ensures PlusOfFour(TimesOfFour(OfBits(a, b), OfBits(a, b)), OfBits(a, b)) == OfBits(false, a)
  {
  }

  lemma DigitsOfFour(n: nat, high: bool, low: bool)
    requires n == (if high then 2 else 0) + if low then 1 else 0
    ensures NumberOfFour(n) == OfBits(high, low) && NumberOfFour(n / 2) == OfBits(false, high)
  {
    hide OfBits;
  }

  lemma XorOfDigits(i: nat, j: nat, a: bool, b: bool, c: bool, d: bool)
    requires i == (if a then 2 else 0) + (if b then 1 else 0) && j == (if c then 2 else 0) + if d then 1 else 0
    ensures XorNat(i, j) == (if a != c then 2 else 0) + if b != d then 1 else 0
  {
    hide XorNat;
    XorStep(i, j);
    XorBits();
    assert i / 2 == (if a then 1 else 0) && j / 2 == (if c then 1 else 0);
  }

  lemma SumOfNumbers(i: nat, j: nat)
    requires i < 4 && j < 4
    ensures NumberOfFour(XorNat(i, j)) == PlusOfFour(NumberOfFour(i), NumberOfFour(j))
  {
    hide PlusOfFour, TimesOfFour, OfBits, XorNat, NumberOfFour;
    var a, b, c, d := i >= 2, i % 2 == 1, j >= 2, j % 2 == 1;
    XorOfDigits(i, j, a, b, c, d);
    DigitsOfFour(i, a, b);
    DigitsOfFour(j, c, d);
    DigitsOfFour(XorNat(i, j), a != c, b != d);
    SumOfBits(a, b, c, d);
  }

  lemma SquareOfNumber(q: nat)
    requires q < 4
    ensures PlusOfFour(TimesOfFour(NumberOfFour(q), NumberOfFour(q)), NumberOfFour(q)) == NumberOfFour(q / 2)
  {
    hide PlusOfFour, TimesOfFour, OfBits, NumberOfFour;
    var a, b := q >= 2, q % 2 == 1;
    DigitsOfFour(q, a, b);
    SumOfBits(a, b, a, b);
  }

  lemma SumsInFour(x: Four, y: Four)
    ensures PlusOfFour(x, y) == PlusOfFour(y, x) && PlusOfFour(x, F0) == x && PlusOfFour(x, x) == F0
  {
  }

  lemma FourAreNumbered()
    ensures FourByNumbers().Numbered()
  {
    assert NumberOfFour(0) == F0 && NumberOfFour(1) == F1;
    hide PlusOfFour, TimesOfFour, OfBits, XorNat, NumberOfFour;
    var f := FourByNumbers();
    forall i: nat, j: nat | i < 4 && j < 4 ensures f.element(XorNat(i, j)) == f.plus(f.element(i), f.element(j)) {
      SumOfNumbers(i, j);
    }
    forall q: nat | q < 4 ensures f.plus(f.times(f.element(q), f.element(q)), f.element(q)) == f.element(q / 2) {
      SquareOfNumber(q);
    }
  }

  lemma FourAdds()
    ensures FourByNumbers().Additive()
  {
    hide PlusOfFour, TimesOfFour;
    var f := FourByNumbers();
    forall x, y ensures f.plus(x, y) == f.plus(y, x) { SumsInFour(x, y); }
    forall x, y, z ensures f.plus(x, f.plus(y, z)) == f.plus(f.plus(x, y), z) { PlusInFour(x, y, z); }
    forall x ensures f.plus(x, f.zero) == x { SumsInFour(x, x); }
    forall x ensures f.plus(x, x) == f.zero { SumsInFour(x, x); }
  }

  lemma FourMultiplies()
    ensures FourByNumbers().Multiplicative()
  {
    hide PlusOfFour, TimesOfFour;
    var f := FourByNumbers();
    forall x, y ensures f.times(x, y) == f.times(y, x) { TimesInFour(x, y, y); }
    forall x, y, z ensures f.times(x, f.times(y, z)) == f.times(f.times(x, y), z) { TimesInFour(x, y, z); }
    forall x ensures f.times(f.one, x) == x { TimesInFour(x, x, x); }
    forall x, y, z ensures f.times(x, f.plus(y, z)) == f.plus(f.times(x, y), f.times(x, z)) { TimesInFour(x, y, z); }
  }

  lemma FourIsCantorField()
    ensures FourByNumbers().Laws()
  {
    hide FourByNumbers;
    FourAdds();
    FourMultiplies();
    FourAreNumbered();
  }
}
