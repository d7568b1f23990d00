/** A polynomial times the locator of some positions, and the derivative that gives its values at these
    positions back. */
module ErasurePolynomials {
  import opened Butterfly
  import opened CantorField
  import opened NovelBasis
  import opened XorIndex

  /** (x + s) times a polynomial whose degree leaves room for it. */
  function Factor<E(!new)>(f: Field<E>, c: seq<E>, s: E): (r: seq<E>)
    requires PowerOfTwo(|c|)
    ensures |r| == |c|
  {
    Sum(f, TimesX(f, c).0, Scaled(f, s, c))
  }

  lemma NotEmpty<E>(c: seq<E>)
    requires PowerOfTwo(|c|)
    ensures |c| > 0
  {
  }

  lemma ValueOfFactor<E(!new)>(f: Field<E>, c: seq<E>, s: E, p: nat)
    requires f.Laws() && PowerOfTwo(|c|) && p < f.order && TimesX(f, c).1 == f.zero
    ensures Value(f, Factor(f, c, s), p) == f.times(f.plus(f.element(p), s), Value(f, c, p))
  {
    hide Field.Laws, Value, TimesX, PowerOfTwo, Sum, Scaled;
    NotEmpty(c);
    ValueOfTimesX(f, c, p);
    TimesNothing(f, f.element(p / |c|));
    PlusNothing(f, Value(f, TimesX(f, c).0, p));
    ValueOfScaled(f, s, c, p);
    ValueOfSum(f, TimesX(f, c).0, Scaled(f, s, c), p);
    Distributes(f, Value(f, c, p), f.element(p), s);
  }

  /** The derivative of (x + s) P is P + (x + s) P'. */
  lemma DerivOfFactor<E(!new)>(f: Field<E>, c: seq<E>, s: E)
    requires f.Laws() && PowerOfTwo(|c|) && TimesX(f, c).1 == f.zero
    ensures TimesX(f, Deriv(f, c)).1 == f.zero
    ensures Deriv(f, Factor(f, c, s)) == Sum(f, c, Factor(f, Deriv(f, c), s))
  {
    hide Field.Laws, TimesX, PowerOfTwo, Sum, Scaled, Deriv, AddFirst;
    NotEmpty(c);
    var lo := TimesX(f, c).0;
    ProductRule(f, c);
    NothingFirst(f, Deriv(f, lo));
    DerivOfSum(f, lo, Scaled(f, s, c));
    DerivOfScaled(f, s, c);
    var t := TimesX(f, Deriv(f, c)).0;
    SumShuffle(f, c, t, Scaled(f, s, Deriv(f, c)), t);
  }

  lemma NothingFirst<E(!new)>(f: Field<E>, c: seq<E>)
    requires f.Laws() && |c| > 0
    ensures AddFirst(f, c, f.zero) == c
  {
    hide Field.Laws;
    PlusNothing(f, c[0]);
  }

  lemma ValueOfDerivOfFactor<E(!new)>(f: Field<E>, c: seq<E>, s: E, p: nat)
    requires f.Laws() && PowerOfTwo(|c|) && p < f.order && TimesX(f, c).1 == f.zero
    ensures Value(f, Deriv(f, Factor(f, c, s)), p)
         == f.plus(Value(f, c, p), f.times(f.plus(f.element(p), s), Value(f, Deriv(f, c), p)))
  {
    hide Field.Laws, Value, TimesX, PowerOfTwo, Sum, Factor, Deriv;
    DerivOfFactor(f, c, s);
    ValueOfSum(f, c, Factor(f, Deriv(f, c), s), p);
    ValueOfFactor(f, Deriv(f, c), s, p);
  }

  lemma FactorDegree<E(!new)>(f: Field<E>, c: seq<E>, s: E, r: nat)
    requires f.Laws() && PowerOfTwo(|c|) && r < |c| && ZeroFrom(f, c, r)
    ensures TimesX(f, c).1 == f.zero && ZeroFrom(f, Factor(f, c, s), r + 1)
  {
    hide Field.Laws, TimesX, PowerOfTwo;
    TimesXDegree(f, c, r);
    TimesNothing(f, s);
    PlusNothing(f, f.zero);
  }

  // Several positions

  function Count(marks: seq<nat>, k: nat): nat
    requires k <= |marks|
  {
    if k == 0 then 0 else Count(marks, k - 1) + if marks[k - 1] == 1 then 1 else 0
  }

  /** A polynomial times (x + j) for every marked position j below `k`. */
  function Located<E(!new)>(f: Field<E>, c: seq<E>, marks: seq<nat>, k: nat): (r: seq<E>)
    requires PowerOfTwo(|c|) && k <= |marks|
    ensures |r| == |c|
  {
    if k == 0 then c
    else if marks[k - 1] == 1 then Factor(f, Located(f, c, marks, k - 1), f.element(k - 1))
    else Located(f, c, marks, k - 1)
  }

  /** The product of p + j over the marked positions j below `k` other than p. */
  function Locator<E(!new)>(f: Field<E>, marks: seq<nat>, p: nat, k: nat): E
    requires k <= |marks|
  {
    if k == 0 then f.one
    else if marks[k - 1] == 1 && k - 1 != p then
      f.times(f.element(XorNat(p, k - 1)), Locator(f, marks, p, k - 1))
    else Locator(f, marks, p, k - 1)
  }

  lemma {:induction false} LocatedDegree<E(!new)>(f: Field<E>, c: seq<E>, marks: seq<nat>, r: nat, k: nat)
    requires f.Laws() && PowerOfTwo(|c|) && k <= |marks| && ZeroFrom(f, c, r) && r + Count(marks, k) <= |c|
    ensures ZeroFrom(f, Located(f, c, marks, k), r + Count(marks, k))
    decreases k
  {
    hide Field.Laws, Factor, ZeroFrom, PowerOfTwo;
    if k > 0 {
      LocatedDegree(f, c, marks, r, k - 1);
      if marks[k - 1] == 1 {
        FactorDegree(f, Located(f, c, marks, k - 1), f.element(k - 1), r + Count(marks, k - 1));
      }
    }
  }

  /** At a marked position the product is zero, and its derivative is the value times the locator of the
      other positions; elsewhere the product is the value times the locator. */
  lemma {:induction false} LocatedAt<E(!new)>(f: Field<E>, c: seq<E>, marks: seq<nat>, r: nat, p: nat, k: nat)
    requires f.Laws() && PowerOfTwo(|c|) && k <= |marks| <= f.order && p < f.order
    requires ZeroFrom(f, c, r) && r + Count(marks, k) <= |c|
    ensures var g := Located(f, c, marks, k); var v := f.times(Locator(f, marks, p, k), Value(f, c, p));
            if p < k && marks[p] == 1 then Value(f, g, p) == f.zero && Value(f, Deriv(f, g), p) == v
            else Value(f, g, p) == v
    decreases k
  {
    hide Field.Laws, Value, Factor, ZeroFrom, Deriv, PowerOfTwo;
    if k == 0 {
      TimesNothing(f, Value(f, c, p));
    } else {
      LocatedAt(f, c, marks, r, p, k - 1);
      if marks[k - 1] == 1 {
        var g, s := Located(f, c, marks, k - 1), f.element(k - 1);
        LocatedDegree(f, c, marks, r, k - 1);
        FactorDegree(f, g, s, r + Count(marks, k - 1));
        ValueOfFactor(f, g, s, p);
        ValueOfDerivOfFactor(f, g, s, p);
        ElementSum(f, p, k - 1);
        FactorAt(f, p, k - 1, Value(f, g, p), Value(f, Deriv(f, g), p), Locator(f, marks, p, k - 1), Value(f, c, p));
      }
    }
  }

  /** The arithmetic of one more factor. */
  lemma FactorAt<E(!new)>(f: Field<E>, p: nat, j: nat, g: E, d: E, l: E, v: E)
    requires f.Laws()
    ensures f.times(f.plus(f.element(p), f.element(p)), d) == f.zero && f.plus(g, f.zero) == g
    ensures f.times(f.plus(f.element(p), f.element(p)), g) == f.zero
    ensures var x := f.plus(f.element(p), f.element(j));
            && f.times(x, f.times(l, v)) == f.times(f.times(x, l), v)
            && f.times(x, f.zero) == f.zero && f.plus(f.zero, f.times(x, d)) == f.times(x, d)
  {
    hide Field.Laws;
    PlusNothing(f, f.element(p));
    TimesNothing(f, d);
    TimesNothing(f, g);
    PlusNothing(f, g);
    var x := f.plus(f.element(p), f.element(j));
    TimesAssoc(f, x, l, v);
    TimesNothing(f, x);
    PlusNothing(f, f.times(x, d));
  }
}
