/** The error locator as a product of field elements: the decoder works with its logarithm. */
module LocatorElements {
  import opened Butterfly
  import opened ErasurePolynomials
  import opened ErrorLocator
  import opened XorIndex
  import opened CantorField
  import Mod = ModularPairs

  /** ExpLUT, continued beyond kModulus. */
  ghost predicate Exponential<E(!new)>(f: Field<E>, exp: nat -> E, modulus: nat) {
    && exp(0) == f.one && exp(modulus) == f.one
    && forall a: nat, b: nat {:trigger f.times(exp(a), exp(b))} :: exp(a + b) == f.times(exp(a), exp(b))
  }

  /** LogLUT, with 0 for the logarithm of 0. */
  ghost predicate Logarithm<E(!new)>(f: Field<E>, exp: nat -> E, log: seq<int>) {
    && |log| > 0 && log[0] == 0
    && forall x :: 0 < x < |log| ==> log[x] >= 0 && exp(log[x]) == f.element(x)
  }

  lemma ExpOfSum<E(!new)>(f: Field<E>, exp: nat -> E, modulus: nat, a: nat, b: nat)
    requires Exponential(f, exp, modulus)
    ensures exp(a + b) == f.times(exp(a), exp(b)) && exp(0) == exp(modulus) == f.one
  {
  }

  lemma LogIs<E(!new)>(f: Field<E>, exp: nat -> E, log: seq<int>, x: nat)
    requires Logarithm(f, exp, log) && x < |log|
    ensures log[x] >= 0 && (if x == 0 then log[x] == 0 else exp(log[x]) == f.element(x))
  {
  }

  /** The sum of the logarithms is the logarithm of the product. */
  lemma {:induction false} ExpOfMarkedSum<E(!new)>(f: Field<E>, exp: nat -> E, modulus: nat, log: seq<int>,
      marks: seq<nat>, p: nat, k: nat)
    requires f.Laws() && Exponential(f, exp, modulus) && Logarithm(f, exp, log)
    requires PowerOfTwo(|marks|) && |log| == |marks| && p < |marks| && k <= |marks|
    ensures MarkedSum(marks, log, p, k) >= 0 && exp(MarkedSum(marks, log, p, k)) == Locator(f, marks, p, k)
    decreases k
  {
    hide Field.Laws, Exponential, Logarithm, PowerOfTwo, XorNat;
    if k == 0 {
      ExpOfSum(f, exp, modulus, 0, 0);
    } else {
      ExpOfMarkedSum(f, exp, modulus, log, marks, p, k - 1);
      XorHigh(p, k - 1, false, false, |marks|);
      XorIsZero(p, k - 1);
      var x := XorNat(p, k - 1);
      LogIs(f, exp, log, x);
      ExpOfSum(f, exp, modulus, MarkedSum(marks, log, p, k - 1), log[x]);
      TimesComm(f, f.element(x), Locator(f, marks, p, k - 1));
    }
  }

  lemma {:induction false} ExpTurns<E(!new)>(f: Field<E>, exp: nat -> E, modulus: nat, a: nat, k: nat)
    requires f.Laws() && Exponential(f, exp, modulus)
    ensures k * modulus >= 0 && exp(a + k * modulus) == exp(a)
  {
    hide Field.Laws, Exponential;
    if k > 0 {
      ExpTurns(f, exp, modulus, a, k - 1);
      assert a + k * modulus == a + (k - 1) * modulus + modulus;
      ExpOfSum(f, exp, modulus, a + (k - 1) * modulus, modulus);
      TimesNothing(f, exp(a));
      TimesComm(f, exp(a), f.one);
    }
  }

  lemma ExpOfCongruent<E(!new)>(f: Field<E>, exp: nat -> E, modulus: nat, x: nat, y: nat)
    requires f.Laws() && Exponential(f, exp, modulus) && Mod.Congruent(x, y, modulus)
    ensures exp(x) == exp(y)
  {
    hide Field.Laws, Exponential;
    var k :| x == y + Mod.Product(k, modulus);
    if k >= 0 {
      ExpTurns(f, exp, modulus, y, k);
    } else {
      assert y == x + -k * modulus;
      ExpTurns(f, exp, modulus, x, -k);
    }
  }

  /** The weights of the decoder, and what frees a row of them. */
  lemma LocatorIs<E(!new)>(f: Field<E>, exp: nat -> E, field: Mod.Field, d: seq<nat>, marks: seq<nat>, log: seq<int>,
      p: nat)
    requires f.Laws() && Exponential(f, exp, field.Modulus()) && Logarithm(f, exp, log)
    requires Locates(field, d, marks, log) && p < |d|
    ensures d[p] <= field.Modulus() && exp(d[p]) == Locator(f, marks, p, |marks|)
    ensures f.times(exp(field.Modulus() - d[p]), exp(d[p])) == f.one
  {
    hide Field.Laws, Exponential, Logarithm, PowerOfTwo, Locator;
    ExpOfMarkedSum(f, exp, field.Modulus(), log, marks, p, |marks|);
    ExpOfCongruent(f, exp, field.Modulus(), d[p], MarkedSum(marks, log, p, |marks|));
    ExpOfSum(f, exp, field.Modulus(), field.Modulus() - d[p], d[p]);
  }
}
