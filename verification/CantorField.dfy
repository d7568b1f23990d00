/** A field of characteristic 2 whose elements are numbered by a Cantor basis, as those of Leopard:
    numbers are added by exclusive or, and x * x + x is the element of half the number of x. */
module CantorField {
  import opened XorIndex

  datatype Field<!E(!new)> = Field(order: nat, zero: E, one: E, plus: (E, E) -> E, times: (E, E) -> E,
                                       element: nat -> E)
  {
    ghost predicate Additive() {
      && (forall x, y {:trigger plus(x, y)} :: plus(x, y) == plus(y, x))
      && (forall x, y, z {:trigger plus(x, plus(y, z))} :: plus(x, plus(y, z)) == plus(plus(x, y), z))
      && (forall x {:trigger plus(x, zero)} :: plus(x, zero) == x)
      && (forall x {:trigger plus(x, x)} :: plus(x, x) == zero)
    }

    ghost predicate Multiplicative() {
      && (forall x, y {:trigger times(x, y)} :: times(x, y) == times(y, x))
      && (forall x, y, z {:trigger times(x, times(y, z))} :: times(x, times(y, z)) == times(times(x, y), z))
      && (forall x {:trigger times(one, x)} :: times(one, x) == x)
      && (forall x, y, z {:trigger times(x, plus(y, z))} :: times(x, plus(y, z)) == plus(times(x, y), times(x, z)))
    }

    ghost predicate Numbered() {
      && element(0) == zero && element(1) == one
      && (forall i: nat, j: nat {:trigger XorNat(i, j)} :: i < order && j < order ==>
            element(XorNat(i, j)) == plus(element(i), element(j)))
      && (forall q: nat {:trigger times(element(q), element(q))} :: q < order ==>
            plus(times(element(q), element(q)), element(q)) == element(q / 2))
    }

    ghost predicate Laws() { Additive() && Multiplicative() && Numbered() }
  }

  // Single laws, and sums of several terms

  lemma PlusComm<E(!new)>(f: Field<E>, x: E, y: E)
    requires f.Laws()
    ensures f.plus(x, y) == f.plus(y, x)
  {
    hide Field.Multiplicative, Field.Numbered;
  }

  lemma PlusAssoc<E(!new)>(f: Field<E>, x: E, y: E, z: E)
    requires f.Laws()
    ensures f.plus(x, f.plus(y, z)) == f.plus(f.plus(x, y), z)
  {
    hide Field.Multiplicative, Field.Numbered;
  }

  lemma PlusNothing<E(!new)>(f: Field<E>, x: E)
    requires f.Laws()
    ensures f.plus(x, f.zero) == x && f.plus(f.zero, x) == x && f.plus(x, x) == f.zero
  {
    hide Field.Multiplicative, Field.Numbered;
    PlusComm(f, x, f.zero);
  }

  lemma TimesComm<E(!new)>(f: Field<E>, x: E, y: E)
    requires f.Laws()
    ensures f.times(x, y) == f.times(y, x)
  {
    hide Field.Additive, Field.Numbered;
  }

  lemma TimesAssoc<E(!new)>(f: Field<E>, x: E, y: E, z: E)
    requires f.Laws()
    ensures f.times(x, f.times(y, z)) == f.times(f.times(x, y), z)
  {
    hide Field.Additive, Field.Numbered;
  }

  lemma Distributes<E(!new)>(f: Field<E>, x: E, y: E, z: E)
    requires f.Laws()
    ensures f.times(x, f.plus(y, z)) == f.plus(f.times(x, y), f.times(x, z))
    ensures f.times(f.plus(y, z), x) == f.plus(f.times(y, x), f.times(z, x))
  {
    hide Field.Additive, Field.Numbered;
    TimesComm(f, x, y);
    TimesComm(f, x, z);
    TimesComm(f, x, f.plus(y, z));
  }

  lemma TimesNothing<E(!new)>(f: Field<E>, x: E)
    requires f.Laws()
    ensures f.times(x, f.zero) == f.zero && f.times(f.zero, x) == f.zero && f.times(f.one, x) == x
  {
    Distributes(f, x, x, x);
    PlusNothing(f, x);
    PlusNothing(f, f.times(x, x));
    TimesComm(f, x, f.zero);
    hide Field.Additive, Field.Numbered;
  }

  lemma ElementSum<E(!new)>(f: Field<E>, i: nat, j: nat)
    requires f.Laws() && i < f.order && j < f.order
    ensures f.element(XorNat(i, j)) == f.plus(f.element(i), f.element(j))
    ensures f.element(0) == f.zero && f.element(1) == f.one
  {
    hide Field.Additive, Field.Multiplicative;
  }

  lemma ElementSquare<E(!new)>(f: Field<E>, q: nat)
    requires f.Laws() && q < f.order
    ensures f.times(f.element(q), f.element(q)) == f.plus(f.element(q / 2), f.element(q))
  {
    var x := f.element(q);
    var y := f.times(x, x);
    assert f.plus(y, x) == f.element(q / 2) by { hide Field.Additive, Field.Multiplicative; }
    hide Field.Laws;
    assert f.Laws();
    PlusAssoc(f, y, x, x);
    PlusNothing(f, x);
    PlusNothing(f, y);
  }

  /** (a + b) + (c + d) == (a + c) + (b + d) */
  lemma Shuffle<E(!new)>(f: Field<E>, a: E, b: E, c: E, d: E)
    requires f.Laws()
    ensures f.plus(f.plus(a, b), f.plus(c, d)) == f.plus(f.plus(a, c), f.plus(b, d))
  {
    hide Field.Laws;
    PlusAssoc(f, f.plus(a, b), c, d);
    PlusAssoc(f, a, b, c);
    PlusComm(f, b, c);
    PlusAssoc(f, a, c, b);
    PlusAssoc(f, f.plus(a, c), b, d);
  }

  /** a + (a + b) == b */
  lemma Cancels<E(!new)>(f: Field<E>, a: E, b: E)
    requires f.Laws()
    ensures f.plus(a, f.plus(a, b)) == b && f.plus(f.plus(b, a), a) == b && f.plus(a, f.plus(b, a)) == b
  {
    hide Field.Laws;
    PlusAssoc(f, a, a, b);
    PlusAssoc(f, b, a, a);
    PlusNothing(f, a);
    PlusNothing(f, b);
    PlusComm(f, a, b);
    PlusComm(f, a, f.plus(b, a));
  }
}
