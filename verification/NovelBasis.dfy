/** Polynomials in the basis of the additive FFT, by their coefficients.  With n coefficients, n a
    power of two, the basis element of a number v is the product of the x_b over its binary digits b,
    where x_b at the point numbered p is the element numbered p / 2^b. */
module NovelBasis {
  import opened Butterfly
  import opened CantorField
  import opened Division
  import opened XorIndex

  /** The value at the point numbered `p`: the lower half of the coefficients, and the upper half times
      the last x_b. */
  function Value<E(!new)>(f: Field<E>, c: seq<E>, p: nat): E
    requires PowerOfTwo(|c|)
    decreases |c|
  {
    if |c| == 1 then c[0]
    else
      PowerHalf(|c|);
      var h := |c| / 2;
      f.plus(Value(f, c[..h], p), f.times(f.element(p / h), Value(f, c[h..], p)))
  }

  lemma ValueHalves<E(!new)>(f: Field<E>, a: seq<E>, b: seq<E>, p: nat)
    requires PowerOfTwo(|a|) && |b| == |a|
    ensures PowerOfTwo(|a + b|)
    ensures Value(f, a + b, p) == f.plus(Value(f, a, p), f.times(f.element(p / |a|), Value(f, b, p)))
  {
    PowerDoubled(|a|);
    var c := a + b;
    assert |c| / 2 == |a| && c[..|a|] == a && c[|a|..] == b;
  }

  lemma OneValue<E(!new)>(f: Field<E>, c: seq<E>, p: nat)
    requires PowerOfTwo(|c|) && |c| == 1
    ensures Value(f, c, p) == c[0]
  {
  }

  lemma Halves<E>(c: seq<E>) returns (a: seq<E>, b: seq<E>)
    requires PowerOfTwo(|c|) && |c| != 1
    ensures c == a + b && |a| == |b| == |c| / 2 && PowerOfTwo(|a|) && |c| == 2 * |a|
  {
    PowerHalf(|c|);
    a, b := c[..|c| / 2], c[|c| / 2..];
  }

  // Linearity

  function Sum<E(!new)>(f: Field<E>, c: seq<E>, d: seq<E>): (r: seq<E>)
    requires |c| == |d|
    ensures |r| == |c|
  {
    seq(|c|, i requires 0 <= i < |c| => f.plus(c[i], d[i]))
  }

  function Scaled<E(!new)>(f: Field<E>, s: E, c: seq<E>): (r: seq<E>)
    ensures |r| == |c|
  {
    seq(|c|, i requires 0 <= i < |c| => f.times(s, c[i]))
  }

  lemma SumHalves<E(!new)>(f: Field<E>, a: seq<E>, b: seq<E>, c: seq<E>, d: seq<E>, s: E)
    requires |a| == |c| && |b| == |d|
    ensures Sum(f, a + b, c + d) == Sum(f, a, c) + Sum(f, b, d)
    ensures Scaled(f, s, a + b) == Scaled(f, s, a) + Scaled(f, s, b)
  {
  }

  lemma {:induction false} ValueOfSum<E(!new)>(f: Field<E>, c: seq<E>, d: seq<E>, p: nat)
    requires f.Laws() && PowerOfTwo(|c|) && |c| == |d|
    ensures Value(f, Sum(f, c, d), p) == f.plus(Value(f, c, p), Value(f, d, p))
    decreases |c|
  {
    hide Field.Laws, Value, Scaled, PowerOfTwo;
    if |c| == 1 {
      OneValue(f, c, p);
      OneValue(f, d, p);
      OneValue(f, Sum(f, c, d), p);
    } else {
      hide Sum;
      var a, b := Halves(c);
      var a', b' := Halves(d);
      SumHalves(f, a, b, a', b', f.one);
      ValueOfSum(f, a, a', p);
      ValueOfSum(f, b, b', p);
      ValueHalves(f, a, b, p);
      ValueHalves(f, a', b', p);
      ValueHalves(f, Sum(f, a, a'), Sum(f, b, b'), p);
      var x := f.element(p / |a|);
      Distributes(f, x, Value(f, b, p), Value(f, b', p));
      Shuffle(f, Value(f, a, p), Value(f, a', p), f.times(x, Value(f, b, p)), f.times(x, Value(f, b', p)));
    }
  }

  lemma {:induction false} ValueOfScaled<E(!new)>(f: Field<E>, s: E, c: seq<E>, p: nat)
    requires f.Laws() && PowerOfTwo(|c|)
    ensures Value(f, Scaled(f, s, c), p) == f.times(s, Value(f, c, p))
    decreases |c|
  {
    hide Field.Laws, Value, Sum, PowerOfTwo;
    if |c| == 1 {
      OneValue(f, c, p);
      OneValue(f, Scaled(f, s, c), p);
    } else {
      hide Scaled;
      var a, b := Halves(c);
      SumHalves(f, a, b, a, b, s);
      ValueOfScaled(f, s, a, p);
      ValueOfScaled(f, s, b, p);
      ValueHalves(f, a, b, p);
      ValueHalves(f, Scaled(f, s, a), Scaled(f, s, b), p);
      var x, v := f.element(p / |a|), Value(f, b, p);
      TimesAssoc(f, x, s, v);
      TimesComm(f, x, s);
      TimesAssoc(f, s, x, v);
      Distributes(f, s, Value(f, a, p), f.times(x, v));
    }
  }

  // Multiplication by x_0, which is the point itself

  /** The coefficients of x times a polynomial, and that of the first basis element behind them. */
  function TimesX<E(!new)>(f: Field<E>, c: seq<E>): (r: (seq<E>, E))
    requires PowerOfTwo(|c|)
    ensures |r.0| == |c|
    decreases |c|
  {
    if |c| == 1 then ([f.zero], c[0])
    else
      PowerHalf(|c|);
      var h := |c| / 2;
      var ((a, x), (b, y)) := (TimesX(f, c[..h]), TimesX(f, c[h..]));
      (a + b[0 := f.plus(b[0], f.plus(x, y))], y)
  }

  lemma TimesXHalves<E(!new)>(f: Field<E>, a: seq<E>, b: seq<E>)
    requires PowerOfTwo(|a|) && |b| == |a|
    ensures PowerOfTwo(|a + b|)
    ensures var (c, x) := TimesX(f, a); var (d, y) := TimesX(f, b);
            TimesX(f, a + b) == (c + AddFirst(f, d, f.plus(x, y)), y)
  {
    PowerDoubled(|a|);
    var c := a + b;
    assert |c| / 2 == |a| && c[..|a|] == a && c[|a|..] == b;
  }

  function AddFirst<E(!new)>(f: Field<E>, c: seq<E>, x: E): (r: seq<E>)
    requires |c| > 0
    ensures |r| == |c|
  {
    c[0 := f.plus(c[0], x)]
  }

  lemma {:induction false} ValueAddFirst<E(!new)>(f: Field<E>, c: seq<E>, x: E, p: nat)
    requires f.Laws() && PowerOfTwo(|c|)
    ensures Value(f, AddFirst(f, c, x), p) == f.plus(Value(f, c, p), x)
    decreases |c|
  {
    hide Field.Laws, Value, PowerOfTwo;
    if |c| == 1 {
      OneValue(f, c, p);
      OneValue(f, AddFirst(f, c, x), p);
    } else {
      var a, b := Halves(c);
      assert AddFirst(f, c, x) == AddFirst(f, a, x) + b;
      hide AddFirst;
      ValueAddFirst(f, a, x, p);
      ValueHalves(f, a, b, p);
      ValueHalves(f, AddFirst(f, a, x), b, p);
      var v, w := Value(f, a, p), f.times(f.element(p / |a|), Value(f, b, p));
      PlusAssoc(f, v, x, w);
      PlusComm(f, x, w);
      PlusAssoc(f, v, w, x);
    }
  }

  lemma OneTimesX<E(!new)>(f: Field<E>, c: seq<E>)
    requires PowerOfTwo(|c|) && |c| == 1
    ensures TimesX(f, c) == ([f.zero], c[0])
  {
  }

  /** (c + a) + (d + (r + b)) == (c + (d + (a + b))) + r */
  lemma Regroup<E(!new)>(f: Field<E>, c: E, a: E, d: E, r: E, b: E)
    requires f.Laws()
    ensures f.plus(f.plus(c, a), f.plus(d, f.plus(r, b))) == f.plus(f.plus(c, f.plus(d, f.plus(a, b))), r)
  {
    hide Field.Laws;
    PlusComm(f, r, b);
    PlusAssoc(f, d, b, r);
    PlusAssoc(f, f.plus(c, a), f.plus(d, b), r);
    PlusAssoc(f, c, a, f.plus(d, b));
    PlusAssoc(f, a, d, b);
    PlusComm(f, a, d);
    PlusAssoc(f, d, a, b);
  }

  /** x * (A + q B) from x * A == C + q u and x * B == D + q v, where q * q == r + q. */
  lemma TimesXStep<E(!new)>(f: Field<E>, x: E, q: E, r: E, va: E, vb: E, c: E, u: E, d: E, v: E)
    requires f.Laws() && f.times(q, q) == f.plus(r, q)
    requires f.times(x, va) == f.plus(c, f.times(q, u)) && f.times(x, vb) == f.plus(d, f.times(q, v))
    ensures f.times(x, f.plus(va, f.times(q, vb)))
         == f.plus(f.plus(c, f.times(q, f.plus(d, f.plus(u, v)))), f.times(r, v))
  {
    hide Field.Laws;
    Distributes(f, x, va, f.times(q, vb));
    TimesAssoc(f, x, q, vb);
    TimesComm(f, x, q);
    TimesAssoc(f, q, x, vb);
    Distributes(f, q, d, f.times(q, v));
    TimesAssoc(f, q, q, v);
    Distributes(f, v, r, q);
    Distributes(f, q, d, f.plus(u, v));
    Distributes(f, q, u, v);
    Regroup(f, c, f.times(q, u), f.times(q, d), f.times(r, v), f.times(q, v));
  }

  /** Multiplying by x multiplies the value at p by the element p. */
  lemma {:induction false} ValueOfTimesX<E(!new)>(f: Field<E>, c: seq<E>, p: nat)
    requires f.Laws() && PowerOfTwo(|c|) && p < f.order
    ensures f.times(f.element(p), Value(f, c, p))
         == f.plus(Value(f, TimesX(f, c).0, p), f.times(f.element(p / |c|), TimesX(f, c).1))
    decreases |c|
  {
    hide Field.Laws, Value, TimesX, PowerOfTwo, AddFirst;
    if |c| == 1 {
      OneTimesX(f, c);
      OneValue(f, c, p);
      OneValue(f, [f.zero], p);
      PlusNothing(f, f.times(f.element(p), c[0]));
    } else {
      var a, b := Halves(c);
      ValueOfTimesX(f, a, p);
      ValueOfTimesX(f, b, p);
      TimesXHalves(f, a, b);
      ValueHalves(f, a, b, p);
      var (a', u) := TimesX(f, a);
      var (b', v) := TimesX(f, b);
      ValueHalves(f, a', AddFirst(f, b', f.plus(u, v)), p);
      ValueAddFirst(f, b', f.plus(u, v), p);
      Halved(p, |a|);
      QuotientFits(p, |a|);
      ElementSquare(f, p / |a|);
      TimesXStep(f, f.element(p), f.element(p / |a|), f.element(p / |c|), Value(f, a, p), Value(f, b, p),
                 Value(f, a', p), u, Value(f, b', p), v);
    }
  }

  lemma QuotientFits(p: nat, h: nat)
    requires h > 0
    ensures p / h <= p
  {
    Recombine(p, 1, 0);
    var q := p / h;
    assert p == q * h + p % h;
    MulLe(1, h, q);
    assert h * q == q * h;
  }

  lemma {:induction false} TimesXOfSum<E(!new)>(f: Field<E>, c: seq<E>, d: seq<E>)
    requires f.Laws() && PowerOfTwo(|c|) && |c| == |d|
    ensures TimesX(f, Sum(f, c, d))
         == (Sum(f, TimesX(f, c).0, TimesX(f, d).0), f.plus(TimesX(f, c).1, TimesX(f, d).1))
    decreases |c|
  {
    hide Field.Laws, TimesX, PowerOfTwo;
    if |c| == 1 {
      OneTimesX(f, c);
      OneTimesX(f, d);
      OneTimesX(f, Sum(f, c, d));
      PlusNothing(f, f.zero);
      assert Sum(f, [f.zero], [f.zero]) == [f.zero];
    } else {
      hide Sum, AddFirst;
      var a, b := Halves(c);
      var a', b' := Halves(d);
      SumHalves(f, a, b, a', b', f.one);
      TimesXOfSum(f, a, a');
      TimesXOfSum(f, b, b');
      TimesXHalves(f, a, b);
      TimesXHalves(f, a', b');
      TimesXHalves(f, Sum(f, a, a'), Sum(f, b, b'));
      var (c0, x) := TimesX(f, a);
      var (c1, y) := TimesX(f, b);
      var (d0, x') := TimesX(f, a');
      var (d1, y') := TimesX(f, b');
      Shuffle(f, x, x', y, y');
      SumHalves(f, c0, AddFirst(f, c1, f.plus(x, y)), d0, AddFirst(f, d1, f.plus(x', y')), f.one);
      SumAddFirst(f, c1, d1, f.plus(x, y), f.plus(x', y'));
    }
  }

  lemma SumAddFirst<E(!new)>(f: Field<E>, c: seq<E>, d: seq<E>, x: E, y: E)
    requires f.Laws() && |c| == |d| && |c| > 0
    ensures Sum(f, AddFirst(f, c, x), AddFirst(f, d, y)) == AddFirst(f, Sum(f, c, d), f.plus(x, y))
  {
    hide Field.Laws;
    Shuffle(f, c[0], x, d[0], y);
  }

  // The derivative

  /** Every x_b has the derivative 1. */
  function Deriv<E(!new)>(f: Field<E>, c: seq<E>): (r: seq<E>)
    requires PowerOfTwo(|c|)
    ensures |r| == |c|
    decreases |c|
  {
    if |c| == 1 then [f.zero]
    else
      PowerHalf(|c|);
      var h := |c| / 2;
      Sum(f, Deriv(f, c[..h]), c[h..]) + Deriv(f, c[h..])
  }

  lemma DerivHalves<E(!new)>(f: Field<E>, a: seq<E>, b: seq<E>)
    requires PowerOfTwo(|a|) && |b| == |a|
    ensures PowerOfTwo(|a + b|) && Deriv(f, a + b) == Sum(f, Deriv(f, a), b) + Deriv(f, b)
  {
    PowerDoubled(|a|);
    var c := a + b;
    assert |c| / 2 == |a| && c[..|a|] == a && c[|a|..] == b;
  }

  lemma OneDeriv<E(!new)>(f: Field<E>, c: seq<E>)
    requires PowerOfTwo(|c|) && |c| == 1
    ensures Deriv(f, c) == [f.zero]
  {
  }

  lemma {:induction false} DerivOfAddFirst<E(!new)>(f: Field<E>, c: seq<E>, x: E)
    requires PowerOfTwo(|c|)
    ensures Deriv(f, AddFirst(f, c, x)) == Deriv(f, c)
    decreases |c|
  {
    hide Deriv, PowerOfTwo, Sum;
    if |c| == 1 {
      OneDeriv(f, c);
      OneDeriv(f, AddFirst(f, c, x));
    } else {
      var a, b := Halves(c);
      assert AddFirst(f, c, x) == AddFirst(f, a, x) + b;
      DerivOfAddFirst(f, a, x);
      DerivHalves(f, a, b);
      DerivHalves(f, AddFirst(f, a, x), b);
    }
  }

  lemma SumShuffle<E(!new)>(f: Field<E>, a: seq<E>, b: seq<E>, c: seq<E>, d: seq<E>)
    requires f.Laws() && |a| == |b| == |c| == |d|
    ensures Sum(f, Sum(f, a, b), Sum(f, c, d)) == Sum(f, Sum(f, a, c), Sum(f, b, d))
    ensures Sum(f, Sum(f, a, b), c) == Sum(f, a, Sum(f, b, c))
  {
    hide Field.Laws;
    forall i | 0 <= i < |a|
      ensures f.plus(f.plus(a[i], b[i]), f.plus(c[i], d[i])) == f.plus(f.plus(a[i], c[i]), f.plus(b[i], d[i]))
      ensures f.plus(f.plus(a[i], b[i]), c[i]) == f.plus(a[i], f.plus(b[i], c[i]))
    {
      Shuffle(f, a[i], b[i], c[i], d[i]);
      PlusAssoc(f, a[i], b[i], c[i]);
    }
  }

  lemma {:induction false} DerivOfSum<E(!new)>(f: Field<E>, c: seq<E>, d: seq<E>)
    requires f.Laws() && PowerOfTwo(|c|) && |c| == |d|
    ensures Deriv(f, Sum(f, c, d)) == Sum(f, Deriv(f, c), Deriv(f, d))
    decreases |c|
  {
    hide Field.Laws, Deriv, PowerOfTwo;
    if |c| == 1 {
      OneDeriv(f, c);
      OneDeriv(f, d);
      OneDeriv(f, Sum(f, c, d));
      PlusNothing(f, f.zero);
    } else {
      hide Sum;
      var a, b := Halves(c);
      var a', b' := Halves(d);
      SumHalves(f, a, b, a', b', f.one);
      DerivOfSum(f, a, a');
      DerivOfSum(f, b, b');
      DerivHalves(f, a, b);
      DerivHalves(f, a', b');
      DerivHalves(f, Sum(f, a, a'), Sum(f, b, b'));
      SumShuffle(f, Deriv(f, a), Deriv(f, a'), b, b');
      SumHalves(f, Sum(f, Deriv(f, a), b), Deriv(f, b), Sum(f, Deriv(f, a'), b'), Deriv(f, b'), f.one);
    }
  }

  lemma {:induction false} DerivOfScaled<E(!new)>(f: Field<E>, s: E, c: seq<E>)
    requires f.Laws() && PowerOfTwo(|c|)
    ensures Deriv(f, Scaled(f, s, c)) == Scaled(f, s, Deriv(f, c))
    decreases |c|
  {
    hide Field.Laws, Deriv, PowerOfTwo;
    if |c| == 1 {
      OneDeriv(f, c);
      OneDeriv(f, Scaled(f, s, c));
      TimesNothing(f, s);
    } else {
      hide Sum, Scaled;
      var a, b := Halves(c);
      SumHalves(f, a, b, a, b, s);
      DerivOfScaled(f, s, a);
      DerivOfScaled(f, s, b);
      DerivHalves(f, a, b);
      DerivHalves(f, Scaled(f, s, a), Scaled(f, s, b));
      ScaledSum(f, s, Deriv(f, a), b);
      SumHalves(f, Sum(f, Deriv(f, a), b), Deriv(f, b), Sum(f, Deriv(f, a), b), Deriv(f, b), s);
    }
  }

  lemma ScaledSum<E(!new)>(f: Field<E>, s: E, c: seq<E>, d: seq<E>)
    requires f.Laws() && |c| == |d|
    ensures Scaled(f, s, Sum(f, c, d)) == Sum(f, Scaled(f, s, c), Scaled(f, s, d))
  {
    hide Field.Laws;
    forall i | 0 <= i < |c| ensures f.times(s, f.plus(c[i], d[i])) == f.plus(f.times(s, c[i]), f.times(s, d[i])) {
      Distributes(f, s, c[i], d[i]);
    }
  }

  /** From the derivative of x A, and of x B, that of the lower half of x (A + x_b B). */
  lemma LowerHalf<E(!new)>(f: Field<E>, da: seq<E>, b': seq<E>, a: seq<E>, tda: seq<E>, u: E, v: E)
    requires f.Laws() && |da| == |b'| == |a| == |tda| && |da| > 0 && AddFirst(f, da, u) == Sum(f, a, tda)
    ensures AddFirst(f, Sum(f, da, AddFirst(f, b', f.plus(u, v))), v) == Sum(f, a, Sum(f, tda, b'))
  {
    var l, r := AddFirst(f, Sum(f, da, AddFirst(f, b', f.plus(u, v))), v), Sum(f, a, Sum(f, tda, b'));
    forall i | 0 <= i < |a| ensures l[i] == r[i] {
      assert AddFirst(f, da, u)[i] == Sum(f, a, tda)[i];
      hide Field.Laws;
      PlusAssoc(f, a[i], tda[i], b'[i]);
      if i == 0 { FirstOfLower(f, da[0], b'[0], u, v); }
    }
  }

  /** (d + (b + (u + v))) + v == (d + u) + b */
  lemma FirstOfLower<E(!new)>(f: Field<E>, d: E, b: E, u: E, v: E)
    requires f.Laws()
    ensures f.plus(f.plus(d, f.plus(b, f.plus(u, v))), v) == f.plus(f.plus(d, u), b)
  {
    hide Field.Laws;
    PlusAssoc(f, b, u, v);
    PlusAssoc(f, d, f.plus(b, u), v);
    PlusAssoc(f, f.plus(d, f.plus(b, u)), v, v);
    PlusNothing(f, v);
    PlusNothing(f, f.plus(d, f.plus(b, u)));
    PlusComm(f, b, u);
    PlusAssoc(f, d, u, b);
  }

  lemma UpperHalf<E(!new)>(f: Field<E>, db: seq<E>, b: seq<E>, tdb: seq<E>, v: E)
    requires f.Laws() && |db| == |b| == |tdb| && |db| > 0 && AddFirst(f, db, v) == Sum(f, b, tdb)
    ensures db == Sum(f, b, AddFirst(f, tdb, f.plus(v, f.zero)))
  {
    var r := Sum(f, b, AddFirst(f, tdb, f.plus(v, f.zero)));
    forall i | 0 <= i < |b| ensures db[i] == r[i] {
      assert AddFirst(f, db, v)[i] == Sum(f, b, tdb)[i];
      hide Field.Laws;
      if i == 0 {
        PlusNothing(f, v);
        PlusAssoc(f, b[0], tdb[0], v);
        Cancels(f, v, db[0]);
      }
    }
  }

  /** The derivative of x P is P + x P'. */
  lemma {:induction false} ProductRule<E(!new)>(f: Field<E>, c: seq<E>)
    requires f.Laws() && PowerOfTwo(|c|)
    ensures var (lo, y) := TimesX(f, c); var (t, z) := TimesX(f, Deriv(f, c));
            z == f.zero && AddFirst(f, Deriv(f, lo), y) == Sum(f, c, t)
    decreases |c|
  {
    hide Field.Laws, Deriv, PowerOfTwo, TimesX;
    if |c| == 1 {
      OneTimesX(f, c);
      OneDeriv(f, c);
      OneDeriv(f, [f.zero]);
      OneTimesX(f, [f.zero]);
      PlusNothing(f, c[0]);
      PlusComm(f, f.zero, c[0]);
    } else {
      hide Sum, AddFirst;
      var a, b := Halves(c);
      var (a', u) := TimesX(f, a);
      var (b', v) := TimesX(f, b);
      ProductRule(f, a);
      ProductRule(f, b);
      TimesXHalves(f, a, b);
      DerivHalves(f, a, b);
      var b2 := AddFirst(f, b', f.plus(u, v));
      DerivHalves(f, a', b2);
      DerivOfAddFirst(f, b', f.plus(u, v));
      TimesXHalves(f, Sum(f, Deriv(f, a), b), Deriv(f, b));
      TimesXOfSum(f, Deriv(f, a), b);
      PlusNothing(f, v);
      var tda, tdb := TimesX(f, Deriv(f, a)).0, TimesX(f, Deriv(f, b)).0;
      LowerHalf(f, Deriv(f, a'), b', a, tda, u, v);
      UpperHalf(f, Deriv(f, b'), b, tdb, v);
      assert AddFirst(f, Sum(f, Deriv(f, a'), b2) + Deriv(f, b'), v)
          == AddFirst(f, Sum(f, Deriv(f, a'), b2), v) + Deriv(f, b') by {
        AddFirstFront(f, Sum(f, Deriv(f, a'), b2), Deriv(f, b'), v);
      }
      SumHalves(f, a, b, Sum(f, tda, b'), AddFirst(f, tdb, f.plus(v, f.zero)), f.one);
    }
  }

  lemma AddFirstFront<E(!new)>(f: Field<E>, a: seq<E>, b: seq<E>, x: E)
    requires |a| > 0
    ensures AddFirst(f, a + b, x) == AddFirst(f, a, x) + b
  {
  }

  // Degrees

  ghost predicate ZeroFrom<E(!new)>(f: Field<E>, c: seq<E>, r: nat) { forall i :: r <= i < |c| ==> c[i] == f.zero }

  lemma {:induction false} TimesXOfZero<E(!new)>(f: Field<E>, c: seq<E>)
    requires f.Laws() && PowerOfTwo(|c|) && ZeroFrom(f, c, 0)
    ensures ZeroFrom(f, TimesX(f, c).0, 0)
    decreases |c|
  {
    hide Field.Laws, TimesX, PowerOfTwo;
    if |c| == 1 {
      OneTimesX(f, c);
    } else {
      var a, b := Halves(c);
      ZeroHalves(f, a, b, 0);
      TimesXOfZero(f, a);
      TimesXOfZero(f, b);
      TimesXHalves(f, a, b);
      LastTimesX(f, a);
      LastTimesX(f, b);
      PlusNothing(f, f.zero);
    }
  }

  lemma ZeroHalves<E(!new)>(f: Field<E>, a: seq<E>, b: seq<E>, r: nat)
    requires ZeroFrom(f, a + b, r)
    ensures ZeroFrom(f, a, r) && ZeroFrom(f, b, if r < |a| then 0 else r - |a|)
  {
    forall i | r <= i < |a| ensures a[i] == f.zero { assert (a + b)[i] == a[i]; }
    forall i | 0 <= i < |b| && r <= |a| + i ensures b[i] == f.zero { assert (a + b)[|a| + i] == b[i]; }
  }

  lemma {:induction false} LastTimesX<E(!new)>(f: Field<E>, c: seq<E>)
    requires PowerOfTwo(|c|)
    ensures TimesX(f, c).1 == c[|c| - 1]
    decreases |c|
  {
    hide TimesX, PowerOfTwo, AddFirst;
    if |c| == 1 {
      OneTimesX(f, c);
    } else {
      var a, b := Halves(c);
      LastTimesX(f, b);
      TimesXHalves(f, a, b);
    }
  }

  /** Multiplying by x raises the degree by one. */
  lemma {:induction false} TimesXDegree<E(!new)>(f: Field<E>, c: seq<E>, r: nat)
    requires f.Laws() && PowerOfTwo(|c|) && r < |c| && ZeroFrom(f, c, r)
    ensures TimesX(f, c).1 == f.zero && ZeroFrom(f, TimesX(f, c).0, r + 1)
    decreases |c|
  {
    hide Field.Laws, TimesX, PowerOfTwo;
    LastTimesX(f, c);
    if |c| == 1 {
      OneTimesX(f, c);
    } else {
      var a, b := Halves(c);
      ZeroHalves(f, a, b, r);
      TimesXHalves(f, a, b);
      LastTimesX(f, a);
      LastTimesX(f, b);
      PlusNothing(f, f.zero);
      if r < |a| {
        TimesXDegree(f, a, r);
        TimesXOfZero(f, b);
      } else {
        TimesXDegree(f, b, r - |a|);
      }
    }
  }
}
