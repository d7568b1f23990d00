/** The transforms of Leopard on single elements of a field: the forward one evaluates a polynomial at
    all points, and the decoder's steps give the values at the erased points back. */
module FieldTransforms {
  import opened Butterfly
  import opened ButterflyTrees
  import opened CantorField
  import opened Division
  import opened ErasurePolynomials
  import opened NovelBasis
  import opened XorIndex

  function Fft<E(!new)>(f: Field<E>, sk: nat -> E): (nat, E, E) -> (E, E) {
    (s: nat, x: E, y: E) =>
      var x' := f.plus(x, f.times(sk(s), y));
      (x', f.plus(y, x'))
  }

  function Ifft<E(!new)>(f: Field<E>, sk: nat -> E): (nat, E, E) -> (E, E) {
    (s: nat, x: E, y: E) =>
      var y' := f.plus(y, x);
      (f.plus(x, f.times(sk(s), y')), y')
  }

  lemma TransformsUndo<E(!new)>(f: Field<E>, sk: nat -> E)
    requires f.Laws()
    ensures Undoes(Fft(f, sk), Ifft(f, sk)) && Undoes(Ifft(f, sk), Fft(f, sk))
  {
    hide Field.Laws;
    forall s: nat, x, y
      ensures var (u, v) := Ifft(f, sk)(s, x, y); Fft(f, sk)(s, u, v) == (x, y)
      ensures var (u, v) := Fft(f, sk)(s, x, y); Ifft(f, sk)(s, u, v) == (x, y)
    {
      var y' := f.plus(y, x);
      Cancels(f, f.times(sk(s), y'), x);
      Cancels(f, x, y);
      var x' := f.plus(x, f.times(sk(s), y));
      Cancels(f, x', y);
      Cancels(f, f.times(sk(s), y), x);
    }
  }

  /** Position h * (2r + 1) of the skew table. */
  function At(h: nat, r: nat): nat { h * (2 * r + 1) }

  /** The skew at h * (2r + 1), for a power of two h, is the element numbered 2r. */
  ghost predicate SkewIs<E(!new)>(f: Field<E>, sk: nat -> E) {
    forall h: nat, r: nat :: PowerOfTwo(h) && At(h, r) < f.order ==> sk(At(h, r)) == f.element(2 * r)
  }

  lemma {:induction false} EvenAndOne(r: nat)
    ensures XorNat(2 * r, 1) == 2 * r + 1
    decreases r
  {
    XorStep(2 * r, 1);
    XorStep(r, 0);
    XorNothing(r);
  }

  /** `base` is the start of block `r` of `n` positions. */
  predicate StartOf(base: nat, n: nat, r: nat) { base == n * r }

  /** The two halves of a block. */
  lemma Positions(base: nat, h: nat, r: nat, i: nat)
    requires h > 0 && i < h && StartOf(base, 2 * h, r)
    ensures StartOf(base, h, 2 * r) && StartOf(base + h, h, 2 * r + 1) && base + h == At(h, r)
    ensures (base + i) / h == 2 * r && (base + h + i) / h == 2 * r + 1 && 2 * r + 1 <= base + h
  {
    assert h * (2 * r) == 2 * r * h == 2 * h * r && (2 * r + 1) * h == 2 * r * h + h == h * (2 * r + 1);
    ModIs(base + i, 2 * r, i, h);
    ModIs(base + h + i, 2 * r + 1, i, h);
    MulLe(1, h, 2 * r + 1);
  }

  /** What the largest butterflies make of the two halves. */
  lemma FftBlock<E(!new)>(f: Field<E>, sk: nat -> E, a: seq<E>, b: seq<E>, s: nat)
    requires |a| == |b|
    ensures var t := Block(Fft(f, sk), a + b, s, |a|);
            t[..|a|] == Sum(f, a, Scaled(f, sk(s), b)) && t[|a|..] == Sum(f, b, t[..|a|])
  {
    hide Block;
    var h := |a|;
    var t := Block(Fft(f, sk), a + b, s, h);
    forall i | 0 <= i < h
      ensures t[i] == Sum(f, a, Scaled(f, sk(s), b))[i] && t[h + i] == f.plus(b[i], t[i])
    {
      BlockAt(Fft(f, sk), a + b, s, h, i);
    }
  }

  /** b + (a + s b) == a + (s + 1) b */
  lemma UpperValue<E(!new)>(f: Field<E>, a: E, b: E, s: E)
    requires f.Laws()
    ensures f.plus(b, f.plus(a, f.times(s, b))) == f.plus(a, f.times(f.plus(s, f.one), b))
  {
    hide Field.Laws;
    Distributes(f, b, s, f.one);
    TimesNothing(f, b);
    PlusComm(f, b, f.plus(a, f.times(s, b)));
    PlusAssoc(f, a, f.times(s, b), b);
  }

  /** In each half the largest butterflies leave a polynomial that has the values of the whole one. */
  lemma HalvesHaveValues<E(!new)>(f: Field<E>, a: seq<E>, b: seq<E>, q: nat, p: nat)
    requires f.Laws() && PowerOfTwo(|a|) && |b| == |a| && 2 * q + 1 < f.order
    ensures PowerOfTwo(|a + b|)
    ensures var t := Sum(f, a, Scaled(f, f.element(2 * q), b));
            && (p / |a| == 2 * q ==> Value(f, t, p) == Value(f, a + b, p))
            && (p / |a| == 2 * q + 1 ==> Value(f, Sum(f, b, t), p) == Value(f, a + b, p))
  {
    hide Field.Laws, Value, PowerOfTwo, Sum, Scaled;
    ValueHalves(f, a, b, p);
    var s := f.element(2 * q);
    var t := Sum(f, a, Scaled(f, s, b));
    ValueOfScaled(f, s, b, p);
    ValueOfSum(f, a, Scaled(f, s, b), p);
    ValueOfSum(f, b, t, p);
    EvenAndOne(q);
    ElementSum(f, 2 * q, 1);
    UpperValue(f, Value(f, a, p), Value(f, b, p), s);
  }

  lemma FftHalves<E(!new)>(f: Field<E>, sk: nat -> E, a: seq<E>, b: seq<E>, base: nat)
    requires PowerOfTwo(|a|) && |b| == |a|
    ensures PowerOfTwo(|a + b|)
    ensures var t := Sum(f, a, Scaled(f, sk(base + |a|), b));
            TreeDown(Fft(f, sk), a + b, base)
            == TreeDown(Fft(f, sk), t, base) + TreeDown(Fft(f, sk), Sum(f, b, t), base + |a|)
  {
    hide TreeDown, PowerOfTwo, Block, Fft, Sum, Scaled;
    TreeHalves(Fft(f, sk), a, b, base);
    FftBlock(f, sk, a, b, base + |a|);
  }

  /** The forward transform evaluates: position i of a block that starts at `base` holds the value at the
      point base + i. */
  lemma {:induction false} FftIsValue<E(!new)>(f: Field<E>, sk: nat -> E, c: seq<E>, base: nat, r: nat, i: nat)
    requires f.Laws() && SkewIs(f, sk) && PowerOfTwo(|c|) && i < |c|
    requires StartOf(base, |c|, r) && base + |c| <= f.order
    ensures TreeDown(Fft(f, sk), c, base)[i] == Value(f, c, base + i)
    decreases |c|
  {
    hide Field.Laws, Value, TreeDown, PowerOfTwo, Block, At, Fft, Sum, Scaled, SkewIs, StartOf;
    if |c| == 1 {
      OneTree(Fft(f, sk), c, base);
      OneValue(f, c, base + i);
    } else {
      var a, b := Halves(c);
      var h := |a|;
      Positions(base, h, r, if i < h then i else i - h);
      SkewAt(f, sk, h, r);
      FftHalves(f, sk, a, b, base);
      HalvesHaveValues(f, a, b, r, base + i);
      var t := Sum(f, a, Scaled(f, f.element(2 * r), b));
      var u := Sum(f, b, t);
      var x, y := TreeDown(Fft(f, sk), t, base), TreeDown(Fft(f, sk), u, base + h);
      if i < h {
        FftIsValue(f, sk, t, base, 2 * r, i);
      } else {
        FftIsValue(f, sk, u, base + h, 2 * r + 1, i - h);
        assert base + h + (i - h) == base + i && (x + y)[i] == y[i - h];
      }
    }
  }

  lemma SkewAt<E(!new)>(f: Field<E>, sk: nat -> E, h: nat, r: nat)
    requires SkewIs(f, sk) && PowerOfTwo(h) && At(h, r) < f.order
    ensures sk(At(h, r)) == f.element(2 * r)
  {
  }

  lemma FftAtPoint<E(!new)>(f: Field<E>, sk: nat -> E, c: seq<E>, p: nat)
    requires f.Laws() && SkewIs(f, sk) && PowerOfTwo(|c|) && p < |c| <= f.order
    ensures TreeDown(Fft(f, sk), c, 0)[p] == Value(f, c, p)
  {
    assert StartOf(0, |c|, 0);
    FftIsValue(f, sk, c, 0, 0, p);
  }

  // Decoding

  /** What arrives, weighted by the locator, and zeros at the erased positions. */
  function Weighted<E(!new)>(f: Field<E>, full: seq<E>, marks: seq<nat>): (w: seq<E>)
    requires |full| <= |marks|
    ensures |w| == |full|
  {
    seq(|full|, p requires 0 <= p < |full| =>
      if marks[p] == 1 then f.zero else f.times(Locator(f, marks, p, |marks|), full[p]))
  }

  /** The weighted positions are the values of the polynomial times the locator polynomial. */
  lemma WeightedIsTransform<E(!new)>(f: Field<E>, sk: nat -> E, full: seq<E>, marks: seq<nat>, r: nat)
    requires f.Laws() && SkewIs(f, sk) && PowerOfTwo(|full|) && |full| <= |marks| <= f.order
    requires var c := TreeUp(Ifft(f, sk), full, 0); ZeroFrom(f, c, r) && r + Count(marks, |marks|) <= |c|
    ensures var g := Located(f, TreeUp(Ifft(f, sk), full, 0), marks, |marks|);
            TreeDown(Fft(f, sk), g, 0) == Weighted(f, full, marks)
  {
    hide Field.Laws, Fft, Ifft, TreeUp, TreeDown, Value, Located, Locator, Deriv, PowerOfTwo, ZeroFrom, SkewIs;
    var c := TreeUp(Ifft(f, sk), full, 0);
    var g := Located(f, c, marks, |marks|);
    TransformsUndo(f, sk);
    TreeUndone(Fft(f, sk), Ifft(f, sk), full, 0);
    var w := Weighted(f, full, marks);
    forall p | 0 <= p < |full| ensures TreeDown(Fft(f, sk), g, 0)[p] == w[p] {
      FftAtPoint(f, sk, g, p);
      FftAtPoint(f, sk, c, p);
      LocatedAt(f, c, marks, r, p, |marks|);
    }
  }

  /** Transforming back, adding the derivative and transforming again gives the erased positions back,
      weighted like the others. */
  lemma ErasedComeBack<E(!new)>(f: Field<E>, sk: nat -> E, full: seq<E>, marks: seq<nat>, r: nat, p: nat)
    requires f.Laws() && SkewIs(f, sk) && PowerOfTwo(|full|) && |full| <= |marks| <= f.order
    requires var c := TreeUp(Ifft(f, sk), full, 0); ZeroFrom(f, c, r) && r + Count(marks, |marks|) <= |c|
    requires p < |full| && marks[p] == 1
    ensures var g := TreeUp(Ifft(f, sk), Weighted(f, full, marks), 0);
            TreeDown(Fft(f, sk), Sum(f, g, Deriv(f, g)), 0)[p] == f.times(Locator(f, marks, p, |marks|), full[p])
  {
    hide Field.Laws, Fft, Ifft, TreeUp, TreeDown, Value, Located, Locator, Deriv, PowerOfTwo, ZeroFrom, SkewIs,
        Sum, Weighted;
    var c := TreeUp(Ifft(f, sk), full, 0);
    var g := Located(f, c, marks, |marks|);
    WeightedIsTransform(f, sk, full, marks, r);
    TransformsUndo(f, sk);
    TreeUndone(Ifft(f, sk), Fft(f, sk), g, 0);
    TreeUndone(Fft(f, sk), Ifft(f, sk), full, 0);
    FftAtPoint(f, sk, Sum(f, g, Deriv(f, g)), p);
    FftAtPoint(f, sk, c, p);
    ValueOfSum(f, g, Deriv(f, g), p);
    LocatedAt(f, c, marks, r, p, |marks|);
    PlusNothing(f, Value(f, Deriv(f, g), p));
  }
}
