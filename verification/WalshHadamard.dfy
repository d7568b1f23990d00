/** The Walsh-Hadamard transform over the integers, by halves and in layers, and the theorem that it
    turns exclusive-or convolution into multiplication. */
module WalshHadamard {
  import opened Butterfly
  import opened XorIndex

  function Plus(a: seq<int>, b: seq<int>): (r: seq<int>)
    requires |a| == |b|
    ensures |r| == |a|
  {
    seq(|a|, k requires 0 <= k < |a| => a[k] + b[k])
  }

  function Minus(a: seq<int>, b: seq<int>): (r: seq<int>)
    requires |a| == |b|
    ensures |r| == |a|
  {
    seq(|a|, k requires 0 <= k < |a| => a[k] - b[k])
  }

  function Times(a: seq<int>, b: seq<int>): (r: seq<int>)
    requires |a| == |b|
    ensures |r| == |a|
  {
    seq(|a|, k requires 0 <= k < |a| => a[k] * b[k])
  }

  /** The transform by halves. */
  function Wht(a: seq<int>): (r: seq<int>)
    requires PowerOfTwo(|a|)
    ensures |r| == |a|
  {
    if |a| == 1 then a
    else
      var h := |a| / 2;
      PowerHalf(|a|);
      var x, y := Wht(a[..h]), Wht(a[h..]);
      Plus(x, y) + Minus(x, y)
  }

  lemma WhtHalves(a0: seq<int>, a1: seq<int>)
    requires PowerOfTwo(|a0|) && |a1| == |a0| && PowerOfTwo(2 * |a0|)
    ensures Wht(a0 + a1) == Plus(Wht(a0), Wht(a1)) + Minus(Wht(a0), Wht(a1))
  {
    var a := a0 + a1;
    assert a[..|a| / 2] == a0 && a[|a| / 2..] == a1;
  }

  lemma PlusHalves(a0: seq<int>, a1: seq<int>, b0: seq<int>, b1: seq<int>)
    requires |a0| == |b0| && |a1| == |b1|
    ensures Plus(a0 + a1, b0 + b1) == Plus(a0, b0) + Plus(a1, b1)
    ensures Minus(a0 + a1, b0 + b1) == Minus(a0, b0) + Minus(a1, b1)
    ensures Times(a0 + a1, b0 + b1) == Times(a0, b0) + Times(a1, b1)
  {
  }

  lemma Halves(a: seq<int>) returns (a0: seq<int>, a1: seq<int>)
    requires PowerOfTwo(|a|) && |a| > 1
    ensures a == a0 + a1 && |a0| == |a1| == |a| / 2 && PowerOfTwo(|a0|) && |a| == 2 * |a0|
  {
    PowerHalf(|a|);
    a0, a1 := a[..|a| / 2], a[|a| / 2..];
  }

  lemma PlusMinusShuffle(x: seq<int>, y: seq<int>, u: seq<int>, v: seq<int>)
    requires |x| == |y| == |u| == |v|
    ensures Plus(Plus(x, u), Plus(y, v)) == Plus(Plus(x, y), Plus(u, v))
    ensures Minus(Plus(x, u), Plus(y, v)) == Plus(Minus(x, y), Minus(u, v))
    ensures Plus(Minus(x, u), Minus(y, v)) == Minus(Plus(x, y), Plus(u, v))
    ensures Minus(Minus(x, u), Minus(y, v)) == Minus(Minus(x, y), Minus(u, v))
  {
  }

  /** The transform is linear. */
  lemma {:induction false} WhtLinear(a: seq<int>, b: seq<int>)
    requires PowerOfTwo(|a|) && |a| == |b|
    ensures Wht(Plus(a, b)) == Plus(Wht(a), Wht(b)) && Wht(Minus(a, b)) == Minus(Wht(a), Wht(b))
    decreases |a|
  {
    if |a| > 1 {
      hide Plus, Minus, Times, Wht;
      var a0, a1 := Halves(a);
      var b0, b1 := Halves(b);
      PlusHalves(a0, a1, b0, b1);
      WhtLinear(a0, b0);
      WhtLinear(a1, b1);
      WhtHalves(a0, a1);
      WhtHalves(b0, b1);
      WhtHalves(Plus(a0, b0), Plus(a1, b1));
      WhtHalves(Minus(a0, b0), Minus(a1, b1));
      var x, y, u, v := Wht(a0), Wht(a1), Wht(b0), Wht(b1);
      PlusMinusShuffle(x, y, u, v);
      PlusHalves(Plus(x, y), Minus(x, y), Plus(u, v), Minus(u, v));
    }
  }

  // Convolution

  /** The first `k` terms of entry `i` of the exclusive-or convolution. */
  function Convolution(a: seq<int>, b: seq<int>, i: nat, k: nat): int
    requires PowerOfTwo(|a|) && |a| == |b| && i < |a| && k <= |a|
    decreases k
  {
    if k == 0 then 0
    else
      XorHigh(i, k - 1, false, false, |a|);
      Convolution(a, b, i, k - 1) + a[k - 1] * b[XorNat(i, k - 1)]
  }

  lemma NextTerm(a: seq<int>, b: seq<int>, i: nat, k: nat)
    requires PowerOfTwo(|a|) && |a| == |b| && i < |a| && 0 < k <= |a|
    ensures XorNat(i, k - 1) < |b|
    ensures Convolution(a, b, i, k) == Convolution(a, b, i, k - 1) + a[k - 1] * b[XorNat(i, k - 1)]
  {
    XorHigh(i, k - 1, false, false, |a|);
  }

  lemma NoTerms(a: seq<int>, b: seq<int>, i: nat)
    requires PowerOfTwo(|a|) && |a| == |b| && i < |a|
    ensures Convolution(a, b, i, 0) == 0
  {
  }

  lemma {:induction false} FrontTerms(a0: seq<int>, a1: seq<int>, b0: seq<int>, b1: seq<int>, i: nat, high: bool,
      k: nat)
    requires PowerOfTwo(|a0|) && |a1| == |b0| == |b1| == |a0| && i < |a0| && k <= |a0| && PowerOfTwo(2 * |a0|)
    ensures Convolution(a0 + a1, b0 + b1, if high then i + |a0| else i, k)
        == Convolution(a0, if high then b1 else b0, i, k)
    decreases k
  {
    hide Convolution, XorNat, PowerOfTwo;
    var i' := if high then i + |a0| else i;
    if k == 0 {
      NoTerms(a0 + a1, b0 + b1, i');
      NoTerms(a0, if high then b1 else b0, i);
    } else {
      FrontTerms(a0, a1, b0, b1, i, high, k - 1);
      XorHigh(i, k - 1, high, false, |a0|);
      NextTerm(a0 + a1, b0 + b1, i', k);
      NextTerm(a0, if high then b1 else b0, i, k);
    }
  }

  lemma {:induction false} BackTerms(a0: seq<int>, a1: seq<int>, b0: seq<int>, b1: seq<int>, i: nat, high: bool, k: nat)
    requires PowerOfTwo(|a0|) && |a1| == |b0| == |b1| == |a0| && i < |a0| && k <= |a0| && PowerOfTwo(2 * |a0|)
    ensures var i' := if high then i + |a0| else i;
            Convolution(a0 + a1, b0 + b1, i', |a0| + k)
              == Convolution(a0 + a1, b0 + b1, i', |a0|) + Convolution(a1, if high then b0 else b1, i, k)
    decreases k
  {
    hide Convolution, XorNat, PowerOfTwo;
    var i' := if high then i + |a0| else i;
    if k == 0 {
      NoTerms(a1, if high then b0 else b1, i);
    } else {
      BackTerms(a0, a1, b0, b1, i, high, k - 1);
      XorHigh(i, k - 1, high, true, |a0|);
      NextTerm(a0 + a1, b0 + b1, i', |a0| + k);
      NextTerm(a1, if high then b0 else b1, i, k);
    }
  }

  /** The whole exclusive-or convolution: entry `i` is the sum of all a[j] * b[i xor j]. */
  function Convolve(a: seq<int>, b: seq<int>): (r: seq<int>)
    requires PowerOfTwo(|a|) && |a| == |b|
    ensures |r| == |a|
  {
    seq(|a|, i requires 0 <= i < |a| => Convolution(a, b, i, |a|))
  }

  lemma ConvolveHalves(a0: seq<int>, a1: seq<int>, b0: seq<int>, b1: seq<int>)
    requires PowerOfTwo(|a0|) && |a1| == |b0| == |b1| == |a0| && PowerOfTwo(2 * |a0|)
    ensures Convolve(a0 + a1, b0 + b1)
         == Plus(Convolve(a0, b0), Convolve(a1, b1)) + Plus(Convolve(a0, b1), Convolve(a1, b0))
  {
    hide Convolution, PowerOfTwo;
    var h := |a0|;
    var c := Convolve(a0 + a1, b0 + b1);
    var d := Plus(Convolve(a0, b0), Convolve(a1, b1)) + Plus(Convolve(a0, b1), Convolve(a1, b0));
    forall i | 0 <= i < 2 * h ensures c[i] == d[i] {
      var low, high := if i < h then i else i - h, i >= h;
      FrontTerms(a0, a1, b0, b1, low, high, h);
      BackTerms(a0, a1, b0, b1, low, high, h);
    }
  }

  function Scale(n: int, a: seq<int>): (r: seq<int>)
    ensures |r| == |a|
  {
    seq(|a|, k requires 0 <= k < |a| => n * a[k])
  }

  lemma ProductsOfHalves(x: seq<int>, y: seq<int>, u: seq<int>, v: seq<int>)
    requires |x| == |y| == |u| == |v|
    ensures var p, q := Times(Plus(x, y), Plus(u, v)), Times(Minus(x, y), Minus(u, v));
            var s, t := Plus(Times(x, u), Times(y, v)), Plus(Times(x, v), Times(y, u));
            Plus(p, q) == Plus(s, s) && Minus(p, q) == Plus(t, t)
  {
    var p, q := Times(Plus(x, y), Plus(u, v)), Times(Minus(x, y), Minus(u, v));
    var s, t := Plus(Times(x, u), Times(y, v)), Plus(Times(x, v), Times(y, u));
    forall k | 0 <= k < |x| ensures p[k] + q[k] == s[k] + s[k] && p[k] - q[k] == t[k] + t[k] {
      Binomials(x[k], y[k], u[k], v[k]);
    }
  }

  lemma Binomials(x: int, y: int, u: int, v: int)
    ensures (x + y) * (u + v) + (x - y) * (u - v) == (x * u + y * v) + (x * u + y * v)
    ensures (x + y) * (u + v) - (x - y) * (u - v) == (x * v + y * u) + (x * v + y * u)
  {
    assert (x + y) * (u + v) == x * u + x * v + (y * u + y * v);
    assert (x - y) * (u - v) == x * u - x * v - (y * u - y * v);
  }

  lemma ScaleTwice(h: int, a: seq<int>, b: seq<int>)
    requires |a| == |b|
    ensures var s := Plus(Scale(h, a), Scale(h, b)); Plus(s, s) == Scale(2 * h, Plus(a, b))
  {
    var s := Plus(Scale(h, a), Scale(h, b));
    forall k | 0 <= k < |a| ensures s[k] + s[k] == 2 * h * (a[k] + b[k]) {
      Distribute(h, a[k], b[k]);
    }
  }

  lemma Distribute(h: int, x: int, y: int)
    ensures (h * x + h * y) + (h * x + h * y) == 2 * h * (x + y)
  {
  }

  lemma ScaleHalves(n: int, a: seq<int>, b: seq<int>)
    ensures Scale(n, a + b) == Scale(n, a) + Scale(n, b)
  {
  }

  /** The product of two transforms is the transform of the convolution: transforming it once more
      gives the convolution times the number of entries. */
  lemma {:induction false} ConvolutionTheorem(a: seq<int>, b: seq<int>)
    requires PowerOfTwo(|a|) && |a| == |b|
    ensures Wht(Times(Wht(a), Wht(b))) == Scale(|a|, Convolve(a, b))
    decreases |a|
  {
    if |a| == 1 {
      OneEntry(a, b);
    } else {
      hide Plus, Minus, Times, Scale, Wht, Convolve, PowerOfTwo;
      var a0, a1 := Halves(a);
      var b0, b1 := Halves(b);
      var x, y, u, v := Wht(a0), Wht(a1), Wht(b0), Wht(b1);
      ConvolutionTheorem(a0, b0);
      ConvolutionTheorem(a1, b1);
      ConvolutionTheorem(a0, b1);
      ConvolutionTheorem(a1, b0);
      ConvolveHalves(a0, a1, b0, b1);
      WhtHalves(a0, a1);
      WhtHalves(b0, b1);
      PlusHalves(Plus(x, y), Minus(x, y), Plus(u, v), Minus(u, v));
      WhtOfProducts(x, y, u, v);
      var h := |a0|;
      var c00, c11, c01, c10 := Convolve(a0, b0), Convolve(a1, b1), Convolve(a0, b1), Convolve(a1, b0);
      ScaleTwice(h, c00, c11);
      ScaleTwice(h, c01, c10);
      ScaleHalves(2 * h, Plus(c00, c11), Plus(c01, c10));
    }
  }

  lemma WhtOfProducts(x: seq<int>, y: seq<int>, u: seq<int>, v: seq<int>)
    requires PowerOfTwo(|x|) && |x| == |y| == |u| == |v| && PowerOfTwo(2 * |x|)
    ensures var s := Plus(Wht(Times(x, u)), Wht(Times(y, v)));
            var t := Plus(Wht(Times(x, v)), Wht(Times(y, u)));
            Wht(Times(Plus(x, y), Plus(u, v)) + Times(Minus(x, y), Minus(u, v))) == Plus(s, s) + Plus(t, t)
  {
    hide Plus, Minus, Times, Wht, PowerOfTwo;
    var p, q := Times(Plus(x, y), Plus(u, v)), Times(Minus(x, y), Minus(u, v));
    var s, t := Plus(Times(x, u), Times(y, v)), Plus(Times(x, v), Times(y, u));
    WhtHalves(p, q);
    WhtLinear(p, q);
    ProductsOfHalves(x, y, u, v);
    WhtLinear(s, s);
    WhtLinear(t, t);
    WhtLinear(Times(x, u), Times(y, v));
    WhtLinear(Times(x, v), Times(y, u));
  }

  lemma OneEntry(a: seq<int>, b: seq<int>)
    requires PowerOfTwo(|a|) && |a| == |b| == 1
    ensures Wht(Times(Wht(a), Wht(b))) == Scale(1, Convolve(a, b))
  {
    assert Convolution(a, b, 0, 0) == 0 && XorNat(0, 0) == 0;
    assert Convolution(a, b, 0, 1) == a[0] * b[0];
    assert Times(a, b)[0] == Scale(1, Convolve(a, b))[0];
  }

  // The transform in layers

  /** The butterfly of the transform; it has no parameter. */
  function SumDifference(): (nat, int, int) -> (int, int) {
    (s, x, y) => (x + y, x - y)
  }

  ghost predicate Parameterless<T(!new)>(f: (nat, T, T) -> (T, T)) { forall s, t, x, y :: f(s, x, y) == f(t, x, y) }

  lemma {:induction false} LayerAnywhere<T(!new)>(f: (nat, T, T) -> (T, T), w: seq<T>, base: nat, base': nat, d: nat)
    requires d > 0 && Parameterless(f)
    ensures Layer(f, w, base, d) == Layer(f, w, base', d)
    decreases |w|
  {
    hide Layer, Block, Parameterless;
    if |w| < 2 * d {
      LayerNone(f, w, base, d);
      LayerNone(f, w, base', d);
    } else {
      LayerCons(f, w, base, d);
      LayerCons(f, w, base', d);
      LayerAnywhere(f, w[2 * d..], base + 2 * d, base' + 2 * d, d);
      BlockAnywhere(f, w[..2 * d], base + d, base' + d, d);
    }
  }

  lemma BlockAnywhere<T(!new)>(f: (nat, T, T) -> (T, T), b: seq<T>, s: nat, t: nat, d: nat)
    requires |b| == 2 * d && Parameterless(f)
    ensures Block(f, b, s, d) == Block(f, b, t, d)
  {
  }

  /** Layers work on the two halves separately until the last one. */
  lemma {:induction false} AscendHalves(a0: seq<int>, a1: seq<int>, d: nat)
    requires d > 0 && |a0| == |a1| && Doubled(|a0|, d)
    ensures var f := SumDifference();
            Ascend(f, a0 + a1, d) == Layer(f, Ascend(f, a0, d) + Ascend(f, a1, d), 0, |a0|)
    decreases |a0| - d
  {
    hide Layer;
    var f := SumDifference();
    if |a0| > d {
      DoubledIsMultiple(|a0|, 2 * d);
      LayerSplit(f, a0, a1, 0, d);
      LayerAnywhere(f, a1, |a0|, 0, d);
      AscendHalves(Layer(f, a0, 0, d), Layer(f, a1, 0, d), 2 * d);
    }
  }

  lemma LastLayer(x: seq<int>, y: seq<int>)
    requires |x| == |y| > 0
    ensures Layer(SumDifference(), x + y, 0, |x|) == Plus(x, y) + Minus(x, y)
  {
    hide Layer, Block, Plus, Minus, SumDifference;
    LayerOne(SumDifference(), x + y, 0, |x|);
    LastBlock(x, y);
  }

  lemma LastBlock(x: seq<int>, y: seq<int>)
    requires |x| == |y|
    ensures Block(SumDifference(), x + y, |x|, |x|) == Plus(x, y) + Minus(x, y)
  {
    var b, c := Block(SumDifference(), x + y, |x|, |x|), Plus(x, y) + Minus(x, y);
    forall k | 0 <= k < |b| ensures b[k] == c[k] {
      BlockAt(SumDifference(), x + y, |x|, |x|, if k < |x| then k else k - |x|);
    }
  }

  /** The layered transform is the transform by halves. */
  lemma {:induction false} LayersAreHalves(a: seq<int>)
    requires PowerOfTwo(|a|)
    ensures Ascend(SumDifference(), a, 1) == Wht(a)
    decreases |a|
  {
    hide Layer, Plus, Minus, Wht;
    if |a| == 1 {
      WhtOfOne(a);
    } else {
      var a0, a1 := Halves(a);
      AscendHalves(a0, a1, 1);
      LayersAreHalves(a0);
      LayersAreHalves(a1);
      LastLayer(Wht(a0), Wht(a1));
      WhtHalves(a0, a1);
    }
  }

  lemma WhtOfOne(a: seq<int>)
    requires |a| == 1
    ensures PowerOfTwo(|a|) && Wht(a) == a
  {
  }
}
