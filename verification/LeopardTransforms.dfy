/** The whole transforms of Leopard: IFFT_DIT_Decoder, FFT_DIT and FFT_DIT_ErrorBits against the
    layer-by-layer definition. */
module LeopardTransforms {
  import opened Butterfly
  import opened LeopardRows
  import opened LeopardFft

  lemma AscendTwo<T>(f: (nat, T, T) -> (T, T), w: seq<T>, d: nat)
    requires d > 0 && |w| >= 4 * d
    ensures Ascend(f, w, d) == Ascend(f, TwoUp(f, w, 0, d), 4 * d)
  {
    hide Layer;
  }

  lemma DescendTwo<T>(f: (nat, T, T) -> (T, T), w: seq<T>, d: nat)
    requires d > 0
    ensures Descend(f, w, 2 * d) == Descend(f, TwoDown(f, w, 0, d), d / 2)
  {
    hide Layer;
  }

  /** Powers of two below a power of two. */
  lemma DoubledStep(m: nat, d: nat)
    requires d > 0 && Doubled(m, d)
    ensures 4 * d <= m ==> Doubled(m, 4 * d) && Multiple(m, 4 * d)
    ensures m < 4 * d ==> m == d || m == 2 * d
  {
    if m != d && m != 2 * d {
      DoubledIsMultiple(m, 4 * d);
    } else if m == 2 * d && d > 0 {
      DoubledIsMultiple(m, 2 * d);
    }
  }

  lemma {:induction false} FourTimes(d: nat)
    ensures Multiple(4 * d, 4)
    decreases d
  {
    if d > 0 {
      FourTimes(d - 1);
      assert Multiple(4 * d - 4, 4);
    }
  }

  /** The powers of four below the distance of the last layer. */
  predicate PowerOfFour(d: nat) { d == 1 || (d >= 4 && d % 4 == 0 && PowerOfFour(d / 4)) }

  lemma PowerOfFourStep(d: nat)
    requires PowerOfFour(d)
    ensures PowerOfFour(4 * d) && (d < 4 || Multiple(d, 4))
  {
    if d >= 4 { FourTimes(d / 4); }
  }

  /** Rounding up to coarser blocks never goes back. */
  lemma ZeroBoundary(r: nat, z: nat, mTruncated: nat, d: nat)
    requires d > 0 && Multiple(r, 4 * d) && Multiple(z, d) && mTruncated <= r && z < mTruncated + d
    ensures z <= r
  {
    MultipleHalf(r, 2 * d);
    MultipleHalf(r, d);
    if r < z { MultipleGap(r, z, d); }
  }

  lemma AscendEnd<T>(f: (nat, T, T) -> (T, T), w: seq<T>, d: nat)
    requires d > 0 && (|w| == d || |w| == 2 * d)
    ensures Ascend(f, w, d) == if |w| == d then w else Block(f, w, d, d)
  {
    if |w| == 2 * d {
      LayerOne(f, w, 0, d);
      assert Ascend(f, w, d) == Layer(f, w, 0, d);
    }
  }

  /** One pass of the decoder's transform, when the rows from `z` on are still zero. */
  method IfftPass(mul: Mul, skew: Skew, work: array<Row>, mTruncated: nat, dist: nat, ghost z: nat)
      returns (ghost r: nat)
    requires dist > 0 && Multiple(work.Length, 4 * dist)
    requires mTruncated <= z <= work.Length && Multiple(z, dist) && z < mTruncated + dist
    requires z < work.Length ==> KeepsZero(mul) && AllZero(work[z..])
    modifies work
    ensures work[..] == TwoUp(Ifft(mul, skew), old(work[..]), 0, dist)
    ensures mTruncated <= r <= work.Length && Multiple(r, 4 * dist) && r < mTruncated + 4 * dist
    ensures r < work.Length ==> KeepsZero(mul) && AllZero(work[r..])
  {
    hide TwoUp, Ifft, KeepsZero, IsZero, Multiple;
    ghost var w := work[..];
    r := IfftLevel(mul, skew, work, mTruncated, dist);
    ZeroBoundary(r, z, mTruncated, dist);
    assert r < |w| ==> AllZero(w[r..]) by { assert w[r..] == w[z..][r - z..]; }
    TruncatedUp(mul, skew, w, r, dist);
    assert work[r..] == w[r..];
  }

  /** IFFT_DIT_Decoder computes the layered inverse transform, even when it stops its passes early
      because the rows from `mTruncated` on are zero. */
  method IfftDitDecoder(mul: Mul, skew: Skew, work: array<Row>, mTruncated: nat)
    requires PowerOfTwo(work.Length) && mTruncated <= work.Length
    requires mTruncated < work.Length ==> KeepsZero(mul) && AllZero(work[mTruncated..])
    modifies work
    ensures work[..] == Ascend(Ifft(mul, skew), old(work[..]), 1)
  {
    hide TwoUp, Ifft, KeepsZero, AllZero, IsZero, Layer, Ascend, Block;
    var m := work.Length;
    ghost var f, w0 := Ifft(mul, skew), work[..];
    ghost var z := mTruncated;   // the rows from here on are still zero
    OneDivides(z);
    var dist, dist4 := 1, 4;
    while dist4 <= m
      invariant dist4 == 4 * dist && PowerOfFour(dist) && Doubled(m, dist)
      invariant Ascend(f, work[..], dist) == Ascend(f, w0, 1)
      invariant mTruncated <= z <= m && Multiple(z, dist) && z < mTruncated + dist
      invariant z < m ==> KeepsZero(mul) && AllZero(work[z..])
      decreases m - dist
    {
      DoubledStep(m, dist);
      PowerOfFourStep(dist);
      AscendTwo(f, work[..], dist);
      z := IfftPass(mul, skew, work, mTruncated, dist, z);
      dist := dist4;
      dist4 := 4 * dist4;
    }
    DoubledStep(m, dist);
    AscendEnd(f, work[..], dist);
    if dist < m {
      PowerOfFourStep(dist);
      IfftLastLayer(mul, skew, work, dist);
    }
  }

  lemma {:induction false} OneDivides(x: nat)
    ensures Multiple(x, 1)
    decreases x
  {
    if x > 0 { OneDivides(x - 1); }
  }

  // The forward transform

  lemma Quarter(m: nat, x: nat)
    requires PowerOfTwo(x) && Doubled(m, x) && x >= 4
    ensures x == 4 * (x / 4) && x / 4 > 0 && PowerOfTwo(x / 4) && Doubled(m, x / 4) && Multiple(m, x) && m >= x
  {
    HalfOf(x, 1);
    HalfOf(x / 2, 1);
    DoubledIsMultiple(m, x);
    assert Doubled(m, 2 * (x / 2)) && Doubled(m, x / 2) && Doubled(m, 2 * (x / 4));
  }

  /** Whole blocks at the front of two equal prefixes stay equal. */
  lemma PrefixDown(f: (nat, Row, Row) -> (Row, Row), w: seq<Row>, ideal: seq<Row>, done: nat, r: nat, d: nat)
    requires d > 0 && |w| == |ideal| && done <= |w| && r <= done && w[..done] == ideal[..done] && Multiple(r, 4 * d)
    ensures TwoDown(f, w[..r], 0, d) == TwoDown(f, ideal, 0, d)[..r]
  {
    hide TwoDown;
    assert w[..r] == w[..done][..r] == ideal[..done][..r] == ideal[..r];
    TwoDownSplit(f, ideal[..r], ideal[r..], 0, d);
    assert ideal == ideal[..r] + ideal[r..];
  }

  lemma PrefixLayer(f: (nat, Row, Row) -> (Row, Row), w: seq<Row>, ideal: seq<Row>, done: nat, r: nat)
    requires |w| == |ideal| && done <= |w| && r <= done && w[..done] == ideal[..done] && Multiple(r, 2)
    ensures Layer(f, w[..r], 0, 1) == Layer(f, ideal, 0, 1)[..r]
  {
    hide Layer;
    assert w[..r] == w[..done][..r] == ideal[..done][..r] == ideal[..r];
    LayerSplit(f, ideal[..r], ideal[r..], 0, 1);
    assert ideal == ideal[..r] + ideal[r..];
  }

  /** One more pair behind the pairs that are done. */
  lemma OnePairMore(f: (nat, Row, Row) -> (Row, Row), w: seq<Row>, r: nat)
    requires Multiple(r, 2) && r + 2 <= |w|
    ensures Multiple(r + 2, 2)
    ensures var (x, y) := f(r + 1, w[r], w[r + 1]); Layer(f, w[..r + 2], 0, 1) == Layer(f, w[..r], 0, 1) + [x, y]
  {
    LayerSplit(f, w[..r], w[r..r + 2], 0, 1);
    LayerOne(f, w[r..r + 2], r, 1);
    hide Layer;
    assert w[..r + 2] == w[..r] + w[r..r + 2];
    BlockAt(f, w[r..r + 2], r + 1, 1, 0);
  }

  method FftLastLayer(mul: Mul, skew: Skew, work: array<Row>, mTruncated: nat) returns (ghost r: nat)
    requires mTruncated <= work.Length && Multiple(work.Length, 2)
    modifies work
    ensures mTruncated <= r <= work.Length && Multiple(r, 2) && r < mTruncated + 2
    ensures work[..] == Layer(Fft(mul, skew), old(work[..r]), 0, 1) + old(work[r..])
  {
    hide Layer, FftPair;
    ghost var f, w := Fft(mul, skew), work[..];
    var b := 0;
    while b < mTruncated
      invariant b <= work.Length && Multiple(b, 2) && b < mTruncated + 2
      invariant work[..] == Layer(f, w[..b], 0, 1) + w[b..]
      decreases mTruncated - b
    {
      MultipleGap(b, work.Length, 2);
      OnePairMore(f, w, b);
      FftStep(mul, work, b, b + 1, skew(b + 1));
      b := b + 2;
    }
    r := b;
  }

  /** FFT_DIT computes the layered transform; with a truncated range it does so for the rows below
      the truncation. */
  method FftDit(mul: Mul, skew: Skew, work: array<Row>, mTruncated: nat)
    requires PowerOfTwo(work.Length) && mTruncated <= work.Length
    modifies work
    ensures work[..mTruncated] == Descend(Fft(mul, skew), old(work[..]), work.Length / 2)[..mTruncated]
  {
    hide TwoDown, Fft, Layer;
    var m := work.Length;
    ghost var f, w0 := Fft(mul, skew), work[..];
    ghost var ideal, done := w0, m;   // the first `done` rows are those of the whole transform
    DoubledIsMultiple(m, m);
    var dist4: nat, dist: nat := m, m / 4;
    while dist != 0
      invariant dist == dist4 / 4 && PowerOfTwo(dist4) && Doubled(m, dist4)
      invariant |ideal| == m && Descend(f, ideal, dist4 / 2) == Descend(f, w0, m / 2)
      invariant mTruncated <= done <= m && Multiple(done, dist4)
      invariant work[..done] == ideal[..done]
      decreases dist
    {
      Quarter(m, dist4);
      ghost var w := work[..];
      ghost var r := FftLevel(mul, skew, work, mTruncated, dist);
      if done < r { MultipleGap(done, r, dist4); }
      DescendTwo(f, ideal, dist);
      PrefixDown(f, w, ideal, done, r, dist);
      MultipleHalf(r, 2 * dist);
      MultipleHalf(r, dist);
      ideal, done := TwoDown(f, ideal, 0, dist), r;
      dist4 := dist;
      dist := dist / 4;
    }
    if dist4 > 1 { HalfOf(dist4, 1); }
    if dist4 == 2 {
      DoubledIsMultiple(m, 2);
      ghost var w := work[..];
      ghost var r := FftLastLayer(mul, skew, work, mTruncated);
      if done < r { MultipleGap(done, r, 2); }
      PrefixLayer(f, w, ideal, done, r);
      assert Descend(f, ideal, 1) == Layer(f, ideal, 0, 1);
      done := r;
      ideal := Layer(f, ideal, 0, 1);
      assert work[..done] == ideal[..done];
    }
    assert work[..mTruncated] == work[..done][..mTruncated] == ideal[..done][..mTruncated] == ideal[..mTruncated];
  }

  /** The forward transform gives back, in place, what the inverse one was applied to. */
  method InverseAndForward(mul: Mul, skew: Skew, work: array<Row>)
    requires PowerOfTwo(work.Length)
    modifies work
    ensures work[..] == old(work[..])
  {
    hide Ifft, Fft, Ascend, Descend, PowerOfTwo;
    ghost var w := work[..];
    var m := work.Length;
    IfftDitDecoder(mul, skew, work, m);
    FftDit(mul, skew, work, m);
    FftOfIfft(mul, skew, w);
    assert work[..] == work[..m];
  }
}
