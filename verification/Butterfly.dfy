/** Transforms made of butterfly layers, one layer at a time.  This is the plain definition that
    the unrolled, truncated and pruned loops of Leopard are compared with. */
module Butterfly {

  /** `x` is a sum of `d`s. */
  predicate Multiple(x: nat, d: nat)
    requires d > 0
  {
    x == 0 || (x >= d && Multiple(x - d, d))
  }

  /** `m` is `d` doubled some number of times. */
  predicate Doubled(m: nat, d: nat)
    requires d > 0
    decreases m - d
  {
    m == d || (m > d && Doubled(m, 2 * d))
  }

  predicate PowerOfTwo(m: nat) { m > 0 && Doubled(m, 1) }

  lemma {:induction false} MultiplePlus(a: nat, b: nat, d: nat)
    requires d > 0 && Multiple(a, d) && Multiple(b, d)
    ensures Multiple(a + b, d)
    decreases a
  {
    if a > 0 { MultiplePlus(a - d, b, d); }
  }

  lemma {:induction false} MultipleHalf(a: nat, d: nat)
    requires d > 0 && Multiple(a, 2 * d)
    ensures Multiple(a, d)
    decreases a
  {
    if a > 0 {
      MultipleHalf(a - 2 * d, d);
      assert Multiple(a - d, d);
    }
  }

  /** Multiples of `d` are at least `d` apart. */
  lemma {:induction false} MultipleGap(a: nat, b: nat, d: nat)
    requires d > 0 && Multiple(a, d) && Multiple(b, d) && a < b
    ensures a + d <= b
    decreases a
  {
    if a > 0 { MultipleGap(a - d, b - d, d); }
  }

  lemma MultipleSelf(n: nat)
    requires n > 0
    ensures Multiple(n, n)
  {
    assert Multiple(0, n);
  }

  lemma {:induction false} DoubledIsMultiple(m: nat, d: nat)
    requires d > 0 && Doubled(m, d)
    ensures m >= d && Multiple(m, d)
    decreases m - d
  {
    if m == d {
      assert Multiple(0, d);
    } else {
      DoubledIsMultiple(m, 2 * d);
      MultipleHalf(m, d);
    }
  }

  lemma {:induction false} HalfOf(x: nat, d: nat)
    requires d > 0 && Doubled(x, d) && x > d
    ensures x == 2 * (x / 2) && Doubled(x / 2, d)
    decreases x - d
  {
    if x > 2 * d { HalfOf(x, 2 * d); }
  }

  // One layer

  /** The butterflies between the two halves of a block, all with parameter `s`. */
  function Block<T>(f: (nat, T, T) -> (T, T), b: seq<T>, s: nat, d: nat): (r: seq<T>)
    requires |b| == 2 * d
    ensures |r| == |b|
  {
    seq(2 * d, k requires 0 <= k < 2 * d => if k < d then f(s, b[k], b[k + d]).0 else f(s, b[k - d], b[k]).1)
  }

  /** One layer of butterflies at distance `d`, on the elements from position `base` on. */
  function Layer<T>(f: (nat, T, T) -> (T, T), w: seq<T>, base: nat, d: nat): (r: seq<T>)
    requires d > 0
    ensures |r| == |w|
    decreases |w|
  {
    if |w| < 2 * d then w
    else Block(f, w[..2 * d], base + d, d) + Layer(f, w[2 * d..], base + 2 * d, d)
  }

  lemma LayerCons<T>(f: (nat, T, T) -> (T, T), w: seq<T>, base: nat, d: nat)
    requires d > 0 && |w| >= 2 * d
    ensures Layer(f, w, base, d) == Block(f, w[..2 * d], base + d, d) + Layer(f, w[2 * d..], base + 2 * d, d)
  {
  }

  lemma {:induction false} LayerSplit<T>(f: (nat, T, T) -> (T, T), a: seq<T>, b: seq<T>, base: nat, d: nat)
    requires d > 0 && Multiple(|a|, 2 * d)
    ensures Layer(f, a + b, base, d) == Layer(f, a, base, d) + Layer(f, b, base + |a|, d)
    decreases |a|
  {
    hide Layer, Block;
    if a == [] {
      assert a + b == b && Layer(f, a, base, d) + Layer(f, b, base, d) == Layer(f, b, base, d);
    } else {
      assert (a + b)[..2 * d] == a[..2 * d] && (a + b)[2 * d..] == a[2 * d..] + b;
      LayerSplit(f, a[2 * d..], b, base + 2 * d, d);
      LayerCons(f, a, base, d);
      LayerCons(f, a + b, base, d);
      var x, y := Block(f, a[..2 * d], base + d, d), Layer(f, a[2 * d..], base + 2 * d, d);
      assert x + (y + Layer(f, b, base + |a|, d)) == (x + y) + Layer(f, b, base + |a|, d);
    }
  }

  /** Layers from small distances to large ones. */
  function Ascend<T>(f: (nat, T, T) -> (T, T), w: seq<T>, d: nat): (r: seq<T>)
    requires d > 0
    ensures |r| == |w|
    decreases |w| - d
  {
    if |w| < 2 * d then w else Ascend(f, Layer(f, w, 0, d), 2 * d)
  }

  /** Layers from large distances to small ones. */
  function Descend<T>(f: (nat, T, T) -> (T, T), w: seq<T>, d: nat): (r: seq<T>)
    ensures |r| == |w|
    decreases d
  {
    if d == 0 then w else Descend(f, Layer(f, w, 0, d), d / 2)
  }

  // Inverse butterflies

  ghost predicate Undoes<T(!new)>(g: (nat, T, T) -> (T, T), f: (nat, T, T) -> (T, T)) {
    forall s, x, y :: g(s, f(s, x, y).0, f(s, x, y).1) == (x, y)
  }

  lemma BlockUndone<T(!new)>(g: (nat, T, T) -> (T, T), f: (nat, T, T) -> (T, T), b: seq<T>, s: nat, d: nat)
    requires |b| == 2 * d && Undoes(g, f)
    ensures Block(g, Block(f, b, s, d), s, d) == b
  {
    hide Block;
    var r := Block(g, Block(f, b, s, d), s, d);
    forall p | 0 <= p < 2 * d ensures r[p] == b[p] {
      var k := if p < d then p else p - d;
      BlockAt(f, b, s, d, k);
      BlockAt(g, Block(f, b, s, d), s, d, k);
    }
  }

  lemma LayerNone<T>(f: (nat, T, T) -> (T, T), w: seq<T>, base: nat, d: nat)
    requires d > 0 && |w| < 2 * d
    ensures Layer(f, w, base, d) == w
  {
  }

  lemma {:induction false} LayerUndone<T(!new)>(g: (nat, T, T) -> (T, T), f: (nat, T, T) -> (T, T), w: seq<T>,
      base: nat, d: nat)
    requires d > 0 && Undoes(g, f)
    ensures Layer(g, Layer(f, w, base, d), base, d) == w
    decreases |w|
  {
    hide Layer, Block, Undoes;
    if |w| < 2 * d {
      LayerNone(f, w, base, d);
      LayerNone(g, w, base, d);
    } else {
      var b, rest := w[..2 * d], w[2 * d..];
      var b', rest' := Block(f, b, base + d, d), Layer(f, rest, base + 2 * d, d);
      LayerCons(f, w, base, d);
      assert (b' + rest')[..2 * d] == b' && (b' + rest')[2 * d..] == rest';
      LayerCons(g, b' + rest', base, d);
      BlockUndone(g, f, b, base + d, d);
      LayerUndone(g, f, rest, base + 2 * d, d);
      assert w == b + rest;
    }
  }

  /** The descending transform undoes the ascending one. */
  lemma {:induction false} TransformUndone<T(!new)>(g: (nat, T, T) -> (T, T), f: (nat, T, T) -> (T, T), w: seq<T>,
      d: nat)
    requires d > 0 && Undoes(g, f) && Doubled(|w|, d)
    ensures Descend(g, Ascend(f, w, d), |w| / 2) == Descend(g, w, d / 2)
    decreases |w| - d
  {
    hide Layer;
    if |w| > d {
      DoubledIsMultiple(|w|, 2 * d);
      var l := Layer(f, w, 0, d);
      TransformUndone(g, f, l, 2 * d);
      LayerUndone(g, f, w, 0, d);
    }
  }

  // Two layers at once

  /** The four results of two layers of butterflies on one column of a block of 4*d elements,
      the small distance first. */
  function QuadUp<T>(f: (nat, T, T) -> (T, T), base: nat, d: nat, x0: T, x1: T, x2: T, x3: T): (T, T, T, T) {
    var (a0, a1) := f(base + d, x0, x1);
    var (a2, a3) := f(base + 3 * d, x2, x3);
    var (b0, b2) := f(base + 2 * d, a0, a2);
    var (b1, b3) := f(base + 2 * d, a1, a3);
    (b0, b1, b2, b3)
  }

  /** The same, the large distance first. */
  function QuadDown<T>(f: (nat, T, T) -> (T, T), base: nat, d: nat, x0: T, x1: T, x2: T, x3: T): (T, T, T, T) {
    var (a0, a2) := f(base + 2 * d, x0, x2);
    var (a1, a3) := f(base + 2 * d, x1, x3);
    var (b0, b1) := f(base + d, a0, a1);
    var (b2, b3) := f(base + 3 * d, a2, a3);
    (b0, b1, b2, b3)
  }

  function TwoUp<T>(f: (nat, T, T) -> (T, T), w: seq<T>, base: nat, d: nat): (r: seq<T>)
    requires d > 0
    ensures |r| == |w|
  {
    Layer(f, Layer(f, w, base, d), base, 2 * d)
  }

  function TwoDown<T>(f: (nat, T, T) -> (T, T), w: seq<T>, base: nat, d: nat): (r: seq<T>)
    requires d > 0
    ensures |r| == |w|
  {
    Layer(f, Layer(f, w, base, 2 * d), base, d)
  }

  lemma LayerOne<T>(f: (nat, T, T) -> (T, T), b: seq<T>, base: nat, d: nat)
    requires d > 0 && |b| == 2 * d
    ensures Layer(f, b, base, d) == Block(f, b, base + d, d)
  {
    assert b[..2 * d] == b && b[2 * d..] == [];
  }

  lemma LayerTwo<T>(f: (nat, T, T) -> (T, T), b: seq<T>, base: nat, d: nat)
    requires d > 0 && |b| == 4 * d
    ensures Layer(f, b, base, d) == Block(f, b[..2 * d], base + d, d) + Block(f, b[2 * d..], base + 3 * d, d)
  {
    LayerCons(f, b, base, d);
    LayerOne(f, b[2 * d..], base + 2 * d, d);
  }

  lemma BlockAt<T>(f: (nat, T, T) -> (T, T), b: seq<T>, s: nat, d: nat, k: nat)
    requires |b| == 2 * d && k < d
    ensures (Block(f, b, s, d)[k], Block(f, b, s, d)[k + d]) == f(s, b[k], b[k + d])
  {
  }

  lemma QuadUpAt<T>(f: (nat, T, T) -> (T, T), b: seq<T>, base: nat, d: nat, k: nat)
    requires d > 0 && |b| == 4 * d && k < d
    ensures var r := TwoUp(f, b, base, d);
            (r[k], r[k + d], r[k + 2 * d], r[k + 3 * d])
              == QuadUp(f, base, d, b[k], b[k + d], b[k + 2 * d], b[k + 3 * d])
  {
    hide Layer, Block;
    LayerTwo(f, b, base, d);
    BlockAt(f, b[..2 * d], base + d, d, k);
    BlockAt(f, b[2 * d..], base + 3 * d, d, k);
    var l := Layer(f, b, base, d);
    LayerOne(f, l, base, 2 * d);
    BlockAt(f, l, base + 2 * d, 2 * d, k);
    BlockAt(f, l, base + 2 * d, 2 * d, k + d);
  }

  lemma QuadDownAt<T>(f: (nat, T, T) -> (T, T), b: seq<T>, base: nat, d: nat, k: nat)
    requires d > 0 && |b| == 4 * d && k < d
    ensures var r := TwoDown(f, b, base, d);
            (r[k], r[k + d], r[k + 2 * d], r[k + 3 * d])
              == QuadDown(f, base, d, b[k], b[k + d], b[k + 2 * d], b[k + 3 * d])
  {
    hide Layer, Block;
    LayerOne(f, b, base, 2 * d);
    BlockAt(f, b, base + 2 * d, 2 * d, k);
    BlockAt(f, b, base + 2 * d, 2 * d, k + d);
    var l := Layer(f, b, base, 2 * d);
    LayerTwo(f, l, base, d);
    BlockAt(f, l[..2 * d], base + d, d, k);
    BlockAt(f, l[2 * d..], base + 3 * d, d, k);
  }

  lemma TwoUpSplit<T>(f: (nat, T, T) -> (T, T), a: seq<T>, b: seq<T>, base: nat, d: nat)
    requires d > 0 && Multiple(|a|, 4 * d)
    ensures TwoUp(f, a + b, base, d) == TwoUp(f, a, base, d) + TwoUp(f, b, base + |a|, d)
  {
    hide Layer;
    MultipleHalf(|a|, 2 * d);
    LayerSplit(f, a, b, base, d);
    LayerSplit(f, Layer(f, a, base, d), Layer(f, b, base + |a|, d), base, 2 * d);
  }

  lemma TwoDownSplit<T>(f: (nat, T, T) -> (T, T), a: seq<T>, b: seq<T>, base: nat, d: nat)
    requires d > 0 && Multiple(|a|, 4 * d)
    ensures TwoDown(f, a + b, base, d) == TwoDown(f, a, base, d) + TwoDown(f, b, base + |a|, d)
  {
    hide Layer;
    MultipleHalf(|a|, 2 * d);
    LayerSplit(f, a, b, base, 2 * d);
    LayerSplit(f, Layer(f, a, base, 2 * d), Layer(f, b, base + |a|, 2 * d), base, d);
  }
}
