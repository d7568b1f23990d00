/** The layered transforms by halves: the largest butterflies, and a transform of each half. */
module ButterflyTrees {
  import opened Butterfly
  import opened XorIndex

  /** Layers from large distances to small ones, on a block that starts at `base`. */
  function TreeDown<T>(f: (nat, T, T) -> (T, T), w: seq<T>, base: nat): (r: seq<T>)
    requires PowerOfTwo(|w|)
    ensures |r| == |w|
    decreases |w|
  {
    if |w| == 1 then w
    else
      PowerHalf(|w|);
      var h := |w| / 2;
      var t := Block(f, w, base + h, h);
      TreeDown(f, t[..h], base) + TreeDown(f, t[h..], base + h)
  }

  /** Layers from small distances to large ones. */
  function TreeUp<T>(f: (nat, T, T) -> (T, T), w: seq<T>, base: nat): (r: seq<T>)
    requires PowerOfTwo(|w|)
    ensures |r| == |w|
    decreases |w|
  {
    if |w| == 1 then w
    else
      PowerHalf(|w|);
      var h := |w| / 2;
      Block(f, TreeUp(f, w[..h], base) + TreeUp(f, w[h..], base + h), base + h, h)
  }

  lemma OneTree<T>(f: (nat, T, T) -> (T, T), w: seq<T>, base: nat)
    requires PowerOfTwo(|w|) && |w| == 1
    ensures TreeDown(f, w, base) == w && TreeUp(f, w, base) == w
  {
  }

  lemma TreeHalves<T>(f: (nat, T, T) -> (T, T), a: seq<T>, b: seq<T>, base: nat)
    requires PowerOfTwo(|a|) && |b| == |a|
    ensures PowerOfTwo(|a + b|)
    ensures var h := |a|; var t := Block(f, a + b, base + h, h);
            TreeDown(f, a + b, base) == TreeDown(f, t[..h], base) + TreeDown(f, t[h..], base + h)
    ensures TreeUp(f, a + b, base)
         == Block(f, TreeUp(f, a, base) + TreeUp(f, b, base + |a|), base + |a|, |a|)
  {
    PowerDoubled(|a|);
    var w := a + b;
    assert |w| / 2 == |a| && w[..|a|] == a && w[|a|..] == b;
  }

  lemma TwoHalves<T>(w: seq<T>) returns (a: seq<T>, b: seq<T>)
    requires PowerOfTwo(|w|) && |w| != 1
    ensures w == a + b && |a| == |b| == |w| / 2 && PowerOfTwo(|a|) && |w| == 2 * |a|
  {
    PowerHalf(|w|);
    a, b := w[..|w| / 2], w[|w| / 2..];
  }

  // The layers

  function DescendFrom<T>(f: (nat, T, T) -> (T, T), w: seq<T>, base: nat, d: nat): (r: seq<T>)
    ensures |r| == |w|
    decreases d
  {
    if d == 0 then w else DescendFrom(f, Layer(f, w, base, d), base, d / 2)
  }

  lemma {:induction false} DescendIsFrom<T>(f: (nat, T, T) -> (T, T), w: seq<T>, d: nat)
    ensures Descend(f, w, d) == DescendFrom(f, w, 0, d)
    decreases d
  {
    hide Layer;
    if d > 0 { DescendIsFrom(f, Layer(f, w, 0, d), d / 2); }
  }

  lemma {:induction false} DescendSplit<T>(f: (nat, T, T) -> (T, T), a: seq<T>, b: seq<T>, base: nat, d: nat)
    requires d == 0 || (PowerOfTwo(d) && Multiple(|a|, 2 * d))
    ensures DescendFrom(f, a + b, base, d) == DescendFrom(f, a, base, d) + DescendFrom(f, b, base + |a|, d)
    decreases d
  {
    hide Layer;
    if d > 0 {
      LayerSplit(f, a, b, base, d);
      if d > 1 {
        PowerHalf(d);
        MultipleHalf(|a|, d);
      }
      DescendSplit(f, Layer(f, a, base, d), Layer(f, b, base + |a|, d), base, d / 2);
    }
  }

  lemma {:induction false} DescendIsTree<T>(f: (nat, T, T) -> (T, T), w: seq<T>, base: nat)
    requires PowerOfTwo(|w|)
    ensures DescendFrom(f, w, base, |w| / 2) == TreeDown(f, w, base)
    decreases |w|
  {
    hide TreeDown, Layer, PowerOfTwo, Multiple, DescendFrom, Block;
    if |w| == 1 {
      OneTree(f, w, base);
      NoDescend(f, w, base);
    } else {
      var a, b := TwoHalves(w);
      var h := |a|;
      TreeHalves(f, a, b, base);
      LayerOne(f, w, base, h);
      OneDescend(f, w, base, h);
      var t := Block(f, w, base + h, h);
      if h > 1 {
        PowerHalf(h);
        MultipleSelf(h);
      }
      assert t == t[..h] + t[h..];
      DescendSplit(f, t[..h], t[h..], base, h / 2);
      DescendIsTree(f, t[..h], base);
      DescendIsTree(f, t[h..], base + h);
    }
  }

  lemma NoDescend<T>(f: (nat, T, T) -> (T, T), w: seq<T>, base: nat)
    ensures DescendFrom(f, w, base, 0) == w
  {
  }

  lemma OneDescend<T>(f: (nat, T, T) -> (T, T), w: seq<T>, base: nat, d: nat)
    requires d > 0
    ensures DescendFrom(f, w, base, d) == DescendFrom(f, Layer(f, w, base, d), base, d / 2)
  {
  }

  function AscendFrom<T>(f: (nat, T, T) -> (T, T), w: seq<T>, base: nat, d: nat): (r: seq<T>)
    requires d > 0
    ensures |r| == |w|
    decreases |w| - d
  {
    if |w| < 2 * d then w else AscendFrom(f, Layer(f, w, base, d), base, 2 * d)
  }

  lemma {:induction false} AscendIsFrom<T>(f: (nat, T, T) -> (T, T), w: seq<T>, d: nat)
    requires d > 0
    ensures Ascend(f, w, d) == AscendFrom(f, w, 0, d)
    decreases |w| - d
  {
    hide Layer;
    if |w| >= 2 * d { AscendIsFrom(f, Layer(f, w, 0, d), 2 * d); }
  }

  lemma {:induction false} AscendSplit<T>(f: (nat, T, T) -> (T, T), a: seq<T>, b: seq<T>, base: nat, d: nat)
    requires d > 0 && |a| == |b| && Doubled(|a|, d)
    ensures AscendFrom(f, a + b, base, d)
         == Block(f, AscendFrom(f, a, base, d) + AscendFrom(f, b, base + |a|, d), base + |a|, |a|)
    decreases |a| - d
  {
    hide Layer, Block;
    if |a| == d {
      LayerOne(f, a + b, base, d);
    } else {
      DoubledIsMultiple(|a|, 2 * d);
      LayerSplit(f, a, b, base, d);
      AscendSplit(f, Layer(f, a, base, d), Layer(f, b, base + |a|, d), base, 2 * d);
    }
  }

  lemma {:induction false} AscendIsTree<T>(f: (nat, T, T) -> (T, T), w: seq<T>, base: nat)
    requires PowerOfTwo(|w|)
    ensures AscendFrom(f, w, base, 1) == TreeUp(f, w, base)
    decreases |w|
  {
    hide TreeUp, Layer, Block;
    if |w| == 1 {
      OneTree(f, w, base);
    } else {
      var a, b := TwoHalves(w);
      TreeHalves(f, a, b, base);
      AscendSplit(f, a, b, base, 1);
      AscendIsTree(f, a, base);
      AscendIsTree(f, b, base + |a|);
    }
  }

  /** Both layered transforms, by halves. */
  lemma TransformsAreTrees<T>(f: (nat, T, T) -> (T, T), w: seq<T>)
    requires PowerOfTwo(|w|)
    ensures Descend(f, w, |w| / 2) == TreeDown(f, w, 0) && Ascend(f, w, 1) == TreeUp(f, w, 0)
  {
    hide TreeDown, TreeUp, Descend, Ascend;
    DescendIsFrom(f, w, |w| / 2);
    DescendIsTree(f, w, 0);
    AscendIsFrom(f, w, 1);
    AscendIsTree(f, w, 0);
  }

  // Inverse butterflies

  lemma {:induction false} TreeUndone<T(!new)>(g: (nat, T, T) -> (T, T), f: (nat, T, T) -> (T, T), w: seq<T>, base: nat)
    requires PowerOfTwo(|w|) && Undoes(g, f)
    ensures TreeUp(g, TreeDown(f, w, base), base) == w && TreeDown(g, TreeUp(f, w, base), base) == w
    decreases |w|
  {
    hide TreeDown, TreeUp, Block, Undoes, PowerOfTwo;
    if |w| == 1 {
      OneTree(f, w, base);
      OneTree(g, w, base);
    } else {
      var a, b := TwoHalves(w);
      var h := |a|;
      TreeUndone(g, f, a, base);
      TreeUndone(g, f, b, base + h);
      var l, u := TreeUp(f, a, base), TreeUp(f, b, base + h);
      var x := Block(f, l + u, base + h, h);
      TreeHalves(g, x[..h], x[h..], base);
      assert x == x[..h] + x[h..];
      BlockUndone(g, f, l + u, base + h, h);
      assert (l + u)[..h] == l && (l + u)[h..] == u;
      var t := Block(f, w, base + h, h);
      TreeHalves(f, a, b, base);
      TreeUndone(g, f, t[..h], base);
      TreeUndone(g, f, t[h..], base + h);
      TreeHalves(g, TreeDown(f, t[..h], base), TreeDown(f, t[h..], base + h), base);
      assert t == t[..h] + t[h..];
      BlockUndone(g, f, w, base + h, h);
    }
  }

  /** Parameters that are shifted are those of a block that starts further on. */
  lemma {:induction false} TreeShifted<T(!new)>(f: (nat, T, T) -> (T, T), g: (nat, T, T) -> (T, T), w: seq<T>,
      base: nat, off: nat)
    requires PowerOfTwo(|w|) && forall s: nat, x, y :: g(s, x, y) == f(off + s, x, y)
    ensures TreeUp(g, w, base) == TreeUp(f, w, off + base)
    decreases |w|
  {
    hide TreeUp, Block, PowerOfTwo;
    if |w| == 1 {
      OneTree(f, w, off + base);
      OneTree(g, w, base);
    } else {
      var a, b := TwoHalves(w);
      var h := |a|;
      TreeHalves(f, a, b, off + base);
      TreeHalves(g, a, b, base);
      TreeShifted(f, g, a, base, off);
      TreeShifted(f, g, b, base + h, off);
      BlockShifted(f, g, TreeUp(g, a, base) + TreeUp(g, b, base + h), base + h, h, off);
    }
  }

  lemma BlockShifted<T(!new)>(f: (nat, T, T) -> (T, T), g: (nat, T, T) -> (T, T), w: seq<T>, s: nat, d: nat, off: nat)
    requires |w| == 2 * d && forall s: nat, x, y :: g(s, x, y) == f(off + s, x, y)
    ensures Block(g, w, s, d) == Block(f, w, off + s, d)
  {
  }

  // Related transforms

  ghost predicate Preserves<S(!new), T(!new)>(f: (nat, S, S) -> (S, S), g: (nat, T, T) -> (T, T), rel: (S, T) -> bool) {
    forall s, x, y, u, v {:trigger f(s, x, y), g(s, u, v)} :: rel(x, u) && rel(y, v) ==>
      rel(f(s, x, y).0, g(s, u, v).0) && rel(f(s, x, y).1, g(s, u, v).1)
  }

  ghost predicate Related<S, T>(rel: (S, T) -> bool, w: seq<S>, v: seq<T>) {
    |w| == |v| && forall p :: 0 <= p < |w| ==> rel(w[p], v[p])
  }

  lemma BlocksRelate<S(!new), T(!new)>(f: (nat, S, S) -> (S, S), g: (nat, T, T) -> (T, T), rel: (S, T) -> bool,
      w: seq<S>, v: seq<T>, s: nat, d: nat)
    requires Preserves(f, g, rel) && Related(rel, w, v) && |w| == 2 * d
    ensures Related(rel, Block(f, w, s, d), Block(g, v, s, d))
  {
    hide Block;
    var a, b := Block(f, w, s, d), Block(g, v, s, d);
    forall p | 0 <= p < 2 * d ensures rel(a[p], b[p]) {
      var k := if p < d then p else p - d;
      BlockAt(f, w, s, d, k);
      BlockAt(g, v, s, d, k);
    }
  }

  /** Butterflies that preserve a relation make transforms that do. */
  lemma {:induction false} TreesRelate<S(!new), T(!new)>(f: (nat, S, S) -> (S, S), g: (nat, T, T) -> (T, T),
      rel: (S, T) -> bool, w: seq<S>, v: seq<T>, base: nat)
    requires Preserves(f, g, rel) && Related(rel, w, v) && PowerOfTwo(|w|)
    ensures Related(rel, TreeDown(f, w, base), TreeDown(g, v, base))
    ensures Related(rel, TreeUp(f, w, base), TreeUp(g, v, base))
    decreases |w|
  {
    hide TreeDown, TreeUp, Block, Preserves, PowerOfTwo;
    if |w| == 1 {
      OneTree(f, w, base);
      OneTree(g, v, base);
    } else {
      var a, b := TwoHalves(w);
      var a', b' := TwoHalves(v);
      var h := |a|;
      assert Related(rel, a, a') && Related(rel, b, b') by { RelatedHalves(rel, a, b, a', b'); }
      TreeHalves(f, a, b, base);
      TreeHalves(g, a', b', base);
      BlocksRelate(f, g, rel, w, v, base + h, h);
      var t, u := Block(f, w, base + h, h), Block(g, v, base + h, h);
      TreesRelate(f, g, rel, t[..h], u[..h], base);
      TreesRelate(f, g, rel, t[h..], u[h..], base + h);
      TreesRelate(f, g, rel, a, a', base);
      TreesRelate(f, g, rel, b, b', base + h);
      BlocksRelate(f, g, rel, TreeUp(f, a, base) + TreeUp(f, b, base + h),
                   TreeUp(g, a', base) + TreeUp(g, b', base + h), base + h, h);
    }
  }

  lemma RelatedHalves<S, T>(rel: (S, T) -> bool, a: seq<S>, b: seq<S>, c: seq<T>, d: seq<T>)
    requires |a| == |c| && |b| == |d| && Related(rel, a + b, c + d)
    ensures Related(rel, a, c) && Related(rel, b, d)
  {
    forall p | 0 <= p < |a| ensures rel(a[p], c[p]) { assert (a + b)[p] == a[p] && (c + d)[p] == c[p]; }
    forall p | 0 <= p < |b| ensures rel(b[p], d[p]) {
      assert (a + b)[|a| + p] == b[p] && (c + d)[|a| + p] == d[p];
    }
  }
}
