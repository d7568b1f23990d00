/** The inverse transform of a codeword: its highest coefficients are the sum of those of its blocks. */
module CodewordDegree {
  import opened Butterfly
  import opened ButterflyTrees
  import opened CantorField
  import opened FieldTransforms
  import opened NovelBasis

  /** The sum of coefficient `j` over the transforms of all blocks of `m` positions. */
  function Total<E(!new)>(f: Field<E>, sk: nat -> E, w: seq<E>, base: nat, m: nat, j: nat): E
    requires PowerOfTwo(m) && Multiple(|w|, m) && j < m
    decreases |w|
  {
    if w == [] then f.zero
    else
      var k := |w| - m;
      f.plus(Total(f, sk, w[..k], base, m, j), TreeUp(Ifft(f, sk), w[k..], base + k)[j])
  }

  lemma LastOfTotal<E(!new)>(f: Field<E>, sk: nat -> E, w: seq<E>, base: nat, m: nat, j: nat)
    requires PowerOfTwo(m) && Multiple(|w|, m) && j < m && w != []
    ensures m <= |w| && Multiple(|w| - m, m)
    ensures var k := |w| - m;
            Total(f, sk, w, base, m, j)
            == f.plus(Total(f, sk, w[..k], base, m, j), TreeUp(Ifft(f, sk), w[k..], base + k)[j])
  {
    hide TreeUp, PowerOfTwo, Ifft;
  }

  lemma NothingTotal<E(!new)>(f: Field<E>, sk: nat -> E, base: nat, m: nat, j: nat)
    requires PowerOfTwo(m) && j < m
    ensures Multiple(0, m) && Total(f, sk, [], base, m, j) == f.zero
  {
  }

  lemma {:induction false} TotalSplit<E(!new)>(f: Field<E>, sk: nat -> E, a: seq<E>, b: seq<E>, base: nat, m: nat,
      j: nat)
    requires f.Laws() && PowerOfTwo(m) && Multiple(|a|, m) && Multiple(|b|, m) && j < m
    ensures Multiple(|a + b|, m)
    ensures Total(f, sk, a + b, base, m, j)
         == f.plus(Total(f, sk, a, base, m, j), Total(f, sk, b, base + |a|, m, j))
    decreases |b|
  {
    hide Field.Laws, TreeUp, PowerOfTwo, Ifft, Total, Multiple;
    NothingTotal(f, sk, base + |a|, m, j);
    MultiplePlus(|a|, |b|, m);
    if b == [] {
      assert a + b == a;
      PlusNothing(f, Total(f, sk, a, base, m, j));
    } else {
      LastOfTotal(f, sk, b, base + |a|, m, j);
      LastOfTotal(f, sk, a + b, base, m, j);
      var k := |b| - m;
      var front, last := b[..k], b[k..];
      TotalSplit(f, sk, a, front, base, m, j);
      assert (a + b)[..|a| + k] == a + front && (a + b)[|a| + k..] == last;
      assert base + (|a| + k) == base + |a| + k && |a + b| - m == |a| + k;
      PlusAssoc(f, Total(f, sk, a, base, m, j), Total(f, sk, front, base + |a|, m, j),
                TreeUp(Ifft(f, sk), last, base + |a| + k)[j]);
    }
  }

  lemma OneBlock<E(!new)>(f: Field<E>, sk: nat -> E, w: seq<E>, base: nat, j: nat)
    requires f.Laws() && PowerOfTwo(|w|) && j < |w|
    ensures Multiple(|w|, |w|) && Total(f, sk, w, base, |w|, j) == TreeUp(Ifft(f, sk), w, base)[j]
  {
    hide Field.Laws, TreeUp, PowerOfTwo, Ifft;
    MultipleSelf(|w|);
    assert w[..0] == [] && w[0..] == w;
    PlusComm(f, f.zero, TreeUp(Ifft(f, sk), w, base)[j]);
    PlusNothing(f, TreeUp(Ifft(f, sk), w, base)[j]);
  }

  /** The last block of the inverse transform. */
  lemma {:induction false} TopBlock<E(!new)>(f: Field<E>, sk: nat -> E, w: seq<E>, base: nat, m: nat, j: nat)
    requires f.Laws() && PowerOfTwo(m) && PowerOfTwo(|w|) && Doubled(|w|, m) && j < m
    ensures m <= |w| && Multiple(|w|, m)
    ensures TreeUp(Ifft(f, sk), w, base)[|w| - m + j] == Total(f, sk, w, base, m, j)
    decreases |w|
  {
    hide Field.Laws, TreeUp, PowerOfTwo, Ifft, Total, Block, Multiple, Doubled;
    DoubledIsMultiple(|w|, m);
    if |w| == m {
      OneBlock(f, sk, w, base, j);
    } else {
      HalfOf(|w|, m);
      OneIsNoDouble(|w|, m);
      var a, b := TwoHalves(w);
      var h := |a|;
      TopBlock(f, sk, a, base, m, j);
      TopBlock(f, sk, b, base + h, m, j);
      TotalSplit(f, sk, a, b, base, m, j);
      TreeHalves(Ifft(f, sk), a, b, base);
      UpperRow(f, sk, TreeUp(Ifft(f, sk), a, base), TreeUp(Ifft(f, sk), b, base + h), base + h, h - m + j);
      PlusComm(f, Total(f, sk, a, base, m, j), Total(f, sk, b, base + h, m, j));
    }
  }

  lemma OneIsNoDouble(n: nat, m: nat)
    requires m > 0 && m < n
    ensures n != 1
  {
  }

  lemma UpperRow<E(!new)>(f: Field<E>, sk: nat -> E, a: seq<E>, b: seq<E>, s: nat, k: nat)
    requires |a| == |b| && k < |a|
    ensures Block(Ifft(f, sk), a + b, s, |a|)[|a| + k] == f.plus(b[k], a[k])
  {
    hide Block;
    BlockAt(Ifft(f, sk), a + b, s, |a|, k);
  }

  // Zeros

  lemma {:induction false} ZeroTree<E(!new)>(f: Field<E>, sk: nat -> E, w: seq<E>, base: nat)
    requires f.Laws() && PowerOfTwo(|w|) && ZeroFrom(f, w, 0)
    ensures ZeroFrom(f, TreeUp(Ifft(f, sk), w, base), 0)
    decreases |w|
  {
    hide Field.Laws, TreeUp, PowerOfTwo, Block;
    if |w| == 1 {
      OneTree(Ifft(f, sk), w, base);
    } else {
      var a, b := TwoHalves(w);
      var h := |a|;
      ZeroHalves(f, a, b, 0);
      ZeroTree(f, sk, a, base);
      ZeroTree(f, sk, b, base + h);
      TreeHalves(Ifft(f, sk), a, b, base);
      var c := TreeUp(Ifft(f, sk), a, base) + TreeUp(Ifft(f, sk), b, base + h);
      var r := Block(Ifft(f, sk), c, base + h, h);
      forall i | 0 <= i < 2 * h ensures r[i] == f.zero {
        BlockAt(Ifft(f, sk), c, base + h, h, if i < h then i else i - h);
        PlusNothing(f, f.zero);
        TimesNothing(f, sk(base + h));
      }
    }
  }

  lemma {:induction false} ZeroTotal<E(!new)>(f: Field<E>, sk: nat -> E, w: seq<E>, base: nat, m: nat, j: nat)
    requires f.Laws() && PowerOfTwo(m) && Multiple(|w|, m) && j < m && ZeroFrom(f, w, 0)
    ensures Total(f, sk, w, base, m, j) == f.zero
    decreases |w|
  {
    hide Field.Laws, TreeUp, PowerOfTwo, Ifft;
    if w != [] {
      var k := |w| - m;
      ZeroTotal(f, sk, w[..k], base, m, j);
      ZeroTree(f, sk, w[k..], base + k);
      PlusNothing(f, f.zero);
    }
  }

  /** The totals of all coefficients, for blocks that start behind the first `m` positions. */
  function Totals<E(!new)>(f: Field<E>, sk: nat -> E, r: seq<E>, m: nat): (s: seq<E>)
    requires PowerOfTwo(m) && Multiple(|r|, m)
    ensures |s| == m
  {
    seq(m, j requires 0 <= j < m => Total(f, sk, r, m, m, j))
  }

  lemma TotalsAt<E(!new)>(f: Field<E>, sk: nat -> E, r: seq<E>, m: nat, j: nat)
    requires PowerOfTwo(m) && Multiple(|r|, m) && j < m
    ensures Totals(f, sk, r, m)[j] == Total(f, sk, r, m, m, j)
  {
  }

  /** The totals of some blocks, transformed, and these blocks. */
  function Joined<E(!new)>(f: Field<E>, sk: nat -> E, r: seq<E>, m: nat): (w: seq<E>)
    requires PowerOfTwo(m) && Multiple(|r|, m)
    ensures |w| == m + |r|
  {
    TreeDown(Fft(f, sk), Totals(f, sk, r, m), 0) + r
  }

  /** In the last block of the inverse transform the coefficients of the first block and of the others
      cancel. */
  lemma TopCoefficient<E(!new)>(f: Field<E>, sk: nat -> E, r: seq<E>, m: nat, p: nat)
    requires f.Laws() && PowerOfTwo(m) && PowerOfTwo(m + |r|) && Doubled(m + |r|, m) && Multiple(|r|, m)
    requires |r| <= p < |r| + m
    ensures TreeUp(Ifft(f, sk), Joined(f, sk, r, m), 0)[p] == f.zero
  {
    hide Field.Laws, TreeUp, TreeDown, PowerOfTwo, Ifft, Fft, Total, Multiple, Doubled, Undoes, Totals;
    var s, j := Totals(f, sk, r, m), p - |r|;
    var d := TreeDown(Fft(f, sk), s, 0);
    TransformsUndo(f, sk);
    TreeUndone(Ifft(f, sk), Fft(f, sk), s, 0);
    TopBlock(f, sk, d + r, 0, m, j);
    OneBlock(f, sk, d, 0, j);
    TotalSplit(f, sk, d, r, 0, m, j);
    TotalsAt(f, sk, r, m, j);
    PlusNothing(f, s[j]);
  }

  /** When the first block is the forward transform of the totals of the others, the inverse transform
      of the whole has a degree below the size of the others. */
  lemma DegreeOfCodeword<E(!new)>(f: Field<E>, sk: nat -> E, r: seq<E>, m: nat)
    requires f.Laws() && PowerOfTwo(m) && PowerOfTwo(m + |r|) && Doubled(m + |r|, m) && Multiple(|r|, m)
    ensures ZeroFrom(f, TreeUp(Ifft(f, sk), Joined(f, sk, r, m), 0), |r|)
  {
    hide Field.Laws, TreeUp, PowerOfTwo, Ifft, Multiple, Doubled, Joined;
    var c := TreeUp(Ifft(f, sk), Joined(f, sk, r, m), 0);
    forall p | |r| <= p < |c| ensures c[p] == f.zero {
      TopCoefficient(f, sk, r, m, p);
    }
  }
}
