/** FFT_DIT_ErrorBits: the forward transform that leaves out every block in which no result is
    needed. */
module LeopardPruned {
  import opened Butterfly
  import opened LeopardRows
  import opened LeopardFft
  import opened LeopardTransforms
  import opened Powers

  /** Some needed position lies in the `len` positions from `q` on. */
  ghost predicate Hit(needed: set<nat>, q: nat, len: nat) { exists e :: e in needed && q <= e < q + len }

  /** A test that may be used for pruning a transform of `n` rows: it never denies a block with a
      needed position. */
  ghost predicate Sound(isNeeded: (nat, nat) -> bool, needed: set<nat>, n: nat) {
    forall mip: nat, q: nat :: mip > 0 && q < n && Multiple(q, Pow2(mip)) && Hit(needed, q, Pow2(mip)) ==>
        isNeeded(mip, q)
  }

  /** The blocks in front of row `b` that are not skipped hold two more layers. */
  ghost predicate BlocksDone(f: (nat, Row, Row) -> (Row, Row), now: seq<Row>, was: seq<Row>,
                             isNeeded: (nat, nat) -> bool, mip: nat, d: nat, b: nat)
    requires d > 0 && |now| == |was|
  {
    forall q :: 0 <= q && q + 4 * d <= b && b <= |now| && Multiple(q, 4 * d) && isNeeded(mip, q) ==>
      BlockDone(f, now, was, d, q)
  }

  lemma BlockKept(now: seq<Row>, t: seq<Row>, b: nat, n: nat, q: nat)
    requires b + n <= |now| && |t| == n
    ensures var now' := now[..b] + t + now[b + n..];
            && now'[b + n..] == now[b + n..] && now'[b..b + n] == t
            && (q + n <= b ==> now'[q..q + n] == now[q..q + n])
  {
  }

  /** The block of the pass at `q`, in rows `now` that were `was` before the pass. */
  ghost predicate BlockDone(f: (nat, Row, Row) -> (Row, Row), now: seq<Row>, was: seq<Row>, d: nat, q: nat)
    requires d > 0 && |now| == |was| && q + 4 * d <= |now|
  {
    now[q..q + 4 * d] == TwoDown(f, was[q..q + 4 * d], q, d)
  }

  lemma BlockDoneNow(f: (nat, Row, Row) -> (Row, Row), now: seq<Row>, was: seq<Row>, d: nat, b: nat, q: nat)
    requires d > 0 && |now| == |was| && b + 4 * d <= |now| && now[b..] == was[b..]
    requires q == b || (q + 4 * d <= b && BlockDone(f, now, was, d, q))
    ensures var now' := now[..b] + TwoDown(f, now[b..b + 4 * d], b, d) + now[b + 4 * d..];
            |now'| == |was| && BlockDone(f, now', was, d, q) && now'[b + 4 * d..] == was[b + 4 * d..]
  {
    hide TwoDown;
    var n := 4 * d;
    assert now[b..b + n] == now[b..][..n] == was[b..][..n] == was[b..b + n];
    assert now[b + n..] == now[b..][n..] == was[b..][n..] == was[b + n..];
    BlockKept(now, TwoDown(f, now[b..b + n], b, d), b, n, q);
  }

  lemma OneMoreBlock(f: (nat, Row, Row) -> (Row, Row), now: seq<Row>, was: seq<Row>,
                     isNeeded: (nat, nat) -> bool, mip: nat, d: nat, b: nat, now': seq<Row>)
    requires d > 0 && |now| == |was| && b + 4 * d <= |now| && Multiple(b, 4 * d)
    requires BlocksDone(f, now, was, isNeeded, mip, d, b) && now[b..] == was[b..]
    requires now' == if isNeeded(mip, b) then now[..b] + TwoDown(f, now[b..b + 4 * d], b, d) + now[b + 4 * d..] else now
    ensures |now'| == |was| && BlocksDone(f, now', was, isNeeded, mip, d, b + 4 * d)
    ensures now'[b + 4 * d..] == was[b + 4 * d..]
  {
    hide TwoDown, Multiple, BlockDone;
    if isNeeded(mip, b) {
      BlockDoneNow(f, now, was, d, b, b);
    } else {
      assert now[b + 4 * d..] == now[b..][4 * d..] == was[b..][4 * d..] == was[b + 4 * d..];
    }
    forall q | 0 <= q && q + 4 * d <= b + 4 * d && Multiple(q, 4 * d) && isNeeded(mip, q)
      ensures BlockDone(f, now', was, d, q)
    {
      if q < b {
        MultipleGap(q, b, 4 * d);
        assert BlockDone(f, now, was, d, q);
        if isNeeded(mip, b) { BlockDoneNow(f, now, was, d, b, q); }
      }
    }
  }

  method PrunedLevel(mul: Mul, skew: Skew, work: array<Row>, nTruncated: nat, d: nat, mip: nat,
      isNeeded: (nat, nat) -> bool)
      returns (ghost r: nat)
    requires d > 0 && nTruncated <= work.Length && Multiple(work.Length, 4 * d)
    modifies work
    ensures nTruncated <= r <= work.Length && Multiple(r, 4 * d)
    ensures BlocksDone(Fft(mul, skew), work[..], old(work[..]), isNeeded, mip, d, r)
  {
    hide BlocksDone, TwoDown, Fft;
    ghost var f, w := Fft(mul, skew), work[..];
    var b := 0;
    NoBlocks(f, w, isNeeded, mip, d);
    while b < nTruncated
      invariant b <= work.Length && Multiple(b, 4 * d)
      invariant BlocksDone(f, work[..], w, isNeeded, mip, d, b) && work[b..] == w[b..]
      decreases nTruncated - b
    {
      MultipleGap(b, work.Length, 4 * d);
      ghost var now := work[..];
      if isNeeded(mip, b) {
        FftBlock(mul, skew, work, b, d);
      }
      OneMoreBlock(f, now, w, isNeeded, mip, d, b, work[..]);
      b := b + 4 * d;
    }
    r := b;
  }

  lemma NoBlocks(f: (nat, Row, Row) -> (Row, Row), w: seq<Row>, isNeeded: (nat, nat) -> bool, mip: nat, d: nat)
    requires d > 0
    ensures BlocksDone(f, w, w, isNeeded, mip, d, 0)
  {
  }

  // Needed blocks hold the rows of the whole transform

  ghost predicate NeededRight(now: seq<Row>, ideal: seq<Row>, needed: set<nat>, len: nat)
    requires len > 0 && |now| == |ideal|
  {
    forall q :: 0 <= q && q + len <= |now| && Multiple(q, len) && Hit(needed, q, len) ==>
      now[q..q + len] == ideal[q..q + len]
  }

  /** The larger block that contains a block. */
  lemma {:induction false} Container(q: nat, d: nat, m: nat) returns (c: nat)
    requires d > 0 && Multiple(q, d) && Multiple(m, 4 * d) && q < m
    ensures Multiple(c, 4 * d) && c <= q && q + d <= c + 4 * d <= m
    decreases q
  {
    if q < 4 * d {
      c := 0;
      MultipleGap(q, 4 * d, d) by { MultipleFour(d); }
      DoubleGap(0, m, d);
    } else {
      assert Multiple(q - d, d) && Multiple(q - 2 * d, d) && Multiple(q - 3 * d, d) && Multiple(q - 4 * d, d);
      var c' := Container(q - 4 * d, d, m - 4 * d);
      c := c' + 4 * d;
    }
  }

  lemma MultipleFour(d: nat)
    requires d > 0
    ensures Multiple(4 * d, d)
  {
    assert Multiple(0, d) && Multiple(d, d) && Multiple(2 * d, d) && Multiple(3 * d, d);
  }

  lemma DoubleGap(a: nat, m: nat, d: nat)
    requires d > 0 && Multiple(a, 4 * d) && Multiple(m, 4 * d) && a < m
    ensures a + 4 * d <= m
  {
    MultipleGap(a, m, 4 * d);
  }

  lemma SliceOfSlice<T>(s: seq<T>, c: nat, n: nat, x: nat, y: nat)
    requires c + n <= |s| && x <= y <= n
    ensures s[c..c + n][x..y] == s[c + x..c + y]
  {
    var a, b := s[c..c + n][x..y], s[c + x..c + y];
    assert |a| == |b|;
    forall i | 0 <= i < y - x ensures a[i] == b[i] {
      assert a[i] == s[c..c + n][x + i] == s[c + (x + i)];
    }
  }

  lemma TwoDownMiddle(f: (nat, Row, Row) -> (Row, Row), a: seq<Row>, b: seq<Row>, c: seq<Row>, d: nat)
    requires d > 0 && Multiple(|a|, 4 * d) && |b| == 4 * d
    ensures TwoDown(f, a + (b + c), 0, d)[|a|..|a| + |b|] == TwoDown(f, b, |a|, d)
  {
    hide TwoDown, Multiple;
    MultipleSelf(4 * d);
    TwoDownSplit(f, a, b + c, 0, d);
    TwoDownSplit(f, b, c, |a|, d);
    var x, y, z := TwoDown(f, a, 0, d), TwoDown(f, b, |a|, d), TwoDown(f, c, |a| + |b|, d);
    assert |x| == |a| && |y| == |b|;
    Middle(x, y, z);
  }

  lemma TwoDownBlock(f: (nat, Row, Row) -> (Row, Row), w: seq<Row>, q: nat, d: nat)
    requires d > 0 && Multiple(q, 4 * d) && q + 4 * d <= |w|
    ensures TwoDown(f, w, 0, d)[q..q + 4 * d] == TwoDown(f, w[q..q + 4 * d], q, d)
  {
    hide TwoDown, Multiple;
    TwoDownMiddle(f, w[..q], w[q..q + 4 * d], w[q + 4 * d..], d);
    ThreeParts(w, q, 4 * d);
  }

  lemma ThreeParts<T>(w: seq<T>, q: nat, n: nat)
    requires q + n <= |w|
    ensures w == w[..q] + (w[q..q + n] + w[q + n..])
  {
  }

  lemma Middle<T>(x: seq<T>, y: seq<T>, z: seq<T>)
    ensures (x + (y + z))[|x|..|x| + |y|] == y
  {
  }

  lemma SubBlock(a: seq<Row>, b: seq<Row>, c: nat, n: nat, q: nat, d: nat)
    requires |a| == |b| && c + n <= |a| && c <= q && q + d <= c + n && a[c..c + n] == b[c..c + n]
    ensures a[q..q + d] == b[q..q + d]
  {
    SliceOfSlice(a, c, n, q - c, q - c + d);
    SliceOfSlice(b, c, n, q - c, q - c + d);
  }

  /** The block of the next size around a needed position, after two more layers. */
  lemma NeededBlock(f: (nat, Row, Row) -> (Row, Row), now: seq<Row>, was: seq<Row>, ideal: seq<Row>,
                    isNeeded: (nat, nat) -> bool, needed: set<nat>, mip: nat, d: nat, r: nat, q: nat)
    requires d > 0 && |now| == |was| == |ideal| && Multiple(|now|, 4 * d) && mip > 0 && Pow2(mip) == 4 * d
    requires Sound(isNeeded, needed, |now|) && (forall e <- needed :: e < r) && r <= |now| && Multiple(r, 4 * d)
    requires BlocksDone(f, now, was, isNeeded, mip, d, r) && NeededRight(was, ideal, needed, 4 * d)
    requires q + d <= |now| && Multiple(q, d) && Hit(needed, q, d)
    ensures now[q..q + d] == TwoDown(f, ideal, 0, d)[q..q + d]
  {
    hide TwoDown, Pow2, Multiple;
    var n := 4 * d;
    var e :| e in needed && q <= e < q + d;
    var c := Container(q, d, |now|);
    assert e in needed && c <= e < c + n;
    assert Hit(needed, c, n) && isNeeded(mip, c);
    MultipleGap(c, r, n);
    assert was[c..c + n] == ideal[c..c + n];
    TwoDownBlock(f, ideal, c, d);
    assert BlockDone(f, now, was, d, c);
    SubBlock(now, TwoDown(f, ideal, 0, d), c, n, q, d);
  }

  /** Two layers keep the needed blocks right, for the next, smaller block size. */
  lemma LevelKeepsNeeded(f: (nat, Row, Row) -> (Row, Row), now: seq<Row>, was: seq<Row>, ideal: seq<Row>,
                         isNeeded: (nat, nat) -> bool, needed: set<nat>, mip: nat, d: nat, r: nat)
    requires d > 0 && |now| == |was| == |ideal| && Multiple(|now|, 4 * d) && mip > 0 && Pow2(mip) == 4 * d
    requires Sound(isNeeded, needed, |now|) && (forall e <- needed :: e < r) && r <= |now| && Multiple(r, 4 * d)
    requires BlocksDone(f, now, was, isNeeded, mip, d, r) && NeededRight(was, ideal, needed, 4 * d)
    ensures NeededRight(now, TwoDown(f, ideal, 0, d), needed, d)
  {
    var t := TwoDown(f, ideal, 0, d);
    hide TwoDown, Pow2, Multiple, BlocksDone, Sound, Hit;
    forall q | 0 <= q && q + d <= |now| && Multiple(q, d) && Hit(needed, q, d)
      ensures now[q..q + d] == t[q..q + d]
    {
      NeededBlock(f, now, was, ideal, isNeeded, needed, mip, d, r, q);
    }
  }

  lemma LastKeepsNeeded(f: (nat, Row, Row) -> (Row, Row), now: seq<Row>, was: seq<Row>, ideal: seq<Row>,
                        isNeeded: (nat, nat) -> bool, needed: set<nat>, mip: nat, r: nat)
    requires |now| == |was| == |ideal| && Multiple(|now|, 2) && mip > 0 && Pow2(mip) == 2
    requires Sound(isNeeded, needed, |now|) && (forall e <- needed :: e < r) && r <= |now| && Multiple(r, 2)
    requires PairsRight(f, now, was, isNeeded, mip, r) && NeededRight(was, ideal, needed, 2)
    ensures forall e <- needed :: now[e] == Layer(f, ideal, 0, 1)[e]
  {
    hide Layer, Pow2;
    forall e <- needed ensures now[e] == Layer(f, ideal, 0, 1)[e] {
      var q := Even(e, |now|);
      assert Hit(needed, q, 2) && isNeeded(mip, q);
      MultipleGap(q, r, 2);
      assert was[q..q + 2] == ideal[q..q + 2];
      assert was[q] == was[q..q + 2][0] && was[q + 1] == was[q..q + 2][1];
      assert ideal[q] == ideal[q..q + 2][0] && ideal[q + 1] == ideal[q..q + 2][1];
      PairAt(f, ideal, q);
    }
  }

  lemma {:induction false} Even(e: nat, m: nat) returns (q: nat)
    requires Multiple(m, 2) && e < m
    ensures Multiple(q, 2) && q <= e < q + 2 <= m
    decreases e
  {
    if e < 2 {
      q := 0;
    } else {
      var q' := Even(e - 2, m - 2);
      q := q' + 2;
    }
  }

  lemma PairAt(f: (nat, Row, Row) -> (Row, Row), w: seq<Row>, q: nat)
    requires Multiple(q, 2) && q + 2 <= |w|
    ensures (Layer(f, w, 0, 1)[q], Layer(f, w, 0, 1)[q + 1]) == f(q + 1, w[q], w[q + 1])
  {
    hide Layer, Multiple;
    LayerSplit(f, w[..q], w[q..], 0, 1);
    assert w == w[..q] + w[q..];
    LayerCons(f, w[q..], q, 1);
    BlockAt(f, w[q..][..2], q + 1, 1, 0);
  }

  /** The pairs in front of row `b` that are not skipped hold the last layer. */
  ghost predicate PairsRight(f: (nat, Row, Row) -> (Row, Row), now: seq<Row>, was: seq<Row>,
                             isNeeded: (nat, nat) -> bool, mip: nat, b: nat)
    requires |now| == |was|
  {
    forall q :: 0 <= q && q + 2 <= b && b <= |now| && Multiple(q, 2) && isNeeded(mip, q) ==>
      (now[q], now[q + 1]) == f(q + 1, was[q], was[q + 1])
  }

  method PrunedLastLayer(mul: Mul, skew: Skew, work: array<Row>, nTruncated: nat, mip: nat,
      isNeeded: (nat, nat) -> bool)
      returns (ghost r: nat)
    requires nTruncated <= work.Length && Multiple(work.Length, 2)
    modifies work
    ensures nTruncated <= r <= work.Length && Multiple(r, 2)
    ensures PairsRight(Fft(mul, skew), work[..], old(work[..]), isNeeded, mip, r)
  {
    hide FftPair;
    ghost var f, w := Fft(mul, skew), work[..];
    var b := 0;
    while b < nTruncated
      invariant b <= work.Length && Multiple(b, 2)
      invariant PairsRight(f, work[..], w, isNeeded, mip, b)
      invariant forall p :: b <= p < work.Length ==> work[p] == w[p]
      decreases nTruncated - b
    {
      MultipleGap(b, work.Length, 2);
      ghost var now := work[..];
      if isNeeded(mip, b) {
        FftStep(mul, work, b, b + 1, skew(b + 1));
      }
      OneMorePair(f, now, w, isNeeded, mip, b, work[..]);
      b := b + 2;
    }
    r := b;
  }

  lemma OneMorePair(f: (nat, Row, Row) -> (Row, Row), now: seq<Row>, was: seq<Row>,
                    isNeeded: (nat, nat) -> bool, mip: nat, b: nat, now': seq<Row>)
    requires |now| == |was| && b + 2 <= |now| && Multiple(b, 2)
    requires PairsRight(f, now, was, isNeeded, mip, b) && now[b] == was[b] && now[b + 1] == was[b + 1]
    requires now' == if isNeeded(mip, b) 
                     then now[b := f(b + 1, now[b], now[b + 1]).0][b + 1 := f(b + 1, now[b], now[b + 1]).1]
                     else now
    ensures |now'| == |was| && PairsRight(f, now', was, isNeeded, mip, b + 2)
  {
    forall q | 0 <= q && q + 2 <= b + 2 && Multiple(q, 2) && isNeeded(mip, q)
      ensures (now'[q], now'[q + 1]) == f(q + 1, was[q], was[q + 1])
    {
      if q < b { MultipleGap(q, b, 2); }
    }
  }

  lemma {:induction false} Pow2Quarter(mip: nat, d: nat)
    requires Pow2(mip) == 4 * d && d > 0
    ensures mip >= 2 && Pow2(mip - 2) == d
  {
  }

  /** FFT_DIT_ErrorBits gives every needed row the value the whole transform would give it. */
  method FftDitErrorBits(mul: Mul, skew: Skew, work: array<Row>, nTruncated: nat, log2n: nat,
                         isNeeded: (nat, nat) -> bool, ghost needed: set<nat>)
    requires PowerOfTwo(work.Length) && work.Length == Pow2(log2n) && nTruncated <= work.Length
    requires Sound(isNeeded, needed, work.Length) && forall e <- needed :: e < nTruncated
    modifies work
    ensures forall e <- needed :: work[e] == Descend(Fft(mul, skew), old(work[..]), work.Length / 2)[e]
  {
    hide TwoDown, Fft, Layer, Sound, NeededRight, BlocksDone, PairsRight;
    var n := work.Length;
    ghost var f, w0 := Fft(mul, skew), work[..];
    ghost var ideal := w0;
    DoubledIsMultiple(n, n);
    SameIsRight(w0, needed, n);
    var mip := log2n;
    var dist4: nat, dist: nat := n, n / 4;
    while dist != 0
      invariant dist == dist4 / 4 && PowerOfTwo(dist4) && Doubled(n, dist4) && Pow2(mip) == dist4
      invariant |ideal| == n && Descend(f, ideal, dist4 / 2) == Descend(f, w0, n / 2)
      invariant NeededRight(work[..], ideal, needed, dist4)
      decreases dist
    {
      Quarter(n, dist4);
      Pow2Quarter(mip, dist);
      ghost var w := work[..];
      ghost var r := PrunedLevel(mul, skew, work, nTruncated, dist, mip, isNeeded);
      LevelKeepsNeeded(f, work[..], w, ideal, isNeeded, needed, mip, dist, r);
      DescendTwo(f, ideal, dist);
      ideal := TwoDown(f, ideal, 0, dist);
      dist4 := dist;
      dist := dist / 4;
      mip := mip - 2;
    }
    if dist4 > 1 { HalfOf(dist4, 1); }
    if dist4 == 2 {
      DoubledIsMultiple(n, 2);
      ghost var w := work[..];
      ghost var r := PrunedLastLayer(mul, skew, work, nTruncated, mip, isNeeded);
      LastKeepsNeeded(f, work[..], w, ideal, isNeeded, needed, mip, r);
      assert Descend(f, ideal, 1) == Layer(f, ideal, 0, 1);
    } else {
      SinglesRight(work[..], ideal, needed);
    }
  }

  lemma SameIsRight(w: seq<Row>, needed: set<nat>, len: nat)
    requires len > 0
    ensures NeededRight(w, w, needed, len)
  {
  }

  lemma SinglesRight(now: seq<Row>, ideal: seq<Row>, needed: set<nat>)
    requires |now| == |ideal| && NeededRight(now, ideal, needed, 1) && forall e <- needed :: e < |now|
    ensures forall e <- needed :: now[e] == ideal[e]
  {
    forall e <- needed ensures now[e] == ideal[e] {
      OneDivides(e);
      assert Hit(needed, e, 1);
      assert now[e] == now[e..e + 1][0] && ideal[e] == ideal[e..e + 1][0];
    }
  }
}
