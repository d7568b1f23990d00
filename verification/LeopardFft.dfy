/** The additive FFT kernels of Leopard, as they run: in place, two layers at a time, over a
    truncated range, and pruned by the positions that are needed. */
module LeopardFft {
  import opened Butterfly
  import opened LeopardRows

  // Two-way butterflies

  method XorMem(work: array<Row>, x: nat, y: nat)
    requires x < work.Length && y < work.Length
    modifies work
    ensures work[..] == old(work[..])[x := Xor(old(work[x]), old(work[y]))]
  {
    work[x] := Xor(work[x], work[y]);
  }

  method IfftDit2(mul: Mul, work: array<Row>, x: nat, y: nat, log: SkewLog)
    requires x < work.Length && y < work.Length && x != y && log.Log?
    modifies work
    ensures var (x', y') := IfftPair(mul, log, old(work[x]), old(work[y])); work[..] == old(work[..])[x := x'][y := y']
  {
    work[y] := Xor(work[y], work[x]);
    work[x] := Xor(work[x], mul(log.exponent, work[y]));
  }

  method FftDit2(mul: Mul, work: array<Row>, x: nat, y: nat, log: SkewLog)
    requires x < work.Length && y < work.Length && x != y && log.Log?
    modifies work
    ensures var (x', y') := FftPair(mul, log, old(work[x]), old(work[y])); work[..] == old(work[..])[x := x'][y := y']
  {
    work[x] := Xor(work[x], mul(log.exponent, work[y]));
    work[y] := Xor(work[y], work[x]);
  }

  /** One butterfly as the four-way kernels perform it: without the multiplication when there is
      none to do. */
  method IfftStep(mul: Mul, work: array<Row>, x: nat, y: nat, log: SkewLog)
    requires x < work.Length && y < work.Length && x != y
    modifies work
    ensures var (x', y') := IfftPair(mul, log, old(work[x]), old(work[y])); work[..] == old(work[..])[x := x'][y := y']
  {
    if log.ZeroSkew? {
      XorMem(work, y, x);
    } else {
      IfftDit2(mul, work, x, y, log);
    }
  }

  method FftStep(mul: Mul, work: array<Row>, x: nat, y: nat, log: SkewLog)
    requires x < work.Length && y < work.Length && x != y
    modifies work
    ensures var (x', y') := FftPair(mul, log, old(work[x]), old(work[y])); work[..] == old(work[..])[x := x'][y := y']
  {
    if log.ZeroSkew? {
      XorMem(work, y, x);
    } else {
      FftDit2(mul, work, x, y, log);
    }
  }

  /** Four rows at distance `d` from row `i` on. */
  function SetFour<T>(w: seq<T>, i: nat, d: nat, q: (T, T, T, T)): (r: seq<T>)
    requires d > 0 && i + 3 * d < |w|
    ensures |r| == |w|
  {
    w[i := q.0][i + d := q.1][i + 2 * d := q.2][i + 3 * d := q.3]
  }

  // Four-way butterflies

  method IfftDit4(mul: Mul, skew: Skew, work: array<Row>, i: nat, base: nat, d: nat, log01: SkewLog,
      log23: SkewLog, log02: SkewLog)
    requires d > 0 && i + 3 * d < work.Length
    requires log01 == skew(base + d) && log02 == skew(base + 2 * d) && log23 == skew(base + 3 * d)
    modifies work
    ensures work[..] == SetFour(old(work[..]), i, d,
      QuadUp(Ifft(mul, skew), base, d, old(work[i]), old(work[i + d]), old(work[i + 2 * d]), old(work[i + 3 * d])))
  {
    hide IfftPair;
    IfftStep(mul, work, i, i + d, log01);
    IfftStep(mul, work, i + 2 * d, i + 3 * d, log23);
    IfftStep(mul, work, i, i + 2 * d, log02);
    IfftStep(mul, work, i + d, i + 3 * d, log02);
  }

  method FftDit4(mul: Mul, skew: Skew, work: array<Row>, i: nat, base: nat, d: nat, log01: SkewLog, log23: SkewLog,
      log02: SkewLog)
    requires d > 0 && i + 3 * d < work.Length
    requires log01 == skew(base + d) && log02 == skew(base + 2 * d) && log23 == skew(base + 3 * d)
    modifies work
    ensures work[..] == SetFour(old(work[..]), i, d,
      QuadDown(Fft(mul, skew), base, d, old(work[i]), old(work[i + d]), old(work[i + 2 * d]), old(work[i + 3 * d])))
  {
    hide FftPair;
    FftStep(mul, work, i, i + 2 * d, log02);
    FftStep(mul, work, i + d, i + 3 * d, log02);
    FftStep(mul, work, i, i + d, log01);
    FftStep(mul, work, i + 2 * d, i + 3 * d, log23);
  }

  // One block of 4*d rows

  /** Position `p` of a block of 4*d lies in one of its first `k` columns. */
  predicate InColumns(p: int, d: nat, k: nat) {
    0 <= p < k || d <= p < d + k || 2 * d <= p < 2 * d + k || 3 * d <= p < 3 * d + k
  }

  /** `now` is `was` with the first `k` columns of the block at `r` replaced by those of `t`. */
  ghost predicate ColumnsDone<T>(now: seq<T>, was: seq<T>, t: seq<T>, r: nat, d: nat, k: nat)
    requires |now| == |was| && |t| == 4 * d && k <= d
  {
    forall p :: 0 <= p < |now| ==> now[p] == if InColumns(p - r, d, k) then t[p - r] else was[p]
  }

  lemma NextColumn<T>(now: seq<T>, was: seq<T>, t: seq<T>, r: nat, d: nat, k: nat, q: (T, T, T, T))
    requires |now| == |was| && |t| == 4 * d && k < d && r + 4 * d <= |was|
    requires ColumnsDone(now, was, t, r, d, k)
    requires q == (t[k], t[k + d], t[k + 2 * d], t[k + 3 * d])
    ensures ColumnsDone(SetFour(now, r + k, d, q), was, t, r, d, k + 1)
    ensures now[r + k] == was[r + k] && now[r + k + d] == was[r + k + d]
         && now[r + k + 2 * d] == was[r + k + 2 * d] && now[r + k + 3 * d] == was[r + k + 3 * d]
  {
  }

  lemma AllColumns<T>(now: seq<T>, was: seq<T>, t: seq<T>, r: nat, d: nat)
    requires |now| == |was| && |t| == 4 * d && r + 4 * d <= |was|
    requires ColumnsDone(now, was, t, r, d, d)
    ensures now == was[..r] + t + was[r + 4 * d..]
  {
    var e := was[..r] + t + was[r + 4 * d..];
    forall p | 0 <= p < |now| ensures now[p] == e[p] {
      assert InColumns(p - r, d, d) <==> r <= p < r + 4 * d;
    }
  }

  /** One column of a block: the four-way butterfly at row `r + k`. */
  method IfftColumn(mul: Mul, skew: Skew, work: array<Row>, r: nat, d: nat, k: nat, ghost was: seq<Row>)
    requires k < d && r + 4 * d <= work.Length == |was|
    requires ColumnsDone(work[..], was, TwoUp(Ifft(mul, skew), was[r..r + 4 * d], r, d), r, d, k)
    modifies work
    ensures ColumnsDone(work[..], was, TwoUp(Ifft(mul, skew), was[r..r + 4 * d], r, d), r, d, k + 1)
  {
    hide ColumnsDone, TwoUp, QuadUp, SetFour, Ifft;
    ghost var f, b := Ifft(mul, skew), was[r..r + 4 * d];
    ghost var t := TwoUp(f, b, r, d);
    QuadUpAt(f, b, r, d, k);
    NextColumn(work[..], was, t, r, d, k, (t[k], t[k + d], t[k + 2 * d], t[k + 3 * d]));
    IfftDit4(mul, skew, work, r + k, r, d, skew(r + d), skew(r + 3 * d), skew(r + 2 * d));
  }

  method FftColumn(mul: Mul, skew: Skew, work: array<Row>, r: nat, d: nat, k: nat, ghost was: seq<Row>)
    requires k < d && r + 4 * d <= work.Length == |was|
    requires ColumnsDone(work[..], was, TwoDown(Fft(mul, skew), was[r..r + 4 * d], r, d), r, d, k)
    modifies work
    ensures ColumnsDone(work[..], was, TwoDown(Fft(mul, skew), was[r..r + 4 * d], r, d), r, d, k + 1)
  {
    hide ColumnsDone, TwoDown, QuadDown, SetFour, Fft;
    ghost var f, b := Fft(mul, skew), was[r..r + 4 * d];
    ghost var t := TwoDown(f, b, r, d);
    QuadDownAt(f, b, r, d, k);
    NextColumn(work[..], was, t, r, d, k, (t[k], t[k + d], t[k + 2 * d], t[k + 3 * d]));
    FftDit4(mul, skew, work, r + k, r, d, skew(r + d), skew(r + 3 * d), skew(r + 2 * d));
  }

  /** The innermost loop: all columns of the block of 4*d rows at row `r`. */
  method IfftBlock(mul: Mul, skew: Skew, work: array<Row>, r: nat, d: nat)
    requires d > 0 && r + 4 * d <= work.Length
    modifies work
    ensures var w := old(work[..]);
            work[..] == w[..r] + TwoUp(Ifft(mul, skew), w[r..r + 4 * d], r, d) + w[r + 4 * d..]
  {
    ghost var was := work[..];
    ghost var t := TwoUp(Ifft(mul, skew), was[r..r + 4 * d], r, d);
    hide TwoUp;
    for i := r to r + d
      invariant ColumnsDone(work[..], was, t, r, d, i - r)
    {
      IfftColumn(mul, skew, work, r, d, i - r, was);
    }
    AllColumns(work[..], was, t, r, d);
  }

  method FftBlock(mul: Mul, skew: Skew, work: array<Row>, r: nat, d: nat)
    requires d > 0 && r + 4 * d <= work.Length
    modifies work
    ensures var w := old(work[..]);
            work[..] == w[..r] + TwoDown(Fft(mul, skew), w[r..r + 4 * d], r, d) + w[r + 4 * d..]
  {
    ghost var was := work[..];
    ghost var t := TwoDown(Fft(mul, skew), was[r..r + 4 * d], r, d);
    hide TwoDown;
    for i := r to r + d
      invariant ColumnsDone(work[..], was, t, r, d, i - r)
    {
      FftColumn(mul, skew, work, r, d, i - r, was);
    }
    AllColumns(work[..], was, t, r, d);
  }

  // One pass over the blocks: two layers

  /** One more block behind the blocks that are done. */
  lemma UpOneMore<T>(f: (nat, T, T) -> (T, T), w: seq<T>, r: nat, d: nat)
    requires d > 0 && Multiple(r, 4 * d) && r + 4 * d <= |w|
    ensures Multiple(r + 4 * d, 4 * d)
    ensures TwoUp(f, w[..r + 4 * d], 0, d) == TwoUp(f, w[..r], 0, d) + TwoUp(f, w[r..r + 4 * d], r, d)
  {
    hide TwoUp;
    TwoUpSplit(f, w[..r], w[r..r + 4 * d], 0, d);
    assert w[..r + 4 * d] == w[..r] + w[r..r + 4 * d];
  }

  lemma DownOneMore<T>(f: (nat, T, T) -> (T, T), w: seq<T>, r: nat, d: nat)
    requires d > 0 && Multiple(r, 4 * d) && r + 4 * d <= |w|
    ensures Multiple(r + 4 * d, 4 * d)
    ensures TwoDown(f, w[..r + 4 * d], 0, d) == TwoDown(f, w[..r], 0, d) + TwoDown(f, w[r..r + 4 * d], r, d)
  {
    hide TwoDown;
    TwoDownSplit(f, w[..r], w[r..r + 4 * d], 0, d);
    assert w[..r + 4 * d] == w[..r] + w[r..r + 4 * d];
  }

  /** The block at `r` is replaced in a sequence whose first `r` rows have been replaced before. */
  lemma BlockReplaced<T>(done: seq<T>, w: seq<T>, b: seq<T>, r: nat, n: nat)
    requires |done| == r && |b| == n && r + n <= |w|
    ensures var now := done + w[r..];
            now[..r] + b + now[r + n..] == (done + b) + w[r + n..] && now[r..r + n] == w[r..r + n]
  {
  }

  lemma UpTurn<T>(f: (nat, T, T) -> (T, T), w: seq<T>, now: seq<T>, next: seq<T>, r: nat, d: nat)
    requires d > 0 && Multiple(r, 4 * d) && r + 4 * d <= |w| && now == TwoUp(f, w[..r], 0, d) + w[r..]
    requires next == now[..r] + TwoUp(f, now[r..r + 4 * d], r, d) + now[r + 4 * d..]
    ensures Multiple(r + 4 * d, 4 * d) && next == TwoUp(f, w[..r + 4 * d], 0, d) + w[r + 4 * d..]
  {
    hide TwoUp, Multiple;
    UpOneMore(f, w, r, d);
    BlockReplaced(TwoUp(f, w[..r], 0, d), w, TwoUp(f, w[r..r + 4 * d], r, d), r, 4 * d);
  }

  method IfftLevel(mul: Mul, skew: Skew, work: array<Row>, mTruncated: nat, d: nat) returns (ghost r: nat)
    requires d > 0 && mTruncated <= work.Length && Multiple(work.Length, 4 * d)
    modifies work
    ensures mTruncated <= r <= work.Length && Multiple(r, 4 * d) && r < mTruncated + 4 * d
    ensures work[..] == TwoUp(Ifft(mul, skew), old(work[..r]), 0, d) + old(work[r..])
  {
    hide TwoUp, Ifft;
    ghost var f, w := Ifft(mul, skew), work[..];
    var b := 0;
    assert TwoUp(f, w[..0], 0, d) + w[0..] == w;
    while b < mTruncated
      invariant b <= work.Length && Multiple(b, 4 * d) && b < mTruncated + 4 * d
      invariant work[..] == TwoUp(f, w[..b], 0, d) + w[b..]
      decreases mTruncated - b
    {
      MultipleGap(b, work.Length, 4 * d);
      ghost var now := work[..];
      IfftBlock(mul, skew, work, b, d);
      UpTurn(f, w, now, work[..], b, d);
      b := b + 4 * d;
    }
    r := b;
  }

  lemma DownTurn<T>(f: (nat, T, T) -> (T, T), w: seq<T>, now: seq<T>, next: seq<T>, r: nat, d: nat)
    requires d > 0 && Multiple(r, 4 * d) && r + 4 * d <= |w| && now == TwoDown(f, w[..r], 0, d) + w[r..]
    requires next == now[..r] + TwoDown(f, now[r..r + 4 * d], r, d) + now[r + 4 * d..]
    ensures Multiple(r + 4 * d, 4 * d) && next == TwoDown(f, w[..r + 4 * d], 0, d) + w[r + 4 * d..]
  {
    hide TwoDown, Multiple;
    DownOneMore(f, w, r, d);
    BlockReplaced(TwoDown(f, w[..r], 0, d), w, TwoDown(f, w[r..r + 4 * d], r, d), r, 4 * d);
  }

  method FftLevel(mul: Mul, skew: Skew, work: array<Row>, mTruncated: nat, d: nat) returns (ghost r: nat)
    requires d > 0 && mTruncated <= work.Length && Multiple(work.Length, 4 * d)
    modifies work
    ensures mTruncated <= r <= work.Length && Multiple(r, 4 * d) && r < mTruncated + 4 * d
    ensures work[..] == TwoDown(Fft(mul, skew), old(work[..r]), 0, d) + old(work[r..])
  {
    hide TwoDown, Fft;
    ghost var f, w := Fft(mul, skew), work[..];
    var b := 0;
    assert TwoDown(f, w[..0], 0, d) + w[0..] == w;
    while b < mTruncated
      invariant b <= work.Length && Multiple(b, 4 * d) && b < mTruncated + 4 * d
      invariant work[..] == TwoDown(f, w[..b], 0, d) + w[b..]
      decreases mTruncated - b
    {
      MultipleGap(b, work.Length, 4 * d);
      ghost var now := work[..];
      FftBlock(mul, skew, work, b, d);
      DownTurn(f, w, now, work[..], b, d);
      b := b + 4 * d;
    }
    r := b;
  }

  // The inverse transform of the decoder

  /** Blocks of zeros need no work: a pass that stops in front of them is a whole pass. */
  lemma TruncatedUp(mul: Mul, skew: Skew, w: seq<Row>, r: nat, d: nat)
    requires d > 0 && r <= |w| && Multiple(r, 4 * d)
    requires r < |w| ==> KeepsZero(mul) && AllZero(w[r..])
    ensures TwoUp(Ifft(mul, skew), w[..r], 0, d) + w[r..] == TwoUp(Ifft(mul, skew), w, 0, d)
  {
    hide Ifft, Layer, KeepsZero, IsZero;
    TwoUpSplit(Ifft(mul, skew), w[..r], w[r..], 0, d);
    assert w == w[..r] + w[r..];
    if r < |w| {
      ZeroLayer(mul, skew, w[r..], r, d);
      ZeroLayer(mul, skew, w[r..], r, 2 * d);
    } else {
      assert w[r..] == [];
    }
  }

  /** `now` is `was` with the first `k` butterflies between the two halves done. */
  ghost predicate PairsDone<T>(now: seq<T>, was: seq<T>, t: seq<T>, d: nat, k: nat)
    requires |now| == |was| == |t|
  {
    forall p :: 0 <= p < |now| ==> now[p] == if p < k || d <= p < d + k then t[p] else was[p]
  }

  lemma NextPair<T>(now: seq<T>, was: seq<T>, t: seq<T>, d: nat, k: nat)
    requires |now| == |was| == |t| == 2 * d && k < d && PairsDone(now, was, t, d, k)
    ensures PairsDone(now[k := t[k]][k + d := t[k + d]], was, t, d, k + 1)
    ensures now[k] == was[k] && now[k + d] == was[k + d]
  {
  }

  lemma ZeroSkewBlock(mul: Mul, skew: Skew, w: seq<Row>, now: seq<Row>, d: nat)
    requires |w| == |now| == 2 * d && skew(d) == ZeroSkew
    requires forall p {:trigger now[p]} :: 0 <= p < 2 * d ==> now[p] == if d <= p then Xor(w[p], w[p - d]) else w[p]
    ensures now == Block(Ifft(mul, skew), w, d, d)
  {
    hide Xor;
  }

  method IfftLastPairs(mul: Mul, skew: Skew, work: array<Row>, d: nat)
    requires work.Length == 2 * d && skew(d).Log?
    modifies work
    ensures work[..] == Block(Ifft(mul, skew), old(work[..]), d, d)
  {
    hide Block, IfftPair;
    ghost var f, w := Ifft(mul, skew), work[..];
    ghost var t := Block(f, w, d, d);
    for i := 0 to d
      invariant PairsDone(work[..], w, t, d, i)
    {
      BlockAt(f, w, d, d, i);
      NextPair(work[..], w, t, d, i);
      hide PairsDone;
      IfftDit2(mul, work, i, i + d, skew(d));
    }
    assert work[..] == t;
  }

  /** The last layer, between the two halves. */
  method IfftLastLayer(mul: Mul, skew: Skew, work: array<Row>, d: nat)
    requires d > 0 && work.Length == 2 * d && (d < 4 || Multiple(d, 4))
    modifies work
    ensures work[..] == Block(Ifft(mul, skew), old(work[..]), d, d)
  {
    hide Block, Ifft, Xor, Xors;
    if skew(d).ZeroSkew? {
      ghost var w := work[..];
      XorsAll(d);
      VectorXor(work, d, d, 0);
      ZeroSkewBlock(mul, skew, w, work[..], d);
    } else {
      IfftLastPairs(mul, skew, work, d);
    }
  }

  /** The rows of a run of `count` that VectorXOR xors: all of a run of less than four.  Behind the
      last four it goes back over rows in front of them, which undoes their xor. */
  predicate Xors(count: nat, p: int) {
    if count < 4 then 0 <= p < count
    else 0 <= p < count - count % 4 && !(count - 4 - count % 4 <= p < count - 4)
  }

  /** `now` is `was` with the rows from x + lo to x + hi xored with those from `y` on. */
  ghost predicate RunXored(now: seq<Row>, was: seq<Row>, x: nat, y: nat, lo: nat, hi: nat)
    requires x + hi <= |was| && y + hi <= |was|
  {
    |now| == |was| && forall p {:trigger now[p]} :: 0 <= p < |was| ==>
      now[p] == if x + lo <= p < x + hi then Xor(was[p], was[p - x + y]) else was[p]
  }

  /** One row of the run. */
  method XorRow(work: array<Row>, x: nat, y: nat, lo: nat, i: nat, n: nat, ghost was: seq<Row>)
    requires lo <= i < n && x + n <= work.Length == |was| && y + n <= work.Length && (x + n <= y || y + n <= x)
    requires RunXored(work[..], was, x, y, lo, i)
    modifies work
    ensures RunXored(work[..], was, x, y, lo, i + 1)
  {
    hide Xor;
    ghost var now := work[..];
    assert now[x + i] == was[x + i];
    assert now[y + i] == was[y + i];
    work[x + i] := Xor(work[x + i], work[y + i]);
    assert work[..] == now[x + i := Xor(was[x + i], was[y + i])];
  }

  /** VectorXOR: xor `count` rows from `y` on into the rows from `x` on, four at a time when there
      are that many. */
  method VectorXor(work: array<Row>, count: nat, x: nat, y: nat)
    requires x + count <= work.Length && y + count <= work.Length && (x + count <= y || y + count <= x)
    modifies work
    ensures forall p {:trigger work[p]} :: 0 <= p < work.Length ==>
      work[p] == if Xors(count, p - x) then Xor(old(work[p]), old(work[p - x + y])) else old(work[p])
  {
    hide RunXored;
    ghost var was := work[..];
    NothingXored(was, x, y, 0);
    var rest, from := count, 0;
    if count >= 4 {
      var i := 0;
      while i <= count - 4
        invariant 0 <= i <= count && i % 4 == 0 && RunXored(work[..], was, x, y, 0, i)
      {
        XorRow(work, x, y, 0, i, count, was);
        XorRow(work, x, y, 0, i + 1, count, was);
        XorRow(work, x, y, 0, i + 2, count, was);
        XorRow(work, x, y, 0, i + 3, count, was);
        i := i + 4;
      }
      rest := count % 4;
      assert i == count - rest;
      from := count - 4 - rest;
    }
    ghost var now := work[..];
    NothingXored(now, x, y, from);
    for i := 0 to rest
      invariant RunXored(work[..], now, x, y, from, from + i)
    {
      XorRow(work, x, y, from, from + i, count, now);
    }
    RunsAre(work[..], now, was, x, y, count);
  }

  lemma NothingXored(w: seq<Row>, x: nat, y: nat, lo: nat)
    requires x + lo <= |w| && y + lo <= |w|
    ensures RunXored(w, w, x, y, lo, lo)
  {
  }

  /** The loop over what is left takes back what it meets again. */
  lemma RunsAre(end: seq<Row>, now: seq<Row>, was: seq<Row>, x: nat, y: nat, count: nat)
    requires |end| == |now| == |was| && x + count <= |was| && y + count <= |was| && (x + count <= y || y + count <= x)
    requires count < 4 ==> now == was && RunXored(end, now, x, y, 0, count)
    requires count >= 4 ==> RunXored(now, was, x, y, 0, count - count % 4)
    requires count >= 4 ==> RunXored(end, now, x, y, count - 4 - count % 4, count - 4)
    ensures forall p {:trigger end[p]} :: 0 <= p < |was| ==>
        end[p] == if Xors(count, p - x) then Xor(was[p], was[p - x + y]) else was[p]
  {
    hide Xor;
    if count >= 4 {
      forall p | 0 <= p < |was| ensures end[p] == if Xors(count, p - x) then Xor(was[p], was[p - x + y]) else was[p] {
        if x + count - 4 - count % 4 <= p < x + count - 4 {
          assert now[p - x + y] == was[p - x + y];
          XorCancel(was[p], was[p - x + y]);
        }
      }
    }
  }

  lemma {:induction false} MultipleOfFour(n: nat)
    requires Multiple(n, 4)
    ensures n % 4 == 0
    decreases n
  {
    if n > 0 { MultipleOfFour(n - 4); }
  }

  /** All rows of a run are xored if and only if there are less than four or a multiple of four:
      callers pass powers of two. */
  lemma XorsAll(count: nat)
    ensures (forall p :: Xors(count, p) <==> 0 <= p < count) <==> count < 4 || count % 4 == 0
    ensures Multiple(count, 4) ==> count % 4 == 0
  {
    if Multiple(count, 4) { MultipleOfFour(count); }
    if count >= 4 && count % 4 != 0 { assert !Xors(count, count - 1); }
  }
}
