/** IFFT_DIT_Encoder: the inverse transform of the encoder, which can also xor its result into the
    rows of another transform. */
module LeopardEncoder {
  import opened Butterfly
  import opened Division
  import opened EncoderXor
  import opened LeopardDerivative
  import opened LeopardFft
  import opened LeopardRows
  import opened LeopardTransforms

  function ZeroRow(bytes: nat): (r: Row)
    ensures IsZero(r)
  {
    seq(bytes, _ => 0)
  }

  /** The data rows, followed by rows of zeros. */
  function Padded(data: seq<Row>, m: nat, bytes: nat): (r: seq<Row>)
    requires |data| <= m
    ensures |r| == m
  {
    data + seq(m - |data|, _ => ZeroRow(bytes))
  }

  lemma PaddedZero(data: seq<Row>, m: nat, bytes: nat)
    requires |data| <= m
    ensures AllZero(Padded(data, m, bytes)[|data|..]) && Padded(data, m, bytes)[..|data|] == data
  {
    hide IsZero, ZeroRow;
    var r := Padded(data, m, bytes);
    forall p | 0 <= p < m - |data| ensures IsZero(r[|data|..][p]) {
      assert r[|data|..][p] == ZeroRow(bytes);
      ZeroRowIsZero(bytes);
    }
  }

  lemma ZeroRowIsZero(bytes: nat)
    ensures IsZero(ZeroRow(bytes))
  {
  }

  /** memcpy and memset */
  method Fill(data: seq<Row>, bytes: nat, work: array<Row>)
    requires |data| <= work.Length
    modifies work
    ensures work[..] == Padded(data, work.Length, bytes)
  {
    hide ZeroRow;
    for i := 0 to |data|
      invariant forall p :: 0 <= p < i ==> work[p] == data[p]
    {
      work[i] := data[i];
    }
    for i := |data| to work.Length
      invariant forall p :: 0 <= p < |data| ==> work[p] == data[p]
      invariant forall p :: |data| <= p < i ==> work[p] == ZeroRow(bytes)
    {
      work[i] := ZeroRow(bytes);
    }
  }

  /** xor_mem from one buffer into another */
  method XorTo(out: array<Row>, work: array<Row>, x: nat)
    requires x < out.Length && x < work.Length && out != work
    modifies out
    ensures out[..] == old(out[..])[x := Xor(old(out[x]), work[x])]
  {
    out[x] := Xor(out[x], work[x]);
  }

  /** `out` is `was` with the rows of `t` xored in, in the first `k` columns of a block. */
  ghost predicate ColumnsXored(out: seq<Row>, was: seq<Row>, t: seq<Row>, d: nat, k: nat)
    requires |out| == |was| == |t| == 4 * d
  {
    forall p :: 0 <= p < |out| ==> out[p] == if InColumns(p, d, k) then Xor(was[p], t[p]) else was[p]
  }

  lemma NextXored(out: seq<Row>, was: seq<Row>, t: seq<Row>, d: nat, k: nat)
    requires |out| == |was| == |t| == 4 * d && k < d && ColumnsXored(out, was, t, d, k)
    ensures ColumnsXored(SetFour(out, k, d, (Xor(out[k], t[k]), Xor(out[k + d], t[k + d]),
        Xor(out[k + 2 * d], t[k + 2 * d]), Xor(out[k + 3 * d], t[k + 3 * d]))),
                         was, t, d, k + 1)
  {
    hide Xor;
  }

  lemma AllXored(out: seq<Row>, was: seq<Row>, t: seq<Row>, d: nat)
    requires |out| == |was| == |t| == 4 * d && ColumnsXored(out, was, t, d, d)
    ensures out == XorRows(was, t)
  {
    hide Xor;
    forall p | 0 <= p < |out| ensures out[p] == XorRows(was, t)[p] {
      assert InColumns(p, d, d);
    }
  }

  /** The four xors at the end of IFFT_DIT4_xor. */
  method XorFour(out: array<Row>, work: array<Row>, i: nat, d: nat)
    requires d > 0 && i + 3 * d < out.Length && i + 3 * d < work.Length && out != work
    modifies out
    ensures var o, w := old(out[..]), work[..];
            out[..] == SetFour(o, i, d, (Xor(o[i], w[i]), Xor(o[i + d], w[i + d]), Xor(o[i + 2 * d], w[i + 2 * d]),
                Xor(o[i + 3 * d], w[i + 3 * d])))
  {
    hide Xor;
    XorTo(out, work, i);
    XorTo(out, work, i + d);
    XorTo(out, work, i + 2 * d);
    XorTo(out, work, i + 3 * d);
  }

  /** The last pass over a single block, with IFFT_DIT4_xor. */
  method IfftBlockXor(mul: Mul, skew: Skew, work: array<Row>, out: array<Row>, d: nat)
    requires d > 0 && work.Length == out.Length == 4 * d && out != work
    modifies work, out
    ensures work[..] == TwoUp(Ifft(mul, skew), old(work[..]), 0, d)
    ensures out[..] == XorRows(old(out[..]), work[..])
  {
    hide TwoUp, Ifft, ColumnsDone, ColumnsXored, XorRows, SetFour, Xor;
    ghost var was, x0 := work[..], out[..];
    assert was[0..0 + 4 * d] == was;
    ghost var t := TwoUp(Ifft(mul, skew), was, 0, d);
    NothingDone(was, t, x0, d);
    for i := 0 to d
      invariant ColumnsDone(work[..], was, t, 0, d, i) && ColumnsXored(out[..], x0, t, d, i)
    {
      IfftColumn(mul, skew, work, 0, d, i, was);
      ColumnIsDone(work[..], was, t, d, i);
      NextXored(out[..], x0, t, d, i);
      XorFour(out, work, i, d);
    }
    AllColumns(work[..], was, t, 0, d);
    AllXored(out[..], x0, t, d);
    assert was[..0] + t + was[0 + 4 * d..] == t;
  }

  lemma NothingDone(was: seq<Row>, t: seq<Row>, x0: seq<Row>, d: nat)
    requires |was| == |t| == |x0| == 4 * d
    ensures ColumnsDone(was, was, t, 0, d, 0) && ColumnsXored(x0, x0, t, d, 0)
  {
    hide Xor;
  }

  lemma ColumnIsDone(now: seq<Row>, was: seq<Row>, t: seq<Row>, d: nat, i: nat)
    requires |now| == |was| == |t| == 4 * d && i < d && ColumnsDone(now, was, t, 0, d, i + 1)
    ensures now[i] == t[i] && now[i + d] == t[i + d] && now[i + 2 * d] == t[i + 2 * d] && now[i + 3 * d] == t[i + 3 * d]
  {
  }

  /** `out` is `was` with the rows of `t` xored in, for the first `k` pairs of rows. */
  ghost predicate PairsXored(out: seq<Row>, was: seq<Row>, t: seq<Row>, d: nat, k: nat)
    requires |out| == |was| == |t| == 2 * d
  {
    forall p :: 0 <= p < |out| ==> out[p] == if p < k || d <= p < d + k then Xor(was[p], t[p]) else was[p]
  }

  lemma NextPairXored(out: seq<Row>, was: seq<Row>, t: seq<Row>, d: nat, k: nat)
    requires |out| == |was| == |t| == 2 * d && k < d && PairsXored(out, was, t, d, k)
    ensures PairsXored(out[k + d := Xor(out[k + d], t[k + d])][k := Xor(out[k], t[k])], was, t, d, k + 1)
  {
    hide Xor;
  }

  /** The last layer, when the result is xored into other rows. */
  method LastLayerXor(mul: Mul, skew: Skew, work: array<Row>, out: array<Row>, d: nat)
    requires d > 0 && work.Length == out.Length == 2 * d && out != work && skew(d).Log?
    modifies work, out
    ensures work[..] == Block(Ifft(mul, skew), old(work[..]), d, d) && out[..] == XorRows(old(out[..]), work[..])
  {
    hide Block, IfftPair, Xor, PairsDone, PairsXored;
    ghost var f, w, x0 := Ifft(mul, skew), work[..], out[..];
    ghost var t := Block(f, w, d, d);
    NoPairs(w, t, x0, d);
    for i := 0 to d
      invariant PairsDone(work[..], w, t, d, i) && PairsXored(out[..], x0, t, d, i)
    {
      BlockAt(f, w, d, d, i);
      NextPair(work[..], w, t, d, i);
      NextPairXored(out[..], x0, t, d, i);
      IfftDit2(mul, work, i, i + d, skew(d));
      XorTo(out, work, i + d);
      XorTo(out, work, i);
    }
    AllPairs(work[..], w, t, x0, out[..], d);
  }

  lemma NoPairs(w: seq<Row>, t: seq<Row>, x0: seq<Row>, d: nat)
    requires |w| == |t| == |x0| == 2 * d
    ensures PairsDone(w, w, t, d, 0) && PairsXored(x0, x0, t, d, 0)
  {
    hide Xor;
  }

  lemma AllPairs(now: seq<Row>, w: seq<Row>, t: seq<Row>, x0: seq<Row>, out: seq<Row>, d: nat)
    requires |now| == |w| == |t| == |x0| == |out| == 2 * d && PairsDone(now, w, t, d, d) && PairsXored(out, x0, t, d, d)
    ensures now == t && out == XorRows(x0, t)
  {
    hide Xor;
  }

  /** The same for the skew zero: xor_mem_2to1 adds both rows of a pair to the first one of the
      result, and nothing is added to the second one. */
  method LastLayerXorZero(work: array<Row>, out: array<Row>, d: nat)
    requires work.Length == out.Length == 2 * d && out != work
    modifies out
    ensures forall p :: 0 <= p < d ==> out[p] == Xor(Xor(old(out[p]), work[p]), work[p + d])
    ensures out[d..] == old(out[d..])
  {
    hide Xor;
    for i := 0 to d
      invariant forall p :: 0 <= p < i ==> out[p] == Xor(Xor(old(out[p]), work[p]), work[p + d])
      invariant forall p :: i <= p < 2 * d ==> out[p] == old(out[p])
    {
      out[i] := Xor(Xor(out[i], work[i]), work[i + d]);
    }
  }

  // The whole transform

  lemma {:induction false} PowersOfFour(d: nat)
    requires PowerOfFour(d)
    ensures !PowerOfFour(2 * d)
    decreases d
  {
    if d >= 4 {
      PowersOfFour(d / 4);
      assert 2 * d / 4 == 2 * (d / 4);
    }
  }

  /** Without another destination the transform is left in `work`. */
  method IfftDitEncoder(mul: Mul, skew: Skew, data: seq<Row>, bytes: nat, work: array<Row>)
    requires PowerOfTwo(work.Length) && |data| <= work.Length && (|data| < work.Length ==> KeepsZero(mul))
    modifies work
    ensures work[..] == Ascend(Ifft(mul, skew), Padded(data, work.Length, bytes), 1)
  {
    hide Padded, Ascend, KeepsZero, Ifft, PowerOfTwo;
    Fill(data, bytes, work);
    PaddedZero(data, work.Length, bytes);
    assert work[|data|..] == Padded(data, work.Length, bytes)[|data|..];
    IfftDitDecoder(mul, skew, work, |data|);
  }

  /** With another destination the transform is xored into it, as far as Xored says. */
  method IfftDitEncoderXor(mul: Mul, skew: Skew, data: seq<Row>, bytes: nat, work: array<Row>, out: array<Row>)
    requires PowerOfTwo(work.Length) && 0 < |data| <= work.Length && (|data| < work.Length ==> KeepsZero(mul))
    requires out.Length == work.Length && out != work
    modifies work, out
    ensures out[..] == Xored(mul, skew, Padded(data, work.Length, bytes), old(out[..]))
  {
    hide Padded, TwoUp, Ifft, KeepsZero, AllZero, IsZero, Layer, Ascend, Block, XorRows, Xor, Xored, FirstHalfXored;
    Fill(data, bytes, work);
    var m := work.Length;
    ghost var f, w0, x0 := Ifft(mul, skew), work[..], out[..];
    PaddedZero(data, m, bytes);
    ghost var z := |data|;
    OneDivides(z);
    var dist, dist4 := 1, 4;
    while dist4 <= m
      invariant dist4 == 4 * dist && PowerOfFour(dist) && Doubled(m, dist)
      invariant Ascend(f, work[..], dist) == Ascend(f, w0, 1)
      invariant out[..] == if dist == m && m > 1 then XorRows(x0, work[..]) else x0
      invariant |data| <= z <= m && Multiple(z, dist) && z < |data| + dist
      invariant dist < m && z < m ==> KeepsZero(mul) && AllZero(work[z..])
      decreases m - dist
    {
      DoubledStep(m, dist);
      PowerOfFourStep(dist);
      AscendTwo(f, work[..], dist);
      if dist4 == m {
        IfftBlockXor(mul, skew, work, out, dist);
        z := m;
        MultipleSelf(m);
      } else {
        z := IfftPass(mul, skew, work, |data|, dist, z);
      }
      dist := dist4;
      dist4 := 4 * dist4;
    }
    DoubledStep(m, dist);
    AscendEnd(f, work[..], dist);
    XoredCases(mul, skew, w0, x0, dist);
    if dist < m {
      PowerOfFourStep(dist);
      ghost var v := work[..];
      if skew(dist).ZeroSkew? {
        LastLayerXorZero(work, out, dist);
        FirstHalfIs(mul, skew, v, x0, out[..], dist);
      } else {
        LastLayerXor(mul, skew, work, out, dist);
      }
    }
  }

  lemma XoredCases(mul: Mul, skew: Skew, w: seq<Row>, o: seq<Row>, d: nat)
    requires |o| == |w| && PowerOfFour(d) && (|w| == d || |w| == 2 * d)
    ensures var t := Ascend(Ifft(mul, skew), w, 1);
            Xored(mul, skew, w, o) ==
              if |w| == d then (if d > 1 then XorRows(o, t) else o)
              else if skew(d).Log? then XorRows(o, t) else FirstHalfXored(o, t)
  {
    hide XorRows, FirstHalfXored, Ascend, Ifft;
    PowersOfFour(d);
  }

  /** What LastLayerXorZero does, in terms of the rows behind the last layer. */
  lemma FirstHalfIs(mul: Mul, skew: Skew, v: seq<Row>, was: seq<Row>, now: seq<Row>, d: nat)
    requires d > 0 && |v| == |was| == |now| == 2 * d && skew(d) == ZeroSkew && now[d..] == was[d..]
    requires forall p :: 0 <= p < d ==> now[p] == Xor(Xor(was[p], v[p]), v[p + d])
    ensures now == FirstHalfXored(was, Block(Ifft(mul, skew), v, d, d))
  {
    hide Xor, Block;
    var t := Block(Ifft(mul, skew), v, d, d);
    forall p | 0 <= p < 2 * d ensures now[p] == FirstHalfXored(was, t)[p] {
      if p < d {
        BlockAt(Ifft(mul, skew), v, d, d, p);
        XorCancel(v[p + d], v[p]);
      } else {
        assert now[p] == now[d..][p - d] == was[d..][p - d];
      }
    }
  }

  /** For rows of one size the transform of the data is xored into the rows `o` if and only if CanXor
      holds or all data are zero: a single row and a last layer with the skew zero are treated wrong. */
  lemma XorIsRight(mul: Mul, skew: Skew, data: seq<Row>, m: nat, bytes: nat, o: seq<Row>)
    requires PowerOfTwo(m) && |data| <= m == |o| && KeepsZero(mul) && SameSize(data, bytes) && SameSize(o, bytes)
    ensures var w := Padded(data, m, bytes);
            Xored(mul, skew, w, o) == XorRows(o, Ascend(Ifft(mul, skew), w, 1)) <==> CanXor(skew, m) || AllZero(data)
  {
    hide ZeroRow, KeepsZero, PowerOfTwo, CanXor, Xored, XorRows, IsZero, Ascend;
    var w := Padded(data, m, bytes);
    PaddedZero(data, m, bytes);
    PaddedSize(data, m, bytes);
    XorIsExact(mul, skew, w, o, bytes);
    JoinZero(data, w[|data|..]);
    assert w == data + w[|data|..];
  }

  lemma PaddedSize(data: seq<Row>, m: nat, bytes: nat)
    requires |data| <= m && SameSize(data, bytes)
    ensures SameSize(Padded(data, m, bytes), bytes)
  {
  }

  lemma JoinZero(a: seq<Row>, b: seq<Row>)
    requires AllZero(b)
    ensures AllZero(a + b) <==> AllZero(a)
  {
    hide IsZero;
    if AllZero(a + b) {
      forall p | 0 <= p < |a| ensures IsZero(a[p]) { assert (a + b)[p] == a[p]; }
    }
  }

  /** With two rows and the skew zero between them, and with a single row, data other than zero are
      lost. */
  lemma XorIsLost(mul: Mul, skew: Skew)
    requires skew(1) == ZeroSkew && KeepsZero(mul)
    ensures Xored(mul, skew, [[1], [0]], [[0], [0]]) != XorRows([[0], [0]], Ascend(Ifft(mul, skew), [[1], [0]], 1))
    ensures Xored(mul, skew, [[1]], [[0]]) != XorRows([[0]], Ascend(Ifft(mul, skew), [[1]], 1))
  {
    hide Xored, XorRows, Ascend, KeepsZero;
    var one: Row := [1];
    assert one[0] != 0 && !IsZero(one);
    assert PowerOfTwo(2) && PowerOfTwo(1) && !PowerOfFour(2);
    XorIsExact(mul, skew, [[1], [0]], [[0], [0]], 1);
    XorIsExact(mul, skew, [[1]], [[0]], 1);
    var two: seq<Row> := [[1], [0]];
    assert two[0] == one && !AllZero(two);
    assert [one][0] == one && !AllZero([one]);
  }

  // Encoding

  function Chunk(data: seq<Row>, m: nat, k: nat): (c: seq<Row>)
    requires m * k <= |data|
    ensures |c| <= m
  {
    data[m * k..if m * k + m <= |data| then m * k + m else |data|]
  }

  /** The chunks 0 to k, joined. */
  function Chunks(data: seq<Row>, m: nat, k: nat): seq<Row>
    requires m * k <= |data|
    decreases k
  {
    if k == 0 then Chunk(data, m, 0)
    else
      assert m * (k - 1) <= m * k;
      Chunks(data, m, k - 1) + Chunk(data, m, k)
  }

  /** Every row of the data is in its place in one chunk. */
  lemma {:induction false} ChunksAreData(data: seq<Row>, m: nat, k: nat)
    requires m * k <= |data|
    ensures Chunks(data, m, k) == data[..if m * k + m <= |data| then m * k + m else |data|]
    ensures forall j :: 0 <= j < m && m * k + j < |data| ==>
        j < |Chunk(data, m, k)| && Chunk(data, m, k)[j] == data[m * k + j]
    decreases k
  {
    if k > 0 {
      NextMultiple(m, k - 1);
      ChunksAreData(data, m, k - 1);
    }
  }

  /** The inverse transforms of the chunks 0 to k, xored together. */
  function ChunkSum(mul: Mul, table: Skew, m: nat, bytes: nat, data: seq<Row>, k: nat): (r: seq<Row>)
    requires m * k <= |data|
    ensures |r| == m
    decreases k
  {
    var v := Ascend(Ifft(mul, ChunkSkew(table, m, k)), Padded(Chunk(data, m, k), m, bytes), 1);
    if k == 0 then v
    else
      assert m * (k - 1) <= m * k;
      XorRows(ChunkSum(mul, table, m, bytes, data, k - 1), v)
  }

  lemma SumStart(mul: Mul, table: Skew, m: nat, bytes: nat, data: seq<Row>)
    ensures m * 0 == 0 && ChunkSkew(table, m, 0) == ChunkSkewAt(table, m, 0)
    ensures Chunk(data, m, 0) == data[..if m <= |data| then m else |data|]
    ensures ChunkSum(mul, table, m, bytes, data, 0)
         == Ascend(Ifft(mul, ChunkSkew(table, m, 0)), Padded(Chunk(data, m, 0), m, bytes), 1)
  {
  }

  lemma SumStep(mul: Mul, table: Skew, m: nat, bytes: nat, data: seq<Row>, k: nat)
    requires m * (k + 1) <= |data|
    ensures m * (k + 1) == m * k + m && ChunkSkew(table, m, k + 1) == ChunkSkewAt(table, m, m * (k + 1))
    ensures ChunkSum(mul, table, m, bytes, data, k + 1)
         == XorRows(ChunkSum(mul, table, m, bytes, data, k),
             Ascend(Ifft(mul, ChunkSkew(table, m, k + 1)), Padded(Chunk(data, m, k + 1), m, bytes), 1))
  {
  }

  /** One more chunk is xored into the sum. */
  method AddChunk(mul: Mul, table: Skew, m: nat, bytes: nat, data: seq<Row>, work: array<Row>, temp: array<Row>,
      ghost k: nat, i: nat)
    requires PowerOfTwo(m) && m > 1 && work.Length == temp.Length == m && work != temp && KeepsZero(mul)
    requires m * (k + 1) == i < |data| && m * k <= |data| && ZeroAtPowers(table)
    requires work[..] == ChunkSum(mul, table, m, bytes, data, k)
    modifies work, temp
    ensures work[..] == ChunkSum(mul, table, m, bytes, data, k + 1)
  {
    hide ChunkSum, XorRows, Ascend, Padded, KeepsZero, PowerOfTwo, CanXor, Ifft, ChunkSkew, ZeroAtPowers;
    ChunksCanXor(table, m, k + 1);
    SumStep(mul, table, m, bytes, data, k);
    var chunk := data[i..if i + m <= |data| then i + m else |data|];
    IfftDitEncoderXor(mul, ChunkSkewAt(table, m, i), chunk, bytes, temp, work);
  }

  /** ReedSolomonEncode, for more than one recovery row: the recovery rows are the forward transform
      of the sum of the inverse transforms of the chunks, which joined are the data. */
  method ReedSolomonEncode(mul: Mul, table: Skew, data: seq<Row>, recoveryCount: nat, m: nat, bytes: nat,
                           work: array<Row>, temp: array<Row>) returns (ghost last: nat)
    requires PowerOfTwo(m) && m > 1 && work.Length == temp.Length == m && work != temp && KeepsZero(mul)
    requires data != [] && recoveryCount <= m
    requires ZeroAtPowers(table)
    modifies work, temp
    ensures m * last < |data| <= m * last + m && Chunks(data, m, last) == data
    ensures work[..recoveryCount]
         == Descend(Fft(mul, table), ChunkSum(mul, table, m, bytes, data, last), m / 2)[..recoveryCount]
  {
    hide ChunkSum, Chunks, Descend, Fft, ZeroAtPowers, Ascend, Padded, KeepsZero, PowerOfTwo, Ifft, ChunkSkew;
    var count := |data|;
    SumStart(mul, table, m, bytes, data);
    IfftDitEncoder(mul, ChunkSkewAt(table, m, 0), data[..if count < m then count else m], bytes, work);
    last := 0;
    if m < count {
      var i := m;
      ghost var k, c := 1, 0;
      while i + m <= count
        invariant i == m * k <= count && k == c + 1 && last == c && m * c == i - m
        invariant work[..] == ChunkSum(mul, table, m, bytes, data, c)
        decreases count - i
      {
        AddChunk(mul, table, m, bytes, data, work, temp, c, i);
        NextMultiple(m, k);
        i := i + m;
        c := c + 1;
        k := k + 1;
        last := c;
      }
      ModIs(count, k, count - i, m);
      if count % m != 0 {
        AddChunk(mul, table, m, bytes, data, work, temp, c, i);
        last := k;
      }
    }
    ChunksAreData(data, m, last);
    FftDit(mul, table, work, recoveryCount);
  }

  lemma NextMultiple(m: nat, k: nat)
    ensures m * (k + 1) == m * k + m
  {
  }
}
