/** The recovery rows and the data rows together: in every column they are the values of a polynomial
    whose degree is below the number of data rows, rounded up to whole chunks. */
module LeopardCodeword {
  import opened Butterfly
  import opened ButterflyTrees
  import opened CantorField
  import opened CodewordDegree
  import opened EncoderXor
  import opened LeopardColumns
  import opened LeopardEncoder
  import opened LeopardRows
  import opened NovelBasis
  import opened XorIndex
  import Scalars = FieldTransforms

  lemma {:induction false} MultipleTimes(m: nat, k: nat)
    requires m > 0
    ensures Multiple(m * k, m)
  {
    if k > 0 {
      MultipleTimes(m, k - 1);
      assert m * k - m == m * (k - 1);
    }
  }

  /** Chunk `k` of the encoder, with its zeros, is block `k` of the data with theirs. */
  lemma ChunkIsBlock(data: seq<Row>, m: nat, k: nat, n: nat, bytes: nat)
    requires m > 0 && m * k < |data| <= n && Multiple(n, m)
    ensures m * k + m <= n && Padded(Chunk(data, m, k), m, bytes) == Padded(data, n, bytes)[m * k..m * k + m]
  {
    hide ZeroRow;
    MultipleTimes(m, k);
    MultipleGap(m * k, n, m);
  }

  lemma NextTotals(f: Field<bv8>, sk: nat -> bv8, r: seq<bv8>, m: nat, b: seq<bv8>, j: nat)
    requires f.Laws() && PowerOfTwo(m) && Multiple(|r|, m) && |b| == m && j < m
    ensures Multiple(|r + b|, m)
    ensures Total(f, sk, r + b, m, m, j) == f.plus(Total(f, sk, r, m, m, j), TreeUp(Scalars.Ifft(f, sk), b, m + |r|)[j])
  {
    hide Field.Laws, PowerOfTwo, TreeUp, Scalars.Ifft, Total;
    OneBlock(f, sk, b, m + |r|, j);
    TotalSplit(f, sk, r, b, m, m, j);
  }

  lemma RelatedPart(bytes: nat, i: nat, w: seq<Row>, c: seq<bv8>, p: nat, q: nat)
    requires Related(IsByte(bytes, i), w, c) && p <= q <= |w|
    ensures |c| == |w| && Related(IsByte(bytes, i), w[p..q], c[p..q])
  {
    hide IsByte;
  }

  /** Column `i` of the encoder's sum. */
  lemma {:induction false} SumOfColumn(mul: Mul, f: Field<bv8>, exp: nat -> bv8, table: Skew, bytes: nat, i: nat,
      data: seq<Row>, r: seq<bv8>, m: nat, k: nat)
    requires f.Laws() && Bytewise(mul, f, exp) && PowerOfTwo(m) && Multiple(|r|, m) && m * k < |data| <= |r|
    requires Related(IsByte(bytes, i), Padded(data, |r|, bytes), r)
    ensures m * k + m <= |r| && Multiple(m * k + m, m)
    ensures Related(IsByte(bytes, i), ChunkSum(mul, table, m, bytes, data, k),
                    Totals(f, Skews(table, exp), r[..m * k + m], m))
    decreases k
  {
    hide Field.Laws, Bytewise, PowerOfTwo, IsByte, Padded, ChunkSum, Ascend, Ifft, TreeUp, Scalars.Ifft, Multiple,
        Total, Skews, Chunk, Xor, ChunkSkew;
    PositivePower(m);
    ChunkIsBlock(data, m, k, |r|, bytes);
    MultipleTimes(m, k);
    MultipleTimes(m, k + 1);
    assert m * (k + 1) == m * k + m;
    var block, b := Padded(Chunk(data, m, k), m, bytes), r[m * k..m * k + m];
    RelatedPart(bytes, i, Padded(data, |r|, bytes), r, m * k, m * k + m);
    ChunkOfColumn(mul, f, exp, table, bytes, i, block, b, m, k);
    var sk := Skews(table, exp);
    var v := Ascend(Ifft(mul, ChunkSkew(table, m, k)), block, 1);
    var u := TreeUp(Scalars.Ifft(f, sk), b, m + m * k);
    assert r[..m * k] + b == r[..m * k + m];
    var sum, totals := ChunkSum(mul, table, m, bytes, data, k), Totals(f, sk, r[..m * k + m], m);
    forall j | 0 <= j < m ensures IsByte(bytes, i)(sum[j], totals[j]) {
      NextTotals(f, sk, r[..m * k], m, b, j);
      if k == 0 {
        SumStart(mul, table, m, bytes, data);
        FirstTotal(f, sk, m, u[j], j);
      } else {
        assert m * (k - 1) + m == m * k;
        SumOfColumn(mul, f, exp, table, bytes, i, data, r, m, k - 1);
        SumStep(mul, table, m, bytes, data, k - 1);
        XorOfBytes(mul, f, exp, bytes, i, ChunkSum(mul, table, m, bytes, data, k - 1)[j], v[j],
                   Totals(f, sk, r[..m * k], m)[j], u[j]);
      }
    }
  }

  lemma PositivePower(m: nat)
    requires PowerOfTwo(m)
    ensures m > 0
  {
  }

  lemma FirstTotal(f: Field<bv8>, sk: nat -> bv8, m: nat, u: bv8, j: nat)
    requires f.Laws() && PowerOfTwo(m) && j < m
    ensures f.plus(Total(f, sk, [], m, m, j), u) == u
  {
    hide Field.Laws;
    PlusComm(f, f.zero, u);
    PlusNothing(f, u);
  }

  // The whole codeword

  /** The recovery rows, the data rows and the rows of zeros behind them. */
  function Codeword(mul: Mul, table: Skew, data: seq<Row>, m: nat, last: nat, bytes: nat, n: nat): (w: seq<Row>)
    requires m * last <= |data| && m + |data| <= n
    ensures |w| == n
  {
    Descend(Fft(mul, table), ChunkSum(mul, table, m, bytes, data, last), m / 2) + Padded(data, n - m, bytes)
  }

  lemma {:induction false} SmallerPower(n: nat, m: nat)
    requires PowerOfTwo(n) && PowerOfTwo(m) && m <= n
    ensures Doubled(n, m) && Multiple(n - m, m)
    decreases m
  {
    if m == 1 {
      DoubledIsMultiple(n, 1);
    } else {
      PowerHalf(m);
      SmallerPower(n, m / 2);
      NextDoubled(n, m / 2);
      DoubledIsMultiple(n, m);
    }
  }

  lemma NextDoubled(n: nat, d: nat)
    requires d > 0 && Doubled(n, d) && 2 * d <= n
    ensures Doubled(n, 2 * d)
  {
  }

  /** Blocks of zeros add nothing to the totals. */
  lemma TotalsOfPadded(f: Field<bv8>, sk: nat -> bv8, r: seq<bv8>, q: nat, m: nat)
    requires f.Laws() && PowerOfTwo(m) && q <= |r| && Multiple(q, m) && Multiple(|r|, m) && ZeroFrom(f, r, q)
    ensures Totals(f, sk, r, m) == Totals(f, sk, r[..q], m)
  {
    hide Field.Laws, PowerOfTwo, Total, Multiple;
    PositivePower(m);
    MultipleMinus(|r|, q, m);
    assert r == r[..q] + r[q..];
    forall j | 0 <= j < m ensures Total(f, sk, r, m, m, j) == Total(f, sk, r[..q], m, m, j) {
      TotalSplit(f, sk, r[..q], r[q..], m, m, j);
      ZeroTotal(f, sk, r[q..], m + q, m, j);
      PlusNothing(f, Total(f, sk, r[..q], m, m, j));
    }
  }

  lemma {:induction false} MultipleMinus(a: nat, b: nat, d: nat)
    requires d > 0 && Multiple(a, d) && Multiple(b, d) && b <= a
    ensures Multiple(a - b, d)
    decreases b
  {
    if b > 0 {
      MultipleGap(0, a, d);
      MultipleMinus(a - d, b - d, d);
    }
  }

  lemma PaddedColumn(mul: Mul, f: Field<bv8>, exp: nat -> bv8, data: seq<Row>, n: nat, bytes: nat, i: nat)
    returns (r: seq<bv8>)
    requires Bytewise(mul, f, exp) && |data| <= n && SameSize(data, bytes) && i < bytes
    ensures |r| == n && Related(IsByte(bytes, i), Padded(data, n, bytes), r) && ZeroFrom(f, r, |data|)
  {
    var w := Padded(data, n, bytes);
    assert forall p :: |data| <= p < n ==> w[p] == ZeroRow(bytes);
    r := Column(w, bytes, i);
    assert f.zero == 0;
  }

  /** Every column of a codeword is a polynomial of degree below n - m. */
  lemma DegreeOfColumn(mul: Mul, f: Field<bv8>, exp: nat -> bv8, table: Skew, data: seq<Row>, m: nat, last: nat,
      bytes: nat, n: nat, i: nat) returns (c: seq<bv8>)
    requires f.Laws() && Bytewise(mul, f, exp) && PowerOfTwo(m) && PowerOfTwo(n) && m + |data| <= n
    requires m * last < |data| <= m * last + m && SameSize(data, bytes) && i < bytes
    ensures |c| == n && Related(IsByte(bytes, i), Codeword(mul, table, data, m, last, bytes, n), c)
    ensures ZeroFrom(f, TreeUp(Scalars.Ifft(f, Skews(table, exp)), c, 0), |c| - m)
  {
    hide Field.Laws, Bytewise, PowerOfTwo, IsByte, Padded, ChunkSum, Ascend, Descend, TreeUp, TreeDown,
        Scalars.Ifft, Scalars.Fft, Multiple, Doubled, Total, Skews, Fft, SameSize;
    SmallerPower(n, m);
    var r := PaddedColumn(mul, f, exp, data, n - m, bytes, i);
    SumOfColumn(mul, f, exp, table, bytes, i, data, r, m, last);
    var sk, sum := Skews(table, exp), ChunkSum(mul, table, m, bytes, data, last);
    TotalsOfPadded(f, sk, r, m * last + m, m);
    var s := Totals(f, sk, r, m);
    TransformsOfColumn(mul, f, exp, table, bytes, i, sum, s);
    DegreeOfCodeword(f, sk, r, m);
    c := Joined(f, sk, r, m);
  }
}
