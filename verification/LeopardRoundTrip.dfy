/** Decoding gives back what encoding was given: every lost data row, for any losses that leave at least
    as many recovery rows as data rows are lost. */
module LeopardRoundTrip {
  import opened Butterfly
  import opened ButterflyTrees
  import opened CantorField
  import opened EncoderXor
  import opened ErasurePolynomials
  import opened ErrorLocator
  import opened LeopardCodeword
  import opened LeopardColumns
  import opened LeopardDecoder
  import opened LeopardDerivative
  import opened LeopardEncoder
  import opened LeopardRows
  import opened LocatorElements
  import Mod = ModularPairs
  import opened NovelBasis
  import opened Powers
  import Scalars = FieldTransforms
  import WalshHadamard

  /** The tables of FF8 belong to one field: multiplication, exponents, logarithms and skews. */
  ghost predicate TablesOf(f: Field<bv8>, mul: Mul, exp: nat -> bv8, log: seq<int>, table: Skew) {
    && f.Laws() && f.order == 256 && Bytewise(mul, f, exp)
    && Exponential(f, exp, 255) && Logarithm(f, exp, log) && Scalars.SkewIs(f, Skews(table, exp))
  }

  // How many rows are lost

  function Lost(slots: seq<Slot>, k: nat): nat
    requires k <= |slots|
  {
    if k == 0 then 0 else Lost(slots, k - 1) + if slots[k - 1].Missing? then 1 else 0
  }

  lemma {:induction false} CountOfMarks(original: seq<Slot>, recovery: seq<Slot>, m: nat, k: nat)
    requires |recovery| <= m && m + |original| <= 256 && k <= 256
    ensures Count(Marks(original, recovery, m, 256), k)
         == if k <= |recovery| then Lost(recovery, k)
            else if k <= m then Lost(recovery, |recovery|) + (k - |recovery|)
            else if k <= m + |original| then Lost(recovery, |recovery|) + (m - |recovery|) + Lost(original, k - m)
            else Lost(recovery, |recovery|) + (m - |recovery|) + Lost(original, |original|)
  {
    if k > 0 { CountOfMarks(original, recovery, m, k - 1); }
  }

  // One column

  /** What is there of some rows. */
  ghost predicate Arrived(slots: seq<Slot>, rows: seq<Row>) {
    |slots| <= |rows| && forall i :: 0 <= i < |slots| && slots[i].Present? ==> slots[i].row == rows[i]
  }

  ghost predicate PaddedFrom(w: seq<Row>, k: nat, bytes: nat) { forall p :: k <= p < |w| ==> w[p] == ZeroRow(bytes) }

  lemma MarkIs(original: seq<Slot>, recovery: seq<Slot>, m: nat, p: nat)
    requires |recovery| <= m && p < 256
    ensures Marks(original, recovery, m, 256)[p] == MarkAt(original, recovery, m, p)
  {
  }

  lemma ZeroRowIs(bytes: nat, i: nat)
    requires i < bytes
    ensures IsByte(bytes, i)(ZeroRow(bytes), 0)
  {
  }

  /** The decoder's weights, in a column. */
  lemma WeightedByte(f: Field<bv8>, mul: Mul, exp: nat -> bv8, bytes: nat, i: nat,
      original: seq<Slot>, recovery: seq<Slot>, m: nat, locator: seq<nat>, w: seq<Row>, c: seq<bv8>, p: nat)
    requires f.Laws() && Bytewise(mul, f, exp) && |recovery| <= m && m + |original| <= |w| <= 256 == |locator|
    requires Related(IsByte(bytes, i), w, c) && Arrived(recovery, w) && Arrived(original, w[m..])
    requires PaddedFrom(w, m + |original|, bytes) && p < |w| && i < bytes
    requires exp(locator[p]) == Locator(f, Marks(original, recovery, m, 256), p, 256)
    ensures IsByte(bytes, i)(Weighted(mul, original, recovery, m, locator, bytes, p),
                             Scalars.Weighted(f, c, Marks(original, recovery, m, 256))[p])
  {
    hide Field.Laws, Bytewise, ZeroRow, Locator;
    assert IsByte(bytes, i)(w[p], c[p]);
    ByteOfProduct(mul, f, exp, locator[p], w[p], i);
    PlusIsXor(mul, f, exp, 0, 0);
    ZeroRowIs(bytes, i);
    TimesNothing(f, exp(locator[p]));
    if m <= p < m + |original| { assert w[m..][p - m] == w[p]; }
  }

  lemma WeightedColumn(f: Field<bv8>, mul: Mul, exp: nat -> bv8, log: seq<int>, table: Skew, bytes: nat, i: nat,
      original: seq<Slot>, recovery: seq<Slot>, m: nat, locator: seq<nat>, w: seq<Row>, c: seq<bv8>)
    requires TablesOf(f, mul, exp, log, table) && |recovery| <= m && m + |original| <= |w| <= 256 && i < bytes
    requires Related(IsByte(bytes, i), w, c) && Arrived(recovery, w) && Arrived(original, w[m..])
    requires PaddedFrom(w, m + |original|, bytes)
    requires |locator| == 256 && Locates(Mod.FF8, locator, Marks(original, recovery, m, 256), log)
    ensures Related(IsByte(bytes, i), WeightedRows(mul, original, recovery, m, locator, bytes, |w|),
                    Scalars.Weighted(f, c, Marks(original, recovery, m, 256)))
  {
    hide CantorField.Field.Laws, Bytewise, PaddedFrom, Locator, Weighted, Scalars.Weighted, Locates, Exponential,
        Logarithm,         Scalars.SkewIs, Arrived, IsByte, Related, Marks;
    SameLengths(bytes, i, w, c);
    var marks := Marks(original, recovery, m, 256);
    var v, u := WeightedRows(mul, original, recovery, m, locator, bytes, |w|), Scalars.Weighted(f, c, marks);
    forall p | 0 <= p < |w| ensures IsByte(bytes, i)(v[p], u[p]) {
      LocatorIs(f, exp, Mod.FF8, locator, marks, log, p);
      WeightedByte(f, mul, exp, bytes, i, original, recovery, m, locator, w, c, p);
    }
    RelatedIf(bytes, i, v, u);
  }

  lemma RelatedIf(bytes: nat, i: nat, v: seq<Row>, u: seq<bv8>)
    requires |v| == |u| && forall p :: 0 <= p < |v| ==> IsByte(bytes, i)(v[p], u[p])
    ensures Related(IsByte(bytes, i), v, u)
  {
  }

  lemma RelatedAt(bytes: nat, i: nat, v: seq<Row>, u: seq<bv8>, p: nat)
    requires Related(IsByte(bytes, i), v, u) && p < |v|
    ensures |u| == |v| && IsByte(bytes, i)(v[p], u[p])
  {
  }

  lemma TransformedColumn(f: Field<bv8>, mul: Mul, exp: nat -> bv8, table: Skew, bytes: nat, i: nat, v: seq<Row>,
      u: seq<bv8>)
    requires f.Laws() && Bytewise(mul, f, exp) && PowerOfTwo(|v|) && Related(IsByte(bytes, i), v, u)
    ensures var g := TreeUp(Scalars.Ifft(f, Skews(table, exp)), u, 0);
            Related(IsByte(bytes, i), Transformed(mul, table, v),
                    TreeDown(Scalars.Fft(f, Skews(table, exp)), Sum(f, g, Deriv(f, g)), 0))
  {
    hide CantorField.Field.Laws, Bytewise, PowerOfTwo, Related, IsByte, TreeUp, TreeDown, Ascend, Descend, Deriv, Skews,
        Ifft, Fft, Scalars.Ifft, Scalars.Fft, WithClearBits;
    SameLengths(bytes, i, v, u);
    TransformsOfColumn(mul, f, exp, table, bytes, i, v, u);
    var a, g := Ascend(Ifft(mul, table), v, 1), TreeUp(Scalars.Ifft(f, Skews(table, exp)), u, 0);
    var d, e := Derivative(a), Sum(f, g, Deriv(f, g));
    forall p | 0 <= p < |d| ensures IsByte(bytes, i)(d[p], e[p]) {
      DerivativeOfColumn(mul, f, exp, bytes, i, a, g, p);
    }
    RelatedIf(bytes, i, d, e);
    TransformsOfColumn(mul, f, exp, table, bytes, i, d, e);
  }

  lemma SameLengths(bytes: nat, i: nat, v: seq<Row>, u: seq<bv8>)
    requires Related(IsByte(bytes, i), v, u)
    ensures |v| == |u|
  {
  }

  /** One byte of a lost row, still weighted, in any column that belongs to a polynomial of low degree. */
  lemma WeightedComesBack(f: Field<bv8>, mul: Mul, exp: nat -> bv8, log: seq<int>, table: Skew, bytes: nat, i: nat,
      original: seq<Slot>, recovery: seq<Slot>, m: nat, locator: seq<nat>, w: seq<Row>, c: seq<bv8>, p: nat)
    requires TablesOf(f, mul, exp, log, table) && i < bytes
    requires |recovery| <= m && m + |original| <= |w| <= 256 && PowerOfTwo(|w|)
    requires Related(IsByte(bytes, i), w, c) && Arrived(recovery, w) && Arrived(original, w[m..])
    requires PaddedFrom(w, m + |original|, bytes)
    requires |c| == |w| && ZeroFrom(f, TreeUp(Scalars.Ifft(f, Skews(table, exp)), c, 0), |c| - m)
    requires |locator| == 256 && Locates(Mod.FF8, locator, Marks(original, recovery, m, 256), log)
    requires Lost(original, |original|) + Lost(recovery, |recovery|) <= |recovery|
    requires m <= p < m + |original| && original[p - m].Missing?
    ensures var t := Transformed(mul, table, WeightedRows(mul, original, recovery, m, locator, bytes, |w|));
            IsByte(bytes, i)(t[p], f.times(Locator(f, Marks(original, recovery, m, 256), p, 256), c[p]))
  {
    hide CantorField.Field.Laws, Bytewise, PowerOfTwo, Related, IsByte, TreeUp, TreeDown, Deriv, Skews, Scalars.Ifft,
        Scalars.Fft, PaddedFrom, Locator, Scalars.Weighted, Locates, Exponential, Logarithm, Scalars.SkewIs, Arrived,
        WeightedRows, Transformed, Sum, ZeroFrom, Lost, Marks, Count;
    var marks := Marks(original, recovery, m, 256);
    var v, u := WeightedRows(mul, original, recovery, m, locator, bytes, |w|), Scalars.Weighted(f, c, marks);
    WeightedColumn(f, mul, exp, log, table, bytes, i, original, recovery, m, locator, w, c);
    TransformedColumn(f, mul, exp, table, bytes, i, v, u);
    FewMarks(original, recovery, m);
    MarkIs(original, recovery, m, p);
    Scalars.ErasedComeBack(f, Skews(table, exp), c, marks, |w| - m, p);
    var g := TreeUp(Scalars.Ifft(f, Skews(table, exp)), u, 0);
    RelatedAt(bytes, i, Transformed(mul, table, v),
              TreeDown(Scalars.Fft(f, Skews(table, exp)), Sum(f, g, Deriv(f, g)), 0), p);
  }

  lemma FewMarks(original: seq<Slot>, recovery: seq<Slot>, m: nat)
    requires |recovery| <= m && m + |original| <= 256
    ensures Count(Marks(original, recovery, m, 256), 256) <= m
       <==> Lost(original, |original|) + Lost(recovery, |recovery|) <= |recovery|
  {
    CountOfMarks(original, recovery, m, 256);
    hide Count, Marks;
    assert |original| == 0 ==> Lost(original, |original|) == 0;
  }

  /** A weight and its inverse. */
  lemma Freed(f: Field<bv8>, mul: Mul, exp: nat -> bv8, bytes: nat, i: nat, e: nat, d: nat, t: Row, l: bv8,
      x: bv8)
    requires f.Laws() && Bytewise(mul, f, exp) && IsByte(bytes, i)(t, f.times(l, x))
    requires exp(d) == l && f.times(exp(e), exp(d)) == f.one
    ensures IsByte(bytes, i)(mul(e, t), x)
  {
    hide CantorField.Field.Laws, Bytewise;
    ByteOfProduct(mul, f, exp, e, t, i);
    TimesAssoc(f, exp(e), l, x);
    TimesNothing(f, x);
  }

  lemma WeightIs(f: Field<bv8>, mul: Mul, exp: nat -> bv8, log: seq<int>, table: Skew, locator: seq<nat>,
      marks: seq<nat>, p: nat)
    requires TablesOf(f, mul, exp, log, table) && Locates(Mod.FF8, locator, marks, log)
    requires |locator| == |marks| == 256 && p < 256
    ensures f.Laws() && Bytewise(mul, f, exp)
    ensures locator[p] <= 255 && exp(locator[p]) == Locator(f, marks, p, 256)
    ensures f.times(exp(255 - locator[p]), exp(locator[p])) == f.one
  {
    hide CantorField.Field.Laws, Bytewise, Locator, Locates, Exponential, Logarithm, Scalars.SkewIs;
    LocatorIs(f, exp, Mod.FF8, locator, marks, log, p);
  }

  /** What the decoder puts in the place of row `p`. */
  function Recovered(mul: Mul, table: Skew, original: seq<Slot>, recovery: seq<Slot>, m: nat, locator: seq<nat>,
      bytes: nat, n: nat, p: nat): Row
    requires p < n <= |locator| && PowerOfTwo(n) && locator[p] <= 255
  {
    mul(255 - locator[p], Transformed(mul, table, WeightedRows(mul, original, recovery, m, locator, bytes, n))[p])
  }

  /** One byte of a lost row. */
  lemma ColumnComesBack(f: Field<bv8>, mul: Mul, exp: nat -> bv8, log: seq<int>, table: Skew, bytes: nat, i: nat,
      original: seq<Slot>, recovery: seq<Slot>, m: nat, locator: seq<nat>, w: seq<Row>, c: seq<bv8>, p: nat)
    requires TablesOf(f, mul, exp, log, table) && i < bytes
    requires |recovery| <= m && m + |original| <= |w| <= 256 && PowerOfTwo(|w|)
    requires Related(IsByte(bytes, i), w, c) && Arrived(recovery, w) && Arrived(original, w[m..])
    requires PaddedFrom(w, m + |original|, bytes)
    requires |c| == |w| && ZeroFrom(f, TreeUp(Scalars.Ifft(f, Skews(table, exp)), c, 0), |c| - m)
    requires |locator| == 256 && Locates(Mod.FF8, locator, Marks(original, recovery, m, 256), log)
    requires Lost(original, |original|) + Lost(recovery, |recovery|) <= |recovery|
    requires m <= p < m + |original| && original[p - m].Missing?
    ensures locator[p] <= 255
    ensures IsByte(bytes, i)(Recovered(mul, table, original, recovery, m, locator, bytes, |w|, p), c[p])
  {
    hide TablesOf, CantorField.Field.Laws, Bytewise, PowerOfTwo, Related, IsByte, TreeUp, Skews, Scalars.Ifft,
        PaddedFrom, Locator, Locates, Arrived, WeightedRows, Transformed, ZeroFrom, Lost, Marks;
    var marks := Marks(original, recovery, m, 256);
    WeightedComesBack(f, mul, exp, log, table, bytes, i, original, recovery, m, locator, w, c, p);
    WeightIs(f, mul, exp, log, table, locator, marks, p);
    var t := Transformed(mul, table, WeightedRows(mul, original, recovery, m, locator, bytes, |w|));
    Freed(f, mul, exp, bytes, i, 255 - locator[p], locator[p], t[p], Locator(f, marks, p, 256), c[p]);
  }

  // All columns

  lemma ArrivedOfCodeword(mul: Mul, table: Skew, data: seq<Row>, m: nat, last: nat, bytes: nat, n: nat,
      original: seq<Slot>, recovery: seq<Slot>, p: nat)
    requires m * last <= |data| && m + |data| <= n && m <= p < m + |data| && |original| == |data| && |recovery| <= m
    requires Arrived(original, data)
    requires Arrived(recovery, Descend(Fft(mul, table), ChunkSum(mul, table, m, bytes, data, last), m / 2))
    ensures var w := Codeword(mul, table, data, m, last, bytes, n);
            Arrived(recovery, w) && Arrived(original, w[m..])
    ensures var w := Codeword(mul, table, data, m, last, bytes, n);
            PaddedFrom(w, m + |original|, bytes) && w[p] == data[p - m]
  {
    hide Descend, ChunkSum, ZeroRow, Fft;
    var w := Codeword(mul, table, data, m, last, bytes, n);
    var r := Padded(data, n - m, bytes);
    assert w[m..] == r;
    assert forall q :: m <= q < n ==> w[q] == r[q - m];
  }

  lemma TablesAre(f: Field<bv8>, mul: Mul, exp: nat -> bv8, log: seq<int>, table: Skew)
    requires TablesOf(f, mul, exp, log, table)
    ensures f.Laws() && Bytewise(mul, f, exp)
  {
  }

  predicate LastChunk(data: seq<Row>, m: nat, last: nat) { m * last < |data| <= m * last + m }

  /** A column of the codeword, and what is there of its rows. */
  lemma ColumnOfCodeword(f: Field<bv8>, mul: Mul, exp: nat -> bv8, log: seq<int>, table: Skew, data: seq<Row>, m: nat,
      last: nat, bytes: nat, n: nat, original: seq<Slot>, recovery: seq<Slot>, p: nat, i: nat)
    returns (w: seq<Row>, c: seq<bv8>)
    requires TablesOf(f, mul, exp, log, table) && PowerOfTwo(m) && PowerOfTwo(n) && m + |data| <= n
    requires LastChunk(data, m, last) && SameSize(data, bytes) && i < bytes && m <= p < m + |data|
    requires |original| == |data| && |recovery| <= m && Arrived(original, data)
    requires Arrived(recovery, Descend(Fft(mul, table), ChunkSum(mul, table, m, bytes, data, last), m / 2))
    ensures |w| == |c| == n && Related(IsByte(bytes, i), w, c) && w[p] == data[p - m]
    ensures Arrived(recovery, w) && Arrived(original, w[m..]) && PaddedFrom(w, m + |original|, bytes)
    ensures ZeroFrom(f, TreeUp(Scalars.Ifft(f, Skews(table, exp)), c, 0), |c| - m)
  {
    TablesAre(f, mul, exp, log, table);
    hide TablesOf, CantorField.Field.Laws, Bytewise, PowerOfTwo, Related, IsByte, TreeUp, Skews, Scalars.Ifft,
        PaddedFrom, Arrived, ZeroFrom, Descend, ChunkSum, Codeword;
    w := Codeword(mul, table, data, m, last, bytes, n);
    ArrivedOfCodeword(mul, table, data, m, last, bytes, n, original, recovery, p);
    c := DegreeOfColumn(mul, f, exp, table, data, m, last, bytes, n, i);
  }

  lemma ByteComesBack(f: Field<bv8>, mul: Mul, exp: nat -> bv8, log: seq<int>, table: Skew, data: seq<Row>, m: nat,
      last: nat, bytes: nat, n: nat, original: seq<Slot>, recovery: seq<Slot>, locator: seq<nat>, p: nat, i: nat)
    requires TablesOf(f, mul, exp, log, table) && PowerOfTwo(m) && PowerOfTwo(n) && m + |data| <= n <= 256
    requires LastChunk(data, m, last) && SameSize(data, bytes) && i < bytes
    requires |original| == |data| && |recovery| <= m && Arrived(original, data)
    requires Arrived(recovery, Descend(Fft(mul, table), ChunkSum(mul, table, m, bytes, data, last), m / 2))
    requires |locator| == 256 && Locates(Mod.FF8, locator, Marks(original, recovery, m, 256), log)
    requires Lost(original, |original|) + Lost(recovery, |recovery|) <= |recovery|
    requires m <= p < m + |data| && original[p - m].Missing?
    ensures locator[p] <= 255
    ensures IsByte(bytes, i)(Recovered(mul, table, original, recovery, m, locator, bytes, n, p), data[p - m][i])
  {
    hide *;
    var w, c := ColumnOfCodeword(f, mul, exp, log, table, data, m, last, bytes, n, original, recovery, p, i);
    ColumnComesBack(f, mul, exp, log, table, bytes, i, original, recovery, m, locator, w, c, p);
    RelatedAt(bytes, i, w, c, p);
    ByteIs(bytes, i, w[p], c[p]);
  }

  lemma ByteIs(bytes: nat, i: nat, x: Row, u: bv8)
    requires IsByte(bytes, i)(x, u)
    ensures |x| == bytes && i < bytes && x[i] == u
  {
  }

  /** Decoding gives a lost data row back. */
  lemma RowComesBack(f: Field<bv8>, mul: Mul, exp: nat -> bv8, log: seq<int>, table: Skew, data: seq<Row>, m: nat,
      last: nat, bytes: nat, n: nat, original: seq<Slot>, recovery: seq<Slot>, locator: seq<nat>, p: nat)
    requires TablesOf(f, mul, exp, log, table) && PowerOfTwo(m) && PowerOfTwo(n) && m + |data| <= n <= 256
    requires LastChunk(data, m, last) && SameSize(data, bytes) && bytes > 0
    requires |original| == |data| && |recovery| <= m && Arrived(original, data)
    requires Arrived(recovery, Descend(Fft(mul, table), ChunkSum(mul, table, m, bytes, data, last), m / 2))
    requires |locator| == 256 && Locates(Mod.FF8, locator, Marks(original, recovery, m, 256), log)
    requires Lost(original, |original|) + Lost(recovery, |recovery|) <= |recovery|
    requires m <= p < m + |data| && original[p - m].Missing?
    ensures locator[p] <= 255 && Recovered(mul, table, original, recovery, m, locator, bytes, n, p) == data[p - m]
  {
    hide LastChunk, TablesOf, PowerOfTwo, IsByte, Locates, Arrived, Recovered, Lost, Marks, Descend, ChunkSum;
    ByteComesBack(f, mul, exp, log, table, data, m, last, bytes, n, original, recovery, locator, p, 0);
    var row := Recovered(mul, table, original, recovery, m, locator, bytes, n, p);
    ByteIs(bytes, 0, row, data[p - m][0]);
    forall i | 0 <= i < bytes ensures row[i] == data[p - m][i] {
      ByteComesBack(f, mul, exp, log, table, data, m, last, bytes, n, original, recovery, locator, p, i);
      ByteIs(bytes, i, row, data[p - m][i]);
    }
  }

  /** All lost rows, in the buffer the decoder leaves. */
  lemma RowsComeBack(f: Field<bv8>, mul: Mul, exp: nat -> bv8, log: seq<int>, table: Skew, data: seq<Row>, m: nat,
      last: nat, bytes: nat, n: nat, original: seq<Slot>, recovery: seq<Slot>, locator: seq<nat>, work: seq<Row>)
    requires TablesOf(f, mul, exp, log, table) && PowerOfTwo(m) && PowerOfTwo(n) && m + |data| <= n <= 256
    requires LastChunk(data, m, last) && SameSize(data, bytes) && bytes > 0
    requires |original| == |data| && |recovery| <= m && Arrived(original, data)
    requires Arrived(recovery, Descend(Fft(mul, table), ChunkSum(mul, table, m, bytes, data, last), m / 2))
    requires |locator| == 256 && Locates(Mod.FF8, locator, Marks(original, recovery, m, 256), log)
    requires Lost(original, |original|) + Lost(recovery, |recovery|) <= |recovery|
    requires |work| >= |data| && forall p :: 0 <= p < 256 ==> locator[p] <= 255
    requires var t := Transformed(mul, table, WeightedRows(mul, original, recovery, m, locator, bytes, n));
             forall i :: 0 <= i < |original| && original[i].Missing? ==> work[i] == mul(255 - locator[m + i], t[m + i])
    ensures forall i :: 0 <= i < |data| && original[i].Missing? ==> work[i] == data[i]
  {
    hide LastChunk, TablesOf, PowerOfTwo, Locates, Arrived, Transformed, WeightedRows, Lost, Marks, Descend,
        ChunkSum, SameSize;
    forall i | 0 <= i < |data| && original[i].Missing? ensures work[i] == data[i] {
      RowComesBack(f, mul, exp, log, table, data, m, last, bytes, n, original, recovery, locator, m + i);
    }
  }

  // Both calls

  /** What is left of some rows when those of `lost` do not arrive. */
  function Sent(rows: seq<Row>, lost: set<nat>): (slots: seq<Slot>)
    ensures |slots| == |rows|
    ensures forall i :: 0 <= i < |rows| ==> slots[i] == if i in lost then Missing else Present(rows[i])
  {
    seq(|rows|, i requires 0 <= i < |rows| => if i in lost then Missing else Present(rows[i]))
  }

  lemma {:induction false} LostAre(rows: seq<Row>, lost: set<nat>, k: nat)
    requires k <= |rows|
    ensures Lost(Sent(rows, lost), k) == |set i | i in lost && i < k|
  {
    var below := set i | i in lost && i < k;
    if k == 0 {
      assert below == {};
    } else {
      LostAre(rows, lost, k - 1);
      var rest := set i | i in lost && i < k - 1;
      assert below == if k - 1 in lost then rest + {k - 1} else rest;
    }
  }

  lemma AtMostLost(rows: seq<Row>, lost: set<nat>)
    ensures Lost(Sent(rows, lost), |rows|) <= |lost|
  {
    LostAre(rows, lost, |rows|);
    var gone := set i | i in lost && i < |rows|;
    SubsetIsSmaller(gone, lost);
  }

  lemma {:induction false} SubsetIsSmaller(a: set<nat>, b: set<nat>)
    requires a <= b
    ensures |a| <= |b|
    decreases a
  {
    if x :| x in a {
      SubsetIsSmaller(a - {x}, b - {x});
    }
  }

  lemma BytewiseKeepsZero(f: Field<bv8>, mul: Mul, exp: nat -> bv8)
    requires f.Laws() && Bytewise(mul, f, exp)
    ensures KeepsZero(mul)
  {
    hide CantorField.Field.Laws;
    forall e: nat, x: Row | IsZero(x) ensures IsZero(mul(e, x)) {
      forall i | 0 <= i < |x| ensures mul(e, x)[i] == 0 {
        TimesNothing(f, exp(e));
      }
    }
  }

  lemma SentArrives(rows: seq<Row>, lost: set<nat>, all: seq<Row>)
    requires |rows| <= |all| && rows == all[..|rows|]
    ensures Arrived(Sent(rows, lost), all)
  {
  }

  /** ReedSolomonEncode, and what is left of its rows. */
  method EncodeAndLose(mul: Mul, table: Skew, data: seq<Row>, recoveryCount: nat, m: nat, bytes: nat, lost: set<nat>)
    returns (recovery: seq<Slot>, ghost last: nat)
    requires PowerOfTwo(m) && m > 1 && recoveryCount <= m && data != [] && KeepsZero(mul) && ZeroAtPowers(table)
    ensures |recovery| == recoveryCount && Lost(recovery, |recovery|) <= |lost| && LastChunk(data, m, last)
    ensures m * last <= |data|
    ensures Arrived(recovery, Descend(Fft(mul, table), ChunkSum(mul, table, m, bytes, data, last), m / 2))
  {
    hide ZeroAtPowers, KeepsZero, PowerOfTwo, Descend, ChunkSum, Chunks, Arrived, Fft, Lost;
    var encoded, temp := new Row[m], new Row[m];
    last := ReedSolomonEncode(mul, table, data, recoveryCount, m, bytes, encoded, temp);
    recovery := Sent(encoded[..recoveryCount], lost);
    AtMostLost(encoded[..recoveryCount], lost);
    SentArrives(encoded[..recoveryCount], lost,
                Descend(Fft(mul, table), ChunkSum(mul, table, m, bytes, data, last), m / 2));
  }

  /** ReedSolomonEncode, the loss of any rows, no more than there are recovery rows, and
      ReedSolomonDecode: every lost data row comes back. */
  method EncodeAndDecode(mul: Mul, table: Skew, data: seq<Row>, recoveryCount: nat, m: nat, log2n: nat, bytes: nat,
      logWalsh: seq<nat>, lostData: set<nat>, lostRecovery: set<nat>,
      ghost f: Field<bv8>, ghost exp: nat -> bv8, ghost log: seq<int>) returns (work: array<Row>)
    requires TablesOf(f, mul, exp, log, table) && ZeroAtPowers(table)
    requires PowerOfTwo(256) && |logWalsh| == |log| == 256 && Mod.Holds(Mod.FF8, logWalsh, WalshHadamard.Wht(log))
    requires PowerOfTwo(m) && m > 1 && 0 < recoveryCount <= m && data != [] && SameSize(data, bytes) && bytes > 0
    requires PowerOfTwo(Pow2(log2n)) && m + |data| <= Pow2(log2n) <= 256
    requires |lostData| + |lostRecovery| <= recoveryCount
    ensures work.Length >= |data| && forall i :: 0 <= i < |data| && i in lostData ==> work[i] == data[i]
  {
    hide TablesOf, ZeroAtPowers, KeepsZero, PowerOfTwo, Pow2, Mod.Holds, Locates, SameSize, Marks, WeightedRows,
        Transformed, Descend, ChunkSum, Chunks, Arrived, Fft, Lost, LastChunk;
    TablesAre(f, mul, exp, log, table);
    BytewiseKeepsZero(f, mul, exp);
    hide CantorField.Field.Laws, Bytewise;
    var recovery, last := EncodeAndLose(mul, table, data, recoveryCount, m, bytes, lostRecovery);
    var n, original := Pow2(log2n), Sent(data, lostData);
    AtMostLost(data, lostData);
    SentArrives(data, lostData, data);
    work := new Row[n];
    var locator := ReedSolomonDecode(mul, table, original, recovery, m, log2n, bytes, logWalsh, log, work);
    LocatorFits(locator[..], Marks(original, recovery, m, 256), log);
    RowsComeBack(f, mul, exp, log, table, data, m, last, bytes, n, original, recovery, locator[..], work[..]);
  }
}
