/** The bytes at one index of all rows: the transforms of rows treat them as elements of the field. */
module LeopardColumns {
  import opened Butterfly
  import opened ButterflyTrees
  import opened CantorField
  import opened EncoderXor
  import opened LeopardDerivative
  import opened LeopardRows
  import opened NovelBasis
  import opened XorIndex
  import Scalars = FieldTransforms

  /** Rows are added by exclusive or and multiplied byte by byte; `exp` is ExpLUT. */
  ghost predicate Bytewise(mul: Mul, f: Field<bv8>, exp: nat -> bv8) {
    && f.zero == 0 && (forall x, y :: f.plus(x, y) == x ^ y)
    && (forall e: nat, x: Row :: |mul(e, x)| == |x|)
    && (forall e: nat, x: Row, i {:trigger mul(e, x)[i]} :: 0 <= i < |x| ==> mul(e, x)[i] == f.times(exp(e), x[i]))
  }

  /** The elements behind the logarithms of the skew table. */
  function Skews(table: Skew, exp: nat -> bv8): nat -> bv8 {
    (s: nat) =>
      match table(s)
      case ZeroSkew => 0
      case Log(e) => exp(e)
  }

  /** `u` is byte `i` of a row of `bytes` bytes. */
  function IsByte(bytes: nat, i: nat): (Row, bv8) -> bool {
    (x: Row, u: bv8) => |x| == bytes && i < bytes && x[i] == u
  }

  lemma ByteOfXor(bytes: nat, i: nat, x: Row, y: Row)
    requires |x| == |y| == bytes && i < bytes
    ensures |Xor(x, y)| == bytes && Xor(x, y)[i] == x[i] ^ y[i]
  {
  }

  lemma ByteOfProduct(mul: Mul, f: Field<bv8>, exp: nat -> bv8, e: nat, x: Row, i: nat)
    requires Bytewise(mul, f, exp) && i < |x|
    ensures |mul(e, x)| == |x| && mul(e, x)[i] == f.times(exp(e), x[i])
  {
  }

  lemma PlusIsXor(mul: Mul, f: Field<bv8>, exp: nat -> bv8, x: bv8, y: bv8)
    requires Bytewise(mul, f, exp)
    ensures f.plus(x, y) == x ^ y && f.zero == 0
  {
  }

  lemma ByteOfMulAdd(mul: Mul, f: Field<bv8>, exp: nat -> bv8, table: Skew, s: nat, x: Row, y: Row, bytes: nat, i: nat)
    requires f.Laws() && Bytewise(mul, f, exp) && |x| == |y| == bytes && i < bytes
    ensures var r := MulAdd(mul, x, y, table(s));
            |r| == bytes && r[i] == f.plus(x[i], f.times(Skews(table, exp)(s), y[i]))
  {
    hide Field.Laws, Bytewise, Xor;
    match table(s)
    case ZeroSkew =>
      PlusIsXor(mul, f, exp, x[i], y[i]);
      TimesNothing(f, y[i]);
      PlusNothing(f, x[i]);
    case Log(e) =>
      ByteOfProduct(mul, f, exp, e, y, i);
      ByteOfXor(bytes, i, x, mul(e, y));
      PlusIsXor(mul, f, exp, x[i], mul(e, y)[i]);
  }

  lemma BytesOfIfft(mul: Mul, f: Field<bv8>, exp: nat -> bv8, table: Skew, s: nat, x: Row, y: Row, bytes: nat, i: nat)
    requires f.Laws() && Bytewise(mul, f, exp) && |x| == |y| == bytes && i < bytes
    ensures var (a, b) := Ifft(mul, table)(s, x, y);
            |a| == |b| == bytes && (a[i], b[i]) == Scalars.Ifft(f, Skews(table, exp))(s, x[i], y[i])
  {
    hide Field.Laws, Bytewise, Xor, MulAdd, Skews;
    ByteOfXor(bytes, i, y, x);
    PlusIsXor(mul, f, exp, y[i], x[i]);
    ByteOfMulAdd(mul, f, exp, table, s, x, Xor(y, x), bytes, i);
  }

  lemma BytesOfFft(mul: Mul, f: Field<bv8>, exp: nat -> bv8, table: Skew, s: nat, x: Row, y: Row, bytes: nat, i: nat)
    requires f.Laws() && Bytewise(mul, f, exp) && |x| == |y| == bytes && i < bytes
    ensures var (a, b) := Fft(mul, table)(s, x, y);
            |a| == |b| == bytes && (a[i], b[i]) == Scalars.Fft(f, Skews(table, exp))(s, x[i], y[i])
  {
    hide Field.Laws, Bytewise, Xor, MulAdd, Skews;
    ByteOfMulAdd(mul, f, exp, table, s, x, y, bytes, i);
    var x' := MulAdd(mul, x, y, table(s));
    ByteOfXor(bytes, i, y, x');
    PlusIsXor(mul, f, exp, y[i], x'[i]);
  }

  /** The butterflies of rows are those of their bytes. */
  lemma ButterfliesOfBytes(mul: Mul, f: Field<bv8>, exp: nat -> bv8, table: Skew, bytes: nat, i: nat)
    requires f.Laws() && Bytewise(mul, f, exp)
    ensures Preserves(Ifft(mul, table), Scalars.Ifft(f, Skews(table, exp)), IsByte(bytes, i))
    ensures Preserves(Fft(mul, table), Scalars.Fft(f, Skews(table, exp)), IsByte(bytes, i))
  {
    hide Field.Laws, Bytewise, Ifft, Fft, Scalars.Ifft, Scalars.Fft, Skews;
    var rel := IsByte(bytes, i);
    var (g, h) := (Scalars.Ifft(f, Skews(table, exp)), Scalars.Fft(f, Skews(table, exp)));
    forall s: nat, x: Row, y: Row, u, v | rel(x, u) && rel(y, v)
      ensures rel(Ifft(mul, table)(s, x, y).0, g(s, u, v).0) && rel(Ifft(mul, table)(s, x, y).1, g(s, u, v).1)
      ensures rel(Fft(mul, table)(s, x, y).0, h(s, u, v).0) && rel(Fft(mul, table)(s, x, y).1, h(s, u, v).1)
    {
      BytesOfIfft(mul, f, exp, table, s, x, y, bytes, i);
      BytesOfFft(mul, f, exp, table, s, x, y, bytes, i);
    }
  }

  // Columns

  function Column(w: seq<Row>, bytes: nat, i: nat): (c: seq<bv8>)
    requires SameSize(w, bytes) && i < bytes
    ensures |c| == |w|
  {
    seq(|w|, p requires 0 <= p < |w| => w[p][i])
  }

  lemma ColumnIsRelated(w: seq<Row>, bytes: nat, i: nat)
    requires SameSize(w, bytes) && i < bytes
    ensures Related(IsByte(bytes, i), w, Column(w, bytes, i))
  {
  }

  /** The transforms of a column. */
  lemma TransformsOfColumn(mul: Mul, f: Field<bv8>, exp: nat -> bv8, table: Skew, bytes: nat, i: nat, w: seq<Row>,
      c: seq<bv8>)
    requires f.Laws() && Bytewise(mul, f, exp) && PowerOfTwo(|w|) && Related(IsByte(bytes, i), w, c)
    ensures Related(IsByte(bytes, i), Ascend(Ifft(mul, table), w, 1), TreeUp(Scalars.Ifft(f, Skews(table, exp)), c, 0))
    ensures Related(IsByte(bytes, i), Descend(Fft(mul, table), w, |w| / 2),
                    TreeDown(Scalars.Fft(f, Skews(table, exp)), c, 0))
  {
    hide Field.Laws, Bytewise, Skews, PowerOfTwo, Ascend, Descend, TreeUp, TreeDown, Ifft, Fft, Scalars.Ifft,
        Scalars.Fft, IsByte, Preserves;
    ButterfliesOfBytes(mul, f, exp, table, bytes, i);
    TransformsAreTrees(Ifft(mul, table), w);
    TransformsAreTrees(Fft(mul, table), w);
    TreesRelate(Ifft(mul, table), Scalars.Ifft(f, Skews(table, exp)), IsByte(bytes, i), w, c, 0);
    TreesRelate(Fft(mul, table), Scalars.Fft(f, Skews(table, exp)), IsByte(bytes, i), w, c, 0);
  }

  /** The inverse transform of a chunk is that of a block further on. */
  lemma ChunkOfColumn(mul: Mul, f: Field<bv8>, exp: nat -> bv8, table: Skew, bytes: nat, i: nat, w: seq<Row>,
      c: seq<bv8>, m: nat, k: nat)
    requires f.Laws() && Bytewise(mul, f, exp) && PowerOfTwo(|w|) && Related(IsByte(bytes, i), w, c)
    ensures Related(IsByte(bytes, i), Ascend(Ifft(mul, ChunkSkew(table, m, k)), w, 1),
                    TreeUp(Scalars.Ifft(f, Skews(table, exp)), c, m + m * k))
  {
    hide Field.Laws, Bytewise, Skews, PowerOfTwo, Ascend, TreeUp, Scalars.Ifft, IsByte, Preserves, IfftPair;
    ButterfliesOfBytes(mul, f, exp, table, bytes, i);
    TransformsAreTrees(Ifft(mul, ChunkSkew(table, m, k)), w);
    TreeShifted(Ifft(mul, table), Ifft(mul, ChunkSkew(table, m, k)), w, 0, m + m * k);
    TreesRelate(Ifft(mul, table), Scalars.Ifft(f, Skews(table, exp)), IsByte(bytes, i), w, c, m + m * k);
  }

  // The derivative

  lemma XorOfBytes(mul: Mul, f: Field<bv8>, exp: nat -> bv8, bytes: nat, i: nat, x: Row, y: Row, u: bv8, v: bv8)
    requires Bytewise(mul, f, exp) && IsByte(bytes, i)(x, u) && IsByte(bytes, i)(y, v)
    ensures IsByte(bytes, i)(Xor(x, y), f.plus(u, v))
  {
    ByteOfXor(bytes, i, x, y);
    PlusIsXor(mul, f, exp, u, v);
  }

  /** (c + d) + b == c + (d + b) and c + z == c, for the two halves of a derivative */
  lemma DerivRow(f: Field<bv8>, a: seq<bv8>, b: seq<bv8>, d: nat)
    requires f.Laws() && PowerOfTwo(|a|) && |b| == |a| && d < 2 * |a|
    ensures PowerOfTwo(|a + b|)
    ensures f.plus((a + b)[d], Deriv(f, a + b)[d])
         == if d < |a| then f.plus(f.plus(a[d], Deriv(f, a)[d]), b[d])
            else f.plus(b[d - |a|], Deriv(f, b)[d - |a|])
  {
    hide Field.Laws, Deriv, PowerOfTwo;
    DerivHalves(f, a, b);
    if d < |a| { PlusAssoc(f, a[d], Deriv(f, a)[d], b[d]); }
  }

  lemma OneRow(f: Field<bv8>, c: seq<bv8>)
    requires f.Laws() && PowerOfTwo(|c|) && |c| == 1
    ensures f.plus(c[0], Deriv(f, c)[0]) == c[0]
  {
    hide Field.Laws, PowerOfTwo, Deriv;
    OneDeriv(f, c);
    PlusNothing(f, c[0]);
  }

  /** What the derivative loop leaves in a row: the coefficient plus that of the derivative. */
  lemma {:induction false} DerivativeOfColumn(mul: Mul, f: Field<bv8>, exp: nat -> bv8, bytes: nat, i: nat,
      w: seq<Row>, c: seq<bv8>, d: nat)
    requires f.Laws() && Bytewise(mul, f, exp) && PowerOfTwo(|w|) && Related(IsByte(bytes, i), w, c) && d < |w|
    ensures IsByte(bytes, i)(WithClearBits(w, d, |w|), f.plus(c[d], Deriv(f, c)[d]))
    decreases |w|
  {
    hide Field.Laws, Bytewise, PowerOfTwo, IsByte, WithClearBits, Deriv, Xor, XorNat;
    if |w| == 1 {
      NoClearBits(w, d);
      OneRow(f, c);
    } else {
      var a, b := TwoHalves(w);
      var a', b' := TwoHalves(c);
      var h := |a|;
      RelatedHalves(IsByte(bytes, i), a, b, a', b');
      XorNothing(if d < h then d else d - h);
      DerivRow(f, a', b', d);
      ClearBitStep(w, d, h);
      if d < h {
        DerivativeOfColumn(mul, f, exp, bytes, i, a, a', d);
        ClearBitsInHalf(a, b, d, false, h);
        XorHigh(d, 0, false, true, h);
        XorOfBytes(mul, f, exp, bytes, i, WithClearBits(a, d, h), b[d], f.plus(a'[d], Deriv(f, a')[d]), b'[d]);
      } else {
        DerivativeOfColumn(mul, f, exp, bytes, i, b, b', d - h);
        ClearBitsInHalf(a, b, d - h, true, h);
        XorHigh(d - h, 0, true, true, h);
      }
    }
  }
}
