/** Data rows of the Leopard codes and the butterflies of its additive FFT.  Multiplication by a
    field element given by its logarithm is left abstract. */
module LeopardRows {
  import opened Butterfly

  type Row = seq<bv8>
  type Mul = (nat, Row) -> Row

  /** An entry of the skew table: the logarithm of a field element, or the value kModulus, which
      stands for the element zero (255 in FF8 and 65535 in FF16). */
  datatype SkewLog = ZeroSkew | Log(exponent: nat)

  type Skew = nat -> SkewLog

  /** xor_mem: `x` with `y` xored into it. */
  function Xor(x: Row, y: Row): (r: Row)
    ensures |r| == |x|
  {
    seq(|x|, i requires 0 <= i < |x| => x[i] ^ if i < |y| then y[i] else 0)
  }

  predicate IsZero(x: Row) { forall i :: 0 <= i < |x| ==> x[i] == 0 }

  lemma BitwiseCancel(a: bv8, b: bv8)
    ensures a ^ b ^ b == a && a ^ 0 == a
  {
  }

  lemma XorCancel(x: Row, y: Row)
    ensures Xor(Xor(x, y), y) == x
  {
    var r := Xor(Xor(x, y), y);
    forall i | 0 <= i < |x| ensures r[i] == x[i] {
      BitwiseCancel(x[i], if i < |y| then y[i] else 0);
    }
  }

  lemma XorZero(x: Row, y: Row)
    requires IsZero(y)
    ensures Xor(x, y) == x
  {
    var r := Xor(x, y);
    forall i | 0 <= i < |x| ensures r[i] == x[i] {
      BitwiseCancel(x[i], 0);
    }
  }

  /** x ^= y * log, where the skew zero means that there is nothing to add. */
  function MulAdd(mul: Mul, x: Row, y: Row, log: SkewLog): Row {
    match log
    case ZeroSkew => x
    case Log(e) => Xor(x, mul(e, y))
  }

  function IfftPair(mul: Mul, log: SkewLog, x: Row, y: Row): (Row, Row) {
    var y' := Xor(y, x);
    (MulAdd(mul, x, y', log), y')
  }

  function FftPair(mul: Mul, log: SkewLog, x: Row, y: Row): (Row, Row) {
    var x' := MulAdd(mul, x, y, log);
    (x', Xor(y, x'))
  }

  function Ifft(mul: Mul, skew: Skew): (nat, Row, Row) -> (Row, Row) {
    (s: nat, x: Row, y: Row) => IfftPair(mul, skew(s), x, y)
  }

  function Fft(mul: Mul, skew: Skew): (nat, Row, Row) -> (Row, Row) {
    (s: nat, x: Row, y: Row) => FftPair(mul, skew(s), x, y)
  }

  lemma FftUndoesIfft(mul: Mul, skew: Skew)
    ensures Undoes(Fft(mul, skew), Ifft(mul, skew))
  {
    forall s: nat, x, y
      ensures FftPair(mul, skew(s), IfftPair(mul, skew(s), x, y).0, IfftPair(mul, skew(s), x, y).1) == (x, y)
    {
      var log, y' := skew(s), Xor(y, x);
      XorCancel(y, x);
      if log.Log? { XorCancel(x, mul(log.exponent, y')); }
    }
  }

  /** Decoding transforms back what encoding transformed, for every number of rows that is a power
      of two, every skew table and every multiplication. */
  lemma FftOfIfft(mul: Mul, skew: Skew, w: seq<Row>)
    requires PowerOfTwo(|w|)
    ensures Descend(Fft(mul, skew), Ascend(Ifft(mul, skew), w, 1), |w| / 2) == w
  {
    FftUndoesIfft(mul, skew);
    TransformUndone(Fft(mul, skew), Ifft(mul, skew), w, 1);
  }

  // Zero rows

  ghost predicate KeepsZero(mul: Mul) { forall log, x :: IsZero(x) ==> IsZero(mul(log, x)) }

  predicate AllZero(w: seq<Row>) { forall p :: 0 <= p < |w| ==> IsZero(w[p]) }

  lemma ZeroPair(mul: Mul, log: SkewLog, x: Row, y: Row)
    requires KeepsZero(mul) && IsZero(x) && IsZero(y)
    ensures IfftPair(mul, log, x, y) == (x, y)
  {
    XorZero(y, x);
    if log.Log? { XorZero(x, mul(log.exponent, y)); }
  }

  lemma ZeroBlock(mul: Mul, skew: Skew, b: seq<Row>, s: nat, d: nat)
    requires |b| == 2 * d && KeepsZero(mul) && AllZero(b)
    ensures Block(Ifft(mul, skew), b, s, d) == b
  {
    hide IfftPair, IsZero, KeepsZero;
    var r := Block(Ifft(mul, skew), b, s, d);
    forall k | 0 <= k < 2 * d ensures r[k] == b[k] {
      var i := if k < d then k else k - d;
      BlockAt(Ifft(mul, skew), b, s, d, i);
      ZeroPair(mul, skew(s), b[i], b[i + d]);
    }
  }

  lemma {:induction false} ZeroLayer(mul: Mul, skew: Skew, w: seq<Row>, base: nat, d: nat)
    requires d > 0 && KeepsZero(mul) && AllZero(w)
    ensures Layer(Ifft(mul, skew), w, base, d) == w
    decreases |w|
  {
    hide IsZero, KeepsZero, Block;
    if |w| >= 2 * d {
      LayerCons(Ifft(mul, skew), w, base, d);
      ZeroLayer(mul, skew, w[2 * d..], base + 2 * d, d);
      ZeroBlock(mul, skew, w[..2 * d], base + d, d);
      assert w == w[..2 * d] + w[2 * d..];
    }
  }
}
