/** What the encoder's transform leaves in the rows it xors its result into, and when that is the
    xor: always, for the skew tables of the library. */
module EncoderXor {
  import opened Butterfly
  import opened LeopardDerivative
  import opened LeopardRows
  import opened LeopardTransforms

  /** A single row is never xored, and a last layer of its own must not have the skew zero. */
  predicate CanXor(skew: Skew, m: nat) { m > 1 && (PowerOfFour(m) || skew(m / 2).Log?) }

  /** xor_mem_2to1: row p of the first half gets the rows p of both halves as they were before the
      last butterfly, which left the first one alone; the second half gets nothing. */
  function FirstHalfXored(o: seq<Row>, t: seq<Row>): (r: seq<Row>)
    requires |o| == |t|
    ensures |r| == |o|
  {
    var m, h := |o|, |o| / 2;
    seq(m, p requires 0 <= p < m => if p < h then Xor(Xor(o[p], t[p]), Xor(t[p + h], t[p])) else o[p])
  }

  /** The rows `o` after the transform of `w` has been xored into them. */
  function Xored(mul: Mul, skew: Skew, w: seq<Row>, o: seq<Row>): (r: seq<Row>)
    requires |o| == |w|
    ensures |r| == |o|
  {
    var t := Ascend(Ifft(mul, skew), w, 1);
    if CanXor(skew, |w|) then XorRows(o, t) else if |w| <= 1 then o else FirstHalfXored(o, t)
  }

  // When it is the xor

  predicate SameSize(w: seq<Row>, bytes: nat) { forall p :: 0 <= p < |w| ==> |w[p]| == bytes }

  lemma BlockSize(mul: Mul, skew: Skew, b: seq<Row>, s: nat, d: nat, bytes: nat)
    requires |b| == 2 * d && SameSize(b, bytes)
    ensures SameSize(Block(Ifft(mul, skew), b, s, d), bytes)
  {
    hide Xor, Block;
    var r := Block(Ifft(mul, skew), b, s, d);
    forall p | 0 <= p < 2 * d ensures |r[p]| == bytes {
      var k := if p < d then p else p - d;
      BlockAt(Ifft(mul, skew), b, s, d, k);
      assert (r[k], r[k + d]) == IfftPair(mul, skew(s), b[k], b[k + d]);
    }
  }

  lemma {:induction false} LayerSize(mul: Mul, skew: Skew, w: seq<Row>, base: nat, d: nat, bytes: nat)
    requires d > 0 && SameSize(w, bytes)
    ensures SameSize(Layer(Ifft(mul, skew), w, base, d), bytes)
    decreases |w|
  {
    hide Block, Ifft;
    if |w| >= 2 * d {
      LayerCons(Ifft(mul, skew), w, base, d);
      BlockSize(mul, skew, w[..2 * d], base + d, d, bytes);
      LayerSize(mul, skew, w[2 * d..], base + 2 * d, d, bytes);
    }
  }

  /** The transform keeps the sizes of the rows, and rows of zeros stay as they are. */
  lemma {:induction false} AscendSize(mul: Mul, skew: Skew, w: seq<Row>, d: nat, bytes: nat)
    requires d > 0 && SameSize(w, bytes)
    ensures SameSize(Ascend(Ifft(mul, skew), w, d), bytes)
    ensures KeepsZero(mul) && AllZero(w) ==> Ascend(Ifft(mul, skew), w, d) == w
    decreases |w| - d
  {
    hide Layer, Ifft, KeepsZero, AllZero;
    if |w| >= 2 * d {
      LayerSize(mul, skew, w, 0, d, bytes);
      AscendSize(mul, skew, Layer(Ifft(mul, skew), w, 0, d), 2 * d, bytes);
      if KeepsZero(mul) && AllZero(w) { ZeroLayer(mul, skew, w, 0, d); }
    }
  }

  /** Only rows of zeros are transformed into rows of zeros. */
  lemma ZeroOnlyFromZero(mul: Mul, skew: Skew, w: seq<Row>, bytes: nat)
    requires PowerOfTwo(|w|) && KeepsZero(mul) && SameSize(w, bytes)
    ensures AllZero(Ascend(Ifft(mul, skew), w, 1)) <==> AllZero(w)
  {
    hide Ascend, Descend, Ifft, Fft, AllZero, KeepsZero, PowerOfTwo;
    var t := Ascend(Ifft(mul, skew), w, 1);
    AscendSize(mul, skew, w, 1, bytes);
    AscendSize(mul, skew, t, 1, bytes);
    FftOfIfft(mul, skew, w);
    FftOfIfft(mul, skew, t);
  }

  lemma XorBits(a: bv8, b: bv8)
    ensures a ^ b == a <==> b == 0
  {
  }

  lemma XorIsSame(x: Row, y: Row)
    requires |x| == |y|
    ensures Xor(x, y) == x <==> IsZero(y)
  {
    if Xor(x, y) == x {
      forall i | 0 <= i < |y| ensures y[i] == 0 {
        assert Xor(x, y)[i] == x[i] ^ y[i];
        XorBits(x[i], y[i]);
      }
    } else if IsZero(y) {
      XorZero(x, y);
    }
  }

  /** Xoring in what was swapped makes a difference unless it is zero. */
  lemma XorDiffers(o: Row, x: Row, y: Row)
    requires |o| == |x| == |y| && IsZero(y)
    ensures Xor(Xor(o, x), Xor(y, x)) == Xor(o, x) <==> IsZero(x)
  {
    XorIsSame(Xor(o, x), Xor(y, x));
    if IsZero(Xor(y, x)) {
      forall i | 0 <= i < |x| ensures x[i] == 0 {
        assert Xor(y, x)[i] == y[i] ^ x[i] == 0;
        XorBits(x[i], 0);
      }
    } else if IsZero(x) {
      XorZero(y, x);
    }
  }

  /** A pair of rows is treated right, without the multiplication, only if there is nothing to xor. */
  lemma PairIsRight(o: Row, o': Row, x: Row, y: Row)
    requires |o| == |o'| == |x| == |y|
    ensures Xor(Xor(o, x), Xor(y, x)) == Xor(o, x) && o' == Xor(o', y) <==> IsZero(x) && IsZero(y)
  {
    hide Xor, IsZero;
    XorIsSame(o', y);
    if IsZero(y) { XorDiffers(o, x, y); }
  }

  lemma FirstHalfIsRight(o: seq<Row>, t: seq<Row>, bytes: nat)
    requires |o| == |t| && |o| == 2 * (|o| / 2) && SameSize(o, bytes) && SameSize(t, bytes)
    ensures FirstHalfXored(o, t) == XorRows(o, t) <==> AllZero(t)
  {
    hide Xor, IsZero, AllZero;
    var r, e, h := FirstHalfXored(o, t), XorRows(o, t), |o| / 2;
    HalvesAre(t, r, e, h);
    forall p | 0 <= p < h ensures PairSame(r, e, h, p) <==> PairZero(t, h, p) {
      PairIsRight(o[p], o[p + h], t[p], t[p + h]);
    }
  }

  /** The rows are xored with the transform exactly when CanXor holds or the transform is zero. */
  lemma XoredIs(mul: Mul, skew: Skew, w: seq<Row>, o: seq<Row>, bytes: nat)
    requires PowerOfTwo(|w|) && |o| == |w| && SameSize(w, bytes) && SameSize(o, bytes)
    ensures var t := Ascend(Ifft(mul, skew), w, 1);
            Xored(mul, skew, w, o) == XorRows(o, t) <==> CanXor(skew, |w|) || AllZero(t)
  {
    hide Ascend, Ifft, Xor, IsZero, PowerOfFour, CanXor, FirstHalfXored, SameSize;
    AscendSize(mul, skew, w, 1, bytes);
    var t := Ascend(Ifft(mul, skew), w, 1);
    if |w| > 1 {
      HalfOf(|w|, 1);
      FirstHalfIsRight(o, t, bytes);
    } else {
      OneIsRight(o, t, bytes);
    }
  }

  lemma OneIsRight(o: seq<Row>, t: seq<Row>, bytes: nat)
    requires |o| == |t| == 1 && SameSize(o, bytes) && SameSize(t, bytes)
    ensures o == XorRows(o, t) <==> AllZero(t)
  {
    hide Xor, IsZero;
    XorIsSame(o[0], t[0]);
    assert XorRows(o, t) == [Xor(o[0], t[0])];
  }

  predicate PairSame(r: seq<Row>, e: seq<Row>, h: nat, p: nat)
    requires |r| == |e| == 2 * h && p < h
  {
    r[p] == e[p] && r[p + h] == e[p + h]
  }

  predicate PairZero(t: seq<Row>, h: nat, p: nat)
    requires |t| == 2 * h && p < h
  {
    IsZero(t[p]) && IsZero(t[p + h])
  }

  lemma HalvesAre(t: seq<Row>, r: seq<Row>, e: seq<Row>, h: nat)
    requires |t| == |r| == |e| == 2 * h
    ensures r == e <==> forall p :: 0 <= p < h ==> PairSame(r, e, h, p)
    ensures AllZero(t) <==> forall p :: 0 <= p < h ==> PairZero(t, h, p)
  {
    hide IsZero;
    if forall p :: 0 <= p < h ==> PairSame(r, e, h, p) {
      forall p | 0 <= p < 2 * h ensures r[p] == e[p] {
        assert PairSame(r, e, h, if p < h then p else p - h);
      }
    }
    if forall p :: 0 <= p < h ==> PairZero(t, h, p) {
      forall p | 0 <= p < 2 * h ensures IsZero(t[p]) {
        assert PairZero(t, h, if p < h then p else p - h);
      }
    }
  }

  /** For rows of one size: the encoder's transform is xored into the rows `o` if and only if CanXor
      holds or there is nothing to xor. */
  lemma XorIsExact(mul: Mul, skew: Skew, w: seq<Row>, o: seq<Row>, bytes: nat)
    requires PowerOfTwo(|w|) && |o| == |w| && SameSize(w, bytes) && SameSize(o, bytes) && KeepsZero(mul)
    ensures Xored(mul, skew, w, o) == XorRows(o, Ascend(Ifft(mul, skew), w, 1)) <==> CanXor(skew, |w|) || AllZero(w)
  {
    hide Xored, XorRows, Ascend, CanXor, PowerOfTwo;
    XoredIs(mul, skew, w, o, bytes);
    ZeroOnlyFromZero(mul, skew, w, bytes);
  }

  // The skews of the library

  /** skewLUT, after it has moved on to the chunk of row `i`. */
  function ChunkSkewAt(table: Skew, m: nat, i: nat): Skew {
    (j: nat) => table(i + m + j)
  }

  /** The skew table as the transform of chunk `k` sees it. */
  function ChunkSkew(table: Skew, m: nat, k: nat): Skew {
    ChunkSkewAt(table, m, m * k)
  }

  /** The skew zero stands only at powers of two, where FFTInitialize puts it. */
  ghost predicate ZeroAtPowers(table: Skew) {
    forall i: nat :: table(i) == ZeroSkew ==> PowerOfTwo(i)
  }

  lemma {:induction false} OddFactor(d: nat, k: nat)
    requires PowerOfTwo(d)
    ensures !PowerOfTwo(d * (2 * k + 3))
    decreases d
  {
    var x := d * (2 * k + 3);
    assert x == 2 * (d * k) + 3 * d;
    if d > 1 {
      HalfOf(d, 1);
      OddFactor(d / 2, k);
      assert x == 2 * (d / 2 * (2 * k + 3));
    }
    if PowerOfTwo(x) { HalfOf(x, 1); }
  }

  /** No chunk has a last layer with the skew zero. */
  lemma ChunksCanXor(table: Skew, m: nat, k: nat)
    requires PowerOfTwo(m) && m > 1 && ZeroAtPowers(table)
    ensures CanXor(ChunkSkew(table, m, k), m)
  {
    HalfOf(m, 1);
    var h := m / 2;
    OddFactor(h, k);
    assert m * k + m + h == h * (2 * k + 3) by { assert m * k == 2 * (h * k); }
  }
}
