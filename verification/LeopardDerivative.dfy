/** The formal-derivative loop of the Leopard decoder. */
module LeopardDerivative {
  import opened Butterfly
  import opened LeopardFft
  import opened LeopardRows
  import opened XorIndex

  /** ((i ^ (i - 1)) + 1) >> 1 */
  function Width(i: nat): nat
    requires i > 0
  {
    (XorNat(i, i - 1) + 1) / 2
  }

  lemma WidthOfPower(h: nat)
    requires PowerOfTwo(h)
    ensures Width(h) == h
  {
    XorNothing(h - 1);
    XorHigh(0, h - 1, true, false, h);
  }

  lemma WidthAbove(h: nat, t: nat)
    requires PowerOfTwo(h) && 0 < t < h
    ensures Width(h + t) == Width(t)
  {
    XorHigh(t, t - 1, true, true, h);
  }

  /** The width is a power of two, and the block of that size at `i` and the one before it lie
      inside the rows. */
  lemma {:induction false} WidthFits(i: nat, n: nat)
    requires PowerOfTwo(n) && 0 < i < n
    ensures PowerOfTwo(Width(i)) && Width(i) <= i && i + Width(i) <= n
    decreases n
  {
    hide XorNat, PowerOfTwo, Width;
    SmallestPower(n);
    if n > 1 {
      PowerHalf(n);
      var h := n / 2;
      if i < h {
        WidthFits(i, h);
      } else if i == h {
        WidthOfPower(h);
      } else {
        WidthAbove(h, i - h);
        WidthFits(i - h, h);
      }
    }
  }

  lemma SmallestPower(n: nat)
    requires PowerOfTwo(n)
    ensures n >= 1
  {
  }

  /** `a` with the rows of `b` xored in. */
  function XorRows(a: seq<Row>, b: seq<Row>): (r: seq<Row>)
    requires |a| == |b|
    ensures |r| == |a|
  {
    seq(|a|, k requires 0 <= k < |a| => Xor(a[k], b[k]))
  }

  /** One turn of the loop: the `v` rows from `i` on are xored into the `v` rows before them. */
  function Turn(w: seq<Row>, i: nat, v: nat): (r: seq<Row>)
    requires v <= i && i + v <= |w|
    ensures |r| == |w|
  {
    w[..i - v] + XorRows(w[i - v..i], w[i..i + v]) + w[i..]
  }

  /** The rows after the turns 1 to t-1. */
  function Turns(w: seq<Row>, t: nat): (r: seq<Row>)
    requires PowerOfTwo(|w|) && t <= |w|
    ensures |r| == |w|
    decreases t
  {
    if t <= 1 then w
    else
      WidthFits(t - 1, |w|);
      Turn(Turns(w, t - 1), t - 1, Width(t - 1))
  }

  lemma NextTurn(w: seq<Row>, t: nat)
    requires PowerOfTwo(|w|) && 0 < t < |w|
    ensures Width(t) <= t && t + Width(t) <= |w| && Turns(w, t + 1) == Turn(Turns(w, t), t, Width(t))
  {
    WidthFits(t, |w|);
  }

  lemma FirstTurn(w: seq<Row>, t: nat)
    requires PowerOfTwo(|w|) && t <= 1
    ensures t <= |w| && Turns(w, t) == w
  {
  }

  lemma TurnInFront(a: seq<Row>, b: seq<Row>, i: nat, v: nat)
    requires v <= i && i + v <= |a|
    ensures Turn(a + b, i, v) == Turn(a, i, v) + b
  {
    hide Xor;
    assert (a + b)[..i - v] == a[..i - v] && (a + b)[i - v..i] == a[i - v..i];
    assert (a + b)[i..i + v] == a[i..i + v] && (a + b)[i..] == a[i..] + b;
  }

  lemma TurnBehind(a: seq<Row>, b: seq<Row>, i: nat, v: nat)
    requires v <= i && i + v <= |b|
    ensures Turn(a + b, |a| + i, v) == a + Turn(b, i, v)
  {
    hide Xor;
    var n := |a|;
    assert (a + b)[..n + i - v] == a + b[..i - v] && (a + b)[n + i - v..n + i] == b[i - v..i];
    assert (a + b)[n + i..n + i + v] == b[i..i + v] && (a + b)[n + i..] == b[i..];
  }

  lemma TurnHalf(a: seq<Row>, b: seq<Row>)
    requires |a| == |b|
    ensures Turn(a + b, |a|, |a|) == XorRows(a, b) + b
  {
    hide Xor;
    var n := |a|;
    assert (a + b)[..n - n] == [] && (a + b)[n - n..n] == a && (a + b)[n..n + n] == b && (a + b)[n..] == b;
  }

  /** The turns of the lower half leave the upper half alone. */
  lemma {:induction false} LowTurns(a: seq<Row>, b: seq<Row>, t: nat)
    requires PowerOfTwo(|a|) && |b| == |a| && PowerOfTwo(2 * |a|) && t <= |a|
    ensures Turns(a + b, t) == Turns(a, t) + b
    decreases t
  {
    hide Turn, Turns, Width, PowerOfTwo;
    if t <= 1 {
      FirstTurn(a + b, t);
      FirstTurn(a, t);
    } else {
      LowTurns(a, b, t - 1);
      NextTurn(a + b, t - 1);
      NextTurn(a, t - 1);
      TurnInFront(Turns(a, t - 1), b, t - 1, Width(t - 1));
    }
  }

  /** The turn at the middle and those of the upper half. */
  lemma {:induction false} HighTurns(a: seq<Row>, b: seq<Row>, t: nat)
    requires PowerOfTwo(|a|) && |b| == |a| && PowerOfTwo(2 * |a|) && 0 < t <= |a|
    ensures Turns(a + b, |a| + t) == XorRows(Turns(a, |a|), b) + Turns(b, t)
    decreases t
  {
    hide Turn, Turns, Width, PowerOfTwo, XorRows;
    var h := |a|;
    if t == 1 {
      LowTurns(a, b, h);
      NextTurn(a + b, h);
      WidthOfPower(h);
      TurnHalf(Turns(a, h), b);
      FirstTurn(b, 1);
    } else {
      HighTurns(a, b, t - 1);
      NextTurn(a + b, h + t - 1);
      NextTurn(b, t - 1);
      WidthAbove(h, t - 1);
      TurnBehind(XorRows(Turns(a, h), b), Turns(b, t - 1), t - 1, Width(t - 1));
    }
  }

  /** Row `d` with all rows d xor v xored in, for the powers of two v < h whose bit is clear in d,
      which is when d xor v is larger than d. */
  function WithClearBits(w: seq<Row>, d: nat, h: nat): Row
    requires PowerOfTwo(|w|) && d < |w| && PowerOfTwo(h) && h <= |w|
    decreases h
  {
    if h == 1 then w[d]
    else
      PowerHalf(h);
      var v := h / 2;
      var x := WithClearBits(w, d, v);
      XorHigh(d, v, false, false, |w|);
      var s := XorNat(d, v);
      if s > d then Xor(x, w[s]) else x
  }

  lemma ClearBitStep(w: seq<Row>, d: nat, v: nat)
    requires PowerOfTwo(|w|) && d < |w| && PowerOfTwo(v) && PowerOfTwo(2 * v) && 2 * v <= |w|
    ensures XorNat(d, v) < |w|
    ensures WithClearBits(w, d, 2 * v)
         == if XorNat(d, v) > d then Xor(WithClearBits(w, d, v), w[XorNat(d, v)]) else WithClearBits(w, d, v)
  {
    hide Xor, XorNat;
    PowerHalf(2 * v);
    XorHigh(d, v, false, false, |w|);
  }

  lemma NoClearBits(w: seq<Row>, d: nat)
    requires PowerOfTwo(|w|) && d < |w|
    ensures PowerOfTwo(1) && WithClearBits(w, d, 1) == w[d]
  {
  }

  /** Below the top bit a half is on its own. */
  lemma {:induction false} ClearBitsInHalf(a: seq<Row>, b: seq<Row>, d: nat, high: bool, h: nat)
    requires PowerOfTwo(|a|) && |b| == |a| && PowerOfTwo(2 * |a|) && d < |a| && PowerOfTwo(h) && h <= |a|
    ensures WithClearBits(a + b, if high then |a| + d else d, h) == WithClearBits(if high then b else a, d, h)
    decreases h
  {
    hide WithClearBits, PowerOfTwo, XorNat;
    var half := if high then b else a;
    var d' := if high then |a| + d else d;
    if h == 1 {
      NoClearBits(a + b, d');
      NoClearBits(half, d);
    } else {
      SmallestPower(h);
      PowerHalf(h);
      var v := h / 2;
      ClearBitsInHalf(a, b, d, high, v);
      ClearBitStep(a + b, d', v);
      ClearBitStep(half, d, v);
      XorHigh(d, v, high, false, |a|);
    }
  }

  /** All turns: every row gets the rows of its clear bits xored in, each exactly once and as they
      were at the start. */
  lemma {:induction false} TurnsAre(w: seq<Row>, d: nat)
    requires PowerOfTwo(|w|) && d < |w|
    ensures Turns(w, |w|)[d] == WithClearBits(w, d, |w|)
    decreases |w|
  {
    hide Turns, WithClearBits, PowerOfTwo, XorNat, Xor;
    if |w| == 1 {
      FirstTurn(w, 1);
      NoClearBits(w, d);
    } else {
      PowerHalf(|w|);
      var h := |w| / 2;
      var a, b := w[..h], w[h..];
      assert w == a + b;
      HighTurns(a, b, h);
      XorNothing(if d < h then d else d - h);
      if d < h {
        TurnsAre(a, d);
        ClearBitsInHalf(a, b, d, false, h);
        XorHigh(d, 0, false, true, h);
      } else {
        TurnsAre(b, d - h);
        ClearBitsInHalf(a, b, d - h, true, h);
        XorHigh(d - h, 0, true, true, h);
      }
      ClearBitStep(w, d, h);
    }
  }

  lemma {:induction false} PowerIsMultiple(v: nat)
    requires PowerOfTwo(v)
    ensures v < 4 || Multiple(v, 4)
  {
    if v >= 4 {
      assert Doubled(v, 2) && Doubled(v, 4);
      DoubledIsMultiple(v, 4);
    }
  }

  /** The loop of ReedSolomonDecode that replaces the polynomial by its formal derivative. */
  method FormalDerivative(work: array<Row>)
    requires PowerOfTwo(work.Length)
    modifies work
    ensures forall d :: 0 <= d < work.Length ==> work[d] == WithClearBits(old(work[..]), d, work.Length)
  {
    hide Turn, Turns, WithClearBits, PowerOfTwo, Width, Xor, Xors, Multiple;
    var n := work.Length;
    ghost var w := work[..];
    SmallestPower(n);
    FirstTurn(w, 1);
    var i := 1;
    while i < n
      invariant 1 <= i <= n && work[..] == Turns(w, i)
    {
      NextTurn(w, i);
      WidthFits(i, n);
      var width := Width(i);
      PowerIsMultiple(width);
      XorsAll(width);
      ghost var now := work[..];
      VectorXor(work, width, i - width, i);
      TurnIs(now, i, width, work[..]);
      i := i + 1;
    }
    forall d | 0 <= d < n ensures work[d] == WithClearBits(w, d, n) {
      TurnsAre(w, d);
    }
  }

  lemma TurnIs(now: seq<Row>, i: nat, v: nat, next: seq<Row>)
    requires v <= i && i + v <= |now| && |next| == |now|
    requires forall p :: i - v <= p < i ==> next[p] == Xor(now[p], now[p + v])
    requires forall p :: 0 <= p < i - v || i <= p < |now| ==> next[p] == now[p]
    ensures next == Turn(now, i, v)
  {
    hide Xor;
    var x, y := now[i - v..i], now[i..i + v];
    var a, b, rest := now[..i - v], XorRows(x, y), now[i..];
    forall p | 0 <= p < |now| ensures next[p] == (a + b + rest)[p] {
      if p < i - v {
        assert (a + b + rest)[p] == a[p];
      } else if p < i {
        var k := p - (i - v);
        assert x[k] == now[p] && y[k] == now[i + k];
        assert (a + b + rest)[p] == b[k] == Xor(x[k], y[k]);
        assert i + k == p + v;
      } else {
        assert (a + b + rest)[p] == rest[p - i];
      }
    }
  }
}
