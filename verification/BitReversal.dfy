/** The bit-reversal permutation of CFFT: both Rearrange functions, which keep the reversed position
    up to date with an increment that runs from the top bit down. */
module BitReversal {
  import opened Butterfly
  import opened Division
  import opened Powers
  import opened XorDigits
  import opened XorIndex

  /** `p` with its log2(n) binary digits in reverse order. */
  function Reverse(p: nat, n: nat): (r: nat)
    requires PowerOfTwo(n)
    ensures r < n
    decreases n
  {
    if n == 1 then 0
    else
      PowerHalf(n);
      Reverse(p / 2, n / 2) + if p % 2 == 1 then n / 2 else 0
  }

  /** The top digit of the position is the lowest one of the result. */
  lemma {:induction false} ReverseTop(q: nat, b: bool, h: nat)
    requires PowerOfTwo(h) && PowerOfTwo(2 * h) && q < h
    ensures Reverse(q + if b then h else 0, 2 * h) == 2 * Reverse(q, h) + if b then 1 else 0
    decreases h
  {
    hide PowerOfTwo;
    if h == 1 {
      assert Reverse(q, 1) == 0 && Reverse(if b then 1 else 0, 2) == if b then 1 else 0;
    } else {
      PowerHalf(h);
      ReverseTop(q / 2, b, h / 2);
      HalfOfSum(q, b, h / 2);
    }
  }

  lemma HalfOfSum(q: nat, b: bool, g: nat)
    ensures var x := q + if b then 2 * g else 0; x / 2 == q / 2 + (if b then g else 0) && x % 2 == q % 2
  {
  }

  /** Reversing twice gives the position back, so that the reversal is a permutation. */
  lemma {:induction false} ReverseTwice(p: nat, n: nat)
    requires PowerOfTwo(n) && p < n
    ensures Reverse(Reverse(p, n), n) == p
    decreases n
  {
    if n > 1 {
      PowerHalf(n);
      ReverseTwice(p / 2, n / 2);
      ReverseTop(Reverse(p / 2, n / 2), p % 2 == 1, n / 2);
    }
  }

  lemma {:induction false} PowersAreTwo(k: nat)
    ensures PowerOfTwo(Pow2(k))
  {
    if k > 0 {
      PowersAreTwo(k - 1);
      PowerDoubled(Pow2(k - 1));
    }
  }

  /** The digits below the top one are those of the rest. */
  lemma {:induction false} DigitBelow(x: nat, b: bool, m: nat, k: nat)
    requires x < Pow2(m) && k <= m
    ensures Bit(x + if b then Pow2(m) else 0, k) <==> if k == m then b else Bit(x, k)
    decreases m
  {
    hide Bit;
    var y := x + if b then Pow2(m) else 0;
    HalfDigit(x, if k > 0 then k - 1 else 0);
    HalfDigit(y, if k > 0 then k - 1 else 0);
    if m > 0 {
      assert Pow2(m) == 2 * Pow2(m - 1);
      HalfOfSum(x, b, Pow2(m - 1));
      if k > 0 { DigitBelow(x / 2, b, m - 1, k - 1); }
    }
  }

  /** Digit k of the result is digit log - 1 - k of the position. */
  lemma {:induction false} ReverseDigit(p: nat, log: nat, k: nat)
    requires k < log && p < Pow2(log)
    ensures PowerOfTwo(Pow2(log)) && (Bit(Reverse(p, Pow2(log)), k) <==> Bit(p, log - 1 - k))
    decreases log
  {
    hide Bit, PowerOfTwo;
    PowersAreTwo(log);
    PowersAreTwo(log - 1);
    var h := Pow2(log - 1);
    var r := Reverse(p / 2, h);
    DigitBelow(r, p % 2 == 1, log - 1, k);
    HalfDigit(p, if k < log - 1 then log - 2 - k else 0);
    if k < log - 1 { ReverseDigit(p / 2, log - 1, k); }
  }

  /** The increment from the top: clear the run of ones at the top and set the digit below it. */
  function Increment(t: nat, n: nat): nat
    requires PowerOfTwo(n) && t < n
    decreases n
  {
    if n == 1 then t
    else
      PowerHalf(n);
      if t >= n / 2 then Increment(t - n / 2, n / 2) else t + n / 2
  }

  /** It leads from the reversal of a position to that of the next one, and from the last one to 0. */
  lemma {:induction false} IncrementReversed(p: nat, n: nat)
    requires PowerOfTwo(n) && p < n
    ensures Increment(Reverse(p, n), n) == if p + 1 < n then Reverse(p + 1, n) else 0
    decreases n
  {
    if n > 1 {
      PowerHalf(n);
      IncrementReversed(p / 2, n / 2);
    }
  }

  /** The inner loop; the mask is halved before each test, so that it ends at 0 at the latest. */
  method NextTarget(target: nat, n: nat) returns (next: nat)
    requires PowerOfTwo(n) && target < n
    ensures next == Increment(target, n)
  {
    next := target;
    if n > 1 { PowerHalf(n); }
    var mask: nat := n / 2;
    while mask > 0 && next / mask % 2 == 1
      invariant PowerOfTwo(if mask == 0 then 1 else 2 * mask) && (mask > 0 ==> PowerOfTwo(mask))
      invariant next < if mask == 0 then 1 else 2 * mask
      invariant Increment(next, if mask == 0 then 1 else 2 * mask) == Increment(target, n)
      decreases mask
    {
      TopDigit(next, mask);
      next := next - mask;
      if mask > 1 { PowerHalf(mask); }
      mask := mask / 2;
    }
    if mask > 0 { TopDigit(next, mask); }
    next := next + mask;
  }

  lemma TopDigit(t: nat, mask: nat)
    requires mask > 0 && t < 2 * mask
    ensures t / mask % 2 == 1 <==> t >= mask
  {
    if t >= mask {
      ModIs(t, 1, t - mask, mask);
    } else {
      ModIs(t, 0, t, mask);
    }
  }

  /** The out-of-place version. */
  method RearrangeTo<T>(input: array<T>, output: array<T>)
    requires PowerOfTwo(input.Length) && output.Length == input.Length && input != output
    modifies output
    ensures forall p :: 0 <= p < input.Length ==> output[Reverse(p, input.Length)] == input[p]
    ensures forall q :: 0 <= q < input.Length ==> output[q] == input[Reverse(q, input.Length)]
  {
    var n := input.Length;
    var target := 0;
    ReverseZero(n);
    hide Reverse, Increment, PowerOfTwo;
    var position := 0;
    while position < n
      invariant position <= n && target == if position < n then Reverse(position, n) else 0
      invariant forall p :: 0 <= p < position ==> output[Reverse(p, n)] == input[p]
    {
      forall p | 0 <= p < position ensures Reverse(p, n) != target {
        ReverseTwice(p, n);
        ReverseTwice(position, n);
      }
      output[target] := input[position];
      IncrementReversed(position, n);
      target := NextTarget(target, n);
      position := position + 1;
    }
    forall q | 0 <= q < n ensures output[q] == input[Reverse(q, n)] { ReverseTwice(q, n); }
  }

  lemma {:induction false} ReverseZero(n: nat)
    requires PowerOfTwo(n)
    ensures Reverse(0, n) == 0
    decreases n
  {
    if n > 1 {
      PowerHalf(n);
      ReverseZero(n / 2);
    }
  }

  /** The version in place: every pair of positions is swapped once, at the smaller one. */
  method Rearrange<T>(data: array<T>)
    requires PowerOfTwo(data.Length)
    modifies data
    ensures forall q :: 0 <= q < data.Length ==> data[q] == old(data[Reverse(q, data.Length)])
  {
    var n := data.Length;
    var target := 0;
    ReverseZero(n);
    hide Reverse, Increment, PowerOfTwo;
    var position := 0;
    while position < n
      invariant position <= n && target == if position < n then Reverse(position, n) else 0
      invariant forall q :: 0 <= q < n ==>
        data[q] == if q < position || Reverse(q, n) < position then old(data[Reverse(q, n)]) else old(data[q])
    {
      ReverseTwice(position, n);
      forall q | 0 <= q < n ensures Reverse(q, n) == position <==> q == target { ReverseTwice(q, n); }
      if target > position {
        data[target], data[position] := data[position], data[target];
      }
      IncrementReversed(position, n);
      target := NextTarget(target, n);
      position := position + 1;
    }
  }
}
