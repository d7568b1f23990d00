/** Exclusive or on natural numbers, bit by bit. */
module XorIndex {
  import opened Butterfly

  function XorNat(i: nat, j: nat): nat
    decreases i + j
  {
    if i == 0 && j == 0 then 0 else 2 * XorNat(i / 2, j / 2) + if i % 2 == j % 2 then 0 else 1
  }

  lemma Even(a: nat, b: bool, h: nat)
    ensures var x := a + if b then 2 * h else 0; x % 2 == a % 2 && x / 2 == a / 2 + if b then h else 0
  {
  }

  lemma XorStep(i: nat, j: nat)
    ensures XorNat(i, j) == 2 * XorNat(i / 2, j / 2) + if i % 2 == j % 2 then 0 else 1
  {
    assert XorNat(0, 0) == 0;
  }

  /** The top bit is exclusive-ored on its own. */
  lemma {:induction false} XorHigh(i: nat, j: nat, bi: bool, bj: bool, h: nat)
    requires PowerOfTwo(h) && i < h && j < h
    ensures XorNat(i, j) < h
    ensures XorNat(i + if bi then h else 0, j + if bj then h else 0) == XorNat(i, j) + if bi == bj then 0 else h
    decreases h
  {
    hide XorNat, PowerOfTwo;
    if h == 1 {
      XorBits();
    } else {
      PowerHalf(h);
      Even(i, bi, h / 2);
      Even(j, bj, h / 2);
      XorStep(i, j);
      XorStep(i + if bi then h else 0, j + if bj then h else 0);
      XorHigh(i / 2, j / 2, bi, bj, h / 2);
    }
  }

  lemma XorBits()
    ensures XorNat(0, 0) == 0 && XorNat(1, 0) == 1 && XorNat(0, 1) == 1 && XorNat(1, 1) == 0
  {
  }

  lemma {:induction false} XorNothing(x: nat)
    ensures XorNat(0, x) == x && XorNat(x, 0) == x
    decreases x
  {
    if x > 0 { XorNothing(x / 2); }
  }

  lemma {:induction false} XorIsZero(i: nat, j: nat)
    ensures XorNat(i, j) == 0 <==> i == j
    decreases i + j
  {
    XorStep(i, j);
    if i > 0 || j > 0 { XorIsZero(i / 2, j / 2); }
  }

  lemma PowerHalf(n: nat)
    requires PowerOfTwo(n) && n > 1
    ensures n == 2 * (n / 2) && PowerOfTwo(n / 2)
  {
    HalfOf(n, 1);
  }

  lemma PowerDoubled(h: nat)
    requires h > 0
    ensures PowerOfTwo(2 * h) <==> PowerOfTwo(h)
  {
    if PowerOfTwo(2 * h) { HalfOf(2 * h, 1); }
    if PowerOfTwo(h) { DoubledTwice(h, 1); }
  }

  lemma {:induction false} DoubledTwice(m: nat, d: nat)
    requires d > 0 && Doubled(m, d)
    ensures Doubled(2 * m, d)
    decreases m - d
  {
    if m > d {
      DoubledTwice(m, 2 * d);
    } else {
      assert Doubled(2 * m, 2 * d);
    }
  }
}
