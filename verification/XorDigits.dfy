/** Exclusive or of numbers, digit by digit. */
module XorDigits {
  import opened Division
  import opened Powers
  import opened XorIndex

  lemma HalfDigit(x: nat, k: nat)
    ensures Bit(x, k + 1) <==> Bit(x / 2, k)
    ensures Bit(x, 0) <==> x % 2 == 1
  {
    var p, y := Pow2(k), x / 2;
    var q, r := y / p, y % p;
    assert y == q * p + r;
    assert x == q * (2 * p) + (2 * r + x % 2) by { assert 2 * (q * p) == q * (2 * p); }
    ModIs(x, q, 2 * r + x % 2, 2 * p);
    assert Pow2(0) == 1 && x / 1 == x;
  }

  /** A digit of the result is set where exactly one of the numbers has it. */
  lemma {:induction false} XorDigit(i: nat, j: nat, k: nat)
    ensures Bit(XorNat(i, j), k) <==> Bit(i, k) != Bit(j, k)
    decreases k
  {
    hide Bit, XorNat;
    XorStep(i, j);
    var x := XorNat(i, j);
    HalfDigit(i, if k > 0 then k - 1 else 0);
    HalfDigit(j, if k > 0 then k - 1 else 0);
    HalfDigit(x, if k > 0 then k - 1 else 0);
    if k > 0 { XorDigit(i / 2, j / 2, k - 1); }
  }
}
