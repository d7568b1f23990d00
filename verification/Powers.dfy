/** Powers of two and the binary digits of a number. */
module Powers {
  import opened Division

  function Pow2(k: nat): (p: nat)
    ensures p > 0
  {
    if k == 0 then 1 else 2 * Pow2(k - 1)
  }

  /** Binary digit `k` of `x`. */
  predicate Bit(x: nat, k: nat) { x / Pow2(k) % 2 == 1 }

  lemma BitIs(x: nat, k: nat, q: nat, r: nat)
    requires x == q * Pow2(k) + r && r < Pow2(k)
    ensures Bit(x, k) <==> q % 2 == 1
  {
    ModIs(x, q, r, Pow2(k));
  }

  /** A power of two has one digit. */
  lemma {:induction false} BitOfPower(s: nat, k: nat)
    ensures Bit(Pow2(s), k) <==> s == k
  {
    if s < k {
      PowerBelow(s, k);
      BitIs(Pow2(s), k, 0, Pow2(s));
    } else if s == k {
      BitIs(Pow2(s), k, 1, 0);
    } else {
      EvenPower(s, k + 1);
      var m :| Pow2(s) == m * Pow2(k + 1);
      assert m * Pow2(k + 1) == 2 * m * Pow2(k);
      BitIs(Pow2(s), k, 2 * m, 0);
    }
  }

  lemma {:induction false} PowerBelow(s: nat, k: nat)
    requires s < k
    ensures Pow2(s) < Pow2(k)
  {
    if s + 1 < k { PowerBelow(s, k - 1); }
  }

  lemma PowerMonotone(s: nat, k: nat)
    ensures s <= k ==> Pow2(s) <= Pow2(k)
  {
    if s < k { PowerBelow(s, k); }
  }

  lemma {:induction false} EvenPower(s: nat, k: nat)
    requires k <= s
    ensures exists m: nat :: Pow2(s) == m * Pow2(k)
  {
    if s == k {
      assert Pow2(s) == 1 * Pow2(k);
    } else {
      EvenPower(s - 1, k);
      var m: nat :| Pow2(s - 1) == m * Pow2(k);
      assert Pow2(s) == 2 * m * Pow2(k);
    }
  }

  /** The value of the `n` lowest digits of `x`. */
  function LowDigits(x: nat, n: nat): nat {
    if n == 0 then 0 else LowDigits(x, n - 1) + if Bit(x, n - 1) then Pow2(n - 1) else 0
  }

  lemma {:induction false} LowDigitsAre(x: nat, n: nat)
    ensures LowDigits(x, n) == x % Pow2(n)
  {
    hide Bit;
    if n > 0 {
      LowDigitsAre(x, n - 1);
      NextDigit(x, n - 1);
    }
  }

  lemma NextDigit(x: nat, k: nat)
    ensures x % Pow2(k + 1) == x % Pow2(k) + if Bit(x, k) then Pow2(k) else 0
  {
    var p := Pow2(k);
    Halved(x, p);
    Once(p, x / p % 2);
  }

  lemma Once(p: nat, b: nat)
    requires b < 2
    ensures b * p == if b == 1 then p else 0
  {
  }
}
