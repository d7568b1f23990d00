/** The layout of a key with check bits at the positions 1, 2, 4, ... (counted from 1), and its undoing. */
module HammingLayout {
  import opened Powers

  lemma {:induction false} PowerLarge(i: nat)
    ensures Pow2(i) >= 2 * i && Pow2(i) >= i + 1
  {
    if i > 1 { PowerLarge(i - 1); }
  }

  /** How many check bits a key of `l` bits gets, when it has `i` of them already. */
  function Checks(l: nat, i: nat): (r: nat)
    ensures i <= r && Pow2(r) >= l + r
    ensures forall j :: i <= j < r ==> Pow2(j) < l + j
    decreases l - i
  {
    PowerLarge(i);
    if Pow2(i) < l + i then Checks(l, i + 1) else i
  }

  /** Check bit `i` goes in front of bit 2^i - 1. */
  function Insert(key: seq<bool>, i: nat): (r: seq<bool>)
    requires Pow2(i) - 1 <= |key|
    ensures |r| == |key| + 1
  {
    key[..Pow2(i) - 1] + [false] + key[Pow2(i) - 1..]
  }

  ghost predicate Insertable(l: nat, i: nat) { forall j :: 0 <= j < i ==> Pow2(j) < l + j }

  function Inserted(key: seq<bool>, i: nat): (r: seq<bool>)
    requires Insertable(|key|, i)
    ensures |r| == |key| + i
  {
    if i == 0 then key else Insert(Inserted(key, i - 1), i - 1)
  }

  /** The key with room for all its check bits. */
  function Expanded(key: seq<bool>): (r: seq<bool>)
    ensures |r| == |key| + Checks(|key|, 0)
  {
    Inserted(key, Checks(|key|, 0))
  }

  /** Remove bit `at`. */
  function Without(x: seq<bool>, at: nat): (r: seq<bool>)
    requires at < |x|
    ensures |r| == |x| - 1
  {
    x[..at] + x[at + 1..]
  }

  /** Without the first `i` check bits. */
  function Strip(x: seq<bool>, i: nat): (r: seq<bool>)
    requires i == 0 || Pow2(i - 1) <= |x|
    ensures |r| == |x| - i
  {
    if i == 0 then x
    else
      PowerLarge(i - 1);
      PowerStep(i);
      Without(Strip(x, i - 1), Pow2(i - 1) - 1 - (i - 1))
  }

  lemma PowerStep(i: nat)
    requires i > 0
    ensures i == 1 || Pow2(i - 1) == 2 * Pow2(i - 2)
  {
  }

  lemma {:induction false} StripAppend(p: seq<bool>, q: seq<bool>, i: nat)
    requires i == 0 || Pow2(i - 1) <= |p|
    ensures Strip(p + q, i) == Strip(p, i) + q
    decreases i
  {
    hide Pow2, Without;
    if i > 0 {
      PowerLarge(i - 1);
      PowerStep(i);
      StripAppend(p, q, i - 1);
      WithoutAppend(Strip(p, i - 1), q, Pow2(i - 1) - 1 - (i - 1));
    }
  }

  lemma WithoutAppend(p: seq<bool>, q: seq<bool>, at: nat)
    requires at < |p|
    ensures Without(p + q, at) == Without(p, at) + q
  {
  }

  lemma WithoutMiddle(p: seq<bool>, b: bool, q: seq<bool>)
    ensures Without(p + ([b] + q), |p|) == p + q
  {
  }

  /** The last check bit to go is the one behind `p`. */
  lemma StripLast(p: seq<bool>, b: bool, q: seq<bool>, i: nat)
    requires |p| == Pow2(i) - 1
    ensures i == 0 || Pow2(i - 1) <= |p|
    ensures Strip(p + ([b] + q), i + 1) == Strip(p, i) + q
  {
    hide Pow2, Without;
    PowerLarge(i);
    if i > 0 { PowerBelow(i - 1, i); }
    StripAppend(p, [b] + q, i);
    StripStep(p + ([b] + q), i + 1);
    WithoutMiddle(Strip(p, i), b, q);
  }

  lemma StripStep(x: seq<bool>, i: nat)
    requires i > 0 && Pow2(i - 1) <= |x|
    ensures (i == 1 || Pow2(i - 2) <= |x|) && Pow2(i - 1) >= i
    ensures Strip(x, i) == Without(Strip(x, i - 1), Pow2(i - 1) - i)
  {
    PowerLarge(i - 1);
    PowerStep(i);
  }

  lemma SplitAt(x: seq<bool>, n: nat)
    requires n < |x|
    ensures x == x[..n] + ([x[n]] + x[n + 1..])
  {
  }

  /** Erasing a check bit that has just been inserted. */
  lemma StripInsert(k: seq<bool>, i: nat)
    requires Pow2(i) - 1 <= |k| && (i == 0 || Pow2(i - 1) <= |k|)
    ensures Strip(Insert(k, i), i + 1) == Strip(k, i)
  {
    hide Strip, Pow2;
    var n := Pow2(i) - 1;
    var p, q := k[..n], k[n..];
    assert k == p + q && Insert(k, i) == p + ([false] + q);
    StripLast(p, false, q, i);
    StripAppend(p, q, i);
  }

  /** Erasing the check bits undoes inserting them. */
  lemma {:induction false} StripInserted(key: seq<bool>, i: nat)
    requires Insertable(|key|, i)
    ensures i == 0 || Pow2(i - 1) <= |key| + i
    ensures Strip(Inserted(key, i), i) == key
  {
    hide Insert, Strip, Pow2;
    if i == 0 {
      StripNothing(key);
    } else {
      StripInserted(key, i - 1);
      assert Pow2(i - 1) < |key| + (i - 1);
      StripInsert(Inserted(key, i - 1), i - 1);
    }
  }

  /** Index `q` holds one of the first `i` check bits. */
  ghost predicate IsCheck(q: nat, i: nat) { exists j :: 0 <= j < i && q == Pow2(j) - 1 }

  /** Stripping does not depend on the check bits. */
  lemma {:induction false} StripSame(x: seq<bool>, y: seq<bool>, i: nat)
    requires |x| == |y| && (i == 0 || Pow2(i - 1) <= |x|)
    requires forall q :: 0 <= q < |x| && !IsCheck(q, i) ==> x[q] == y[q]
    ensures Strip(x, i) == Strip(y, i)
    decreases i
  {
    hide Pow2, IsCheck, Strip;
    if i == 0 {
      forall q | 0 <= q < |x| ensures x[q] == y[q] { NoChecks(q); }
      StripNothing(x);
      StripNothing(y);
    } else {
      PowerLarge(i - 1);
      var n := Pow2(i - 1) - 1;
      var px, qx, py, qy := x[..n], x[n + 1..], y[..n], y[n + 1..];
      SplitAt(x, n);
      SplitAt(y, n);
      forall q | n < q < |x| ensures x[q] == y[q] { NoCheckBehind(q, i); }
      assert qx == qy;
      forall q | 0 <= q < n && !IsCheck(q, i - 1) ensures px[q] == py[q] { NotTheLastCheck(q, i); }
      StripLast(px, x[n], qx, i - 1);
      StripLast(py, y[n], qy, i - 1);
      StripSame(px, py, i - 1);
    }
  }

  lemma StripNothing(x: seq<bool>)
    ensures Strip(x, 0) == x
  {
  }

  lemma NoCheckBehind(q: nat, i: nat)
    requires i > 0 && q >= Pow2(i - 1)
    ensures !IsCheck(q, i)
  {
    forall j | 0 <= j < i ensures q != Pow2(j) - 1 {
      if j < i - 1 { PowerBelow(j, i - 1); }
    }
  }

  lemma NotTheLastCheck(q: nat, i: nat)
    requires i > 0 && q < Pow2(i - 1) - 1
    ensures IsCheck(q, i) <==> IsCheck(q, i - 1)
  {
    if IsCheck(q, i) {
      var j :| 0 <= j < i && q == Pow2(j) - 1;
      assert j < i - 1;
    }
  }

  // Where a key bit ends up

  /** Where bit `d` of the key is after `i` insertions. */
  function Shift(d: nat, i: nat): nat {
    if i == 0 then d
    else
      var s := Shift(d, i - 1);
      if s < Pow2(i - 1) - 1 then s else s + 1
  }

  lemma InsertUpdate(key: seq<bool>, i: nat, d: nat, v: bool)
    requires Pow2(i) - 1 <= |key| && d < |key|
    ensures Insert(key[d := v], i) == Insert(key, i)[if d < Pow2(i) - 1 then d else d + 1 := v]
  {
  }

  lemma {:induction false} InsertedUpdate(key: seq<bool>, i: nat, d: nat, v: bool)
    requires Insertable(|key|, i) && d < |key|
    ensures Shift(d, i) < |key| + i && !IsCheck(Shift(d, i), i)
    ensures Inserted(key[d := v], i) == Inserted(key, i)[Shift(d, i) := v]
  {
    hide IsCheck, Pow2, Insert;
    if i == 0 {
      NoChecks(d);
    } else {
      InsertedUpdate(key, i - 1, d, v);
      var s := Shift(d, i - 1);
      assert Pow2(i - 1) < |key| + (i - 1);
      InsertUpdate(Inserted(key, i - 1), i - 1, s, v);
      if s < Pow2(i - 1) - 1 { NotTheLastCheck(s, i); } else { NoCheckBehind(s + 1, i); }
    }
  }

  lemma NoChecks(q: nat)
    ensures !IsCheck(q, 0)
  {
  }

  /** Only the last bit of the key is as far out as can be. */
  lemma {:induction false} ShiftLast(l: nat, i: nat, d: nat)
    requires Insertable(l, i) && d < l
    ensures Shift(d, i) <= l - 1 + i && (Shift(d, i) == l - 1 + i <==> d == l - 1)
  {
    if i > 0 {
      ShiftLast(l, i - 1, d);
      assert Pow2(i - 1) < l + (i - 1);
    }
  }

  /** The inserted bits are 0. */
  lemma {:induction false} InsertedChecks(key: seq<bool>, i: nat, j: nat)
    requires Insertable(|key|, i) && j < i
    ensures Pow2(j) - 1 < |key| + i && !Inserted(key, i)[Pow2(j) - 1]
    decreases i
  {
    hide Insert, Pow2;
    assert Pow2(i - 1) < |key| + (i - 1);
    PowerLarge(j);
    var k := Inserted(key, i - 1);
    if j < i - 1 {
      InsertedChecks(key, i - 1, j);
      PowerBelow(j, i - 1);
      InsertBit(k, i - 1, Pow2(j) - 1);
    } else {
      InsertBit(k, j, Pow2(j) - 1);
    }
  }

  lemma InsertBit(k: seq<bool>, i: nat, q: nat)
    requires Pow2(i) - 1 <= |k| && q < Pow2(i)
    ensures Insert(k, i)[q] == if q == Pow2(i) - 1 then false else k[q]
  {
  }

  // The erasing loop

  /** How many bits the erasing loop erases from `s` bits, when it has erased `i` already. */
  function Erases(s: nat, i: nat): (e: nat)
    ensures i <= e && Pow2(e) + e >= s
    ensures forall j :: i <= j < e ==> Pow2(j) + j < s
    decreases s - i
  {
    if Pow2(i) + i < s then Erases(s, i + 1) else i
  }

  /** The loop erases as many bits as were inserted, unless the key is too short for that: then it
      erases fewer. */
  lemma ErasesAll(l: nat)
    ensures var r := Checks(l, 0);
            var e := Erases(l + r, 0);
            e <= r && (e == r <==> r == 0 || Pow2(r - 1) <= l)
  {
    var r := Checks(l, 0);
    var e := Erases(l + r, 0);
    if r < e {
      assert false;
    }
    if r > 0 && e < r {
      if e < r - 1 { PowerBelow(e, r - 1); }
    }
    if r > 0 && e == r {
      assert Pow2(r - 1) + (r - 1) < l + r;
    }
  }
}
