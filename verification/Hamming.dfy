/** Hamming codes as kks_console computes them: a check bit is the parity of the positions (counted
    from 1) that have its binary digit.  HammingCode and HammingDecode run the loops of the source,
    with the parity scan kept inside the key. */
module Hamming {
  import opened Division
  import opened HammingLayout
  import opened Options
  import opened Powers

  /** How many of the first `n` bits are 1 at a position with binary digit `st`. */
  function Count(x: seq<bool>, st: nat, n: nat): nat
    requires n <= |x|
  {
    if n == 0 then 0 else Count(x, st, n - 1) + if x[n - 1] && Bit(n, st) then 1 else 0
  }

  predicate Odd(x: seq<bool>, st: nat) { Count(x, st, |x|) % 2 == 1 }

  lemma {:induction false} Skip(x: seq<bool>, st: nat, from: nat, to: nat)
    requires from <= to <= |x| && forall q :: from < q <= to ==> !Bit(q, st)
    ensures Count(x, st, to) == Count(x, st, from)
  {
    hide Bit;
    if from < to { Skip(x, st, from, to - 1); }
  }

  lemma {:induction false} CountAfterFlip(x: seq<bool>, y: seq<bool>, q: nat, st: nat, n: nat)
    requires q < |x| && n <= |x| && y == x[q := !x[q]]
    ensures (Count(x, st, n) % 2 == Count(y, st, n) % 2) <==> !(q < n && Bit(q + 1, st))
    decreases n
  {
    hide Bit;
    if n > 0 { CountAfterFlip(x, y, q, st, n - 1); }
  }

  lemma {:induction false} CountSame(x: seq<bool>, y: seq<bool>, st: nat, n: nat)
    requires |x| == |y| && n <= |x| && forall q :: 0 <= q < n && Bit(q + 1, st) ==> x[q] == y[q]
    ensures Count(x, st, n) == Count(y, st, n)
    decreases n
  {
    hide Bit;
    if n > 0 { CountSame(x, y, st, n - 1); }
  }

  // The check bits of a key

  /** Check bit `i` is the parity of the expanded key over the positions with digit `i`. */
  function Code(key: seq<bool>): (c: seq<bool>)
    ensures |c| == Checks(|key|, 0)
  {
    seq(Checks(|key|, 0), i requires 0 <= i < Checks(|key|, 0) => Odd(Expanded(key), i))
  }

  /** The expanded key after `n` turns of the parity loop. */
  function Filled(x: seq<bool>, n: nat): (r: seq<bool>)
    requires n == 0 || Pow2(n - 1) <= |x|
    ensures |r| == |x|
  {
    if n == 0 then x
    else
      PowerBefore(n - 1);
      var y := Filled(x, n - 1);
      if Odd(y, n - 1) then y[Pow2(n - 1) - 1 := true] else y
  }

  lemma PowerBefore(i: nat)
    ensures i == 0 || Pow2(i - 1) <= Pow2(i)
  {
  }

  lemma SetCheckKeepsOdd(x: seq<bool>, s: nat, st: nat, v: bool)
    requires Pow2(s) <= |x| && s != st
    ensures Odd(x[Pow2(s) - 1 := v], st) == Odd(x, st)
  {
    hide Bit, Pow2;
    BitOfPower(s, st);
    CountSame(x, x[Pow2(s) - 1 := v], st, |x|);
  }

  /** The parity loop changes check bits only, and does not change the parities still to come. */
  lemma {:induction false} FilledKeeps(x: seq<bool>, n: nat)
    requires n == 0 || Pow2(n - 1) <= |x|
    ensures forall st :: n <= st ==> Odd(Filled(x, n), st) == Odd(x, st)
    ensures forall q :: 0 <= q < |x| && !IsCheck(q, n) ==> Filled(x, n)[q] == x[q]
  {
    hide Odd, Pow2, IsCheck;
    if n > 0 {
      PowerBefore(n - 1);
      FilledKeeps(x, n - 1);
      forall st | n <= st ensures Odd(Filled(x, n), st) == Odd(x, st) {
        SetCheckKeepsOdd(Filled(x, n - 1), n - 1, st, true);
      }
      forall q | 0 <= q < |x| && !IsCheck(q, n) ensures Filled(x, n)[q] == x[q] { MoreChecks(q, n); }
    }
  }

  lemma MoreChecks(q: nat, n: nat)
    requires n > 0 && !IsCheck(q, n)
    ensures !IsCheck(q, n - 1) && q != Pow2(n - 1) - 1
  {
  }

  /** After the loop a check bit that was 0 is the parity. */
  lemma {:induction false} FilledCheck(x: seq<bool>, n: nat, s: nat)
    requires n > 0 && Pow2(n - 1) <= |x| && s < n
    ensures Pow2(s) <= |x| && Filled(x, n)[Pow2(s) - 1] == (x[Pow2(s) - 1] || Odd(x, s))
    decreases n
  {
    hide Odd, Pow2, IsCheck;
    PowerBefore(n - 1);
    if s < n - 1 {
      FilledCheck(x, n - 1, s);
      PowerBelow(s, n - 1);
    } else {
      FilledKeeps(x, s);
      ChecksDiffer(s);
    }
  }

  lemma ChecksDiffer(s: nat)
    ensures !IsCheck(Pow2(s) - 1, s)
  {
    forall j | 0 <= j < s ensures Pow2(s) - 1 != Pow2(j) - 1 { PowerBelow(j, s); }
  }

  /** How many turns the parity loop makes. */
  function Turns(size: nat, st: nat): (n: nat)
    ensures st <= n && Pow2(n) > size && (n == st || Pow2(n - 1) <= size)
    decreases size - st
  {
    PowerLarge(st);
    if Pow2(st) <= size then Turns(size, st + 1) else st
  }

  /** Positions with digit `st` come in runs of 2^st. */
  lemma DigitInRun(st: nat, m: nat, k: nat)
    requires k < 2 * Pow2(st)
    ensures Bit((2 * m + 1) * Pow2(st) + k, st) <==> k < Pow2(st)
  {
    var p := Pow2(st);
    if k < p {
      BitIs((2 * m + 1) * p + k, st, 2 * m + 1, k);
    } else {
      assert (2 * m + 1) * p + k == (2 * m + 2) * p + (k - p);
      BitIs((2 * m + 1) * p + k, st, 2 * m + 2, k - p);
    }
  }

  lemma DigitBefore(st: nat, q: nat)
    requires q < Pow2(st)
    ensures !Bit(q, st)
  {
    BitIs(q, st, 0, q);
  }

  /** One run of counted positions: the innermost loop. */
  method CountRun(key: seq<bool>, st: nat, i: nat, ghost m: nat) returns (counter: nat)
    requires i < |key| && i + 1 == (2 * m + 1) * Pow2(st)
    ensures var to := if i + 2 * Pow2(st) < |key| then i + 2 * Pow2(st) else |key|;
            Count(key, st, to) == Count(key, st, i) + counter
  {
    hide Bit, Pow2;
    counter := 0;
    var p := Pow2(st);
    var j := 0;
    while j < p && j + i < |key|
      invariant j <= p && i + j <= |key|
      invariant Count(key, st, i + j) == Count(key, st, i) + counter
    {
      DigitInRun(st, m, j);
      if key[i + j] {
        counter := counter + 1;
      }
      j := j + 1;
    }
    var to := if i + 2 * p < |key| then i + 2 * p else |key|;
    forall q | i + j < q <= to ensures !Bit(q, st) { DigitInRun(st, m, q - 1 - i); }
    Skip(key, st, i + j, to);
  }

  lemma NextRun(i: nat, m: nat, p: nat)
    requires i + 1 == (2 * m + 1) * p
    ensures i + 2 * p + 1 == (2 * (m + 1) + 1) * p
  {
  }

  /** One turn of the parity loop: count the ones at positions with digit `st`. */
  method CountOnes(key: seq<bool>, st: nat) returns (counter: nat)
    requires Pow2(st) <= |key|
    ensures counter == Count(key, st, |key|)
  {
    hide Bit, Pow2;
    PowerLarge(st);
    counter := 0;
    var i := Pow2(st) - 1;
    ghost var m := 0;
    forall q | 0 < q <= i ensures !Bit(q, st) { DigitBefore(st, q); }
    Skip(key, st, 0, i);
    while i < |key|
      invariant i + 1 == (2 * m + 1) * Pow2(st)
      invariant counter == Count(key, st, if i < |key| then i else |key|)
      decreases |key| - i
    {
      var ones := CountRun(key, st, i, m);
      counter := counter + ones;
      NextRun(i, m, Pow2(st));
      i := i + 2 * Pow2(st);
      m := m + 1;
    }
  }

  /** The parity loop. */
  method FillParities(key: seq<bool>) returns (r: seq<bool>)
    ensures r == Filled(key, Turns(|key|, 0))
  {
    hide Pow2, Count;
    r := key;
    var st := 0;
    while Pow2(st) <= |r|
      invariant |r| == |key| && (st == 0 || Pow2(st - 1) <= |key|) && r == Filled(key, st)
      invariant Turns(|key|, st) == Turns(|key|, 0)
      decreases |key| - st
    {
      PowerLarge(st);
      var counter := CountOnes(r, st);
      if counter % 2 != 0 {
        r := r[Pow2(st) - 1 := true];
      }
      st := st + 1;
    }
  }

  /** The loop that makes room for the check bits. */
  method Expand(key: seq<bool>) returns (r: seq<bool>, i: nat)
    ensures r == Expanded(key) && i == Checks(|key|, 0)
  {
    hide Pow2, Insert;
    r := key;
    i := 0;
    while Pow2(i) < |r|
      invariant Insertable(|key|, i) && r == Inserted(key, i) && Checks(|key|, i) == Checks(|key|, 0)
      decreases |key| - i
    {
      PowerLarge(i);
      r := r[..Pow2(i) - 1] + [false] + r[Pow2(i) - 1..];
      assert r == Insert(Inserted(key, i), i) by { InsertIs(Inserted(key, i), i); }
      i := i + 1;
    }
  }

  lemma InsertIs(key: seq<bool>, i: nat)
    requires Pow2(i) - 1 <= |key|
    ensures Insert(key, i) == key[..Pow2(i) - 1] + [false] + key[Pow2(i) - 1..]
  {
  }

  /** The check bits are where the loops of the source look for them. */
  lemma ReadChecks(key: seq<bool>, i: nat)
    requires i < Checks(|key|, 0)
    ensures var x := Expanded(key);
            && Pow2(i) < |x| && |Filled(x, Turns(|x|, 0))| == |x|
            && Filled(x, Turns(|x|, 0))[Pow2(i) - 1] == Code(key)[i]
  {
    hide Odd, Pow2, Insert;
    var r := Checks(|key|, 0);
    var x := Expanded(key);
    assert Pow2(i) < |key| + i;
    PowerLarge(i);
    var n := Turns(|x|, 0);
    PowerMonotone(n, i);
    InsertedChecks(key, r, i);
    FilledCheck(x, n, i);
  }

  /** The loop that reads the check bits out of the expanded key. */
  method ReadOut(key: seq<bool>, x: seq<bool>) returns (cbits: seq<bool>)
    requires |x| == |Expanded(key)| && x == Filled(Expanded(key), Turns(|x|, 0))
    ensures cbits == Code(key)
  {
    hide Odd, Pow2, Insert, Filled, Code;
    ghost var r := Checks(|key|, 0);
    cbits := [];
    var i := 0;
    while Pow2(i) < |x|
      invariant i <= r && |cbits| == i && forall j :: 0 <= j < i ==> cbits[j] == Code(key)[j]
      decreases r - i
    {
      PowerMonotone(r, i);
      PowerLarge(i);
      ReadChecks(key, i);
      cbits := cbits + [x[Pow2(i) - 1]];
      i := i + 1;
    }
    if i < r {
      ReadChecks(key, i);
      assert false;
    }
  }

  method HammingCode(key: seq<bool>) returns (cbits: seq<bool>)
    ensures cbits == Code(key)
  {
    var x, n := Expand(key);
    x := FillParities(x);
    cbits := ReadOut(key, x);
  }

  // Decoding

  /** The sum of 2^i over the check bits that disagree. */
  function Syndrome(key: seq<bool>, cbits: seq<bool>, n: nat): nat
    requires n <= |cbits| <= Checks(|key|, 0)
  {
    if n == 0 then 0 else Syndrome(key, cbits, n - 1) + if cbits[n - 1] != Code(key)[n - 1] then Pow2(n - 1) else 0
  }

  function Flipped(x: seq<bool>, pos: nat): (r: seq<bool>)
    requires pos <= |x|
    ensures |r| == |x|
  {
    if pos == 0 then x else x[pos - 1 := !x[pos - 1]]
  }

  /** There are no more check bits than the key has, and the position they name is in the expanded key. */
  predicate InRange(key: seq<bool>, cbits: seq<bool>) {
    |cbits| <= Checks(|key|, 0) && Syndrome(key, cbits, |cbits|) <= |Expanded(key)|
  }

  function Decoded(key: seq<bool>, cbits: seq<bool>): (r: seq<bool>)
    requires InRange(key, cbits)
    ensures |r| == |Expanded(key)| - Erases(|Expanded(key)|, 0)
  {
    var x := Expanded(key);
    Strip(Flipped(Filled(x, Turns(|x|, 0)), Syndrome(key, cbits, |cbits|)), Erases(|x|, 0))
  }

  /** Nothing is the result when an index of the source leaves its vector. */
  method HammingDecode(key: seq<bool>, cbits: seq<bool>) returns (result: Option<seq<bool>>)
    ensures result == if InRange(key, cbits) then Some(Decoded(key, cbits)) else None
  {
    hide Odd, Pow2, Filled, Code, Expanded;
    var r, n := Expand(key);
    r := FillParities(r);
    var output := ReadOut(key, r);
    var pos, i := 0, 0;
    while i < |cbits|
      invariant i <= |cbits| && i <= |output| && (i > 0 && |cbits| <= |output| ==> pos == Syndrome(key, cbits, i))
      invariant i == 0 ==> pos == 0
    {
      if i >= |output| {
        return None;
      }
      if cbits[i] != output[i] {
        pos := pos + Pow2(i);
      }
      i := i + 1;
    }
    if pos > |r| {
      return None;
    }
    if pos != 0 {
      if r[pos - 1] {
        r := r[pos - 1 := false];
      } else {
        r := r[pos - 1 := true];
      }
    }
    r := Erase(r);
    result := Some(r);
  }

  /** The loop that removes the check bits again. */
  method Erase(x: seq<bool>) returns (r: seq<bool>)
    ensures r == Strip(x, Erases(|x|, 0))
  {
    hide Pow2, Without;
    r := x;
    var i := 0;
    StripNothing(x);
    while Pow2(i) < |r|
      invariant (i == 0 || Pow2(i - 1) <= |x|) && r == Strip(x, i) && |r| == |x| - i
      invariant Erases(|x|, i) == Erases(|x|, 0)
      decreases |r|
    {
      PowerLarge(i);
      StripStep(x, i + 1);
      r := r[..Pow2(i) - 1 - i] + r[Pow2(i) - i..];
      assert r == Without(Strip(x, i), Pow2(i) - 1 - i) by { WithoutIs(Strip(x, i), Pow2(i) - 1 - i); }
      i := i + 1;
    }
  }

  lemma WithoutIs(x: seq<bool>, at: nat)
    requires at < |x|
    ensures Without(x, at) == x[..at] + x[at + 1..]
  {
  }

  // Single errors

  /** An error in bit `d` of the key is an error at one data position of the expanded key. */
  lemma ErrorPosition(key: seq<bool>, d: nat)
    requires d < |key|
    ensures var r := Checks(|key|, 0); var s := Shift(d, r);
            && s < |Expanded(key)| && !IsCheck(s, r)
            && Expanded(key[d := !key[d]]) == Expanded(key)[s := !Expanded(key)[s]]
  {
    hide Inserted, Shift, IsCheck;
    var r := Checks(|key|, 0);
    InsertedUpdate(key, r, d, key[d]);
    InsertedUpdate(key, r, d, !key[d]);
    assert key[d := key[d]] == key;
  }

  /** The check bits that disagree spell the position of the error. */
  lemma {:induction false} SyndromeOfError(key: seq<bool>, d: nat, n: nat)
    requires d < |key| && n <= Checks(|key|, 0)
    ensures Syndrome(key[d := !key[d]], Code(key), n) == LowDigits(Shift(d, Checks(|key|, 0)) + 1, n)
  {
    hide Count, Bit, Expanded, Pow2;
    if n > 0 {
      SyndromeOfError(key, d, n - 1);
      ErrorPosition(key, d);
      var x, s := Expanded(key), Shift(d, Checks(|key|, 0));
      CountAfterFlip(x, x[s := !x[s]], s, n - 1, |x|);
    }
  }

  lemma {:induction false} SyndromeOfNone(key: seq<bool>, n: nat)
    requires n <= Checks(|key|, 0)
    ensures Syndrome(key, Code(key), n) == 0
  {
    hide Code;
    if n > 0 { SyndromeOfNone(key, n - 1); }
  }

  lemma {:induction false} SyndromeOfCheckError(key: seq<bool>, i: nat, n: nat)
    requires i < Checks(|key|, 0) && n <= Checks(|key|, 0)
    ensures Syndrome(key, Code(key)[i := !Code(key)[i]], n) == if i < n then Pow2(i) else 0
  {
    hide Code, Pow2;
    if n > 0 { SyndromeOfCheckError(key, i, n - 1); }
  }

  datatype Error = NoError | InKey(d: nat) | InCheck(i: nat)

  ghost predicate Possible(key: seq<bool>, e: Error) {
    match e
    case NoError => true
    case InKey(d) => d < |key|
    case InCheck(i) => i < Checks(|key|, 0)
  }

  function ReceivedKey(key: seq<bool>, e: Error): (k: seq<bool>)
    requires Possible(key, e)
    ensures |k| == |key|
  {
    if e.InKey? then key[e.d := !key[e.d]] else key
  }

  function ReceivedCode(key: seq<bool>, e: Error): (c: seq<bool>)
    requires Possible(key, e)
    ensures |c| == Checks(|key|, 0)
  {
    if e.InCheck? then Code(key)[e.i := !Code(key)[e.i]] else Code(key)
  }

  /** The loop that erases check bits reaches all of them. */
  predicate Erasable(l: nat) { Checks(l, 0) == 0 || Pow2(Checks(l, 0) - 1) <= l }

  /** The error is in the last bit of a key that just fills a power of two: no check bit covers it. */
  predicate Uncovered(l: nat, e: Error) { e.InKey? && e.d + 1 == l && l + Checks(l, 0) == Pow2(Checks(l, 0)) }

  /** What the syndrome of a single error is. */
  lemma SyndromeIs(key: seq<bool>, e: Error)
    requires Possible(key, e)
    ensures Syndrome(ReceivedKey(key, e), ReceivedCode(key, e), Checks(|key|, 0))
         == match e
            case NoError => 0
            case InKey(d) => if Uncovered(|key|, e) then 0 else Shift(d, Checks(|key|, 0)) + 1
            case InCheck(i) => Pow2(i)
  {
    hide Code, Syndrome, Pow2;
    var r := Checks(|key|, 0);
    match e
    case NoError => SyndromeOfNone(key, r);
    case InCheck(i) => SyndromeOfCheckError(key, i, r);
    case InKey(d) =>
      SyndromeOfError(key, d, r);
      ShiftLast(|key|, r, d);
      var p := Shift(d, r) + 1;
      LowDigitsAre(p, r);
      if p < Pow2(r) { ModIs(p, 0, p, Pow2(r)); } else { ModIs(p, 1, 0, Pow2(r)); }
  }

  lemma SyndromeFits(key: seq<bool>, e: Error)
    requires Possible(key, e)
    ensures Syndrome(ReceivedKey(key, e), ReceivedCode(key, e), Checks(|key|, 0)) <= |Expanded(key)|
    ensures |Expanded(ReceivedKey(key, e))| == |Expanded(key)|
  {
    hide Pow2, Syndrome;
    SyndromeIs(key, e);
    if e.InKey? { ErrorPosition(key, e.d); }
  }

  /** The key bits of the expanded key before the check bits are erased: the received ones, with
      the error undone unless it is not covered. */
  lemma Corrected(key: seq<bool>, e: Error)
    requires Possible(key, e)
    ensures var k, c := ReceivedKey(key, e), ReceivedCode(key, e); var x := Expanded(k);
            && Syndrome(k, c, |c|) <= |x|
            && var want := if Uncovered(|key|, e) then x else Expanded(key);
               forall q :: 0 <= q < |x| && !IsCheck(q, Checks(|key|, 0)) ==>
                 Flipped(Filled(x, Turns(|x|, 0)), Syndrome(k, c, |c|))[q] == want[q]
  {
    hide Pow2, Syndrome, IsCheck, Filled, Expanded, Shift;
    SyndromeIs(key, e);
    SyndromeFits(key, e);
    var r := Checks(|key|, 0);
    var k := ReceivedKey(key, e);
    var x := Expanded(k);
    var n := Turns(|x|, 0);
    forall q | 0 <= q < |x| && !IsCheck(q, r) ensures Filled(x, n)[q] == x[q] { KeyBitsKept(x, |key|, q); }
    match e
    case NoError =>
    case InKey(d) => ErrorPosition(key, d);
    case InCheck(i) => IsCheckAt(i, r);
  }

  lemma IsCheckAt(i: nat, r: nat)
    requires i < r
    ensures IsCheck(Pow2(i) - 1, r)
  {
  }

  lemma OddAtTop(y: seq<bool>, r: nat)
    requires |y| == Pow2(r)
    ensures Odd(y, r) == y[|y| - 1]
  {
    hide Bit, Pow2;
    PowerLarge(r);
    forall q | 0 < q <= |y| - 1 ensures !Bit(q, r) { DigitBefore(r, q); }
    Skip(y, r, 0, |y| - 1);
    BitOfPower(r, r);
  }

  lemma TurnsAre(l: nat)
    ensures var r := Checks(l, 0); var n := Turns(l + r, 0);
            n == if l + r == Pow2(r) then r + 1 else r
  {
    hide Pow2;
    var r := Checks(l, 0);
    var n := Turns(l + r, 0);
    if n < r { TurnsReach(l, n); }
    if n > r + 1 { PowerBelow(r + 1, n); PowerBelow(r, r + 1); PowerBelow2(r, n); }
    if n == r + 1 { assert Pow2(r) <= l + r; }
    if n == r { assert Pow2(r) > l + r; }
  }

  lemma PowerBelow2(r: nat, n: nat)
    requires r + 1 < n
    ensures Pow2(r) < Pow2(n - 1)
  {
    PowerBelow(r, n - 1);
  }

  lemma TurnsReach(l: nat, n: nat)
    requires n < Checks(l, 0)
    ensures Pow2(n) < l + Checks(l, 0)
  {
    assert Pow2(n) < l + n;
  }

  /** The parity loop may make one turn more than there are check bits, at a position that holds a
      key bit; then it changes nothing. */
  lemma KeyBitsKept(x: seq<bool>, l: nat, q: nat)
    requires |x| == l + Checks(l, 0) && q < |x| && !IsCheck(q, Checks(l, 0))
    ensures Filled(x, Turns(|x|, 0))[q] == x[q]
  {
    hide Pow2, IsCheck, Odd;
    var r := Checks(l, 0);
    TurnsAre(l);
    FilledKeeps(x, r);
    if l + r == Pow2(r) {
      OddAtTop(Filled(x, r), r);
    }
  }

  /** When decoding gets the key back: for a single error in the key or in its check bits, decoding
      returns the key exactly if the erasing loop reaches all check bits and the error is covered by
      one of them. */
  lemma DecodingCorrectsOneError(key: seq<bool>, e: Error)
    requires Possible(key, e)
    ensures var k, c := ReceivedKey(key, e), ReceivedCode(key, e);
            && InRange(k, c)
            && (Decoded(k, c) == key <==> Erasable(|key|) && !Uncovered(|key|, e))
  {
    hide Pow2, Syndrome, IsCheck, Filled, Inserted, Flipped, Strip, Code;
    var k, c, r := ReceivedKey(key, e), ReceivedCode(key, e), Checks(|key|, 0);
    var x := Expanded(k);
    Corrected(key, e);
    ErasesAll(|key|);
    if Erasable(|key|) {
      assert r == 0 || Pow2(r - 1) < |key| + (r - 1);
      var y := Flipped(Filled(x, Turns(|x|, 0)), Syndrome(k, c, |c|));
      if Uncovered(|key|, e) {
        StripSame(y, x, r);
        StripInserted(k, r);
        assert Decoded(k, c) == k;
        assert k[e.d] != key[e.d];
      } else {
        StripSame(y, Expanded(key), r);
        StripInserted(key, r);
      }
    }
  }

  /** Lengths at which one of the two conditions fails. */
  lemma ShortKeys()
    ensures Uncovered(1, InKey(0)) && Uncovered(2, InKey(1)) && Erasable(1) && Erasable(2) && !Erasable(3)
  {
    assert Pow2(0) == 1 && Pow2(1) == 2 && Pow2(2) == 4 && Pow2(3) == 8;
    assert Checks(1, 0) == 0;
    assert Checks(2, 2) == 2 && Checks(2, 1) == 2 && Checks(2, 0) == 2;
    assert Checks(3, 3) == 3 && Checks(3, 2) == 3 && Checks(3, 1) == 3 && Checks(3, 0) == 3;
  }
}
