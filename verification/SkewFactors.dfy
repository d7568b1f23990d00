/** The factors the skew table of Leopard is built from, in any field of characteristic 2: at every
    layer no sum of some of them is 0 or 1. */
module SkewFactors {
  import opened Powers

  /** LogLUT, MultiplyLog, AddMod and kModulus of a field, with the elements that occur in it. */
  datatype Tables<!E(!new)> = Tables(within: E -> bool, zero: E, one: E, plus: (E, E) -> E,
                               log: E -> E, multiplyLog: (E, E) -> E, addMod: (E, E) -> E,
                               inverse: E -> E,   // the logarithm of 1 / x: kModulus - LogLUT[x]
                               modulus: E)
  {
    /** x * (x + 1), the way the initialization computes it for an x other than 0 and 1 */
    function Product(x: E): E { multiplyLog(x, log(plus(x, one))) }

    ghost function Linear(x: E): E { if x == zero || x == one then zero else Product(x) }

    ghost predicate PlusLaws() {
      && within(zero) && within(one) && one != zero
      && (forall x, y {:trigger plus(x, y)} :: within(x) && within(y) ==> within(plus(x, y)))
      && (forall x, y, z {:trigger plus(x, plus(y, z))} :: within(x) && within(y) && within(z) ==>
            plus(x, plus(y, z)) == plus(plus(x, y), z))
      && (forall x {:trigger plus(zero, x)} :: within(x) ==> plus(zero, x) == x)
      && (forall x {:trigger plus(x, zero)} :: within(x) ==> plus(x, zero) == x)
      && (forall x {:trigger plus(x, x)} :: within(x) ==> plus(x, x) == zero)
    }

    ghost predicate LogLaws() {
      && log(zero) == modulus
      && (forall x {:trigger log(x)} :: within(x) ==> within(log(x)) && (log(x) == modulus ==> x == zero))
      && (forall x {:trigger inverse(x)} :: within(x) ==> within(inverse(x)))
    }

    ghost predicate ScaleLaws() {
      && (forall x, t {:trigger multiplyLog(x, t)} :: within(x) && within(t) ==>
            within(multiplyLog(x, t)) && (multiplyLog(x, t) == zero <==> x == zero))
      && (forall x, y, t {:trigger multiplyLog(plus(x, y), t)} :: within(x) && within(y) && within(t) ==>
            multiplyLog(plus(x, y), t) == plus(multiplyLog(x, t), multiplyLog(y, t)))
      && (forall x {:trigger inverse(x)} :: within(x) && x != zero ==> multiplyLog(x, inverse(x)) == one)
    }

    /** In characteristic 2, x * (x + 1) is additive and zero only for 0 and 1. */
    ghost predicate LinearLaws() {
      && (forall x, y {:trigger Linear(plus(x, y))} :: within(x) && within(y) ==>
            Linear(plus(x, y)) == plus(Linear(x), Linear(y)))
      && (forall x {:trigger Linear(x)} :: within(x) ==> (Linear(x) == zero <==> x == zero || x == one))
      && (forall x, t {:trigger addMod(log(plus(x, one)), t)} :: within(x) && within(t) && x != zero && x != one ==>
            multiplyLog(x, addMod(log(plus(x, one)), t)) == multiplyLog(Product(x), t))
    }

    ghost predicate OfField() { PlusLaws() && LogLaws() && ScaleLaws() && LinearLaws() }
  }

  // Sums of some of the factors

  /** The sum of the factors that the binary digits of `x` select. */
  function Combo<E(!new)>(f: Tables<E>, ts: seq<E>, x: nat): E
    decreases |ts|
  {
    if ts == [] then f.zero else f.plus(if x % 2 == 1 then ts[0] else f.zero, Combo(f, ts[1..], x / 2))
  }

  /** No sum of some factors is 0 or 1. */
  ghost predicate Independent<E(!new)>(f: Tables<E>, ts: seq<E>) {
    forall x: nat :: 0 < x < Pow2(|ts|) ==> Combo(f, ts, x) != f.zero && Combo(f, ts, x) != f.one
  }

  ghost predicate AllWithin<E(!new)>(f: Tables<E>, ts: seq<E>) { forall i :: 0 <= i < |ts| ==> f.within(ts[i]) }

  lemma {:induction false} ComboWithin<E(!new)>(f: Tables<E>, ts: seq<E>, x: nat)
    requires f.PlusLaws() && AllWithin(f, ts)
    ensures f.within(Combo(f, ts, x))
    decreases |ts|
  {
    if ts != [] {
      ComboWithin(f, ts[1..], x / 2);
      assert f.within(ts[0]);
    }
  }

  lemma {:induction false} ComboZero<E(!new)>(f: Tables<E>, ts: seq<E>)
    requires f.PlusLaws()
    ensures Combo(f, ts, 0) == f.zero
    decreases |ts|
  {
    if ts != [] { ComboZero(f, ts[1..]); }
  }

  /** One digit more. */
  lemma {:induction false} ComboDigit<E(!new)>(f: Tables<E>, ts: seq<E>, q: nat, x: nat)
    requires f.PlusLaws() && AllWithin(f, ts) && q < |ts| && x < Pow2(q)
    ensures Combo(f, ts, x + Pow2(q)) == f.plus(Combo(f, ts, x), ts[q])
    decreases q
  {
    assert f.within(ts[0]) && f.within(ts[q]);
    if q == 0 {
      ComboZero(f, ts);
      ComboZero(f, ts[1..]);
      assert Combo(f, ts, 1) == f.plus(ts[0], Combo(f, ts[1..], 0));
    } else {
      ComboDigit(f, ts[1..], q - 1, x / 2);
      ComboWithin(f, ts[1..], x / 2);
      assert (x + Pow2(q)) / 2 == x / 2 + Pow2(q - 1) && (x + Pow2(q)) % 2 == x % 2;
    }
  }

  lemma FactorIsProper<E(!new)>(f: Tables<E>, ts: seq<E>, q: nat)
    requires f.PlusLaws() && AllWithin(f, ts) && Independent(f, ts) && q < |ts|
    ensures ts[q] != f.zero && ts[q] != f.one
  {
    ComboZero(f, ts);
    ComboDigit(f, ts, q, 0);
    PowerBelow(q, |ts|);
  }

  // The factors of the next layer

  /** What a factor becomes: x * (x + 1), divided by what the first one becomes. */
  ghost function Next<E(!new)>(f: Tables<E>, first: E, x: E): E {
    f.multiplyLog(f.Linear(x), f.inverse(f.Linear(first)))
  }

  ghost function NextAll<E(!new)>(f: Tables<E>, first: E, ts: seq<E>): (r: seq<E>)
    ensures |r| == |ts|
  {
    seq(|ts|, i requires 0 <= i < |ts| => Next(f, first, ts[i]))
  }

  lemma LinearWithin<E(!new)>(f: Tables<E>, x: E)
    requires f.OfField() && f.within(x)
    ensures f.within(f.Linear(x)) && f.within(f.inverse(x))
  {
  }

  lemma NextIsLinear<E(!new)>(f: Tables<E>, first: E, x: E, y: E)
    requires f.OfField() && f.within(first) && first != f.zero && first != f.one && f.within(x) && f.within(y)
    ensures Next(f, first, f.plus(x, y)) == f.plus(Next(f, first, x), Next(f, first, y))
    ensures Next(f, first, x) == f.zero <==> x == f.zero || x == f.one
    ensures f.within(Next(f, first, x)) && Next(f, first, first) == f.one
  {
    LinearWithin(f, first);
    LinearWithin(f, f.Linear(first));
    LinearWithin(f, x);
    LinearWithin(f, y);
    hide Tables.Linear;
  }

  lemma {:induction false} NextCombo<E(!new)>(f: Tables<E>, first: E, ts: seq<E>, x: nat)
    requires f.OfField() && f.within(first) && first != f.zero && first != f.one && AllWithin(f, ts)
    ensures Combo(f, NextAll(f, first, ts), x) == Next(f, first, Combo(f, ts, x))
    decreases |ts|
  {
    hide Next;
    NextIsLinear(f, first, f.zero, f.zero);
    if ts != [] {
      NextCombo(f, first, ts[1..], x / 2);
      assert NextAll(f, first, ts)[1..] == NextAll(f, first, ts[1..]);
      ComboWithin(f, ts[1..], x / 2);
      assert f.within(ts[0]);
      NextIsLinear(f, first, if x % 2 == 1 then ts[0] else f.zero, Combo(f, ts[1..], x / 2));
    }
  }

  /** A sum of next factors that is 0 or 1 would come from a sum of factors that is 0 or 1. */
  lemma NextProper<E(!new)>(f: Tables<E>, first: E, c: E)
    requires f.OfField() && f.within(first) && first != f.zero && first != f.one && f.within(c)
    requires f.plus(f.zero, c) != f.zero && f.plus(f.zero, c) != f.one
    requires f.plus(first, c) != f.zero && f.plus(first, c) != f.one
    ensures Next(f, first, c) != f.zero && Next(f, first, c) != f.one
  {
    hide Next, Tables.ScaleLaws, Tables.LinearLaws, Tables.LogLaws;
    NextIsLinear(f, first, first, c);
    NextIsLinear(f, first, c, first);
    NextIsLinear(f, first, f.plus(first, c), c);
  }

  lemma ComboOfTwice<E(!new)>(f: Tables<E>, ts: seq<E>, x: nat)
    requires ts != []
    ensures var c := Combo(f, ts[1..], x);
            Combo(f, ts, 2 * x) == f.plus(f.zero, c) && Combo(f, ts, 2 * x + 1) == f.plus(ts[0], c)
  {
  }

  lemma SumIsProper<E(!new)>(f: Tables<E>, ts: seq<E>, x: nat)
    requires Independent(f, ts) && 0 < x < Pow2(|ts|)
    ensures Combo(f, ts, x) != f.zero && Combo(f, ts, x) != f.one
  {
    hide Combo, Pow2;
  }

  /** A sum of the next factors. */
  lemma NextSumIsProper<E(!new)>(f: Tables<E>, ts: seq<E>, x: nat)
    requires f.OfField() && ts != [] && Independent(f, ts) && AllWithin(f, ts) && 0 < x < Pow2(|ts| - 1)
    ensures var next := NextAll(f, ts[0], ts[1..]); Combo(f, next, x) != f.zero && Combo(f, next, x) != f.one
  {
    FactorIsProper(f, ts, 0);
    assert Pow2(|ts|) == 2 * Pow2(|ts| - 1) && f.within(ts[0]) && AllWithin(f, ts[1..]);
    hide Next, NextAll, Combo, Pow2, Independent, AllWithin, Tables.PlusLaws, Tables.ScaleLaws, Tables.LinearLaws,
        Tables.LogLaws;
    NextCombo(f, ts[0], ts[1..], x);
    ComboWithin(f, ts[1..], x);
    ComboOfTwice(f, ts, x);
    SumIsProper(f, ts, 2 * x);
    SumIsProper(f, ts, 2 * x + 1);
    NextProper(f, ts[0], Combo(f, ts[1..], x));
  }

  /** The next factors are independent again. */
  lemma NextIndependent<E(!new)>(f: Tables<E>, ts: seq<E>)
    requires f.OfField() && ts != [] && Independent(f, ts) && AllWithin(f, ts)
    ensures Independent(f, NextAll(f, ts[0], ts[1..])) && AllWithin(f, NextAll(f, ts[0], ts[1..]))
  {
    FactorIsProper(f, ts, 0);
    hide Next, Combo, Pow2, Tables.PlusLaws, Tables.ScaleLaws, Tables.LinearLaws, Tables.LogLaws;
    var first, rest := ts[0], ts[1..];
    assert f.within(first);
    forall i | 0 <= i < |rest| ensures f.within(Next(f, first, rest[i])) {
      assert f.within(ts[i + 1]);
      NextIsLinear(f, first, rest[i], rest[i]);
    }
    var next := NextAll(f, first, rest);
    forall x: nat | 0 < x < Pow2(|rest|) ensures Combo(f, next, x) != f.zero && Combo(f, next, x) != f.one {
      NextSumIsProper(f, ts, x);
    }
  }

  // The field of four elements, in which the laws can be seen to hold

  /** The elements 0, 1, w and w + 1, which also stand for the logarithms 0 to 3. */
  datatype Four = F0 | F1 | F2 | F3

  function PlusOfFour(x: Four, y: Four): Four {
    match (x, y)
    case (F0, _) => y
    case (_, F0) => x
    case (F1, F2) => F3
    case (F1, F3) => F2
    case (F2, F1) => F3
    case (F2, F3) => F1
    case (F3, F1) => F2
    case (F3, F2) => F1
    case _ => F0
  }

  function LogOfFour(x: Four): Four {
    match x
    case F0 => F3
    case F1 => F0
    case F2 => F1
    case F3 => F2
  }

  function AddModOfFour(s: Four, t: Four): Four {
    match (s, t)
    case (F0, _) => t
    case (_, F0) => s
    case (F1, F1) => F2
    case (F1, F2) => F3
    case (F2, F1) => F3
    case (F3, F3) => F3
    case (F3, _) => t
    case (_, F3) => s
    case (F2, F2) => F1
  }

  function MultiplyOfFour(x: Four, t: Four): Four {
    if x == F0 then F0
    else
      match AddModOfFour(LogOfFour(x), t)
      case F1 => F2
      case F2 => F3
      case _ => F1
  }

  function InverseOfFour(x: Four): Four {
    match x
    case F0 => F0
    case F1 => F3
    case F2 => F2
    case F3 => F1
  }

  function TablesOfFour(): Tables<Four> {
    Tables(_ => true, F0, F1, (x, y) => PlusOfFour(x, y), x => LogOfFour(x), (x, t) => MultiplyOfFour(x, t),
           (s, t) => AddModOfFour(s, t), x => InverseOfFour(x), F3)
  }

  lemma FourAdds()
    ensures TablesOfFour().PlusLaws() && TablesOfFour().LogLaws()
  {
    var f := TablesOfFour();
    forall x, y, z ensures f.plus(x, f.plus(y, z)) == f.plus(f.plus(x, y), z) {
      PlusInFour(x, y, z);
    }
  }

  lemma PlusInFour(x: Four, y: Four, z: Four)
    ensures PlusOfFour(x, PlusOfFour(y, z)) == PlusOfFour(PlusOfFour(x, y), z)
  {
  }

  lemma ProductInFour(x: Four, y: Four, t: Four)
    ensures MultiplyOfFour(PlusOfFour(x, y), t) == PlusOfFour(MultiplyOfFour(x, t), MultiplyOfFour(y, t))
  {
  }

  lemma FourScales()
    ensures TablesOfFour().ScaleLaws()
  {
    var f := TablesOfFour();
    forall x, y, t ensures f.multiplyLog(f.plus(x, y), t) == f.plus(f.multiplyLog(x, t), f.multiplyLog(y, t)) {
      ProductInFour(x, y, t);
    }
  }

  lemma LinearInFour(x: Four, y: Four)
    ensures TablesOfFour().Linear(PlusOfFour(x, y)) == PlusOfFour(TablesOfFour().Linear(x), TablesOfFour().Linear(y))
    ensures TablesOfFour().Linear(x) == F0 <==> x == F0 || x == F1
  {
  }

  lemma QuotientInFour(x: Four, t: Four)
    requires x != F0 && x != F1
    ensures MultiplyOfFour(x, AddModOfFour(LogOfFour(PlusOfFour(x, F1)), t))
        == MultiplyOfFour(TablesOfFour().Product(x), t)
  {
  }

  lemma FourIsField()
    ensures TablesOfFour().OfField()
  {
    FourAdds();
    FourScales();
    var f := TablesOfFour();
    hide Tables.PlusLaws, Tables.LogLaws, Tables.ScaleLaws, Tables.Linear, Tables.Product;
    hide PlusOfFour, LogOfFour, AddModOfFour, MultiplyOfFour, InverseOfFour;
    forall x, y ensures f.Linear(f.plus(x, y)) == f.plus(f.Linear(x), f.Linear(y)) { LinearInFour(x, y); }
    forall x ensures f.Linear(x) == f.zero <==> x == f.zero || x == f.one { LinearInFour(x, x); }
    forall x, t | x != f.zero && x != f.one
      ensures f.multiplyLog(x, f.addMod(f.log(f.plus(x, f.one)), t)) == f.multiplyLog(f.Product(x), t)
    {
      QuotientInFour(x, t);
    }
  }
}
