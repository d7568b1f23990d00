/** FFTInitialize: the skew table is zero exactly at the powers of two, in every field of
    characteristic 2 whose elements are numbers added by exclusive or.  So no chunk of the encoder
    meets the case that its transform treats wrong. */
module SkewTable {
  import opened Butterfly
  import opened EncoderXor
  import opened LeopardRows
  import opened Powers
  import opened SkewFactors
  import opened XorIndex

  type Element = bv16   // ffe_t: an element of the field, or the logarithm of one

  // Elements

  /** 1UL << i */
  function One(i: nat): Element {
    if i == 0 then 1 else One(i - 1) << 1
  }

  function Plus(x: Element, y: Element): Element { x ^ y }

  predicate Fits(x: Element, modulus: Element) { x & modulus == x }

  /** The field of the tables: exclusive or of numbers that fit kModulus, whose bits are all set. */
  function Field(log: Element -> Element, multiplyLog: (Element, Element) -> Element,
                 addMod: (Element, Element) -> Element, modulus: Element): Tables<Element>
  {
    Tables(x => Fits(x, modulus), 0, 1, (x, y) => Plus(x, y), log, multiplyLog, addMod, x => modulus - log(x), modulus)
  }

  lemma OneIsBit(e: nat)
    requires e < 16
    ensures One(e) != 0 && One(e) & (One(e) - 1) == 0
  {
    assert One(1) == 2 && One(2) == 4 && One(3) == 8;
    assert One(4) == 0x10 && One(5) == 0x20 && One(6) == 0x40 && One(7) == 0x80;
    assert One(8) == 0x100 && One(9) == 0x200 && One(10) == 0x400 && One(11) == 0x800;
    assert One(12) == 0x1000 && One(13) == 0x2000 && One(14) == 0x4000 && One(15) == 0x8000;
  }

  lemma LowestBit(v: Element, c: Element)
    requires v != 0 && v & (v - 1) == 0 && c & ((v << 1) - 1) == 0
    ensures c & (v - 1) == 0 && Plus(v, c) & (v - 1) == 0 && Plus(v, c) != 0 && Plus(0, c) == c
  {
  }

  lemma LowerBits(v: Element, u: Element)
    requires v != 0 && v & (v - 1) == 0
    ensures v & ((v << 1) - 1) == v && (u & (v - 1) == u ==> u & ((v << 1) - 1) == u)
  {
  }

  lemma {:induction false} OneFits(i: nat, bits: nat)
    requires i < bits <= 16
    ensures Fits(One(i), One(bits) - 1)
    decreases bits
  {
    OneIsBit(bits - 1);
    if i < bits - 1 { OneFits(i, bits - 1); }
    LowerBits(One(bits - 1), One(i));
  }

  lemma XorLaws(x: Element, y: Element, z: Element, m: Element)
    ensures Plus(x, Plus(y, z)) == Plus(Plus(x, y), z) && Plus(0, x) == x == Plus(x, 0) && Plus(x, x) == 0
    ensures Fits(0, m) && (Fits(x, m) && Fits(y, m) ==> Fits(Plus(x, y), m))
  {
  }

  /** Exclusive or is an addition. */
  lemma PlusIsXor(log: Element -> Element, multiplyLog: (Element, Element) -> Element,
                  addMod: (Element, Element) -> Element, modulus: Element)
    requires Fits(1, modulus)
    ensures Field(log, multiplyLog, addMod, modulus).PlusLaws()
  {
    hide Plus, Fits;
    var f := Field(log, multiplyLog, addMod, modulus);
    forall x, y | f.within(x) && f.within(y) ensures f.within(f.plus(x, y)) { XorLaws(x, y, y, modulus); }
    forall x, y, z ensures f.plus(x, f.plus(y, z)) == f.plus(f.plus(x, y), z) { XorLaws(x, y, z, modulus); }
    forall x ensures f.plus(f.zero, x) == x { XorLaws(x, x, x, modulus); }
    forall x ensures f.plus(x, f.zero) == x { XorLaws(x, x, x, modulus); }
    forall x ensures f.plus(x, x) == f.zero { XorLaws(x, x, x, modulus); }
    XorLaws(0, 0, 0, modulus);
  }

  // The factors at the start

  function Bits(e: nat, n: nat): (r: seq<Element>)
    ensures |r| == n
  {
    seq(n, i requires 0 <= i < n => One(e + i))
  }

  lemma FirstBit(f: Tables<Element>, e: nat, n: nat, x: nat)
    requires n > 0
    ensures Combo(f, Bits(e, n), x) == f.plus(if x % 2 == 1 then One(e) else f.zero,
        Combo(f, Bits(e + 1, n - 1), x / 2))
  {
    hide One;
    assert Bits(e, n)[1..] == Bits(e + 1, n - 1);
  }

  lemma {:induction false} BitsCombo(f: Tables<Element>, e: nat, n: nat, x: nat)
    requires f.zero == 0 && (forall a, b :: f.plus(a, b) == Plus(a, b)) && e + n <= 16 && x < Pow2(n)
    ensures Combo(f, Bits(e, n), x) & (One(e) - 1) == 0 && (x > 0 ==> Combo(f, Bits(e, n), x) != 0)
    decreases n
  {
    if n > 0 {
      BitsCombo(f, e + 1, n - 1, x / 2);
      FirstBit(f, e, n, x);
      hide Combo, Bits;
      OneIsBit(e);
      LowestBit(One(e), Combo(f, Bits(e + 1, n - 1), x / 2));
    }
  }

  lemma BitsIndependent(f: Tables<Element>, n: nat)
    requires f.zero == 0 && f.one == 1 && (forall a, b :: f.plus(a, b) == Plus(a, b)) && n <= 15
    ensures Independent(f, Bits(1, n))
  {
    hide Combo, Bits;
    forall x: nat | 0 < x < Pow2(n) ensures Combo(f, Bits(1, n), x) != 0 && Combo(f, Bits(1, n), x) != 1 {
      BitsCombo(f, 1, n, x);
      assert One(1) == 2;
    }
  }

  // Positions

  /** Position `x` of layer `m`, counted from 1: an odd number times 2^m. */
  function Place(m: nat, x: nat): (p: nat)
    ensures p > 0
  {
    if m == 0 then 2 * x + 1 else 2 * Place(m - 1, x)
  }

  lemma {:induction false} PlaceSteps(m: nat, x: nat, q: nat)
    ensures Place(m, 0) == Pow2(m) && Place(m, x + 1) == Place(m, x) + Pow2(m + 1)
    ensures Place(m, x + Pow2(q)) == Place(m, x) + Pow2(m + q + 1)
    ensures if x < Pow2(q) then Place(m, x) < Pow2(m + q + 1) else Place(m, x) > Pow2(m + q + 1)
    decreases m
  {
    if m > 0 { PlaceSteps(m - 1, x, q); }
  }

  lemma {:induction false} PlaceIsUnique(m: nat, x: nat, n: nat, y: nat)
    requires Place(m, x) == Place(n, y)
    ensures m == n && x == y
    decreases m
  {
    if m > 0 && n > 0 { PlaceIsUnique(m - 1, x, n - 1, y); }
  }

  lemma {:induction false} EveryPlace(p: nat, bits: nat) returns (m: nat, x: nat)
    requires 0 < p < Pow2(bits)
    ensures m < bits && p == Place(m, x)
    decreases p
  {
    if p % 2 == 1 {
      m, x := 0, p / 2;
    } else {
      m, x := EveryPlace(p / 2, bits - 1);
      m := m + 1;
    }
  }

  lemma {:induction false} PlaceOfPower(m: nat, x: nat)
    ensures PowerOfTwo(Place(m, x)) <==> x == 0
    decreases m
  {
    var p := Place(m, x);
    if m > 0 {
      PlaceOfPower(m - 1, x);
      PowerDoubled(p / 2);
    } else if x > 0 && PowerOfTwo(p) {
      HalfOf(p, 1);
    }
  }

  // The table

  /** The first `k` places of layer `m` hold the sums of the factors. */
  ghost predicate LayerDone(f: Tables<Element>, t: seq<Element>, ts: seq<Element>, m: nat, k: nat) {
    forall x: nat :: x < k ==> Place(m, x) <= |t| && t[Place(m, x) - 1] == Combo(f, ts, x)
  }

  /** Only places of layer `m` have changed. */
  ghost predicate OthersKept(now: seq<Element>, was: seq<Element>, m: nat) {
    |now| == |was| && forall n: nat, x: nat :: n != m && Place(n, x) <= |now| ==>
        now[Place(n, x) - 1] == was[Place(n, x) - 1]
  }

  lemma SetPlace(f: Tables<Element>, t: seq<Element>, was: seq<Element>, ts: seq<Element>, m: nat, k: nat)
    requires LayerDone(f, t, ts, m, k) && OthersKept(t, was, m) && Place(m, k) <= |t|
    ensures LayerDone(f, t[Place(m, k) - 1 := Combo(f, ts, k)], ts, m, k + 1)
    ensures OthersKept(t[Place(m, k) - 1 := Combo(f, ts, k)], was, m)
  {
    hide Combo, Place;
    var v := t[Place(m, k) - 1 := Combo(f, ts, k)];
    forall x: nat | x < k + 1 ensures Place(m, x) <= |v| && v[Place(m, x) - 1] == Combo(f, ts, x) {
      if Place(m, x) == Place(m, k) { PlaceIsUnique(m, x, m, k); }
    }
    forall n: nat, x: nat | n != m && Place(n, x) <= |v| ensures v[Place(n, x) - 1] == was[Place(n, x) - 1] {
      if Place(n, x) == Place(m, k) { PlaceIsUnique(n, x, m, k); }
    }
  }

  /** The inner loops: layer `m` of the table. */
  method FillLayer(f: Tables<Element>, temp: array<Element>, table: array<Element>, m: nat, bits: nat)
    requires f.PlusLaws() && m < bits - 1 == temp.Length && table.Length == Pow2(bits) - 1 && temp != table
    requires AllWithin(f, temp[m..])
    modifies table
    ensures LayerDone(f, table[..], temp[m..], m, Pow2(bits - 1 - m)) && OthersKept(table[..], old(table[..]), m)
  {
    hide Combo, Place, Pow2, LayerDone, OthersKept, AllWithin, Tables.PlusLaws;
    ghost var was, ts := table[..], temp[m..];
    PlaceSteps(m, 0, bits - 1 - m);
    var step := Pow2(m + 1);
    LayerStart(f, was, ts, m);
    table[Pow2(m) - 1] := f.zero;
    PowerSteps();
    for i := m to bits - 1
      invariant LayerDone(f, table[..], ts, m, Pow2(i - m)) && OthersKept(table[..], was, m)
    {
      ghost var q := i - m;
      var s := Pow2(i + 1);
      PlaceSteps(m, 0, q);
      var j := Pow2(m) - 1;
      ghost var x := 0;
      while j < s
        invariant j == Place(m, x) - 1 && x <= Pow2(q)
        invariant LayerDone(f, table[..], ts, m, Pow2(q) + x) && OthersKept(table[..], was, m)
        decreases Pow2(q) - x
      {
        PlaceSteps(m, x, q);
        PlaceInTable(m, x, q, bits);
        DoneAt(f, table[..], ts, m, Pow2(q) + x, x);
        ComboDigit(f, ts, q, x);
        SetPlace(f, table[..], was, ts, m, x + Pow2(q));
        table[j + s] := f.plus(table[j], temp[i]);
        j := j + step;
        x := x + 1;
      }
      PlaceSteps(m, x, q);
      DoublePower(q);
    }
  }

  lemma PowerSteps()
    ensures Pow2(0) == 1
  {
  }

  lemma DoublePower(q: nat)
    ensures Pow2(q + 1) == 2 * Pow2(q)
  {
  }

  lemma LayerStart(f: Tables<Element>, t: seq<Element>, ts: seq<Element>, m: nat)
    requires f.PlusLaws() && Pow2(m) <= |t|
    ensures LayerDone(f, t[Pow2(m) - 1 := f.zero], ts, m, 1) && OthersKept(t[Pow2(m) - 1 := f.zero], t, m)
  {
    hide Combo, Place;
    PlaceSteps(m, 0, 0);
    ComboZero(f, ts);
    SetPlace(f, t, t, ts, m, 0);
  }

  lemma DoneAt(f: Tables<Element>, t: seq<Element>, ts: seq<Element>, m: nat, k: nat, x: nat)
    requires LayerDone(f, t, ts, m, k) && x < k
    ensures Place(m, x) <= |t| && t[Place(m, x) - 1] == Combo(f, ts, x)
  {
  }

  lemma PlaceInTable(m: nat, x: nat, q: nat, bits: nat)
    requires m + q < bits - 1 && Place(m, x) <= Pow2(m + q + 1)
    ensures x < Pow2(q) && Place(m, x + Pow2(q)) < Pow2(bits)
  {
    PlaceSteps(m, x, q);
    PlaceSteps(m, x + Pow2(q), q + 1);
    PowerMonotone(m + q + 2, bits);
  }

  /** The layers below `m` are zero at their first place and nowhere else; the others are still zero. */
  ghost predicate ZerosAre(f: Tables<Element>, t: seq<Element>, m: nat) {
    forall n: nat, x: nat :: Place(n, x) <= |t| ==>
      f.within(t[Place(n, x) - 1]) && (t[Place(n, x) - 1] == f.zero <==> n >= m || x == 0)
  }

  lemma ZerosOfLayer(f: Tables<Element>, was: seq<Element>, now: seq<Element>, ts: seq<Element>, m: nat, bits: nat)
    requires f.PlusLaws() && m < bits && |ts| == bits - 1 - m && |was| == Pow2(bits) - 1
    requires ZerosAre(f, was, m) && Independent(f, ts) && AllWithin(f, ts)
    requires LayerDone(f, now, ts, m, Pow2(|ts|)) && OthersKept(now, was, m)
    ensures ZerosAre(f, now, m + 1)
  {
    hide Combo, Place;
    forall n: nat, x: nat | Place(n, x) <= |now|
      ensures f.within(now[Place(n, x) - 1]) && (now[Place(n, x) - 1] == f.zero <==> n >= m + 1 || x == 0)
    {
      if n == m {
        PlaceSteps(m, x, |ts|);
        ComboZero(f, ts);
        ComboWithin(f, ts, x);
        DoneAt(f, now, ts, m, Pow2(|ts|), x);
      }
    }
  }

  lemma NextIs(f: Tables<Element>, first: Element, x: Element)
    requires f.OfField() && f.within(first) && first != f.zero && first != f.one
    requires f.within(x) && x != f.zero && x != f.one
    ensures f.multiplyLog(x, f.addMod(f.log(f.plus(x, f.one)), f.inverse(f.Product(first)))) == Next(f, first, x)
  {
    LinearWithin(f, first);
    LinearWithin(f, f.Linear(first));
  }

  /** The last loops of a round: the factors of the next layer. */
  method NextFactors(f: Tables<Element>, temp: array<Element>, m: nat)
    requires m < temp.Length && f.OfField() && Independent(f, temp[m..]) && AllWithin(f, temp[m..])
    modifies temp
    ensures temp[m + 1..] == NextAll(f, old(temp[m]), old(temp[m + 1..]))
  {
    hide Next, Independent, AllWithin, Tables.OfField, Tables.Product;
    ghost var was := temp[..];
    ghost var first := temp[m];
    Proper(f, was, m);
    temp[m] := f.inverse(f.Product(temp[m]));
    for i := m + 1 to temp.Length
      invariant temp[m] == f.inverse(f.Product(first))
      invariant forall p :: m < p < temp.Length ==> temp[p] == if p < i then Next(f, first, was[p]) else was[p]
    {
      NextIs(f, first, was[i]);
      var sum := f.addMod(f.log(f.plus(temp[i], f.one)), temp[m]);
      temp[i] := f.multiplyLog(temp[i], sum);
    }
  }

  lemma Proper(f: Tables<Element>, t: seq<Element>, m: nat)
    requires m < |t| && f.OfField() && Independent(f, t[m..]) && AllWithin(f, t[m..])
    ensures forall p :: m <= p < |t| ==> f.within(t[p]) && t[p] != f.zero && t[p] != f.one
  {
    hide Independent, Tables.ScaleLaws, Tables.LinearLaws, Tables.LogLaws;
    forall p | m <= p < |t| ensures f.within(t[p]) && t[p] != f.zero && t[p] != f.one {
      assert f.within(t[m..][p - m]);
      FactorIsProper(f, t[m..], p - m);
    }
  }

  method StartFactors(temp: array<Element>)
    modifies temp
    ensures temp[..] == Bits(1, temp.Length)
  {
    hide One;
    for i := 1 to temp.Length + 1
      invariant forall p :: 0 <= p < i - 1 ==> temp[p] == One(p + 1)
    {
      temp[i - 1] := One(i);
    }
  }

  lemma FieldIsXor(f: Tables<Element>, modulus: Element)
    requires f == Field(f.log, f.multiplyLog, f.addMod, modulus)
    ensures f.zero == 0 && f.one == 1 && forall a, b :: f.plus(a, b) == Plus(a, b)
  {
    hide Plus;
  }

  lemma BitWithin(f: Tables<Element>, bits: nat, e: nat)
    requires e < bits <= 16 && f == Field(f.log, f.multiplyLog, f.addMod, One(bits) - 1)
    ensures f.within(One(e))
  {
    hide One, Fits;
    OneFits(e, bits);
  }

  lemma Start(f: Tables<Element>, bits: nat)
    requires 1 < bits <= 16 && f == Field(f.log, f.multiplyLog, f.addMod, One(bits) - 1)
    ensures Independent(f, Bits(1, bits - 1)) && AllWithin(f, Bits(1, bits - 1))
  {
    hide Combo, One, Fits, Plus, Independent, Pow2, Field;
    FieldIsXor(f, One(bits) - 1);
    BitsIndependent(f, bits - 1);
    var ts := Bits(1, bits - 1);
    forall i | 0 <= i < bits - 1 ensures f.within(ts[i]) { BitWithin(f, bits, 1 + i); }
  }

  lemma StartZeros(f: Tables<Element>, t: seq<Element>)
    requires f.PlusLaws() && f.zero == 0 && forall p :: 0 <= p < |t| ==> t[p] == 0
    ensures ZerosAre(f, t, 0)
  {
    hide Place;
  }

  lemma FieldAdds(f: Tables<Element>, bits: nat)
    requires 0 < bits <= 16 && f == Field(f.log, f.multiplyLog, f.addMod, One(bits) - 1)
    ensures f.PlusLaws()
  {
    assert Fits(1, One(bits) - 1) by {
      OneFits(0, bits);
      assert One(0) == 1;
    }
    PlusIsXor(f.log, f.multiplyLog, f.addMod, One(bits) - 1);
  }

  lemma LogIs(f: Tables<Element>, x: Element)
    requires f.OfField() && f.within(x)
    ensures f.log(x) == f.modulus <==> x == f.zero
  {
    hide Tables.PlusLaws, Tables.ScaleLaws, Tables.LinearLaws;
  }

  lemma Finish(f: Tables<Element>, t: seq<Element>, bits: nat)
    requires bits > 0 && |t| == Pow2(bits) - 1 && ZerosAre(f, t, bits - 1)
    ensures forall p :: 0 <= p < |t| ==> f.within(t[p]) && (t[p] == f.zero <==> PowerOfTwo(p + 1))
  {
    hide Place, Pow2, PowerOfTwo;
    forall p | 0 <= p < |t| ensures f.within(t[p]) && (t[p] == f.zero <==> PowerOfTwo(p + 1)) {
      var n, x := EveryPlace(p + 1, bits);
      PlaceOfPower(n, x);
      PlaceSteps(n, x, bits - 1 - n);
      PlaceSteps(n, x, 0);
      PowerSteps();
      assert n == bits - 1 ==> x == 0;
    }
  }

  // The values

  /** The factors of layer `m`. */
  ghost function Factors(f: Tables<Element>, bits: nat, m: nat): (ts: seq<Element>)
    requires m < bits
    ensures |ts| == bits - 1 - m
  {
    if m == 0 then Bits(1, bits - 1)
    else
      var ts := Factors(f, bits, m - 1);
      NextAll(f, ts[0], ts[1..])
  }

  /** The layers below `m` hold the sums of their factors. */
  ghost predicate ValuesAre(f: Tables<Element>, t: seq<Element>, bits: nat, m: nat) {
    forall n: nat, x: nat :: n < m && n < bits && Place(n, x) <= |t| ==>
      t[Place(n, x) - 1] == Combo(f, Factors(f, bits, n), x)
  }

  lemma ValuesOfLayer(f: Tables<Element>, was: seq<Element>, now: seq<Element>, m: nat, bits: nat)
    requires m < bits && |was| == Pow2(bits) - 1 && ValuesAre(f, was, bits, m) && OthersKept(now, was, m)
    requires LayerDone(f, now, Factors(f, bits, m), m, Pow2(bits - 1 - m))
    ensures ValuesAre(f, now, bits, m + 1)
  {
    hide Combo, Place, Factors, Pow2, LayerDone;
    forall n: nat, x: nat | n < m + 1 && n < bits && Place(n, x) <= |now|
      ensures now[Place(n, x) - 1] == Combo(f, Factors(f, bits, n), x)
    {
      if n == m { ValueOfLayer(f, now, m, bits, x); }
    }
  }

  lemma ValueOfLayer(f: Tables<Element>, t: seq<Element>, m: nat, bits: nat, x: nat)
    requires m < bits && Place(m, x) <= |t| == Pow2(bits) - 1
    requires LayerDone(f, t, Factors(f, bits, m), m, Pow2(bits - 1 - m))
    ensures t[Place(m, x) - 1] == Combo(f, Factors(f, bits, m), x)
  {
    hide Combo, Place, Factors, Pow2, LayerDone;
    PlaceSteps(m, x, bits - 1 - m);
    DoneAt(f, t, Factors(f, bits, m), m, Pow2(bits - 1 - m), x);
  }

  /** Nothing is written for the last layer, whose one place stays zero. */
  lemma LastValue(f: Tables<Element>, t: seq<Element>, bits: nat)
    requires bits > 0 && f.PlusLaws() && |t| == Pow2(bits) - 1
    requires ValuesAre(f, t, bits, bits - 1) && ZerosAre(f, t, bits - 1)
    ensures ValuesAre(f, t, bits, bits)
  {
    hide Combo, Place, Pow2;
    forall n: nat, x: nat | n == bits - 1 && Place(n, x) <= |t|
      ensures t[Place(bits - 1, x) - 1] == Combo(f, Factors(f, bits, bits - 1), x)
    {
      PlaceSteps(bits - 1, x, 0);
      PowerSteps();
      ComboZero(f, []);
      assert Factors(f, bits, bits - 1) == [];
    }
  }

  lemma LayerOfFactors(f: Tables<Element>, bits: nat, m: nat)
    requires m + 1 < bits
    ensures Factors(f, bits, 0) == Bits(1, bits - 1)
    ensures var ts := Factors(f, bits, m); Factors(f, bits, m + 1) == NextAll(f, ts[0], ts[1..])
  {
  }

  /** The last loop: logarithms instead of elements. */
  method TakeLogs(f: Tables<Element>, table: array<Element>)
    requires f.OfField() && forall p :: 0 <= p < table.Length ==> f.within(table[p])
    modifies table
    ensures forall p :: 0 <= p < table.Length ==> table[p] == f.log(old(table[p]))
    ensures forall p :: 0 <= p < table.Length ==> (table[p] == f.modulus <==> old(table[p]) == f.zero)
  {
    hide Tables.OfField;
    for i := 0 to table.Length
      invariant forall p :: 0 <= p < table.Length ==> table[p] == if p < i then f.log(old(table[p])) else old(table[p])
      invariant forall p :: 0 <= p < i ==> (table[p] == f.modulus <==> old(table[p]) == f.zero)
    {
      LogIs(f, table[i]);
      table[i] := f.log(table[i]);
    }
  }

  /** Place x of layer m holds the logarithm of the sum of the layer's factors that the digits of x
      select. */
  ghost predicate LogsAre(f: Tables<Element>, t: seq<Element>, bits: nat) {
    forall m: nat, x: nat {:trigger Place(m, x)} :: m < bits && Place(m, x) <= |t| ==>
      t[Place(m, x) - 1] == f.log(Combo(f, Factors(f, bits, m), x))
  }

  method FinishTable(f: Tables<Element>, bits: nat, table: array<Element>, ghost ts: seq<Element>)
    requires bits > 0 && f.OfField() && f.modulus == One(bits) - 1 && RoundsDone(f, table[..], ts, bits, bits - 1)
    modifies table
    ensures forall p :: 0 <= p < table.Length ==> (table[p] == One(bits) - 1 <==> PowerOfTwo(p + 1))
    ensures LogsAre(f, table[..], bits)
  {
    hide Combo, Place, One, Pow2, PowerOfTwo, Tables.LogLaws, Tables.ScaleLaws, Tables.LinearLaws, ZerosAre, Factors,
        ValuesAre, Independent, AllWithin;
    Finish(f, table[..], bits);
    LastValue(f, table[..], bits);
    ghost var elements := table[..];
    TakeLogs(f, table);
    LogsOfValues(f, elements, table[..], bits);
  }

  lemma LogsOfValues(f: Tables<Element>, t: seq<Element>, logs: seq<Element>, bits: nat)
    requires ValuesAre(f, t, bits, bits) && |logs| == |t| && forall p :: 0 <= p < |t| ==> logs[p] == f.log(t[p])
    ensures LogsAre(f, logs, bits)
  {
    hide Combo, Place, Factors;
  }

  /** Between two rounds: the factors left in `ts` are those of layer `m`, and the layers below are done. */
  ghost predicate RoundsDone(f: Tables<Element>, t: seq<Element>, ts: seq<Element>, bits: nat, m: nat) {
    && m < bits && ts == Factors(f, bits, m) && Independent(f, ts) && AllWithin(f, ts)
    && |t| == Pow2(bits) - 1 && ZerosAre(f, t, m) && ValuesAre(f, t, bits, m)
  }

  /** One round: a layer of the table, and the factors of the next one. */
  method Round(f: Tables<Element>, temp: array<Element>, table: array<Element>, m: nat, bits: nat)
    requires f.OfField() && m < bits - 1 == temp.Length && temp != table
    requires RoundsDone(f, table[..], temp[m..], bits, m)
    modifies temp, table
    ensures RoundsDone(f, table[..], temp[m + 1..], bits, m + 1)
  {
    hide Combo, Place, Pow2, Independent, AllWithin, Tables.PlusLaws, Tables.LogLaws, Tables.ScaleLaws,
        Tables.LinearLaws, LayerDone, OthersKept, ZerosAre, Factors, ValuesAre;
    ghost var was, ts := table[..], temp[m..];
    FillLayer(f, temp, table, m, bits);
    ZerosOfLayer(f, was, table[..], ts, m, bits);
    ValuesOfLayer(f, was, table[..], m, bits);
    LayerOfFactors(f, bits, m);
    NextFactors(f, temp, m);
    NextIndependent(f, ts);
    assert temp[m + 1..] == NextAll(f, ts[0], ts[1..]);
  }

  /** FFTInitialize, for kBits = `bits`: behind it place x of layer m holds the logarithm of the sum of
      the layer's factors that the digits of x select, and an entry is kModulus, which stands for the
      skew zero, if and only if it belongs to a power of two. */
  method FftInitialize(f: Tables<Element>, bits: nat, table: array<Element>)
    requires 1 < bits <= 16 && table.Length == Pow2(bits) - 1
    requires f == Field(f.log, f.multiplyLog, f.addMod, One(bits) - 1)
    requires f.LogLaws() && f.ScaleLaws() && f.LinearLaws()
    requires forall p :: 0 <= p < table.Length ==> table[p] == 0
    modifies table
    ensures forall p :: 0 <= p < table.Length ==> (table[p] == One(bits) - 1 <==> PowerOfTwo(p + 1))
    ensures LogsAre(f, table[..], bits)
  {
    assert f.zero == 0 && f.modulus == One(bits) - 1;
    FieldAdds(f, bits);
    hide Place, One, Pow2, PowerOfTwo, Tables.PlusLaws, Tables.LogLaws, Tables.ScaleLaws, Tables.LinearLaws, Field,
        RoundsDone, LogsAre;
    var temp := new Element[bits - 1];
    StartFactors(temp);
    assert temp[0..] == temp[..];
    StartRounds(f, table[..], bits);
    for m := 0 to bits - 1
      invariant RoundsDone(f, table[..], temp[m..], bits, m)
    {
      Round(f, temp, table, m, bits);
    }
    FinishTable(f, bits, table, temp[bits - 1..]);
  }

  lemma StartRounds(f: Tables<Element>, t: seq<Element>, bits: nat)
    requires 1 < bits <= 16 && f == Field(f.log, f.multiplyLog, f.addMod, One(bits) - 1) && f.PlusLaws()
    requires f.zero == 0 && |t| == Pow2(bits) - 1 && forall p :: 0 <= p < |t| ==> t[p] == 0
    ensures RoundsDone(f, t, Bits(1, bits - 1), bits, 0)
  {
    hide Independent, AllWithin, Pow2, ZerosAre, Bits, Field, One, Tables.PlusLaws;
    Start(f, bits);
    StartZeros(f, t);
    LayerOfFactors(f, bits, 0);
  }

  /** The table as the transforms see it: FFTSkew - 1. */
  function SkewsOf(table: seq<Element>, modulus: Element): Skew {
    (i: nat) => if 0 < i <= |table| && table[i - 1] == modulus then ZeroSkew
                else if 0 < i <= |table| then Log(table[i - 1] as nat) else Log(0)
  }

  /** So the encoder never meets the skew zero at a last layer. */
  lemma TableServesEncoder(table: seq<Element>, modulus: Element)
    requires forall p :: 0 <= p < |table| ==> (table[p] == modulus <==> PowerOfTwo(p + 1))
    ensures ZeroAtPowers(SkewsOf(table, modulus))
  {
    hide PowerOfTwo;
    forall i: nat | SkewsOf(table, modulus)(i) == ZeroSkew ensures PowerOfTwo(i) {
      assert i > 0 && table[i - 1] == modulus;
    }
  }
}
