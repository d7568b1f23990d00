/** Sums and differences of field logarithms: AddMod and SubMod reduce only partially, and agree with
    integer arithmetic modulo kModulus. */
module ModularPairs {
  import opened Butterfly
  import opened Division
  import opened WalshHadamard

  /** The two fields of Leopard: logarithms are taken modulo kModulus = kOrder - 1. */
  datatype Field = FF8 | FF16 {
    function Order(): (n: nat)
      ensures n > 1
    {
      if FF8? then 256 else 65536
    }

    function Modulus(): (n: nat)
      ensures n > 0
    {
      Order() - 1
    }
  }

  const TWO_TO_THE_32: nat := 0x1_0000_0000

  /** The result, an ffe_t, may be kModulus itself. */
  function AddMod(field: Field, a: nat, b: nat): nat {
    var sum := a + b;
    (sum + sum / field.Order()) % field.Order()
  }

  /** The difference wraps around as an unsigned 32-bit number. */
  function SubMod(field: Field, a: nat, b: nat): nat {
    var dif := (a - b) % TWO_TO_THE_32;
    (dif + dif / field.Order()) % TWO_TO_THE_32 % field.Order()
  }

  // Congruence

  function Product(k: int, m: int): int { k * m }

  ghost predicate Congruent(x: int, y: int, m: nat) { exists k :: x == y + Product(k, m) }

  lemma Witness(x: int, y: int, m: nat, k: int)
    requires x == y + k * m
    ensures Congruent(x, y, m)
  {
    assert x == y + Product(k, m);
  }

  lemma CongruentSums(x: int, y: int, u: int, v: int, m: nat)
    requires Congruent(x, y, m) && Congruent(u, v, m)
    ensures Congruent(x + u, y + v, m) && Congruent(x - u, y - v, m)
  {
    var k :| x == y + Product(k, m);
    var l :| u == v + Product(l, m);
    assert (k + l) * m == k * m + l * m && (k - l) * m == k * m - l * m;
    Witness(x + u, y + v, m, k + l);
    Witness(x - u, y - v, m, k - l);
  }

  lemma CongruentProducts(x: int, y: int, u: int, v: int, m: nat)
    requires Congruent(x, y, m) && Congruent(u, v, m)
    ensures Congruent(x * u, y * v, m)
  {
    var k :| x == y + Product(k, m);
    var l :| u == v + Product(l, m);
    ProductWitness(y, v, k, l, m);
    Witness(x * u, y * v, m, y * l + k * v + k * m * l);
  }

  lemma ProductWitness(y: int, v: int, k: int, l: int, m: int)
    ensures (y + k * m) * (v + l * m) == y * v + (y * l + k * v + k * m * l) * m
  {
    var s, t := k * m, l * m;
    assert (y + s) * (v + t) == y * v + y * t + s * v + s * t;
    assert y * t == y * l * m;
    assert s * v == k * v * m;
    assert s * t == k * m * l * m;
    assert (y * l + k * v + k * m * l) * m == y * l * m + k * v * m + k * m * l * m;
  }

  lemma CongruentTrans(x: int, y: int, z: int, m: nat)
    requires Congruent(x, y, m) && Congruent(y, z, m)
    ensures Congruent(x, z, m)
  {
    var k :| x == y + Product(k, m);
    var l :| y == z + Product(l, m);
    assert (k + l) * m == k * m + l * m;
    Witness(x, z, m, k + l);
  }

  lemma CongruentRemainder(x: int, m: nat)
    requires m > 0
    ensures Congruent(x % m, x, m)
  {
    assert x == x / m * m + x % m;
    assert -(x / m) * m == -(x / m * m);
    Witness(x % m, x, m, -(x / m));
  }

  lemma AddModIs(field: Field, a: nat, b: nat)
    requires a < field.Order() && b < field.Order()
    ensures AddMod(field, a, b) == if a + b < field.Order() then a + b else a + b - field.Modulus()
  {
    var n := field.Order();
    if a + b < n {
      ModIs(a + b, 0, a + b, n);
    } else {
      ModIs(a + b, 1, a + b - n, n);
      ModIs(a + b + 1, 1, a + b + 1 - n, n);
    }
  }

  lemma AddModCongruent(field: Field, a: nat, b: nat)
    requires a < field.Order() && b < field.Order()
    ensures AddMod(field, a, b) < field.Order() && Congruent(AddMod(field, a, b), a + b, field.Modulus())
  {
    hide AddMod, Congruent;
    AddModIs(field, a, b);
    Witness(AddMod(field, a, b), a + b, field.Modulus(), if a + b < field.Order() then 0 else -1);
  }

  lemma SubModCongruent(field: Field, a: nat, b: nat)
    requires a < field.Order() && b < field.Order()
    ensures SubMod(field, a, b) < field.Order() && Congruent(SubMod(field, a, b), a - b, field.Modulus())
  {
    hide SubMod, Congruent;
    if a >= b {
      SubModPlain(field, a, b);
      Witness(a - b, a - b, field.Modulus(), 0);
    } else {
      SubModWraps(field, a, b);
      Witness(a - b + field.Modulus(), a - b, field.Modulus(), 1);
    }
  }

  lemma SubModPlain(field: Field, a: nat, b: nat)
    requires b <= a < field.Order()
    ensures SubMod(field, a, b) == a - b
  {
    var n := field.Order();
    ModIs(a - b, 0, a - b, TWO_TO_THE_32);
    ModIs(a - b, 0, a - b, n);
  }

  lemma SubModWraps(field: Field, a: nat, b: nat)
    requires a < b < field.Order()
    ensures SubMod(field, a, b) == a - b + field.Modulus()
  {
    var dif := a - b + TWO_TO_THE_32;
    assert (a - b) % TWO_TO_THE_32 == dif;
    if field.FF8? {
      assert dif / 256 == 0x100_0000 - 1;
      assert (dif + 0x100_0000 - 1) % TWO_TO_THE_32 == a - b + 0x100_0000 - 1;
    } else {
      assert dif / 65536 == 0x1_0000 - 1;
      assert (dif + 0x1_0000 - 1) % TWO_TO_THE_32 == a - b + 0x1_0000 - 1;
    }
  }

  /** The butterfly of FWHT_2. */
  function ModPair(field: Field): (nat, nat, nat) -> (nat, nat) {
    (s, x, y) => (AddMod(field, x, y), SubMod(field, x, y))
  }

  /** `d` holds `w` modulo kModulus. */
  ghost predicate Holds(field: Field, d: seq<nat>, w: seq<int>) {
    |d| == |w| && forall p :: 0 <= p < |d| ==> d[p] < field.Order() && Congruent(d[p], w[p], field.Modulus())
  }

  lemma PairCongruent(field: Field, s: nat, x: nat, y: nat, u: int, v: int)
    requires x < field.Order() && y < field.Order()
    requires Congruent(x, u, field.Modulus()) && Congruent(y, v, field.Modulus())
    ensures var (a, b) := ModPair(field)(s, x, y);
            && a < field.Order() && b < field.Order()
            && Congruent(a, u + v, field.Modulus()) && Congruent(b, u - v, field.Modulus())
  {
    hide Congruent, AddMod, SubMod;
    AddModCongruent(field, x, y);
    SubModCongruent(field, x, y);
    CongruentSums(x, u, y, v, field.Modulus());
    CongruentTrans(AddMod(field, x, y), x + y, u + v, field.Modulus());
    CongruentTrans(SubMod(field, x, y), x - y, u - v, field.Modulus());
  }

  lemma BlockHolds(field: Field, d: seq<nat>, w: seq<int>, s: nat, n: nat)
    requires |d| == 2 * n && Holds(field, d, w)
    ensures Holds(field, Block(ModPair(field), d, s, n), Block(SumDifference(), w, s, n))
  {
    hide Congruent, ModPair, SumDifference, Block;
    var b, c := Block(ModPair(field), d, s, n), Block(SumDifference(), w, s, n);
    forall p | 0 <= p < 2 * n
      ensures b[p] < field.Order() && Congruent(b[p], c[p], field.Modulus())
    {
      var k := if p < n then p else p - n;
      BlockAt(ModPair(field), d, s, n, k);
      BlockAt(SumDifference(), w, s, n, k);
      PairCongruent(field, s, d[k], d[k + n], w[k], w[k + n]);
      SumDifferenceIs(s, w[k], w[k + n]);
    }
  }

  lemma SumDifferenceIs(s: nat, u: int, v: int)
    ensures SumDifference()(s, u, v) == (u + v, u - v)
  {
  }

  lemma {:induction false} LayerHolds(field: Field, d: seq<nat>, w: seq<int>, base: nat, n: nat)
    requires n > 0 && Holds(field, d, w)
    ensures Holds(field, Layer(ModPair(field), d, base, n), Layer(SumDifference(), w, base, n))
    decreases |d|
  {
    hide Congruent, ModPair, SumDifference, Block;
    if |d| >= 2 * n {
      LayerCons(ModPair(field), d, base, n);
      LayerCons(SumDifference(), w, base, n);
      BlockHolds(field, d[..2 * n], w[..2 * n], base + n, n);
      LayerHolds(field, d[2 * n..], w[2 * n..], base + 2 * n, n);
    }
  }

  /** The transform modulo kModulus holds the integer transform. */
  lemma {:induction false} AscendHolds(field: Field, d: seq<nat>, w: seq<int>, n: nat)
    requires n > 0 && Holds(field, d, w)
    ensures Holds(field, Ascend(ModPair(field), d, n), Ascend(SumDifference(), w, n))
    decreases |d| - n
  {
    hide Holds, ModPair, SumDifference, Layer;
    if |d| >= 2 * n {
      assert |d| == |w| by { SameLength(field, d, w); }
      LayerHolds(field, d, w, 0, n);
      AscendHolds(field, Layer(ModPair(field), d, 0, n), Layer(SumDifference(), w, 0, n), 2 * n);
    } else {
      SameLength(field, d, w);
    }
  }

  lemma SameLength(field: Field, d: seq<nat>, w: seq<int>)
    requires Holds(field, d, w)
    ensures |d| == |w|
  {
  }
}
