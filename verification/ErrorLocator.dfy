/** The in-place Walsh-Hadamard transform of Leopard and the error locator computed with it. */
module ErrorLocator {
  import opened Butterfly
  import opened LeopardFft
  import opened LeopardTransforms
  import opened ModularPairs
  import opened WalshHadamard
  import opened XorIndex

  /** FWHT_4: two layers on the four numbers at distance `d` from `i` on, in locals. */
  method Fwht4(field: Field, data: array<nat>, i: nat, d: nat, ghost base: nat)
    requires d > 0 && i + 3 * d < data.Length
    modifies data
    ensures data[..] == SetFour(old(data[..]), i, d,
      QuadUp(ModPair(field), base, d, old(data[i]), old(data[i + d]), old(data[i + 2 * d]), old(data[i + 3 * d])))
  {
    hide AddMod, SubMod;
    var t0, t1, t2, t3 := data[i], data[i + d], data[i + 2 * d], data[i + 3 * d];
    t0, t1 := AddMod(field, t0, t1), SubMod(field, t0, t1);
    t2, t3 := AddMod(field, t2, t3), SubMod(field, t2, t3);
    t0, t2 := AddMod(field, t0, t2), SubMod(field, t0, t2);
    t1, t3 := AddMod(field, t1, t3), SubMod(field, t1, t3);
    data[i] := t0;
    data[i + d] := t1;
    data[i + 2 * d] := t2;
    data[i + 3 * d] := t3;
  }

  method FwhtColumn(field: Field, data: array<nat>, r: nat, d: nat, k: nat, ghost was: seq<nat>)
    requires k < d && r + 4 * d <= data.Length == |was|
    requires ColumnsDone(data[..], was, TwoUp(ModPair(field), was[r..r + 4 * d], r, d), r, d, k)
    modifies data
    ensures ColumnsDone(data[..], was, TwoUp(ModPair(field), was[r..r + 4 * d], r, d), r, d, k + 1)
  {
    hide ColumnsDone, TwoUp, QuadUp, SetFour, ModPair;
    ghost var f, b := ModPair(field), was[r..r + 4 * d];
    ghost var t := TwoUp(f, b, r, d);
    QuadUpAt(f, b, r, d, k);
    NextColumn(data[..], was, t, r, d, k, (t[k], t[k + d], t[k + 2 * d], t[k + 3 * d]));
    Fwht4(field, data, r + k, d, r);
  }

  method FwhtBlock(field: Field, data: array<nat>, r: nat, d: nat)
    requires d > 0 && r + 4 * d <= data.Length
    modifies data
    ensures data[..] == old(data[..r]) + TwoUp(ModPair(field), old(data[r..r + 4 * d]), r, d) + old(data[r + 4 * d..])
  {
    ghost var was := data[..];
    ghost var t := TwoUp(ModPair(field), was[r..r + 4 * d], r, d);
    hide TwoUp;
    for i := r to r + d
      invariant ColumnsDone(data[..], was, t, r, d, i - r)
    {
      FwhtColumn(field, data, r, d, i - r, was);
    }
    AllColumns(data[..], was, t, r, d);
  }

  method FwhtLevel(field: Field, data: array<nat>, mTruncated: nat, d: nat) returns (ghost r: nat)
    requires d > 0 && mTruncated <= data.Length && Multiple(data.Length, 4 * d)
    modifies data
    ensures mTruncated <= r <= data.Length && Multiple(r, 4 * d) && r < mTruncated + 4 * d
    ensures data[..] == TwoUp(ModPair(field), old(data[..r]), 0, d) + old(data[r..])
  {
    hide TwoUp, ModPair;
    ghost var f, w := ModPair(field), data[..];
    var b := 0;
    assert TwoUp(f, w[..0], 0, d) + w[0..] == w;
    while b < mTruncated
      invariant b <= data.Length && Multiple(b, 4 * d) && b < mTruncated + 4 * d
      invariant data[..] == TwoUp(f, w[..b], 0, d) + w[b..]
      decreases mTruncated - b
    {
      MultipleGap(b, data.Length, 4 * d);
      UpOneMore(f, w, b, d);
      BlockReplaced(TwoUp(f, w[..b], 0, d), w, TwoUp(f, w[b..b + 4 * d], b, d), b, 4 * d);
      FwhtBlock(field, data, b, d);
      b := b + 4 * d;
    }
    r := b;
  }

  predicate AllZeros(w: seq<nat>) { forall p :: 0 <= p < |w| ==> w[p] == 0 }

  lemma {:induction false} ZerosStay(field: Field, w: seq<nat>, base: nat, d: nat)
    requires d > 0 && AllZeros(w)
    ensures Layer(ModPair(field), w, base, d) == w
    decreases |w|
  {
    hide Block, ModPair;
    if |w| >= 2 * d {
      LayerCons(ModPair(field), w, base, d);
      ZerosStay(field, w[2 * d..], base + 2 * d, d);
      ZeroBlockStays(field, w[..2 * d], base + d, d);
      assert w == w[..2 * d] + w[2 * d..];
    }
  }

  lemma ZeroBlockStays(field: Field, b: seq<nat>, s: nat, d: nat)
    requires |b| == 2 * d && AllZeros(b)
    ensures Block(ModPair(field), b, s, d) == b
  {
    hide AddMod, SubMod;
    assert AddMod(field, 0, 0) == 0 && SubMod(field, 0, 0) == 0 by { ZeroPairStays(field); }
  }

  lemma ZeroPairStays(field: Field)
    ensures AddMod(field, 0, 0) == 0 && SubMod(field, 0, 0) == 0
  {
    var n := field.Order();
    assert 0 / n == 0 && 0 % n == 0;
    assert 0 % TWO_TO_THE_32 == 0;
  }

  lemma TruncatedPass(field: Field, w: seq<nat>, r: nat, d: nat)
    requires d > 0 && r <= |w| && Multiple(r, 4 * d) && AllZeros(w[r..])
    ensures TwoUp(ModPair(field), w[..r], 0, d) + w[r..] == TwoUp(ModPair(field), w, 0, d)
  {
    hide ModPair, Layer;
    TwoUpSplit(ModPair(field), w[..r], w[r..], 0, d);
    assert w == w[..r] + w[r..];
    ZerosStay(field, w[r..], r, d);
    ZerosStay(field, w[r..], r, 2 * d);
  }

  method FwhtLastLayer(field: Field, data: array<nat>, d: nat)
    requires d > 0 && data.Length == 2 * d
    modifies data
    ensures data[..] == Block(ModPair(field), old(data[..]), d, d)
  {
    ghost var f, w := ModPair(field), data[..];
    ghost var t := Block(f, w, d, d);
    hide Block, AddMod, SubMod;
    for i := 0 to d
      invariant PairsDone(data[..], w, t, d, i)
    {
      BlockAt(f, w, d, d, i);
      NextPair(data[..], w, t, d, i);
      hide PairsDone;
      data[i], data[i + d] := AddMod(field, data[i], data[i + d]), SubMod(field, data[i], data[i + d]);
    }
    assert data[..] == t;
  }

  /** FWHT: the layered transform, also when it stops its passes early because the numbers from
      `mTruncated` on are zero. */
  method Fwht(field: Field, data: array<nat>, mTruncated: nat)
    requires PowerOfTwo(data.Length) && mTruncated <= data.Length && AllZeros(data[mTruncated..])
    modifies data
    ensures data[..] == Ascend(ModPair(field), old(data[..]), 1)
  {
    hide TwoUp, ModPair, Layer, Ascend, Block;
    var m := data.Length;
    ghost var f, w0 := ModPair(field), data[..];
    ghost var z := mTruncated;   // the numbers from here on are still zero
    OneDivides(z);
    var dist, dist4 := 1, 4;
    while dist4 <= m
      invariant dist4 == 4 * dist && Doubled(m, dist) && dist > 0
      invariant Ascend(f, data[..], dist) == Ascend(f, w0, 1)
      invariant mTruncated <= z <= m && Multiple(z, dist) && z < mTruncated + dist
      invariant AllZeros(data[z..])
      decreases m - dist
    {
      DoubledStep(m, dist);
      ghost var w := data[..];
      ghost var r := FwhtLevel(field, data, mTruncated, dist);
      ZeroBoundary(r, z, mTruncated, dist);
      assert AllZeros(w[r..]) by { assert w[r..] == w[z..][r - z..]; }
      TruncatedPass(field, w, r, dist);
      AscendTwo(f, w, dist);
      assert data[r..] == w[r..];
      z := r;
      dist := dist4;
      dist4 := 4 * dist4;
    }
    DoubledStep(m, dist);
    AscendEnd(f, data[..], dist);
    if dist < m {
      FwhtLastLayer(field, data, dist);
    }
  }

  // The error locator

  function AsInts(d: seq<nat>): (w: seq<int>)
    ensures |w| == |d| && forall p :: 0 <= p < |d| ==> w[p] == d[p]
  {
    seq(|d|, p requires 0 <= p < |d| => d[p])
  }

  lemma SelfHolds(field: Field, d: seq<nat>)
    requires forall p :: 0 <= p < |d| ==> d[p] < field.Order()
    ensures Holds(field, d, AsInts(d))
  {
    forall p | 0 <= p < |d| ensures Congruent(d[p], d[p], field.Modulus()) {
      Witness(d[p], d[p], field.Modulus(), 0);
    }
  }

  /** FWHT computes the Walsh-Hadamard sums modulo kModulus. */
  lemma FwhtHolds(field: Field, d: seq<nat>, w: seq<int>)
    requires Holds(field, d, w) && PowerOfTwo(|d|)
    ensures |w| == |d| && Holds(field, Ascend(ModPair(field), d, 1), Wht(w))
  {
    hide Holds, ModPair, PowerOfTwo, Wht;
    SameLength(field, d, w);
    AscendHolds(field, d, w, 1);
    LayersAreHalves(w);
  }

  lemma OrderIsPower(field: Field)
    ensures PowerOfTwo(field.Order())
  {
    assert Doubled(65536, 32768) && Doubled(65536, 16384) && Doubled(65536, 8192) && Doubled(65536, 4096);
    assert Doubled(65536, 2048) && Doubled(65536, 1024) && Doubled(65536, 512) && Doubled(65536, 256);
    assert Doubled(65536, 128) && Doubled(65536, 64) && Doubled(65536, 32) && Doubled(65536, 16);
    assert Doubled(65536, 8) && Doubled(65536, 4) && Doubled(65536, 2);
    assert Doubled(256, 128) && Doubled(256, 64) && Doubled(256, 32) && Doubled(256, 16);
    assert Doubled(256, 8) && Doubled(256, 4) && Doubled(256, 2);
  }

  /** For 0/1 marks the convolution is a sum over the marked positions. */
  function MarkedSum(marks: seq<nat>, log: seq<int>, i: nat, k: nat): int
    requires PowerOfTwo(|marks|) && |log| == |marks| && i < |marks| && k <= |marks|
    decreases k
  {
    if k == 0 then 0
    else
      XorHigh(i, k - 1, false, false, |marks|);
      MarkedSum(marks, log, i, k - 1) + if marks[k - 1] == 1 then log[XorNat(i, k - 1)] else 0
  }

  lemma {:induction false} ConvolutionOfMarks(marks: seq<nat>, log: seq<int>, i: nat, k: nat)
    requires PowerOfTwo(|marks|) && |log| == |marks| && i < |marks| && k <= |marks|
    requires forall p :: 0 <= p < |marks| ==> marks[p] <= 1
    ensures Convolution(AsInts(marks), log, i, k) == MarkedSum(marks, log, i, k)
    decreases k
  {
    if k > 0 { ConvolutionOfMarks(marks, log, i, k - 1); }
  }

  /** Entry `i` is, modulo kModulus, the sum of the logarithms of i xor j over all marked j. */
  ghost predicate Locates(field: Field, d: seq<nat>, marks: seq<nat>, log: seq<int>) {
    && PowerOfTwo(|marks|) && |log| == |marks| == |d|
    && forall i :: 0 <= i < |d| ==>
         d[i] < field.Order() && Congruent(d[i], MarkedSum(marks, log, i, |marks|), field.Modulus())
  }

  /** Multiplying the transforms entry by entry keeps the congruence. */
  lemma ProductsHold(field: Field, d: seq<nat>, l: seq<nat>, u: seq<int>, v: seq<int>)
    requires |d| == |l| == |u| == |v| && Holds(field, d, u) && Holds(field, l, v)
    ensures Holds(field, seq(|d|, i requires 0 <= i < |d| => d[i] * l[i] % field.Modulus()), Times(u, v))
  {
    hide Congruent;
    var m := field.Modulus();
    forall i | 0 <= i < |d|
      ensures d[i] * l[i] % m < field.Order() && Congruent(d[i] * l[i] % m, u[i] * v[i], m)
    {
      CongruentProducts(d[i], u[i], l[i], v[i], m);
      CongruentRemainder(d[i] * l[i], m);
      CongruentTrans(d[i] * l[i] % m, d[i] * l[i], u[i] * v[i], m);
    }
  }

  /** kOrder is 1 modulo kModulus. */
  lemma OrderTimes(field: Field, x: int, c: int)
    requires Congruent(x, field.Order() * c, field.Modulus())
    ensures Congruent(x, c, field.Modulus())
  {
    Witness(field.Order() * c, c, field.Modulus(), c);
    CongruentTrans(x, field.Order() * c, c, field.Modulus());
  }

  lemma LocatesAt(field: Field, x: nat, marks: seq<nat>, log: seq<int>, i: nat)
    requires |marks| == |log| == field.Order() && PowerOfTwo(|marks|) && i < |marks|
    requires forall p :: 0 <= p < |marks| ==> marks[p] <= 1
    requires Congruent(x, Scale(|marks|, Convolve(AsInts(marks), log))[i], field.Modulus())
    ensures Congruent(x, MarkedSum(marks, log, i, |marks|), field.Modulus())
  {
    hide Congruent, Convolution, MarkedSum, PowerOfTwo;
    OrderTimes(field, x, Convolution(AsInts(marks), log, i, |marks|));
    ConvolutionOfMarks(marks, log, i, |marks|);
  }

  lemma AllLocated(field: Field, d: seq<nat>, marks: seq<nat>, log: seq<int>, s: seq<int>)
    requires |marks| == |log| == field.Order() && PowerOfTwo(|marks|)
    requires forall p :: 0 <= p < |marks| ==> marks[p] <= 1
    requires s == Scale(|marks|, Convolve(AsInts(marks), log)) && Holds(field, d, s)
    ensures Locates(field, d, marks, log)
  {
    hide Congruent, Convolution, MarkedSum, Scale, Convolve, PowerOfTwo, AsInts;
    forall i | 0 <= i < |d| ensures Congruent(d[i], MarkedSum(marks, log, i, |marks|), field.Modulus()) {
      LocatesAt(field, d[i], marks, log, i);
    }
  }

  /** FFTInitialize: the transform of the logarithms, with 0 for the logarithm of 0. */
  method WalshOfLog(field: Field, logLut: seq<nat>, logWalsh: array<nat>)
    requires |logLut| == logWalsh.Length == field.Order() && forall p :: 0 <= p < |logLut| ==> logLut[p] < field.Order()
    modifies logWalsh
    ensures PowerOfTwo(logWalsh.Length) && Holds(field, logWalsh[..], Wht(AsInts(logLut[0 := 0])))
  {
    hide Holds, ModPair, PowerOfTwo, Wht, Ascend;
    OrderIsPower(field);
    for i := 0 to logWalsh.Length
      invariant forall p :: 0 <= p < i ==> logWalsh[p] == logLut[p]
    {
      logWalsh[i] := logLut[i];
    }
    logWalsh[0] := 0;
    assert logWalsh[..] == logLut[0 := 0];
    SelfHolds(field, logWalsh[..]);
    FwhtHolds(field, logWalsh[..], AsInts(logLut[0 := 0]));
    Fwht(field, logWalsh, logWalsh.Length);
  }

  /** The locator step of ReedSolomonDecode: entry `i` becomes, modulo kModulus, the sum of the
      logarithms of i xor j over all erased positions j. */
  method EvaluateLocator(field: Field, locations: array<nat>, logWalsh: seq<nat>, mTruncated: nat, ghost log: seq<int>)
    requires locations.Length == |logWalsh| == field.Order() && PowerOfTwo(|logWalsh|)
    requires |log| == |logWalsh| && Holds(field, logWalsh, Wht(log))
    requires mTruncated <= locations.Length && AllZeros(locations[mTruncated..])
    requires forall p :: 0 <= p < locations.Length ==> locations[p] <= 1
    modifies locations
    ensures Locates(field, locations[..], old(locations[..]), log)
  {
    hide Holds, ModPair, PowerOfTwo, Wht, Ascend, Times, Locates, Scale, Convolve, AsInts;
    ghost var marks := locations[..];
    ghost var e := AsInts(marks);
    SelfHolds(field, locations[..]);
    FwhtHolds(field, locations[..], e);
    Fwht(field, locations, mTruncated);
    ghost var d := locations[..];
    for i := 0 to locations.Length
      invariant forall p :: 0 <= p < i ==> locations[p] == d[p] * logWalsh[p] % field.Modulus()
      invariant locations[i..] == d[i..]
    {
      locations[i] := locations[i] * logWalsh[i] % field.Modulus();
    }
    ProductsHold(field, d, logWalsh, Wht(e), Wht(log));
    assert locations[..] == seq(|d|, i requires 0 <= i < |d| => d[i] * logWalsh[i] % field.Modulus());
    FwhtHolds(field, locations[..], Times(Wht(e), Wht(log)));
    Fwht(field, locations, locations.Length);
    ConvolutionTheorem(e, log);
    AllLocated(field, locations[..], marks, log, Wht(Times(Wht(e), Wht(log))));
  }
}
