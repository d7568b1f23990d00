/** ReedSolomonDecode of Leopard FF8, put together from its steps. */
module LeopardDecoder {
  import opened Butterfly
  import opened ErrorLocator
  import opened LeopardDerivative
  import opened LeopardEncoder
  import opened LeopardErasures
  import opened LeopardRows
  import opened LeopardTransforms
  import opened ModularPairs
  import opened Powers
  import WalshHadamard

  datatype Slot = Missing | Present(row: Row)

  /** error_locations: 1 for a recovery row that is missing or does not exist, and for an original
      row that is missing. */
  function MarkAt(original: seq<Slot>, recovery: seq<Slot>, m: nat, i: nat): nat {
    if i < |recovery| then (if recovery[i].Missing? then 1 else 0)
    else if i < m then 1
    else if i < m + |original| then (if original[i - m].Missing? then 1 else 0)
    else 0
  }

  function Marks(original: seq<Slot>, recovery: seq<Slot>, m: nat, order: nat): (r: seq<nat>)
    ensures |r| == order
  {
    seq(order, i requires 0 <= i < order => MarkAt(original, recovery, m, i))
  }

  ghost function Erased(original: seq<Slot>, m: nat, n: nat): set<nat> {
    set i | 0 <= i < n && i < |original| && original[i].Missing? :: m + i
  }

  /** The two loops that mark what is missing. */
  method FillMarks(original: seq<Slot>, recovery: seq<Slot>, m: nat, locations: array<nat>, bits: ErrorBitfield8)
    requires |recovery| <= m && m + |original| <= 256 == locations.Length
    requires bits.Open() && bits.marked == {} && forall p :: 0 <= p < 256 ==> locations[p] == 0
    modifies locations, bits
    ensures locations[..] == Marks(original, recovery, m, 256)
    ensures bits.Open() && bits.marked == Erased(original, m, |original|)
  {
    hide ErrorBitfield8.Open;
    for i := 0 to |recovery|
      invariant bits.Open() && bits.marked == {}
      invariant forall p :: 0 <= p < 256 ==> locations[p] == if p < i then MarkAt(original, recovery, m, p) else 0
    {
      if recovery[i].Missing? {
        locations[i] := 1;
      }
    }
    for i := |recovery| to m
      invariant bits.Open() && bits.marked == {}
      invariant forall p :: 0 <= p < 256 ==> locations[p] == if p < i then MarkAt(original, recovery, m, p) else 0
    {
      locations[i] := 1;
    }
    for i := 0 to |original|
      invariant bits.Open() && bits.marked == Erased(original, m, i)
      invariant forall p :: 0 <= p < 256 ==> locations[p] == if p < m + i then MarkAt(original, recovery, m, p) else 0
    {
      if original[i].Missing? {
        locations[i + m] := 1;
        bits.Set(i + m);
      }
    }
  }

  /** The rows the inverse transform starts from: what arrived, weighted by the locator. */
  function Weighted(mul: Mul, original: seq<Slot>, recovery: seq<Slot>, m: nat, locator: seq<nat>, bytes: nat,
      i: nat): Row
    requires i < |locator|
  {
    if i < |recovery| then (if recovery[i].Present? then mul(locator[i], recovery[i].row) else ZeroRow(bytes))
    else if m <= i < m + |original| then
      (if original[i - m].Present? then mul(locator[i], original[i - m].row) else ZeroRow(bytes))
    else ZeroRow(bytes)
  }

  function WeightedRows(mul: Mul, original: seq<Slot>, recovery: seq<Slot>, m: nat, locator: seq<nat>, bytes: nat,
      n: nat): (r: seq<Row>)
    requires n <= |locator|
    ensures |r| == n
  {
    seq(n, i requires 0 <= i < n => Weighted(mul, original, recovery, m, locator, bytes, i))
  }

  method FillWork(mul: Mul, original: seq<Slot>, recovery: seq<Slot>, m: nat, locator: array<nat>, bytes: nat,
      work: array<Row>)
    requires |recovery| <= m && m + |original| <= work.Length <= locator.Length
    modifies work
    ensures work[..] == WeightedRows(mul, original, recovery, m, locator[..], bytes, work.Length)
  {
    hide ZeroRow;
    ghost var l := locator[..];
    for i := 0 to |recovery|
      invariant forall p :: 0 <= p < i ==> work[p] == Weighted(mul, original, recovery, m, l, bytes, p)
    {
      work[i] := if recovery[i].Present? then mul(locator[i], recovery[i].row) else ZeroRow(bytes);
    }
    for i := |recovery| to m
      invariant forall p :: 0 <= p < i ==> work[p] == Weighted(mul, original, recovery, m, l, bytes, p)
    {
      work[i] := ZeroRow(bytes);
    }
    for i := 0 to |original|
      invariant forall p :: 0 <= p < m + i ==> work[p] == Weighted(mul, original, recovery, m, l, bytes, p)
    {
      work[m + i] := if original[i].Present? then mul(locator[m + i], original[i].row) else ZeroRow(bytes);
    }
    for i := m + |original| to work.Length
      invariant forall p :: 0 <= p < i ==> work[p] == Weighted(mul, original, recovery, m, l, bytes, p)
    {
      work[i] := ZeroRow(bytes);
    }
  }

  lemma ZeroTail(mul: Mul, original: seq<Slot>, recovery: seq<Slot>, m: nat, locator: seq<nat>, bytes: nat, n: nat)
    requires |recovery| <= m && m + |original| <= n <= |locator|
    ensures AllZero(WeightedRows(mul, original, recovery, m, locator, bytes, n)[m + |original|..])
  {
    hide IsZero, ZeroRow;
    var w := WeightedRows(mul, original, recovery, m, locator, bytes, n);
    var t := w[m + |original|..];
    forall p | 0 <= p < |t| ensures IsZero(t[p]) {
      assert t[p] == w[m + |original| + p] == ZeroRow(bytes);
      ZeroRowIsZero(bytes);
    }
  }

  /** The formal derivative of the rows. */
  function Derivative(w: seq<Row>): (r: seq<Row>)
    requires PowerOfTwo(|w|)
    ensures |r| == |w|
  {
    seq(|w|, d requires 0 <= d < |w| => WithClearBits(w, d, |w|))
  }

  /** What the decoder's transforms make of the weighted rows, by their plain definitions. */
  function Transformed(mul: Mul, table: Skew, w: seq<Row>): (r: seq<Row>)
    requires PowerOfTwo(|w|)
    ensures |r| == |w|
  {
    Descend(Fft(mul, table), Derivative(Ascend(Ifft(mul, table), w, 1)), |w| / 2)
  }

  /** The three transforms, in place and with everything left out that is not needed: the erased rows
      are those of the plain definition. */
  method TransformRows(mul: Mul, table: Skew, work: array<Row>, count: nat, log2n: nat, bits: ErrorBitfield8)
    requires PowerOfTwo(work.Length) && work.Length == Pow2(log2n) && count <= work.Length <= 256
    requires count < work.Length ==> KeepsZero(mul) && AllZero(work[count..])
    requires bits.Ready() && forall e <- bits.marked :: e < count
    modifies work
    ensures forall e <- bits.marked :: work[e] == Transformed(mul, table, old(work[..]))[e]
  {
    hide Ascend, Descend, Ifft, Fft, KeepsZero, AllZero, WithClearBits, PowerOfTwo, Pow2, ErrorBitfield8.Ready;
    ghost var w := work[..];
    IfftDitDecoder(mul, table, work, count);
    ghost var v := work[..];
    FormalDerivative(work);
    assert work[..] == Derivative(v);
    TransformErased8(mul, table, work, count, log2n, bits);
  }

  /** The last loop: the erased rows, freed of their weights, move to the front. */
  method RevealErasures(mul: Mul, original: seq<Slot>, m: nat, locator: array<nat>, work: array<Row>)
    requires m > 0 && m + |original| <= work.Length && m + |original| <= locator.Length
    requires forall p :: 0 <= p < locator.Length ==> locator[p] <= 255
    modifies work
    ensures forall i :: 0 <= i < |original| && original[i].Missing? ==>
        work[i] == mul(255 - locator[m + i], old(work[m + i]))
  {
    for i := 0 to |original|
      invariant forall p :: 0 <= p < i && original[p].Missing? ==>
          work[p] == mul(255 - locator[m + p], old(work[m + p]))
      invariant forall p :: i <= p < work.Length ==> work[p] == old(work[p])
    {
      if original[i].Missing? {
        work[i] := mul(255 - locator[i + m], work[i + m]);
      }
    }
  }

  /** From the weights on. */
  method DecodeRows(mul: Mul, table: Skew, original: seq<Slot>, recovery: seq<Slot>, m: nat, log2n: nat, bytes: nat,
      locator: array<nat>, bits: ErrorBitfield8, work: array<Row>)
    requires 0 < |recovery| <= m && m + |original| <= work.Length <= 256 == locator.Length && KeepsZero(mul)
    requires PowerOfTwo(work.Length) && work.Length == Pow2(log2n)
    requires bits.Ready() && bits.marked == Erased(original, m, |original|)
    requires forall p :: 0 <= p < locator.Length ==> locator[p] <= 255
    modifies work
    ensures var t := Transformed(mul, table, WeightedRows(mul, original, recovery, m, locator[..], bytes, work.Length));
            forall i :: 0 <= i < |original| && original[i].Missing? ==> work[i] == mul(255 - locator[m + i], t[m + i])
  {
    hide KeepsZero, AllZero, WeightedRows, Transformed, PowerOfTwo, Pow2, ErrorBitfield8.Ready;
    FillWork(mul, original, recovery, m, locator, bytes, work);
    ZeroTail(mul, original, recovery, m, locator[..], bytes, work.Length);
    TransformRows(mul, table, work, m + |original|, log2n, bits);
    assert forall i :: 0 <= i < |original| && original[i].Missing? ==> m + i in bits.marked;
    RevealErasures(mul, original, m, locator, work);
  }

  /** ReedSolomonDecode: every missing row comes out as the plain transforms of the weighted rows
      give it, freed of its weight; the weights are the error locator. */
  method ReedSolomonDecode(mul: Mul, table: Skew, original: seq<Slot>, recovery: seq<Slot>, m: nat, log2n: nat,
      bytes: nat, logWalsh: seq<nat>, ghost log: seq<int>, work: array<Row>) returns (locator: array<nat>)
    requires 0 < |recovery| <= m && m + |original| <= work.Length <= 256 && KeepsZero(mul)
    requires PowerOfTwo(work.Length) && work.Length == Pow2(log2n)
    requires PowerOfTwo(256) && |logWalsh| == |log| == 256 && Holds(FF8, logWalsh, WalshHadamard.Wht(log))
    modifies work
    ensures locator.Length == 256 && Locates(FF8, locator[..], Marks(original, recovery, m, 256), log)
    ensures var t := Transformed(mul, table, WeightedRows(mul, original, recovery, m, locator[..], bytes, work.Length));
            forall i :: 0 <= i < |original| && original[i].Missing? ==> work[i] == mul(255 - locator[m + i], t[m + i])
  {
    hide KeepsZero, AllZero, Holds, Locates, WeightedRows, Transformed, PowerOfTwo, Pow2, ErrorBitfield8.Ready,
        ErrorBitfield8.Open;
    var bits := new ErrorBitfield8();
    locator := new nat[256](_ => 0);
    FillMarks(original, recovery, m, locator, bits);
    bits.Prepare();
    ghost var marks := locator[..];
    TailUnmarked(original, recovery, m);
    EvaluateLocator(FF8, locator, logWalsh, m + |original|, log);
    LocatorFits(locator[..], marks, log);
    DecodeRows(mul, table, original, recovery, m, log2n, bytes, locator, bits, work);
  }

  lemma TailUnmarked(original: seq<Slot>, recovery: seq<Slot>, m: nat)
    requires |recovery| <= m && m + |original| <= 256
    ensures AllZeros(Marks(original, recovery, m, 256)[m + |original|..])
    ensures forall p :: 0 <= p < 256 ==> Marks(original, recovery, m, 256)[p] <= 1
  {
  }

  lemma LocatorFits(d: seq<nat>, marks: seq<nat>, log: seq<int>)
    requires Locates(FF8, d, marks, log)
    ensures forall p :: 0 <= p < |d| ==> d[p] <= 255
  {
  }
}
