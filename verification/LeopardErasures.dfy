/** The error bitfield of Leopard FF8, and the use of both bitfields: the forward transform of the
    decoder may skip every block that IsNeeded denies. */
module LeopardErasures {
  import opened BitWords
  import opened BitfieldRows
  import opened Butterfly
  import opened ErrorBitfield
  import opened LeopardPruned
  import opened Powers
  import opened LeopardRows

  /** w |= w >> 32; w |= w << 32 */
  function BothHalves(w: Word): Word {
    var w1 := Or(w, ShiftRight(w, 32));
    Or(w1, ShiftLeft(w1, 32))
  }

  /** Every bit of the word says whether block `b` contains a marked position. */
  ghost predicate Uniform(w: Word, marked: set<nat>, mip: nat, b: nat) {
    forall k :: 0 <= k < 64 ==> w[k] == Any(marked, mip, b)
  }

  lemma BothHalvesRight(w: Word, marked: set<nat>, i: nat)
    requires LevelRight(w, marked, 0, 5, i)
    ensures Uniform(BothHalves(w), marked, 6, i)
  {
    hide Any, Fold;
    forall k | 0 <= k < 64 ensures BothHalves(w)[k] == Any(marked, 6, i) {
      FoldRight(w, marked, 5, i, k);
      FoldBit(w, k);
    }
  }

  lemma PairRight(a: Word, b: Word, marked: set<nat>, i: nat)
    requires Uniform(a, marked, 6, 2 * i) && Uniform(b, marked, 6, 2 * i + 1)
    ensures Uniform(Or(a, b), marked, 7, i)
  {
    hide Any;
    AnyDoubles(marked, 6, i);
  }

  lemma SameAllRight(was: seq<seq<Word>>, rows: seq<seq<Word>>, width: nat, marked: set<nat>)
    requires AllRight(was, 5, width, marked, 0, 1) && |rows| >= 5 && forall j :: 0 <= j < 5 ==> rows[j] == was[j]
    ensures AllRight(rows, 5, width, marked, 0, 1)
  {
    hide LevelRight;
    forall i | 0 <= i < width ensures ColumnRight(rows, 5, width, marked, 0, 1, i) {
      assert ColumnRight(was, 5, width, marked, 0, 1, i);
    }
  }

  /** The words of the two topmost mip levels. */
  method FoldWords(words: seq<seq<Word>>, ghost marked: set<nat>) returns (rows: seq<seq<Word>>)
    requires |words| == 7 && Grid(words, 7, 4) && AllRight(words, 5, 4, marked, 0, 1)
    ensures |rows| == 7 && Grid(rows, 7, 4) && AllRight(rows, 5, 4, marked, 0, 1)
    ensures forall i :: 0 <= i < 4 ==> Uniform(rows[5][i], marked, 6, i) && Uniform(rows[6][i], marked, 7, i / 2)
  {
    hide LevelRight, Uniform, BothHalves, Any;
    rows := words;
    var i := 0;
    while i < 4
      invariant i <= 4 && |rows| == 7 && Grid(rows, 7, 4) && AllRight(rows, 5, 4, marked, 0, 1)
      invariant forall k :: 0 <= k < i ==> Uniform(rows[5][k], marked, 6, k)
    {
      assert ColumnRight(rows, 5, 4, marked, 0, 1, i);
      BothHalvesRight(rows[4][i], marked, i);
      var w := BothHalves(rows[4][i]);
      ghost var was: seq<seq<Word>> := rows;
      rows := rows[5 := rows[5][i := w]];
      SameAllRight(was, rows, 4, marked);
      i := i + 1;
    }
    i := 0;
    while i < 4
      invariant i <= 4 && (i == 0 || i == 2 || i == 4)
      invariant |rows| == 7 && Grid(rows, 7, 4) && AllRight(rows, 5, 4, marked, 0, 1)
      invariant forall k :: 0 <= k < 4 ==> Uniform(rows[5][k], marked, 6, k)
      invariant forall k :: 0 <= k < i ==> Uniform(rows[6][k], marked, 7, k / 2)
    {
      PairRight(rows[5][i], rows[5][i + 1], marked, i / 2);
      var w := Or(rows[5][i], rows[5][i + 1]);
      ghost var was: seq<seq<Word>> := rows;
      rows := rows[6 := rows[6][i := w][i + 1 := w]];
      SameAllRight(was, rows, 4, marked);
      i := i + 2;
    }
  }

  /** ErrorBitfield of FF8, for positions below 256. */
  class ErrorBitfield8 {
    var words: seq<seq<Word>>
    ghost var marked: set<nat>

    ghost predicate Shape()
      reads this
    {
      |words| == 7 && Grid(words, 7, 4) && forall e <- marked :: e < 256
    }

    /** Before Prepare: row 0 holds the marks. */
    ghost predicate Open()
      reads this
    {
      Shape() && RowRight(words[0], marked, 0, 0)
    }

    /** After Prepare: every word of every level is right. */
    ghost predicate Ready()
      reads this
    {
      && Shape()
      && AllRight(words, 5, 4, marked, 0, 1)
      && forall i :: 0 <= i < 4 ==> Uniform(words[5][i], marked, 6, i) && Uniform(words[6][i], marked, 7, i / 2)
    }

    constructor ()
      ensures Open() && marked == {}
    {
      words := seq(7, _ => seq(4, _ => Zero()));
      marked := {};
    }

    method Set(i: nat)
      requires Open() && i < 256
      modifies this
      ensures Open() && marked == old(marked) + {i}
    {
      MarkRight(words[0], marked, i);
      words := words[0 := Mark(words[0], i)];
      marked := marked + {i};
    }

    method Prepare()
      requires Open()
      modifies this
      ensures Ready() && marked == old(marked)
    {
      hide Uniform;
      ghost var before := words;
      words := SpreadWords(words, 4, marked);
      assert words[5] == words[5..][0] == before[5] && words[6] == words[5..][1] == before[6];
      words := FoldWords(words, marked);
    }

    predicate IsNeeded(mip: nat, bit: nat)
      requires Shape() && 1 <= mip && bit < 256
      reads this
    {
      Needed8(words, mip, bit)
    }

    /** In a prepared bitfield exactly the blocks with a marked position are needed. */
    lemma IsNeededIsExact(mip: nat, bit: nat)
      requires Ready() && 1 <= mip && bit < 256
      ensures IsNeeded(mip, bit) <==> mip >= 8 || Any(marked, mip, bit / Pow2(mip))
    {
      hide Any, LevelRight, AllRight, Needed8, Pow2, Uniform;
      Needed8IsExact(words, marked, mip, bit);
    }
  }

  /** IsNeeded of FF8, as a function of the table. */
  predicate Needed8(words: seq<seq<Word>>, mip: nat, x: nat)
    requires 1 <= mip && x < 256 && |words| == 7 && Grid(words, 7, 4)
  {
    mip >= 8 || WordBit(words[mip - 1], x)
  }

  lemma Needed8IsExact(words: seq<seq<Word>>, marked: set<nat>, mip: nat, x: nat)
    requires 1 <= mip && x < 256 && |words| == 7 && Grid(words, 7, 4) && AllRight(words, 5, 4, marked, 0, 1)
    requires forall i :: 0 <= i < 4 ==> Uniform(words[5][i], marked, 6, i) && Uniform(words[6][i], marked, 7, i / 2)
    ensures Needed8(words, mip, x) <==> mip >= 8 || Any(marked, mip, x / Pow2(mip))
  {
    hide Any, LevelRight, AllRight;
    if mip <= 5 {
      SmallLookup(words, 5, 4, marked, mip, x);
    } else if mip < 8 {
      UnitIs(x);
      assert Pow2(7) == 2 * Pow2(6) == 128;
      assert x / 128 == x / 64 / 2;
    }
  }

  // Pruning with a bitfield

  /** A test that is exact for the aligned blocks below `top` levels may be used for pruning. */
  lemma ExactIsSound(isNeeded: (nat, nat) -> bool, marked: set<nat>, n: nat, top: nat)
    requires forall mip: nat, q: nat :: mip > 0 && q < n ==>
        (isNeeded(mip, q) <==> mip >= top || Any(marked, mip, q / Pow2(mip)))
    ensures Sound(isNeeded, marked, n)
  {
    hide Any, Pow2, Hit, Multiple;
    forall mip: nat, q: nat | mip > 0 && q < n && Multiple(q, Pow2(mip)) && Hit(marked, q, Pow2(mip))
      ensures isNeeded(mip, q)
    {
      HitIsAny(marked, q, mip, Pow2(mip));
    }
  }

  /** The last transform of the FF8 decoder: every erased row gets the value the whole transform
      would give it. */
  method TransformErased8(mul: Mul, skew: Skew, work: array<Row>, nTruncated: nat, log2n: nat, bits: ErrorBitfield8)
    requires bits.Ready() && PowerOfTwo(work.Length) && work.Length == Pow2(log2n) && work.Length <= 256
    requires nTruncated <= work.Length && forall e <- bits.marked :: e < nTruncated
    modifies work
    ensures forall e <- bits.marked :: work[e] == Descend(Fft(mul, skew), old(work[..]), work.Length / 2)[e]
  {
    hide Descend, Fft, Any, Pow2, Sound, Needed8, PowerOfTwo, AllRight, Uniform;
    var words := bits.words;
    var isNeeded := (mip: nat, x: nat) => mip == 0 || x >= 256 || Needed8(words, mip, x);
    forall mip: nat, x: nat | mip > 0 && x < work.Length
      ensures isNeeded(mip, x) <==> mip >= 8 || Any(bits.marked, mip, x / Pow2(mip))
    {
      Needed8IsExact(words, bits.marked, mip, x);
    }
    ExactIsSound(isNeeded, bits.marked, work.Length, 8);
    FftDitErrorBits(mul, skew, work, nTruncated, log2n, isNeeded, bits.marked);
  }

  /** The last transform of the FF16 decoder. */
  method TransformErased16(mul: Mul, skew: Skew, work: array<Row>, nTruncated: nat, log2n: nat, bits: ErrorBitfield16)
    requires bits.Ready() && PowerOfTwo(work.Length) && work.Length == Pow2(log2n) && work.Length <= 65536
    requires nTruncated <= work.Length && forall e <- bits.marked :: e < nTruncated
    modifies work
    ensures forall e <- bits.marked :: work[e] == Descend(Fft(mul, skew), old(work[..]), work.Length / 2)[e]
  {
    hide Descend, Fft, Any, Pow2, Sound, Needed16, PowerOfTwo, AllRight, LevelRight;
    var words, bigWords, biggestWords := bits.words, bits.bigWords, bits.biggestWords;
    var isNeeded := (mip: nat, x: nat) => mip == 0 || x >= 65536 || Needed16(words, bigWords, biggestWords, mip, x);
    forall mip: nat, x: nat | mip > 0 && x < work.Length
      ensures isNeeded(mip, x) <==> mip >= 16 || Any(bits.marked, mip, x / Pow2(mip))
    {
      Needed16IsExact(words, bigWords, biggestWords, bits.marked, mip, x);
    }
    ExactIsSound(isNeeded, bits.marked, work.Length, 16);
    FftDitErrorBits(mul, skew, work, nTruncated, log2n, isNeeded, bits.marked);
  }
}
