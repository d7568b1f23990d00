/** The error bitfield of Leopard FF16: which aligned blocks of 2^mip positions contain a
    marked one, for every mip level. */
module ErrorBitfield {
  import opened BitWords
  import opened BitfieldRows
  import opened Butterfly
  import opened Division
  import opened LeopardPruned
  import opened Powers

  /** Mark position `i` in row 0. */
  function Mark(row: seq<Word>, i: nat): seq<Word>
    requires i / 64 < |row|
  {
    var w := Or(row[i / 64], OneBit(i % 64));
    row[i / 64 := w]
  }

  lemma UnitIs(x: nat)
    ensures x / Pow2(0) == x && x / Pow2(6) == x / 64 && x / Pow2(12) == x / 4096
  {
    assert Pow2(1) == 2 && Pow2(2) == 4 && Pow2(3) == 8 && Pow2(4) == 16 && Pow2(5) == 32 && Pow2(6) == 64;
    assert Pow2(7) == 128 && Pow2(8) == 256 && Pow2(9) == 512 && Pow2(10) == 1024;
    assert Pow2(11) == 2048 && Pow2(12) == 4096;
  }

  lemma AnySingle(marked: set<nat>, b: nat)
    ensures Any(marked, 0, b) <==> b in marked
  {
    if b in marked { assert b / Pow2(0) == b; }
  }

  lemma MarkRight(row: seq<Word>, marked: set<nat>, i: nat)
    requires RowRight(row, marked, 0, 0) && i / 64 < |row|
    ensures RowRight(Mark(row, i), marked + {i}, 0, 0)
  {
    forall q, k | 0 <= q < |row| && 0 <= k < 64
      ensures Mark(row, i)[q][k] == Any(marked + {i}, 0, q * PerWord(0) + k / Stride(0))
    {
      AnySingle(marked, q * 64 + k);
      AnySingle(marked + {i}, q * 64 + k);
      assert LevelRight(row[q], marked, 0, 0, q);
      assert q * 64 + k == i <==> q == i / 64 && k == i % 64;
    }
  }

  ghost predicate AllRight(rows: seq<seq<Word>>, height: nat, width: nat, marked: set<nat>, mip: nat, up: nat) {
    height + up <= 6 && Grid(rows, height, width) &&
    forall i :: 0 <= i < width ==> ColumnRight(rows, height, width, marked, mip, up, i)
  }

  /** The words of the first five mip levels, from the marks in row 0. */
  method SpreadWords(rows: seq<seq<Word>>, width: nat, ghost marked: set<nat>) returns (r: seq<seq<Word>>)
    requires Grid(rows, 5, width) && RowRight(rows[0], marked, 0, 0)
    ensures |r| == |rows| && AllRight(r, 5, width, marked, 0, 1) && r[5..] == rows[5..]
  {
    hide LevelRight, Spread;
    r := rows;
    var i := 0;
    while i < width
      invariant i <= width && |r| == |rows| && Grid(r, 5, width) && r[5..] == rows[5..]
      invariant forall k :: 0 <= k < i ==> ColumnRight(r, 5, width, marked, 0, 1, k)
      invariant forall k :: i <= k < width ==> LevelRight(r[0][k], marked, 0, 0, k)
    {
      NextLevel(r[0][i], marked, 0, 0, i);
      ghost var r0 := r;
      var w := Spread(r[0][i], 0);
      r := r[0 := r[0][i := w]];
      r := SpreadColumn(r, 5, width, i, 1, marked, 0);
      forall k | 0 <= k < i ensures ColumnRight(r, 5, width, marked, 0, 1, k) {
        assert ColumnRight(r0, 5, width, marked, 0, 1, k);
      }
      i := i + 1;
    }
  }

  lemma FoldedRight(src: seq<Word>, w: Word, marked: set<nat>, mip: nat, top: nat, i: nat)
    requires top == mip + 6
    requires |src| <= 64 && forall j :: 0 <= j < |src| ==> LevelRight(src[j], marked, mip, 5, 64 * i + j)
    requires forall b: nat :: 64 * i + |src| <= b < 64 * i + 64 ==> !Any(marked, top, b)
    requires forall j :: 0 <= j < 64 ==> w[j] == (j < |src| && Fold(src[j])[j])
    ensures LevelRight(w, marked, top, 0, i)
  {
    hide Fold, Any, Right;
    forall j | 0 <= j < 64 ensures w[j] == Any(marked, top, 64 * i + j) {
      if j < |src| {
        FoldRight(src[j], marked, mip + 5, 64 * i + j, j);
      }
    }
    SingleBits(w, marked, top, i);
  }

  lemma SingleBits(w: Word, marked: set<nat>, mip: nat, i: nat)
    requires forall j :: 0 <= j < 64 ==> w[j] == Any(marked, mip, 64 * i + j)
    ensures LevelRight(w, marked, mip, 0, i)
  {
    hide Any;
    forall j | 0 <= j < 64 ensures w[j] == Any(marked, mip, i * 64 + j / 1) {
    }
  }

  /** The words of the next six mip levels, from row `src` of the level below. */
  method SpreadBigWords(src: seq<Word>, rows: seq<seq<Word>>, width: nat, ghost marked: set<nat>)
      returns (r: seq<seq<Word>>)
    requires |src| == 64 * width && RowRight(src, marked, 0, 5) && Grid(rows, 6, width)
    ensures |r| == |rows| && AllRight(r, 6, width, marked, 6, 0)
  {
    hide LevelRight, Fold;
    r := rows;
    var i := 0;
    while i < width
      invariant i <= width && |r| == |rows| && Grid(r, 6, width)
      invariant forall k :: 0 <= k < i ==> ColumnRight(r, 6, width, marked, 6, 0, k)
    {
      var w := FoldRow(src[i * 64..i * 64 + 64]);
      FoldedRight(src[i * 64..i * 64 + 64], w, marked, 0, 6, i);
      ghost var r0 := r;
      r := r[0 := r[0][i := w]];
      r := SpreadColumn(r, 6, width, i, 0, marked, 6);
      forall k | 0 <= k < i ensures ColumnRight(r, 6, width, marked, 6, 0, k) {
        assert ColumnRight(r0, 6, width, marked, 6, 0, k);
      }
      i := i + 1;
    }
  }

  /** The words of the topmost mip levels. */
  method SpreadBiggest(src: seq<Word>, ghost marked: set<nat>) returns (r: seq<Word>)
    requires |src| == 16 && RowRight(src, marked, 6, 5) && forall e <- marked :: e < 65536
    ensures |r| == 4 && forall j :: 0 <= j < 4 ==> LevelRight(r[j], marked, 12, j, 0)
  {
    hide LevelRight, Fold, Spread, Any;
    var w := FoldRow(src);
    forall k | 16 <= k < 64 ensures !Any(marked, 12, k) { NoneBeyond(marked, k); }
    FoldedRight(src, w, marked, 6, 12, 0);
    r := [w, Zero(), Zero(), Zero()];
    var j := 1;
    while j < 4
      invariant 1 <= j <= 4 && |r| == 4 && w == r[j - 1]
      invariant forall k :: 0 <= k < j ==> LevelRight(r[k], marked, 12, k, 0)
    {
      NextLevel(w, marked, 12, j - 1, 0);
      w := Spread(w, j - 1);
      r := r[j := w];
      j := j + 1;
    }
  }

  lemma NoneBeyond(marked: set<nat>, k: nat)
    requires k >= 16 && forall e <- marked :: e < 65536
    ensures !Any(marked, 12, k)
  {
    forall e <- marked ensures e / Pow2(12) < 16 { UnitIs(e); }
  }

  // Looking up a block

  /** Bit `u` of a row of words. */
  predicate WordBit(row: seq<Word>, u: nat)
    requires u < 64 * |row|
  {
    row[u / 64][u % 64]
  }

  /** IsNeeded of FF16, as a function of the three tables. */
  predicate Needed16(words: seq<seq<Word>>, bigWords: seq<seq<Word>>, biggestWords: seq<Word>, mip: nat, x: nat)
    requires 1 <= mip && x < 65536
    requires |words| == 5 && |bigWords| == 6 && |biggestWords| == 4
    requires Grid(words, 5, 1024) && Grid(bigWords, 6, 16)
  {
    if mip >= 16 then true
    else if mip >= 12 then biggestWords[mip - 12][x / 4096]
    else if mip >= 6 then WordBit(bigWords[mip - 6], x / 64)
    else WordBit(words[mip - 1], x)
  }

  lemma SmallLookup(words: seq<seq<Word>>, height: nat, width: nat, marked: set<nat>, mip: nat, x: nat)
    requires 1 <= mip <= height <= 5 && AllRight(words, height, width, marked, 0, 1) && x < 64 * width
    ensures WordBit(words[mip - 1], x) == Any(marked, mip, x / Pow2(mip))
  {
    hide Any, LevelRight;
    assert ColumnRight(words, height, width, marked, 0, 1, x / 64);
    UnitIs(x);
    Lookup(words[mip - 1][x / 64], marked, 0, mip, x, x / 64, x % 64);
  }

  lemma BigLookup(bigWords: seq<seq<Word>>, width: nat, marked: set<nat>, mip: nat, x: nat, u: nat)
    requires 6 <= mip < 12 && AllRight(bigWords, 6, width, marked, 6, 0) && u < 64 * width && 64 * u <= x < 64 * u + 64
    ensures WordBit(bigWords[mip - 6], u) == Any(marked, mip, x / Pow2(mip))
  {
    hide Any, LevelRight;
    assert ColumnRight(bigWords, 6, width, marked, 6, 0, u / 64);
    UnitIs(x);
    Lookup(bigWords[mip - 6][u / 64], marked, 6, mip - 6, x, u / 64, u % 64);
  }

  lemma BiggestLookup(w: Word, marked: set<nat>, mip: nat, x: nat, u: nat)
    requires 12 <= mip < 16 && u < 16 && LevelRight(w, marked, 12, mip - 12, 0) && 4096 * u <= x < 4096 * u + 4096
    ensures w[u] == Any(marked, mip, x / Pow2(mip))
  {
    hide Any, LevelRight;
    UnitIs(x);
    Lookup(w, marked, 12, mip - 12, x, 0, u);
  }

  /** In the tables Prepare leaves, exactly the blocks with a marked position are needed (and all
      blocks at the top level). */
  lemma Needed16IsExact(words: seq<seq<Word>>, bigWords: seq<seq<Word>>, biggestWords: seq<Word>,
                        marked: set<nat>, mip: nat, x: nat)
    requires 1 <= mip && x < 65536 && |words| == 5 && |bigWords| == 6 && |biggestWords| == 4
    requires Grid(words, 5, 1024) && Grid(bigWords, 6, 16)
    requires AllRight(words, 5, 1024, marked, 0, 1) && AllRight(bigWords, 6, 16, marked, 6, 0)
    requires forall j :: 0 <= j < 4 ==> LevelRight(biggestWords[j], marked, 12, j, 0)
    ensures Needed16(words, bigWords, biggestWords, mip, x) <==> mip >= 16 || Any(marked, mip, x / Pow2(mip))
  {
    hide Any, LevelRight, AllRight, WordBit, Grid;
    if mip >= 16 {
    } else if mip >= 12 {
      BiggestLookup(biggestWords[mip - 12], marked, mip, x, x / 4096);
    } else if mip >= 6 {
      BigLookup(bigWords, 16, marked, mip, x, x / 64);
    } else {
      SmallLookup(words, 5, 1024, marked, mip, x);
    }
  }

  /** The block of an aligned position contains a marked one exactly when one is in reach of it. */
  lemma HitIsAny(marked: set<nat>, q: nat, mip: nat, p: nat)
    requires p == Pow2(mip) && Multiple(q, p)
    ensures Hit(marked, q, p) <==> Any(marked, mip, q / p)
  {
    hide Pow2;
    MultipleIs(q, p);
    forall e <- marked ensures q <= e < q + p <==> e / p == q / p {
      SameBlock(e, q, p);
    }
  }

  lemma {:induction false} MultipleIs(q: nat, p: nat)
    requires p > 0 && Multiple(q, p)
    ensures q / p * p == q
    decreases q
  {
    if q > 0 {
      MultipleIs(q - p, p);
      var k := (q - p) / p;
      assert q == (k + 1) * p + 0;
      ModIs(q, k + 1, 0, p);
    }
  }

  lemma SameBlock(e: nat, q: nat, p: nat)
    requires p > 0 && q / p * p == q
    ensures q <= e < q + p <==> e / p == q / p
  {
    var k := q / p;
    if q <= e < q + p {
      ModIs(e, k, e - q, p);
    }
    if e / p == k {
      assert e == k * p + e % p;
    }
  }

  /** ErrorBitfield of FF16, for positions below 65536. */
  class ErrorBitfield16 {
    var words: seq<seq<Word>>
    var bigWords: seq<seq<Word>>
    var biggestWords: seq<Word>
    ghost var marked: set<nat>

    ghost predicate Shape()
      reads this
    {
      && |words| == 5 && Grid(words, 5, 1024)
      && |bigWords| == 6 && Grid(bigWords, 6, 16)
      && |biggestWords| == 4
      && forall e <- marked :: e < 65536
    }

    /** Before Prepare: row 0 holds the marks. */
    ghost predicate Open()
      reads this
    {
      Shape() && RowRight(words[0], marked, 0, 0)
    }

    /** After Prepare: every word of every level is right. */
    ghost predicate Ready()
      reads this
    {
      && Shape()
      && AllRight(words, 5, 1024, marked, 0, 1)
      && AllRight(bigWords, 6, 16, marked, 6, 0)
      && forall j :: 0 <= j < 4 ==> LevelRight(biggestWords[j], marked, 12, j, 0)
    }

    constructor ()
      ensures Open() && marked == {}
    {
      words := seq(5, _ => seq(1024, _ => Zero()));
      bigWords := seq(6, _ => seq(16, _ => Zero()));
      biggestWords := seq(4, _ => Zero());
      marked := {};
    }

    method Set(i: nat)
      requires Open() && i < 65536
      modifies this
      ensures Open() && marked == old(marked) + {i}
    {
      MarkRight(words[0], marked, i);
      words := words[0 := Mark(words[0], i)];
      marked := marked + {i};
    }

    method Prepare()
      requires Open()
      modifies this
      ensures Ready() && marked == old(marked)
    {
      hide LevelRight;
      words := SpreadWords(words, 1024, marked);
      forall i | 0 <= i < 1024 ensures LevelRight(words[4][i], marked, 0, 5, i) {
        assert ColumnRight(words, 5, 1024, marked, 0, 1, i);
      }
      bigWords := SpreadBigWords(words[4], bigWords, 16, marked);
      forall i | 0 <= i < 16 ensures LevelRight(bigWords[5][i], marked, 6, 5, i) {
        assert ColumnRight(bigWords, 6, 16, marked, 6, 0, i);
      }
      biggestWords := SpreadBiggest(bigWords[5], marked);
    }
  
    predicate IsNeeded(mip: nat, bit: nat)
      requires Shape() && 1 <= mip && bit < 65536
      reads this
    {
      Needed16(words, bigWords, biggestWords, mip, bit)
    }

    /** In a prepared bitfield exactly the blocks with a marked position are needed. */
    lemma IsNeededIsExact(mip: nat, bit: nat)
      requires Ready() && 1 <= mip && bit < 65536
      ensures IsNeeded(mip, bit) <==> mip >= 16 || Any(marked, mip, bit / Pow2(mip))
    {
      hide Any, LevelRight, AllRight, Needed16, Pow2;
      Needed16IsExact(words, bigWords, biggestWords, marked, mip, bit);
    }
  }
}
