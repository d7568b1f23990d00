/** The rows of words that the error bitfields of Leopard are made of: which aligned blocks of 2^mip
    positions contain a marked one, for every mip level. */
module BitfieldRows {
  import opened BitWords
  import opened Division
  import opened Powers

  /** Block `b` of 2^mip positions contains a marked position. */
  ghost predicate Any(marked: set<nat>, mip: nat, b: int) { exists e :: e in marked && e / Pow2(mip) == b }

  lemma AnyDoubles(marked: set<nat>, mip: nat, b: nat)
    ensures Any(marked, mip + 1, b) <==> Any(marked, mip, 2 * b) || Any(marked, mip, 2 * b + 1)
  {
    var p := Pow2(mip);
    forall e | e in marked ensures e / (2 * p) == e / p / 2 { Halved(e, p); }
    if Any(marked, mip + 1, b) {
      var e :| e in marked && e / Pow2(mip + 1) == b;
      assert e / p == 2 * b || e / p == 2 * b + 1;
    }
    if Any(marked, mip, 2 * b) {
      var e :| e in marked && e / p == 2 * b;
      assert e / Pow2(mip + 1) == b;
    }
    if Any(marked, mip, 2 * b + 1) {
      var e :| e in marked && e / p == 2 * b + 1;
      assert e / Pow2(mip + 1) == b;
    }
  }

  /** Bit `k` of `w` tells about block base + k/s. */
  ghost predicate Right(w: Word, marked: set<nat>, mip: nat, base: nat, s: nat)
    requires s > 0
  {
    forall k :: 0 <= k < 64 ==> w[k] == Any(marked, mip, base + k / s)
  }

  lemma SpreadBitRight(w: Word, j: nat, k: nat, marked: set<nat>, mip: nat, base: nat)
    requires j < 5 && k < 64 && Right(w, marked, mip, 2 * base, Stride(j))
    ensures Spread(w, j)[k] == Any(marked, mip + 1, base + k / (2 * Stride(j)))
  {
    hide Spread, Any;
    var s := Stride(j);
    var b := k / (2 * s);
    SpreadBit(w, j, k);
    PartnerBlocks(k, j);
    AnyDoubles(marked, mip, base + b);
    assert w[k] == Any(marked, mip, 2 * base + k / s);
    if k / s % 2 == 0 {
      assert w[k + s] == Any(marked, mip, 2 * base + (k + s) / s);
    } else {
      assert w[k - s] == Any(marked, mip, 2 * base + (k - s) / s);
    }
  }

  lemma SpreadRight(w: Word, j: nat, marked: set<nat>, mip: nat, base: nat)
    requires j < 5 && Right(w, marked, mip, 2 * base, Stride(j))
    ensures Right(Spread(w, j), marked, mip + 1, base, 2 * Stride(j))
  {
    hide Spread, Stride, Any;
    forall k | 0 <= k < 64
      ensures Spread(w, j)[k] == Any(marked, mip + 1, base + k / (2 * Stride(j)))
    {
      SpreadBitRight(w, j, k, marked, mip, base);
    }
  }

  lemma FoldRight(w: Word, marked: set<nat>, mip: nat, base: nat, k: nat)
    requires Right(w, marked, mip, 2 * base, 32) && k < 64
    ensures Fold(w)[k] == Any(marked, mip + 1, base)
  {
    hide Fold, Any;
    FoldBit(w, k);
    AnyDoubles(marked, mip, base);
    if k < 32 {
      assert k / 32 == 0 && (k + 32) / 32 == 1 && w[k + 32] == Any(marked, mip, 2 * base + (k + 32) / 32);
    } else {
      assert k / 32 == 1 && (k - 32) / 32 == 0 && w[k - 32] == Any(marked, mip, 2 * base + (k - 32) / 32);
    }
  }

  /** How many blocks of 2^l bits there are in a word. */
  function PerWord(l: nat): nat
    requires l < 6
  {
    if l == 0 then 64 else if l == 1 then 32 else if l == 2 then 16 else if l == 3 then 8 else if l == 4 then 4 else 2
  }

  /** Word `i` of a row tells about blocks of 2^l units, a unit being 2^mip positions: each of its
      bits stands for one unit and says whether that unit's whole block contains a marked one. */
  ghost predicate LevelRight(w: Word, marked: set<nat>, mip: nat, l: nat, i: nat)
    requires l < 6
  {
    Right(w, marked, mip + l, i * PerWord(l), Stride(l))
  }

  lemma NextLevel(w: Word, marked: set<nat>, mip: nat, l: nat, i: nat)
    requires l < 5 && LevelRight(w, marked, mip, l, i)
    ensures LevelRight(Spread(w, l), marked, mip, l + 1, i)
  {
    hide Spread, Right;
    assert Stride(l + 1) == 2 * Stride(l) && i * PerWord(l) == 2 * (i * PerWord(l + 1));
    SpreadRight(w, l, marked, mip + l, i * PerWord(l + 1));
  }

  lemma {:induction false} BlockOfUnit(x: nat, mip: nat, l: nat)
    requires l < 6
    ensures x / Pow2(mip + l) == x / Pow2(mip) / Stride(l)
  {
    hide Stride, Pow2;
    if l == 0 {
      StrideDoubles(0);
    } else {
      BlockOfUnit(x, mip, l - 1);
      StrideDoubles(l - 1);
      PowerDoubles(mip + l - 1);
      OneLevelUp(x, Pow2(mip + l - 1), x / Pow2(mip), Stride(l - 1));
    }
  }

  lemma OneLevelUp(x: nat, p: nat, u: nat, s: nat)
    requires p > 0 && s > 0 && x / p == u / s
    ensures x / (2 * p) == u / (2 * s)
  {
    Halved(x, p);
    Halved(u, s);
  }

  lemma PowerDoubles(k: nat)
    ensures Pow2(k + 1) == 2 * Pow2(k)
  {
  }

  lemma StrideDoubles(l: nat)
    requires l < 6
    ensures Stride(0) == 1 && (l < 5 ==> Stride(l + 1) == 2 * Stride(l))
  {
  }

  lemma UnitInWord(i: nat, k: nat, l: nat)
    requires l < 6 && k < 64
    ensures i * PerWord(l) + k / Stride(l) == (64 * i + k) / Stride(l)
  {
  }

  /** What a look at the bit of a position finds: bit `k` of word `i` stands for the unit of `x`. */
  lemma Lookup(w: Word, marked: set<nat>, mip: nat, l: nat, x: nat, i: nat, k: nat)
    requires l < 6 && k < 64 && LevelRight(w, marked, mip, l, i)
    requires x / Pow2(mip) == 64 * i + k
    ensures w[k] == Any(marked, mip + l, x / Pow2(mip + l))
  {
    hide Any, Stride, PerWord, Pow2;
    UnitInWord(i, k, l);
    BlockOfUnit(x, mip, l);
    assert w[k] == Any(marked, mip + l, i * PerWord(l) + k / Stride(l));
  }

  /** Every word of a row of the bitfield is right. */
  ghost predicate RowRight(row: seq<Word>, marked: set<nat>, mip: nat, l: nat)
    requires l < 6
  {
    forall i :: 0 <= i < |row| ==> LevelRight(row[i], marked, mip, l, i)
  }

  ghost predicate Grid(rows: seq<seq<Word>>, height: nat, width: nat) {
    height <= |rows| && forall j :: 0 <= j < height ==> |rows[j]| == width
  }

  /** Column `i` of `rows`, from row `first` to row `height` - 1, is right; row `j` holds level `j` + `up`. */
  ghost predicate ColumnRight(rows: seq<seq<Word>>, height: nat, width: nat, marked: set<nat>, mip: nat, up: nat,
      i: nat)
    requires height + up <= 6 && Grid(rows, height, width) && i < width
  {
    forall j :: 0 <= j < height ==> LevelRight(rows[j][i], marked, mip, j + up, i)
  }

  /** One column of Prepare: the other rows of the column are spread from row 0. */
  method SpreadColumn(rows: seq<seq<Word>>, height: nat, width: nat, i: nat, up: nat,
                      ghost marked: set<nat>, ghost mip: nat)
      returns (r: seq<seq<Word>>)
    requires 0 < height && height + up <= 6 && Grid(rows, height, width) && i < width
    requires LevelRight(rows[0][i], marked, mip, up, i)
    ensures |r| == |rows| && Grid(r, height, width) && ColumnRight(r, height, width, marked, mip, up, i)
    ensures forall j, k :: 0 <= j < height && 0 <= k < width && k != i ==> r[j][k] == rows[j][k]
    ensures r[height..] == rows[height..]
  {
    hide LevelRight, Spread;
    r := rows;
    var w := rows[0][i];
    var j := 1;
    while j < height
      invariant 1 <= j <= height && |r| == |rows| && Grid(r, height, width)
      invariant LevelRight(w, marked, mip, j - 1 + up, i)
      invariant forall q :: 0 <= q < j ==> LevelRight(r[q][i], marked, mip, q + up, i)
      invariant forall q, k :: 0 <= q < height && 0 <= k < width && k != i ==> r[q][k] == rows[q][k]
      invariant r[height..] == rows[height..]
    {
      NextLevel(w, marked, mip, j - 1 + up, i);
      w := Spread(w, j - 1 + up);
      r := r[j := r[j][i := w]];
      j := j + 1;
    }
  }

  /** The fold of a row of words into one word: bit `j` tells whether word `j` has a set bit in the
      half that bit `j` is in or in the other one. */
  method FoldRow(src: seq<Word>) returns (w: Word)
    requires |src| <= 64
    ensures forall j :: 0 <= j < 64 ==> w[j] == (j < |src| && Fold(src[j])[j])
  {
    hide Fold;
    w := Zero();
    var bit := OneBit(0);
    var j := 0;
    while j < |src|
      invariant j <= |src| && (j < 64 ==> bit == OneBit(j))
      invariant forall k :: 0 <= k < 64 ==> w[k] == (k < j && Fold(src[k])[k])
    {
      w := Or(w, And(Fold(src[j]), bit));
      bit := ShiftLeft(bit, 1);
      j := j + 1;
    }
  }
}
