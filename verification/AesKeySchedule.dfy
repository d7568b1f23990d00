/** aes_key_setup: the words of the key schedule, and that the last of them determine the key. */
module AesKeySchedule {
  import opened AesBlock
  import opened AesCipher
  import opened AesTables

  type Word = bv32

  function PlusWord(x: Word, y: Word): Word { x ^ y }

  /** The word of four bytes, the first one highest. */
  function WordOf(c: Column): Word {
    ((c.b0 as Word) << 24) | ((c.b1 as Word) << 16) | ((c.b2 as Word) << 8) | (c.b3 as Word)
  }

  /** KE_ROTWORD */
  function RotWord(w: Word): Word { (w << 8) | (w >> 24) }

  function SubWord(w: Word): Word { WordOf(Map(Sbox, KeyColumn(w))) }

  /** Rcon[k]: 2^k in the field, in the highest byte. */
  function Rcon(k: nat): Word { WordOf(Column(TwoTo(k), 0, 0, 0)) }

  function TwoTo(k: nat): bv8 { if k == 0 then 1 else Twice(TwoTo(k - 1)) }

  function KeyWords(keysize: nat): (nk: nat)
    requires GoodKeysize(keysize)
    ensures 4 <= nk <= 8 && 32 * nk == keysize && RoundCount(keysize) == nk + 6
  {
    if keysize == 128 then 4 else if keysize == 192 then 6 else 8
  }

  function ScheduleLength(keysize: nat): nat
    requires GoodKeysize(keysize)
  {
    4 * RoundCount(keysize) + 4
  }

  function Quotient(a: nat, n: nat): nat
    requires n > 0
  {
    a / n
  }

  /** What is added to the word `nk` places in front of word `i`, from the word in front of word `i`. */
  function Added(nk: nat, i: nat, temp: Word): Word
    requires nk > 0 && i >= nk
  {
    if i % nk == 0 then PlusWord(SubWord(RotWord(temp)), Rcon(Quotient(i - 1, nk)))
    else if nk > 6 && i % nk == 4 then SubWord(temp)
    else temp
  }

  /** The first `n` words of the schedule of a key of `nk` words. */
  function Expanded(key: seq<Word>, n: nat): (w: seq<Word>)
    requires 0 < |key| <= n
    ensures |w| == n && w[..|key|] == key
    decreases n
  {
    if n == |key| then key
    else
      var w := Expanded(key, n - 1);
      w + [PlusWord(w[n - 1 - |key|], Added(|key|, n - 1, w[n - 2]))]
  }

  lemma NextWord(key: seq<Word>, n: nat)
    requires 0 < |key| <= n
    ensures var w := Expanded(key, n);
            Expanded(key, n + 1) == w + [PlusWord(w[n - |key|], Added(|key|, n, w[n - 1]))]
  {
  }

  /** The key as words. */
  function WordsOf(key: seq<bv8>, nk: nat): (w: seq<Word>)
    requires |key| >= 4 * nk
    ensures |w| == nk
  {
    seq(nk, i requires 0 <= i < nk => WordOf(Column(key[4 * i], key[4 * i + 1], key[4 * i + 2], key[4 * i + 3])))
  }

  /** aes_key_setup; for other sizes nothing is written. */
  method AesKeySetup(key: seq<bv8>, w: array<Word>, keysize: nat)
    requires GoodKeysize(keysize) ==> 4 * KeyWords(keysize) <= |key| && ScheduleLength(keysize) <= w.Length
    modifies w
    ensures if GoodKeysize(keysize)
            then var n := ScheduleLength(keysize);
                 w[..n] == Expanded(WordsOf(key, KeyWords(keysize)), n) && w[n..] == old(w[n..])
            else w[..] == old(w[..])
  {
    hide WordOf, Added, Expanded, PlusWord, WordsOf;
    if !GoodKeysize(keysize) { return; }
    var nk, nr := KeyWords(keysize), RoundCount(keysize);
    ghost var words := WordsOf(key, nk);
    for i := 0 to nk
      invariant w[..i] == words[..i] && w[ScheduleLength(keysize)..] == old(w[ScheduleLength(keysize)..])
    {
      w[i] := WordOf(Column(key[4 * i], key[4 * i + 1], key[4 * i + 2], key[4 * i + 3]));
      FirstWords(key, nk, i);
    }
    StartOfSchedule(words);
    ghost var rest := w[ScheduleLength(keysize)..];
    for i := nk to 4 * (nr + 1)
      invariant w[..i] == Expanded(words, i) && w[ScheduleLength(keysize)..] == rest
    {
      NextWord(words, i);
      ghost var done := w[..i];
      assert w[i - nk] == done[i - nk] && w[i - 1] == done[i - 1];
      w[i] := PlusWord(w[i - nk], Added(nk, i, w[i - 1]));
      assert w[..i + 1] == done + [w[i]];
    }
  }

  lemma FirstWords(key: seq<bv8>, nk: nat, i: nat)
    requires |key| >= 4 * nk && i < nk
    ensures WordsOf(key, nk)[i] == WordOf(Column(key[4 * i], key[4 * i + 1], key[4 * i + 2], key[4 * i + 3]))
  {
    hide WordOf;
  }

  lemma StartOfSchedule(key: seq<Word>)
    requires |key| > 0
    ensures Expanded(key, |key|) == key
  {
  }

  // The schedule can be run backwards

  lemma PlusWordTwice(x: Word, y: Word)
    ensures PlusWord(PlusWord(x, y), y) == x
  {
  }

  /** The last words of a schedule, as many as the key has, determine the key. */
  lemma {:induction false} LastWordsDetermine(a: seq<Word>, b: seq<Word>, n: nat)
    requires 1 < |a| == |b| <= n && Expanded(a, n)[n - |a|..] == Expanded(b, n)[n - |a|..]
    ensures a == b
    decreases n
  {
    hide PlusWord, Added, Expanded;
    StartOfSchedule(a);
    StartOfSchedule(b);
    if n > |a| {
      var k := |a|;
      NextWord(a, n - 1);
      NextWord(b, n - 1);
      var v, w := Expanded(a, n - 1), Expanded(b, n - 1);
      var v', w' := Expanded(a, n), Expanded(b, n);
      SameTails(v', w', v, w, k);
      var x := Added(k, n - 1, v[n - 2]);
      PlusWordTwice(v[n - 1 - k], x);
      PlusWordTwice(w[n - 1 - k], x);
      forall p | n - 1 - k <= p < n - 1 ensures v[p] == w[p] {
        if p == n - 1 - k { assert PlusWord(v[p], x) == PlusWord(w[p], x); }
      }
      assert v[n - 1 - k..] == w[n - 1 - k..];
      LastWordsDetermine(a, b, n - 1);
    }
  }

  lemma SameTails(v': seq<Word>, w': seq<Word>, v: seq<Word>, w: seq<Word>, k: nat)
    requires |v'| == |w'| == |v| + 1 == |w| + 1 && k <= |v| && v'[..|v|] == v && w'[..|w|] == w
    requires v'[|v'| - k..] == w'[|w'| - k..] && k > 0
    ensures v'[|v|] == w'[|w|] && forall p :: |v| + 1 - k <= p < |v| ==> v[p] == w[p]
  {
    forall p | |v| + 1 - k <= p <= |v| ensures v'[p] == w'[p] {
      assert v'[|v'| - k..][p - (|v'| - k)] == w'[|w'| - k..][p - (|w'| - k)];
    }
    forall p | |v| + 1 - k <= p < |v| ensures v[p] == w[p] {
      assert v'[..|v|][p] == v'[p] && w'[..|w|][p] == w'[p];
    }
  }
}
