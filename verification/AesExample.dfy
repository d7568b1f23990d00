/** The example of FIPS 197, appendix C.3: the key schedule of a key of 256 bits, and the encryption of one
    block round by round. */
module AesExample {
  import opened AesBlock
  import opened AesCipher
  import opened AesKeySchedule
  import opened AesTables

  // The schedule, eight words at a time

  const WORDS_0: seq<Word> := [0x00010203, 0x04050607, 0x08090A0B, 0x0C0D0E0F,
                               0x10111213, 0x14151617, 0x18191A1B, 0x1C1D1E1F]
  const WORDS_1: seq<Word> := [0xA573C29F, 0xA176C498, 0xA97FCE93, 0xA572C09C,
                               0x1651A8CD, 0x0244BEDA, 0x1A5DA4C1, 0x0640BADE]
  const WORDS_2: seq<Word> := [0xAE87DFF0, 0x0FF11B68, 0xA68ED5FB, 0x03FC1567,
                               0x6DE1F148, 0x6FA54F92, 0x75F8EB53, 0x73B8518D]
  const WORDS_3: seq<Word> := [0xC656827F, 0xC9A79917, 0x6F294CEC, 0x6CD5598B,
                               0x3DE23A75, 0x524775E7, 0x27BF9EB4, 0x5407CF39]
  const WORDS_4: seq<Word> := [0x0BDC905F, 0xC27B0948, 0xAD5245A4, 0xC1871C2F,
                               0x45F5A660, 0x17B2D387, 0x300D4D33, 0x640A820A]
  const WORDS_5: seq<Word> := [0x7CCFF71C, 0xBEB4FE54, 0x13E6BBF0, 0xD261A7DF,
                               0xF01AFAFE, 0xE7A82979, 0xD7A5644A, 0xB3AFE640]
  const WORDS_6: seq<Word> := [0x2541FE71, 0x9BF50025, 0x8813BBD5, 0x5A721C0A,
                               0x4E5A6699, 0xA9F24FE0, 0x7E572BAA, 0xCDF8CDEA]
  const WORDS_7: seq<Word> := [0x24FC79CC, 0xBF0979E9, 0x371AC23C, 0x6D68DE36,
                               0x721F7B9C, 0xDBED347C, 0xA5BA1FD6, 0x6842D23C]

  /** The eight words behind the words `w`, which are the words 8 * (k - 1) on. */
  function NextEight(w: seq<Word>, k: nat): (v: seq<Word>)
    requires |w| == 8 && k > 0
    ensures |v| == 8
  {
    var v0 := PlusWord(w[0], PlusWord(SubWord(RotWord(w[7])), Rcon(k - 1)));
    var v1 := PlusWord(w[1], v0);
    var v2 := PlusWord(w[2], v1);
    var v3 := PlusWord(w[3], v2);
    var v4 := PlusWord(w[4], SubWord(v3));
    var v5 := PlusWord(w[5], v4);
    var v6 := PlusWord(w[6], v5);
    [v0, v1, v2, v3, v4, v5, v6, PlusWord(w[7], v6)]
  }

  lemma EightAt(w: seq<Word>, k: nat)
    requires |w| == 8 && k > 0
    ensures var v := NextEight(w, k);
            && v[0] == PlusWord(w[0], PlusWord(SubWord(RotWord(w[7])), Rcon(k - 1)))
            && v[1] == PlusWord(w[1], v[0]) && v[2] == PlusWord(w[2], v[1]) && v[3] == PlusWord(w[3], v[2])
            && v[4] == PlusWord(w[4], SubWord(v[3])) && v[5] == PlusWord(w[5], v[4])
            && v[6] == PlusWord(w[6], v[5]) && v[7] == PlusWord(w[7], v[6])
  {
    hide PlusWord, SubWord, RotWord, Rcon;
  }

  lemma {:induction false} ExpandedPrefix(key: seq<Word>, m: nat, n: nat)
    requires 0 < |key| <= m <= n
    ensures Expanded(key, n)[..m] == Expanded(key, m)
    decreases n
  {
    hide Added, PlusWord;
    if m < n { ExpandedPrefix(key, m, n - 1); }
  }

  lemma WordIs(key: seq<Word>, n: nat, i: nat)
    requires |key| == 8 <= i < n
    ensures var w := Expanded(key, n); w[i] == PlusWord(w[i - 8], Added(8, i, w[i - 1]))
  {
    hide Added, PlusWord, Expanded;
    ExpandedPrefix(key, i, n);
    ExpandedPrefix(key, i + 1, n);
    NextWord(key, i);
    var w := Expanded(key, n);
    assert w[..i + 1][i] == w[i] && w[..i][i - 8] == w[i - 8] && w[..i][i - 1] == w[i - 1];
  }

  lemma AddedIs(k: nat, j: nat, temp: Word)
    requires k > 0 && j < 8
    ensures Added(8, 8 * k + j, temp) == if j == 0 then PlusWord(SubWord(RotWord(temp)), Rcon(k - 1))
                                         else if j == 4 then SubWord(temp) else temp
  {
    hide PlusWord, SubWord, RotWord, Rcon;
  }

  /** The part of the schedule with the words 8 * k to 8 * k + 7. */
  function Part(key: seq<Word>, n: nat, k: nat): (w: seq<Word>)
    requires |key| == 8 && 8 * k + 8 <= n
    ensures |w| == 8
  {
    Expanded(key, n)[8 * k..8 * k + 8]
  }

  lemma WordOfPart(key: seq<Word>, n: nat, k: nat, j: nat)
    requires |key| == 8 && k > 0 && 8 * k + 8 <= n && j < 8
    ensures var v, w := Part(key, n, k), Part(key, n, k - 1);
            v[j] == PlusWord(w[j], if j == 0 then PlusWord(SubWord(RotWord(w[7])), Rcon(k - 1))
                                   else if j == 4 then SubWord(v[3]) else v[j - 1])
  {
    hide PlusWord, SubWord, RotWord, Rcon, Added, Expanded;
    var i := 8 * k + j;
    WordIs(key, n, i);
    AddedIs(k, j, Expanded(key, n)[i - 1]);
  }

  lemma NextPart(key: seq<Word>, n: nat, k: nat)
    requires |key| == 8 && k > 0 && 8 * k + 8 <= n
    ensures Part(key, n, k) == NextEight(Part(key, n, k - 1), k)
  {
    hide PlusWord, SubWord, RotWord, Rcon, Part, NextEight;
    EightAt(Part(key, n, k - 1), k);
    WordOfPart(key, n, k, 0);
    WordOfPart(key, n, k, 1);
    WordOfPart(key, n, k, 2);
    WordOfPart(key, n, k, 3);
    WordOfPart(key, n, k, 4);
    WordOfPart(key, n, k, 5);
    WordOfPart(key, n, k, 6);
    WordOfPart(key, n, k, 7);
    var v, e := Part(key, n, k), NextEight(Part(key, n, k - 1), k);
    assert v[0] == e[0] && v[1] == e[1] && v[2] == e[2] && v[3] == e[3];
    assert v[4] == e[4] && v[5] == e[5] && v[6] == e[6] && v[7] == e[7];
  }

  lemma RotatedSub1()
    ensures SubWord(0x1D1E1F1C) == 0xA472C09C
  {
  }

  lemma Sub1()
    ensures SubWord(0xA572C09C) == 0x0640BADE
  {
  }

  lemma Words1()
    ensures NextEight(WORDS_0, 1) == WORDS_1
  {
    hide SubWord;
    RotatedSub1();
    Sub1();
  }

  lemma RotatedSub2()
    ensures SubWord(0x40BADE06) == 0x09F41D6F
  {
  }

  lemma Sub2()
    ensures SubWord(0x03FC1567) == 0x7BB05985
  {
  }

  lemma Words2()
    ensures NextEight(WORDS_1, 2) == WORDS_2
  {
    hide SubWord;
    RotatedSub2();
    Sub2();
  }

  lemma RotatedSub3()
    ensures SubWord(0xB8518D73) == 0x6CD15D8F
  {
  }

  lemma Sub3()
    ensures SubWord(0x6CD5598B) == 0x5003CB3D
  {
  }

  lemma Words3()
    ensures NextEight(WORDS_2, 3) == WORDS_3
  {
    hide SubWord;
    RotatedSub3();
    Sub3();
  }

  lemma RotatedSub4()
    ensures SubWord(0x07CF3954) == 0xC58A1220
  {
  }

  lemma Sub4()
    ensures SubWord(0xC1871C2F) == 0x78179C15
  {
  }

  lemma Words4()
    ensures NextEight(WORDS_3, 4) == WORDS_4
  {
    hide SubWord;
    RotatedSub4();
    Sub4();
  }

  lemma RotatedSub5()
    ensures SubWord(0x0A820A64) == 0x67136743
  {
  }

  lemma Sub5()
    ensures SubWord(0xD261A7DF) == 0xB5EF5C9E
  {
  }

  lemma Words5()
    ensures NextEight(WORDS_4, 5) == WORDS_5
  {
    hide SubWord;
    RotatedSub5();
    Sub5();
  }

  lemma RotatedSub6()
    ensures SubWord(0xAFE640B3) == 0x798E096D
  {
  }

  lemma Sub6()
    ensures SubWord(0x5A721C0A) == 0xBE409C67
  {
  }

  lemma Words6()
    ensures NextEight(WORDS_5, 6) == WORDS_6
  {
    hide SubWord;
    RotatedSub6();
    Sub6();
  }

  lemma RotatedSub7()
    ensures SubWord(0xF8CDEACD) == 0x41BD87BD
  {
  }

  lemma Sub7()
    ensures SubWord(0x6D68DE36) == 0x3C451D05
  {
  }

  lemma Words7()
    ensures NextEight(WORDS_6, 7) == WORDS_7
  {
    hide SubWord;
    RotatedSub7();
    Sub7();
  }

  // The states

  const BEHIND_0 := State(Column(0x00, 0x10, 0x20, 0x30), Column(0x40, 0x50, 0x60, 0x70),
                          Column(0x80, 0x90, 0xA0, 0xB0), Column(0xC0, 0xD0, 0xE0, 0xF0))
  const BEHIND_1 := State(Column(0x4F, 0x63, 0x76, 0x06), Column(0x43, 0xE0, 0xAA, 0x85),
                          Column(0xEF, 0xA7, 0x21, 0x32), Column(0x01, 0xA4, 0xE7, 0x05))
  const BEHIND_2 := State(Column(0x18, 0x59, 0xFB, 0xC2), Column(0x8A, 0x1C, 0x00, 0xA0),
                          Column(0x78, 0xED, 0x8A, 0xAD), Column(0xC4, 0x2F, 0x61, 0x09))
  const BEHIND_3 := State(Column(0x97, 0x5C, 0x66, 0xC1), Column(0xCB, 0x9F, 0x3F, 0xA8),
                          Column(0xA9, 0x3A, 0x28, 0xDF), Column(0x8E, 0xE1, 0x0F, 0x63))
  const BEHIND_4 := State(Column(0x1C, 0x05, 0xF2, 0x71), Column(0xA4, 0x17, 0xE0, 0x4F),
                          Column(0xF9, 0x21, 0xC5, 0xC1), Column(0x04, 0x70, 0x15, 0x54))
  const BEHIND_5 := State(Column(0xC3, 0x57, 0xAA, 0xE1), Column(0x1B, 0x45, 0xB7, 0xB0),
                          Column(0xA2, 0xC7, 0xBD, 0x28), Column(0xA8, 0xDC, 0x99, 0xFA))
  const BEHIND_6 := State(Column(0x7F, 0x07, 0x41, 0x43), Column(0xCB, 0x4E, 0x24, 0x3E),
                          Column(0xC1, 0x0C, 0x81, 0x5D), Column(0x83, 0x75, 0xD5, 0x4C))
  const BEHIND_7 := State(Column(0xD6, 0x53, 0xA4, 0x69), Column(0x6C, 0xA0, 0xBC, 0x0F),
                          Column(0x5A, 0xCA, 0xAB, 0x5D), Column(0xB9, 0x6C, 0x5E, 0x7D))
  const BEHIND_8 := State(Column(0x5A, 0xA8, 0x58, 0x39), Column(0x5F, 0xD2, 0x8D, 0x7D),
                          Column(0x05, 0xE1, 0xA3, 0x88), Column(0x68, 0xF3, 0xB9, 0xC5))
  const BEHIND_9 := State(Column(0x4A, 0x82, 0x48, 0x51), Column(0xC5, 0x7E, 0x7E, 0x47),
                          Column(0x64, 0x3D, 0xE5, 0x0C), Column(0x2A, 0xF3, 0xE8, 0xC9))
  const BEHIND_10 := State(Column(0xC1, 0x49, 0x07, 0xF6), Column(0xCA, 0x3B, 0x3A, 0xA0),
                           Column(0x70, 0xE9, 0xAA, 0x31), Column(0x3B, 0x52, 0xB5, 0xEC))
  const BEHIND_11 := State(Column(0x5F, 0x9C, 0x6A, 0xBF), Column(0xBA, 0xC6, 0x34, 0xAA),
                           Column(0x50, 0x40, 0x9F, 0xA7), Column(0x66, 0x67, 0x76, 0x53))
  const BEHIND_12 := State(Column(0x51, 0x66, 0x04, 0x95), Column(0x43, 0x53, 0x95, 0x03),
                           Column(0x14, 0xFB, 0x86, 0xE4), Column(0x01, 0x92, 0x25, 0x21))
  const BEHIND_13 := State(Column(0x62, 0x7B, 0xCE, 0xB9), Column(0x99, 0x9D, 0x5A, 0xAA),
                           Column(0xC9, 0x45, 0xEC, 0xF4), Column(0x23, 0xF5, 0x6D, 0xA5))
  const BEHIND_14 := State(Column(0x8E, 0xA2, 0xB7, 0xCA), Column(0x51, 0x67, 0x45, 0xBF),
                           Column(0xEA, 0xFC, 0x49, 0x90), Column(0x4B, 0x49, 0x60, 0x89))
  const SUBSTITUTED_0 := State(Column(0x63, 0xCA, 0xB7, 0x04), Column(0x09, 0x53, 0xD0, 0x51),
                               Column(0xCD, 0x60, 0xE0, 0xE7), Column(0xBA, 0x70, 0xE1, 0x8C))
  const SUBSTITUTED_1 := State(Column(0x84, 0xFB, 0x38, 0x6F), Column(0x1A, 0xE1, 0xAC, 0x97),
                               Column(0xDF, 0x5C, 0xFD, 0x23), Column(0x7C, 0x49, 0x94, 0x6B))
  const SUBSTITUTED_2 := State(Column(0xAD, 0xCB, 0x0F, 0x25), Column(0x7E, 0x9C, 0x63, 0xE0),
                               Column(0xBC, 0x55, 0x7E, 0x95), Column(0x1C, 0x15, 0xEF, 0x01))
  const SUBSTITUTED_3 := State(Column(0x88, 0x4A, 0x33, 0x78), Column(0x1F, 0xDB, 0x75, 0xC2),
                               Column(0xD3, 0x80, 0x34, 0x9E), Column(0x19, 0xF8, 0x76, 0xFB))
  const SUBSTITUTED_4 := State(Column(0x9C, 0x6B, 0x89, 0xA3), Column(0x49, 0xF0, 0xE1, 0x84),
                               Column(0x99, 0xFD, 0xA6, 0x78), Column(0xF2, 0x51, 0x59, 0x20))
  const SUBSTITUTED_5 := State(Column(0x2E, 0x5B, 0xAC, 0xF8), Column(0xAF, 0x6E, 0xA9, 0xE7),
                               Column(0x3A, 0xC6, 0x7A, 0x34), Column(0xC2, 0x86, 0xEE, 0x2D))
  const SUBSTITUTED_6 := State(Column(0xD2, 0xC5, 0x83, 0x1A), Column(0x1F, 0x2F, 0x36, 0xB2),
                               Column(0x78, 0xFE, 0x0C, 0x4C), Column(0xEC, 0x9D, 0x03, 0x29))
  const SUBSTITUTED_7 := State(Column(0xF6, 0xED, 0x49, 0xF9), Column(0x50, 0xE0, 0x65, 0x76),
                               Column(0xBE, 0x74, 0x62, 0x4C), Column(0x56, 0x50, 0x58, 0xFF))
  const SUBSTITUTED_8 := State(Column(0xBE, 0xC2, 0x6A, 0x12), Column(0xCF, 0xB5, 0x5D, 0xFF),
                               Column(0x6B, 0xF8, 0x0A, 0xC4), Column(0x45, 0x0D, 0x56, 0xA6))
  const SUBSTITUTED_9 := State(Column(0xD6, 0x13, 0x52, 0xD1), Column(0xA6, 0xF3, 0xF3, 0xA0),
                               Column(0x43, 0x27, 0xD9, 0xFE), Column(0xE5, 0x0D, 0x9B, 0xDD))
  const SUBSTITUTED_10 := State(Column(0x78, 0x3B, 0xC5, 0x42), Column(0x74, 0xE2, 0x80, 0xE0),
                                Column(0x51, 0x1E, 0xAC, 0xC7), Column(0xE2, 0x00, 0xD5, 0xCE))
  const SUBSTITUTED_11 := State(Column(0xCF, 0xDE, 0x02, 0x08), Column(0xF4, 0xB4, 0x18, 0xAC),
                                Column(0x53, 0x09, 0xDB, 0x5C), Column(0x33, 0x85, 0x38, 0xED))
  const SUBSTITUTED_12 := State(Column(0xD1, 0x33, 0xF2, 0x2A), Column(0x1A, 0xED, 0x2A, 0x7B),
                                Column(0xFA, 0x0F, 0x44, 0x69), Column(0x7C, 0x4F, 0x3F, 0xFD))
  const SUBSTITUTED_13 := State(Column(0xAA, 0x21, 0x8B, 0x56), Column(0xEE, 0x5E, 0xBE, 0xAC),
                                Column(0xDD, 0x6E, 0xCE, 0xBF), Column(0x26, 0xE6, 0x3C, 0x06))

  lemma LeftEntries0()
    ensures
      && Sbox(0x00) == 0x63 && Sbox(0x10) == 0xCA && Sbox(0x20) == 0xB7 && Sbox(0x30) == 0x04
      && Sbox(0x40) == 0x09 && Sbox(0x50) == 0x53 && Sbox(0x60) == 0xD0 && Sbox(0x70) == 0x51
  {
  }

  lemma RightEntries0()
    ensures
      && Sbox(0x80) == 0xCD && Sbox(0x90) == 0x60 && Sbox(0xA0) == 0xE0 && Sbox(0xB0) == 0xE7
      && Sbox(0xC0) == 0xBA && Sbox(0xD0) == 0x70 && Sbox(0xE0) == 0xE1 && Sbox(0xF0) == 0x8C
  {
  }

  lemma Substitution0()
    ensures SubBytes(BEHIND_0) == SUBSTITUTED_0
  {
    hide Sbox;
    LeftEntries0();
    RightEntries0();
  }

  lemma LeftEntries1()
    ensures
      && Sbox(0x4F) == 0x84 && Sbox(0x63) == 0xFB && Sbox(0x76) == 0x38 && Sbox(0x06) == 0x6F
      && Sbox(0x43) == 0x1A && Sbox(0xE0) == 0xE1 && Sbox(0xAA) == 0xAC && Sbox(0x85) == 0x97
  {
  }

  lemma RightEntries1()
    ensures
      && Sbox(0xEF) == 0xDF && Sbox(0xA7) == 0x5C && Sbox(0x21) == 0xFD && Sbox(0x32) == 0x23
      && Sbox(0x01) == 0x7C && Sbox(0xA4) == 0x49 && Sbox(0xE7) == 0x94 && Sbox(0x05) == 0x6B
  {
  }

  lemma Substitution1()
    ensures SubBytes(BEHIND_1) == SUBSTITUTED_1
  {
    hide Sbox;
    LeftEntries1();
    RightEntries1();
  }

  lemma LeftEntries2()
    ensures
      && Sbox(0x18) == 0xAD && Sbox(0x59) == 0xCB && Sbox(0xFB) == 0x0F && Sbox(0xC2) == 0x25
      && Sbox(0x8A) == 0x7E && Sbox(0x1C) == 0x9C && Sbox(0x00) == 0x63 && Sbox(0xA0) == 0xE0
  {
  }

  lemma RightEntries2()
    ensures
      && Sbox(0x78) == 0xBC && Sbox(0xED) == 0x55 && Sbox(0x8A) == 0x7E && Sbox(0xAD) == 0x95
      && Sbox(0xC4) == 0x1C && Sbox(0x2F) == 0x15 && Sbox(0x61) == 0xEF && Sbox(0x09) == 0x01
  {
  }

  lemma Substitution2()
    ensures SubBytes(BEHIND_2) == SUBSTITUTED_2
  {
    hide Sbox;
    LeftEntries2();
    RightEntries2();
  }

  lemma LeftEntries3()
    ensures
      && Sbox(0x97) == 0x88 && Sbox(0x5C) == 0x4A && Sbox(0x66) == 0x33 && Sbox(0xC1) == 0x78
      && Sbox(0xCB) == 0x1F && Sbox(0x9F) == 0xDB && Sbox(0x3F) == 0x75 && Sbox(0xA8) == 0xC2
  {
  }

  lemma RightEntries3()
    ensures
      && Sbox(0xA9) == 0xD3 && Sbox(0x3A) == 0x80 && Sbox(0x28) == 0x34 && Sbox(0xDF) == 0x9E
      && Sbox(0x8E) == 0x19 && Sbox(0xE1) == 0xF8 && Sbox(0x0F) == 0x76 && Sbox(0x63) == 0xFB
  {
  }

  lemma Substitution3()
    ensures SubBytes(BEHIND_3) == SUBSTITUTED_3
  {
    hide Sbox;
    LeftEntries3();
    RightEntries3();
  }

  lemma LeftEntries4()
    ensures
      && Sbox(0x1C) == 0x9C && Sbox(0x05) == 0x6B && Sbox(0xF2) == 0x89 && Sbox(0x71) == 0xA3
      && Sbox(0xA4) == 0x49 && Sbox(0x17) == 0xF0 && Sbox(0xE0) == 0xE1 && Sbox(0x4F) == 0x84
  {
  }

  lemma RightEntries4()
    ensures
      && Sbox(0xF9) == 0x99 && Sbox(0x21) == 0xFD && Sbox(0xC5) == 0xA6 && Sbox(0xC1) == 0x78
      && Sbox(0x04) == 0xF2 && Sbox(0x70) == 0x51 && Sbox(0x15) == 0x59 && Sbox(0x54) == 0x20
  {
  }

  lemma Substitution4()
    ensures SubBytes(BEHIND_4) == SUBSTITUTED_4
  {
    hide Sbox;
    LeftEntries4();
    RightEntries4();
  }

  lemma LeftEntries5()
    ensures
      && Sbox(0xC3) == 0x2E && Sbox(0x57) == 0x5B && Sbox(0xAA) == 0xAC && Sbox(0xE1) == 0xF8
      && Sbox(0x1B) == 0xAF && Sbox(0x45) == 0x6E && Sbox(0xB7) == 0xA9 && Sbox(0xB0) == 0xE7
  {
  }

  lemma RightEntries5()
    ensures
      && Sbox(0xA2) == 0x3A && Sbox(0xC7) == 0xC6 && Sbox(0xBD) == 0x7A && Sbox(0x28) == 0x34
      && Sbox(0xA8) == 0xC2 && Sbox(0xDC) == 0x86 && Sbox(0x99) == 0xEE && Sbox(0xFA) == 0x2D
  {
  }

  lemma Substitution5()
    ensures SubBytes(BEHIND_5) == SUBSTITUTED_5
  {
    hide Sbox;
    LeftEntries5();
    RightEntries5();
  }

  lemma LeftEntries6()
    ensures
      && Sbox(0x7F) == 0xD2 && Sbox(0x07) == 0xC5 && Sbox(0x41) == 0x83 && Sbox(0x43) == 0x1A
      && Sbox(0xCB) == 0x1F && Sbox(0x4E) == 0x2F && Sbox(0x24) == 0x36 && Sbox(0x3E) == 0xB2
  {
  }

  lemma RightEntries6()
    ensures
      && Sbox(0xC1) == 0x78 && Sbox(0x0C) == 0xFE && Sbox(0x81) == 0x0C && Sbox(0x5D) == 0x4C
      && Sbox(0x83) == 0xEC && Sbox(0x75) == 0x9D && Sbox(0xD5) == 0x03 && Sbox(0x4C) == 0x29
  {
  }

  lemma Substitution6()
    ensures SubBytes(BEHIND_6) == SUBSTITUTED_6
  {
    hide Sbox;
    LeftEntries6();
    RightEntries6();
  }

  lemma LeftEntries7()
    ensures
      && Sbox(0xD6) == 0xF6 && Sbox(0x53) == 0xED && Sbox(0xA4) == 0x49 && Sbox(0x69) == 0xF9
      && Sbox(0x6C) == 0x50 && Sbox(0xA0) == 0xE0 && Sbox(0xBC) == 0x65 && Sbox(0x0F) == 0x76
  {
  }

  lemma RightEntries7()
    ensures
      && Sbox(0x5A) == 0xBE && Sbox(0xCA) == 0x74 && Sbox(0xAB) == 0x62 && Sbox(0x5D) == 0x4C
      && Sbox(0xB9) == 0x56 && Sbox(0x6C) == 0x50 && Sbox(0x5E) == 0x58 && Sbox(0x7D) == 0xFF
  {
  }

  lemma Substitution7()
    ensures SubBytes(BEHIND_7) == SUBSTITUTED_7
  {
    hide Sbox;
    LeftEntries7();
    RightEntries7();
  }

  lemma LeftEntries8()
    ensures
      && Sbox(0x5A) == 0xBE && Sbox(0xA8) == 0xC2 && Sbox(0x58) == 0x6A && Sbox(0x39) == 0x12
      && Sbox(0x5F) == 0xCF && Sbox(0xD2) == 0xB5 && Sbox(0x8D) == 0x5D && Sbox(0x7D) == 0xFF
  {
  }

  lemma RightEntries8()
    ensures
      && Sbox(0x05) == 0x6B && Sbox(0xE1) == 0xF8 && Sbox(0xA3) == 0x0A && Sbox(0x88) == 0xC4
      && Sbox(0x68) == 0x45 && Sbox(0xF3) == 0x0D && Sbox(0xB9) == 0x56 && Sbox(0xC5) == 0xA6
  {
  }

  lemma Substitution8()
    ensures SubBytes(BEHIND_8) == SUBSTITUTED_8
  {
    hide Sbox;
    LeftEntries8();
    RightEntries8();
  }

  lemma LeftEntries9()
    ensures
      && Sbox(0x4A) == 0xD6 && Sbox(0x82) == 0x13 && Sbox(0x48) == 0x52 && Sbox(0x51) == 0xD1
      && Sbox(0xC5) == 0xA6 && Sbox(0x7E) == 0xF3 && Sbox(0x7E) == 0xF3 && Sbox(0x47) == 0xA0
  {
  }

  lemma RightEntries9()
    ensures
      && Sbox(0x64) == 0x43 && Sbox(0x3D) == 0x27 && Sbox(0xE5) == 0xD9 && Sbox(0x0C) == 0xFE
      && Sbox(0x2A) == 0xE5 && Sbox(0xF3) == 0x0D && Sbox(0xE8) == 0x9B && Sbox(0xC9) == 0xDD
  {
  }

  lemma Substitution9()
    ensures SubBytes(BEHIND_9) == SUBSTITUTED_9
  {
    hide Sbox;
    LeftEntries9();
    RightEntries9();
  }

  lemma LeftEntries10()
    ensures
      && Sbox(0xC1) == 0x78 && Sbox(0x49) == 0x3B && Sbox(0x07) == 0xC5 && Sbox(0xF6) == 0x42
      && Sbox(0xCA) == 0x74 && Sbox(0x3B) == 0xE2 && Sbox(0x3A) == 0x80 && Sbox(0xA0) == 0xE0
  {
  }

  lemma RightEntries10()
    ensures
      && Sbox(0x70) == 0x51 && Sbox(0xE9) == 0x1E && Sbox(0xAA) == 0xAC && Sbox(0x31) == 0xC7
      && Sbox(0x3B) == 0xE2 && Sbox(0x52) == 0x00 && Sbox(0xB5) == 0xD5 && Sbox(0xEC) == 0xCE
  {
  }

  lemma Substitution10()
    ensures SubBytes(BEHIND_10) == SUBSTITUTED_10
  {
    hide Sbox;
    LeftEntries10();
    RightEntries10();
  }

  lemma LeftEntries11()
    ensures
      && Sbox(0x5F) == 0xCF && Sbox(0x9C) == 0xDE && Sbox(0x6A) == 0x02 && Sbox(0xBF) == 0x08
      && Sbox(0xBA) == 0xF4 && Sbox(0xC6) == 0xB4 && Sbox(0x34) == 0x18 && Sbox(0xAA) == 0xAC
  {
  }

  lemma RightEntries11()
    ensures
      && Sbox(0x50) == 0x53 && Sbox(0x40) == 0x09 && Sbox(0x9F) == 0xDB && Sbox(0xA7) == 0x5C
      && Sbox(0x66) == 0x33 && Sbox(0x67) == 0x85 && Sbox(0x76) == 0x38 && Sbox(0x53) == 0xED
  {
  }

  lemma Substitution11()
    ensures SubBytes(BEHIND_11) == SUBSTITUTED_11
  {
    hide Sbox;
    LeftEntries11();
    RightEntries11();
  }

  lemma LeftEntries12()
    ensures
      && Sbox(0x51) == 0xD1 && Sbox(0x66) == 0x33 && Sbox(0x04) == 0xF2 && Sbox(0x95) == 0x2A
      && Sbox(0x43) == 0x1A && Sbox(0x53) == 0xED && Sbox(0x95) == 0x2A && Sbox(0x03) == 0x7B
  {
  }

  lemma RightEntries12()
    ensures
      && Sbox(0x14) == 0xFA && Sbox(0xFB) == 0x0F && Sbox(0x86) == 0x44 && Sbox(0xE4) == 0x69
      && Sbox(0x01) == 0x7C && Sbox(0x92) == 0x4F && Sbox(0x25) == 0x3F && Sbox(0x21) == 0xFD
  {
  }

  lemma Substitution12()
    ensures SubBytes(BEHIND_12) == SUBSTITUTED_12
  {
    hide Sbox;
    LeftEntries12();
    RightEntries12();
  }

  lemma LeftEntries13()
    ensures
      && Sbox(0x62) == 0xAA && Sbox(0x7B) == 0x21 && Sbox(0xCE) == 0x8B && Sbox(0xB9) == 0x56
      && Sbox(0x99) == 0xEE && Sbox(0x9D) == 0x5E && Sbox(0x5A) == 0xBE && Sbox(0xAA) == 0xAC
  {
  }

  lemma RightEntries13()
    ensures
      && Sbox(0xC9) == 0xDD && Sbox(0x45) == 0x6E && Sbox(0xEC) == 0xCE && Sbox(0xF4) == 0xBF
      && Sbox(0x23) == 0x26 && Sbox(0xF5) == 0xE6 && Sbox(0x6D) == 0x3C && Sbox(0xA5) == 0x06
  {
  }

  lemma Substitution13()
    ensures SubBytes(BEHIND_13) == SUBSTITUTED_13
  {
    hide Sbox;
    LeftEntries13();
    RightEntries13();
  }

  lemma Rounds1()
    ensures AddRoundKey(MixColumns(ShiftRows(SUBSTITUTED_0)), RoundKey(WORDS_0, 1)) == BEHIND_1
    ensures AddRoundKey(MixColumns(ShiftRows(SUBSTITUTED_1)), RoundKey(WORDS_1, 0)) == BEHIND_2
    ensures AddRoundKey(MixColumns(ShiftRows(SUBSTITUTED_2)), RoundKey(WORDS_1, 1)) == BEHIND_3
  {
  }

  lemma Rounds4()
    ensures AddRoundKey(MixColumns(ShiftRows(SUBSTITUTED_3)), RoundKey(WORDS_2, 0)) == BEHIND_4
    ensures AddRoundKey(MixColumns(ShiftRows(SUBSTITUTED_4)), RoundKey(WORDS_2, 1)) == BEHIND_5
    ensures AddRoundKey(MixColumns(ShiftRows(SUBSTITUTED_5)), RoundKey(WORDS_3, 0)) == BEHIND_6
  {
  }

  lemma Rounds7()
    ensures AddRoundKey(MixColumns(ShiftRows(SUBSTITUTED_6)), RoundKey(WORDS_3, 1)) == BEHIND_7
    ensures AddRoundKey(MixColumns(ShiftRows(SUBSTITUTED_7)), RoundKey(WORDS_4, 0)) == BEHIND_8
    ensures AddRoundKey(MixColumns(ShiftRows(SUBSTITUTED_8)), RoundKey(WORDS_4, 1)) == BEHIND_9
  {
  }

  lemma Rounds10()
    ensures AddRoundKey(MixColumns(ShiftRows(SUBSTITUTED_9)), RoundKey(WORDS_5, 0)) == BEHIND_10
    ensures AddRoundKey(MixColumns(ShiftRows(SUBSTITUTED_10)), RoundKey(WORDS_5, 1)) == BEHIND_11
    ensures AddRoundKey(MixColumns(ShiftRows(SUBSTITUTED_11)), RoundKey(WORDS_6, 0)) == BEHIND_12
  {
  }

  lemma Rounds13()
    ensures AddRoundKey(MixColumns(ShiftRows(SUBSTITUTED_12)), RoundKey(WORDS_6, 1)) == BEHIND_13
  {
  }

  lemma FirstAndLast()
    ensures AddRoundKey(StateOf(PLAIN), RoundKey(WORDS_0, 0)) == BEHIND_0
    ensures AddRoundKey(ShiftRows(SUBSTITUTED_13), RoundKey(WORDS_7, 0)) == BEHIND_14
    ensures BlockOf(BEHIND_14) == CIPHER
  {
  }

  // The example

  const PLAIN: Block := [0x00, 0x11, 0x22, 0x33, 0x44, 0x55, 0x66, 0x77,
                         0x88, 0x99, 0xAA, 0xBB, 0xCC, 0xDD, 0xEE, 0xFF]
  const CIPHER: Block := [0x8E, 0xA2, 0xB7, 0xCA, 0x51, 0x67, 0x45, 0xBF,
                          0xEA, 0xFC, 0x49, 0x90, 0x4B, 0x49, 0x60, 0x89]
  const KEY: seq<bv8> := [
    0x00, 0x01, 0x02, 0x03, 0x04, 0x05, 0x06, 0x07, 0x08, 0x09, 0x0A, 0x0B, 0x0C, 0x0D, 0x0E, 0x0F,
    0x10, 0x11, 0x12, 0x13, 0x14, 0x15, 0x16, 0x17, 0x18, 0x19, 0x1A, 0x1B, 0x1C, 0x1D, 0x1E, 0x1F]

  lemma KeyWordsAre()
    ensures WordOf(Column(0x00, 0x01, 0x02, 0x03)) == 0x00010203 && WordOf(Column(0x04, 0x05, 0x06, 0x07)) == 0x04050607
    ensures WordOf(Column(0x08, 0x09, 0x0A, 0x0B)) == 0x08090A0B && WordOf(Column(0x0C, 0x0D, 0x0E, 0x0F)) == 0x0C0D0E0F
    ensures WordOf(Column(0x10, 0x11, 0x12, 0x13)) == 0x10111213 && WordOf(Column(0x14, 0x15, 0x16, 0x17)) == 0x14151617
    ensures WordOf(Column(0x18, 0x19, 0x1A, 0x1B)) == 0x18191A1B && WordOf(Column(0x1C, 0x1D, 0x1E, 0x1F)) == 0x1C1D1E1F
  {
  }

  lemma KeyIs()
    ensures WordsOf(KEY, 8) == WORDS_0
  {
    KeyWordsAre();
    hide WordOf, WordsOf;
    FirstWords(KEY, 8, 0);
    FirstWords(KEY, 8, 1);
    FirstWords(KEY, 8, 2);
    FirstWords(KEY, 8, 3);
    FirstWords(KEY, 8, 4);
    FirstWords(KEY, 8, 5);
    FirstWords(KEY, 8, 6);
    FirstWords(KEY, 8, 7);
    var w := WordsOf(KEY, 8);
    assert w == [w[0], w[1], w[2], w[3], w[4], w[5], w[6], w[7]];
  }

  /** The round keys are those of the parts of the schedule. */
  lemma RoundKeyIs(key: seq<Word>, n: nat, k: nat)
    requires |key| == 8 && 8 * k + 8 <= n
    ensures RoundKey(Expanded(key, n), 2 * k) == RoundKey(Part(key, n, k), 0)
    ensures RoundKey(Expanded(key, n), 2 * k + 1) == RoundKey(Part(key, n, k), 1)
  {
    hide Expanded, KeyColumn;
  }

  lemma PartsAre(key: seq<Word>)
    requires key == WORDS_0
    ensures Part(key, 64, 0) == WORDS_0 && Part(key, 64, 1) == WORDS_1 && Part(key, 64, 2) == WORDS_2
    ensures Part(key, 64, 3) == WORDS_3 && Part(key, 64, 4) == WORDS_4 && Part(key, 64, 5) == WORDS_5
    ensures Part(key, 64, 6) == WORDS_6 && Part(key, 64, 7) == WORDS_7
  {
    hide NextEight, Expanded;
    assert Part(key, 64, 0) == key;
    hide Part;
    Words1();
    Words2();
    Words3();
    Words4();
    Words5();
    Words6();
    Words7();
    NextPart(key, 64, 1);
    NextPart(key, 64, 2);
    NextPart(key, 64, 3);
    NextPart(key, 64, 4);
    NextPart(key, 64, 5);
    NextPart(key, 64, 6);
    NextPart(key, 64, 7);
  }

  lemma NextRound(s: State, key: seq<Word>, i: nat, before: State, after: State)
    requires 4 * i + 4 <= |key| && i > 0 && Rounds(s, key, i - 1) == before
    requires AddRoundKey(MixColumns(ShiftRows(SubBytes(before))), RoundKey(key, i)) == after
    ensures Rounds(s, key, i) == after
  {
    hide SubBytes, ShiftRows, MixColumns, AddRoundKey, RoundKey;
  }

  lemma FirstRounds(key: seq<Word>)
    requires key == Expanded(WORDS_0, 64)
    ensures Rounds(StateOf(PLAIN), key, 7) == BEHIND_7
  {
    hide SubBytes, ShiftRows, MixColumns, AddRoundKey, RoundKey, StateOf, Expanded, Part, Rounds;
    var s := StateOf(PLAIN);
    FirstAndLast();
    NoRounds(s, key);
    PartsAre(WORDS_0);
    RoundKeyIs(WORDS_0, 64, 0);
    RoundKeyIs(WORDS_0, 64, 1);
    RoundKeyIs(WORDS_0, 64, 2);
    RoundKeyIs(WORDS_0, 64, 3);
    Rounds1();
    Rounds4();
    Rounds7();
    Substitution0();
    NextRound(s, key, 1, BEHIND_0, BEHIND_1);
    Substitution1();
    NextRound(s, key, 2, BEHIND_1, BEHIND_2);
    Substitution2();
    NextRound(s, key, 3, BEHIND_2, BEHIND_3);
    Substitution3();
    NextRound(s, key, 4, BEHIND_3, BEHIND_4);
    Substitution4();
    NextRound(s, key, 5, BEHIND_4, BEHIND_5);
    Substitution5();
    NextRound(s, key, 6, BEHIND_5, BEHIND_6);
    Substitution6();
    NextRound(s, key, 7, BEHIND_6, BEHIND_7);
  }

  lemma LaterRounds(key: seq<Word>)
    requires key == Expanded(WORDS_0, 64)
    ensures Rounds(StateOf(PLAIN), key, 13) == BEHIND_13 && RoundKey(key, 14) == RoundKey(WORDS_7, 0)
  {
    hide SubBytes, ShiftRows, MixColumns, AddRoundKey, RoundKey, StateOf, Expanded, Part, Rounds;
    var s := StateOf(PLAIN);
    FirstRounds(key);
    PartsAre(WORDS_0);
    RoundKeyIs(WORDS_0, 64, 4);
    RoundKeyIs(WORDS_0, 64, 5);
    RoundKeyIs(WORDS_0, 64, 6);
    RoundKeyIs(WORDS_0, 64, 7);
    Rounds7();
    Rounds10();
    Rounds13();
    Substitution7();
    NextRound(s, key, 8, BEHIND_7, BEHIND_8);
    Substitution8();
    NextRound(s, key, 9, BEHIND_8, BEHIND_9);
    Substitution9();
    NextRound(s, key, 10, BEHIND_9, BEHIND_10);
    Substitution10();
    NextRound(s, key, 11, BEHIND_10, BEHIND_11);
    Substitution11();
    NextRound(s, key, 12, BEHIND_11, BEHIND_12);
    Substitution12();
    NextRound(s, key, 13, BEHIND_12, BEHIND_13);
  }

  lemma SameRoundKeys(a: seq<Word>, b: seq<Word>, i: nat)
    requires 4 * i + 4 <= |b| <= |a| && b == a[..|b|]
    ensures RoundKey(b, i) == RoundKey(a, i)
  {
    hide KeyColumn;
  }

  lemma {:induction false} SameRounds(s: State, a: seq<Word>, b: seq<Word>, i: nat)
    requires 4 * i + 4 <= |b| <= |a| && b == a[..|b|]
    ensures Rounds(s, b, i) == Rounds(s, a, i)
  {
    hide SubBytes, ShiftRows, MixColumns, AddRoundKey, RoundKey;
    SameRoundKeys(a, b, i);
    if i > 0 { SameRounds(s, a, b, i - 1); }
  }

  /** The schedule and the cipher give the block the standard gives. */
  lemma StandardExample(key: seq<Word>)
    requires key == Expanded(WordsOf(KEY, 8), ScheduleLength(256))
    ensures Encrypt(PLAIN, key, 256) == CIPHER
  {
    hide SubBytes, ShiftRows, AddRoundKey, RoundKey, StateOf, BlockOf, Expanded, Rounds, WordsOf;
    KeyIs();
    var long := Expanded(WORDS_0, 64);
    ExpandedPrefix(WORDS_0, 60, 64);
    LaterRounds(long);
    SameRounds(StateOf(PLAIN), long, key, 13);
    SameRoundKeys(long, key, 14);
    Substitution13();
    FirstAndLast();
  }

}
