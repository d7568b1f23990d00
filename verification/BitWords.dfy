/** 64-bit words as sequences of bits, bit 0 first, and the block-spreading step that Leopard's
    error bitfields are built from. */
module BitWords {

  type Word = w: seq<bool> | |w| == 64 witness seq(64, _ => false)

  /** A word written in hexadecimal, the least significant digit first. */
  function Hex(digits: seq<nat>): Word
    requires |digits| == 16
  {
    seq(64, k requires 0 <= k < 64 =>
      digits[k / 4] / (if k % 4 == 0 then 1 else if k % 4 == 1 then 2 else if k % 4 == 2 then 4 else 8) % 2 == 1)
  }

  function Zero(): Word { seq(64, _ => false) }

  function Or(a: Word, b: Word): Word { seq(64, k requires 0 <= k < 64 => a[k] || b[k]) }

  function And(a: Word, b: Word): Word { seq(64, k requires 0 <= k < 64 => a[k] && b[k]) }

  function ShiftRight(a: Word, s: nat): Word { seq(64, k requires 0 <= k < 64 => k + s < 64 && a[k + s]) }

  function ShiftLeft(a: Word, s: nat): Word { seq(64, k requires 0 <= k < 64 => k >= s && a[k - s]) }

  /** The word with only bit `k` set. */
  function OneBit(k: nat): Word
    requires k < 64
  {
    seq(64, i => i == k)
  }

  /** kHiMasks: in mask `j` the upper halves of all aligned blocks of 2^(j+1) bits are set. */
  function HiMask(j: nat): Word
    requires j < 5
  {
    if j == 0 then Hex([0xA, 0xA, 0xA, 0xA, 0xA, 0xA, 0xA, 0xA, 0xA, 0xA, 0xA, 0xA, 0xA, 0xA, 0xA, 0xA])
    else if j == 1 then Hex([0xC, 0xC, 0xC, 0xC, 0xC, 0xC, 0xC, 0xC, 0xC, 0xC, 0xC, 0xC, 0xC, 0xC, 0xC, 0xC])
    else if j == 2 then Hex([0, 0xF, 0, 0xF, 0, 0xF, 0, 0xF, 0, 0xF, 0, 0xF, 0, 0xF, 0, 0xF])
    else if j == 3 then Hex([0, 0, 0xF, 0xF, 0, 0, 0xF, 0xF, 0, 0, 0xF, 0xF, 0, 0, 0xF, 0xF])
    else Hex([0, 0, 0, 0, 0xF, 0xF, 0xF, 0xF, 0, 0, 0, 0, 0xF, 0xF, 0xF, 0xF])
  }

  lemma HexBits(digits: seq<nat>, k: nat)
    requires |digits| == 16 && k < 64 && digits[k / 4] <= 15
    ensures digits[k / 4] == 0xA ==> Hex(digits)[k] == (k % 2 == 1)
    ensures digits[k / 4] == 0xC ==> Hex(digits)[k] == (k % 4 >= 2)
    ensures digits[k / 4] == 0 ==> !Hex(digits)[k]
    ensures digits[k / 4] == 0xF ==> Hex(digits)[k]
  {
  }

  /** 2^j for distances inside a word. */
  function Stride(j: nat): (s: nat)
    requires j < 6
    ensures 0 < s <= 32
  {
    if j == 0 then 1 else if j == 1 then 2 else if j == 2 then 4 else if j == 3 then 8 else if j == 4 then 16 else 32
  }

  lemma MaskBits(j: nat, k: nat)
    requires j < 5 && k < 64
    ensures HiMask(j)[k] == (k / Stride(j) % 2 == 1)
  {
    hide Hex;
    if j < 2 {
      MaskBitsInDigit(j, k);
    } else if j == 2 {
      MaskBits2(k);
    } else if j == 3 {
      MaskBits3(k);
    } else {
      MaskBits4(k);
    }
  }

  lemma MaskBitsInDigit(j: nat, k: nat)
    requires j < 2 && k < 64
    ensures HiMask(j)[k] == (k / Stride(j) % 2 == 1)
  {
    hide Hex;
    HexBits([0xA, 0xA, 0xA, 0xA, 0xA, 0xA, 0xA, 0xA, 0xA, 0xA, 0xA, 0xA, 0xA, 0xA, 0xA, 0xA], k);
    HexBits([0xC, 0xC, 0xC, 0xC, 0xC, 0xC, 0xC, 0xC, 0xC, 0xC, 0xC, 0xC, 0xC, 0xC, 0xC, 0xC], k);
    assert k / 2 % 2 == 1 <==> k % 4 >= 2;
  }

  lemma MaskBits2(k: nat)
    requires k < 64
    ensures HiMask(2)[k] == (k / 4 % 2 == 1)
  {
    hide Hex;
    HexBits([0, 0xF, 0, 0xF, 0, 0xF, 0, 0xF, 0, 0xF, 0, 0xF, 0, 0xF, 0, 0xF], k);
  }

  lemma MaskBits3(k: nat)
    requires k < 64
    ensures HiMask(3)[k] == (k / 8 % 2 == 1)
  {
    hide Hex;
    HexBits([0, 0, 0xF, 0xF, 0, 0, 0xF, 0xF, 0, 0, 0xF, 0xF, 0, 0, 0xF, 0xF], k);
    var d := k / 4;
    assert k / 8 == d / 2;
  }

  lemma MaskBits4(k: nat)
    requires k < 64
    ensures HiMask(4)[k] == (k / 16 % 2 == 1)
  {
    hide Hex;
    HexBits([0, 0, 0, 0, 0xF, 0xF, 0xF, 0xF, 0, 0, 0, 0, 0xF, 0xF, 0xF, 0xF], k);
    var d := k / 4;
    assert k / 16 == d / 4;
  }

  /** One step of Prepare: every bit also takes the value of its partner at distance 2^j, so that
      blocks of 2^j equal bits become blocks of twice that size. */
  function Spread(w: Word, j: nat): Word
    requires j < 5
  {
    var bits := Stride(j);
    var hi2lo := Or(w, ShiftRight(And(w, HiMask(j)), bits));
    var lo2hi := ShiftLeft(And(w, ShiftRight(HiMask(j), bits)), bits);
    Or(hi2lo, lo2hi)
  }

  lemma SpreadBit(w: Word, j: nat, k: nat)
    requires j < 5 && k < 64
    ensures var s := Stride(j);
            Spread(w, j)[k] == (w[k] || if k / s % 2 == 0 then k + s < 64 && w[k + s] else k >= s && w[k - s])
  {
    hide HiMask;
    var s := Stride(j);
    MaskBits(j, k);
    if k + s < 64 { MaskBits(j, k + s); }
    PartnerParity(k, j);
  }

  lemma PartnerParity(k: nat, j: nat)
    requires j < 5
    ensures (k + Stride(j)) / Stride(j) == k / Stride(j) + 1
  {
  }

  lemma PartnerBlocks(k: nat, j: nat)
    requires j < 5 && k < 64
    ensures var s := Stride(j); var b := k / (2 * s);
            if k / s % 2 == 0 then k / s == 2 * b && k + s < 64 && (k + s) / s == 2 * b + 1
            else k / s == 2 * b + 1 && k >= s && (k - s) / s == 2 * b
  {
    if j == 0 {
    } else if j == 1 {
    } else if j == 2 {
    } else if j == 3 {
    } else {
    }
  }

  /** w | w >> 32 | w << 32 */
  function Fold(w: Word): Word {
    Or(Or(w, ShiftRight(w, 32)), ShiftLeft(w, 32))
  }

  lemma FoldBit(w: Word, k: nat)
    requires k < 64
    ensures Fold(w)[k] == (w[k] || w[if k < 32 then k + 32 else k - 32])
  {
  }
}
