/** The lowest byte of a number. */
module ByteNumbers {
  function Byte(x: nat): bv8 { (x % 256) as bv8 }

  lemma SmallByte(v: nat)
    requires v < 256
    ensures (v as bv8) as int == v
  {
  }

  lemma SameBytes(x: nat, y: nat)
    requires Byte(x) == Byte(y)
    ensures x % 256 == y % 256
  {
    SmallByte(x % 256);
    SmallByte(y % 256);
  }
}
