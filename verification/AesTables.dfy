/** The substitution tables of AES, one row for each upper half of a byte. */
module AesTables {
  function SboxRow0(lo: bv8): bv8 {
    match lo
    case 0 => 0x63 case 1 => 0x7C case 2 => 0x77 case 3 => 0x7B
    case 4 => 0xF2 case 5 => 0x6B case 6 => 0x6F case 7 => 0xC5
    case 8 => 0x30 case 9 => 0x01 case 10 => 0x67 case 11 => 0x2B
    case 12 => 0xFE case 13 => 0xD7 case 14 => 0xAB case _ => 0x76
  }

  function SboxRow1(lo: bv8): bv8 {
    match lo
    case 0 => 0xCA case 1 => 0x82 case 2 => 0xC9 case 3 => 0x7D
    case 4 => 0xFA case 5 => 0x59 case 6 => 0x47 case 7 => 0xF0
    case 8 => 0xAD case 9 => 0xD4 case 10 => 0xA2 case 11 => 0xAF
    case 12 => 0x9C case 13 => 0xA4 case 14 => 0x72 case _ => 0xC0
  }

  function SboxRow2(lo: bv8): bv8 {
    match lo
    case 0 => 0xB7 case 1 => 0xFD case 2 => 0x93 case 3 => 0x26
    case 4 => 0x36 case 5 => 0x3F case 6 => 0xF7 case 7 => 0xCC
    case 8 => 0x34 case 9 => 0xA5 case 10 => 0xE5 case 11 => 0xF1
    case 12 => 0x71 case 13 => 0xD8 case 14 => 0x31 case _ => 0x15
  }

  function SboxRow3(lo: bv8): bv8 {
    match lo
    case 0 => 0x04 case 1 => 0xC7 case 2 => 0x23 case 3 => 0xC3
    case 4 => 0x18 case 5 => 0x96 case 6 => 0x05 case 7 => 0x9A
    case 8 => 0x07 case 9 => 0x12 case 10 => 0x80 case 11 => 0xE2
    case 12 => 0xEB case 13 => 0x27 case 14 => 0xB2 case _ => 0x75
  }

  function SboxRow4(lo: bv8): bv8 {
    match lo
    case 0 => 0x09 case 1 => 0x83 case 2 => 0x2C case 3 => 0x1A
    case 4 => 0x1B case 5 => 0x6E case 6 => 0x5A case 7 => 0xA0
    case 8 => 0x52 case 9 => 0x3B case 10 => 0xD6 case 11 => 0xB3
    case 12 => 0x29 case 13 => 0xE3 case 14 => 0x2F case _ => 0x84
  }

  function SboxRow5(lo: bv8): bv8 {
    match lo
    case 0 => 0x53 case 1 => 0xD1 case 2 => 0x00 case 3 => 0xED
    case 4 => 0x20 case 5 => 0xFC case 6 => 0xB1 case 7 => 0x5B
    case 8 => 0x6A case 9 => 0xCB case 10 => 0xBE case 11 => 0x39
    case 12 => 0x4A case 13 => 0x4C case 14 => 0x58 case _ => 0xCF
  }

  function SboxRow6(lo: bv8): bv8 {
    match lo
    case 0 => 0xD0 case 1 => 0xEF case 2 => 0xAA case 3 => 0xFB
    case 4 => 0x43 case 5 => 0x4D case 6 => 0x33 case 7 => 0x85
    case 8 => 0x45 case 9 => 0xF9 case 10 => 0x02 case 11 => 0x7F
    case 12 => 0x50 case 13 => 0x3C case 14 => 0x9F case _ => 0xA8
  }

  function SboxRow7(lo: bv8): bv8 {
    match lo
    case 0 => 0x51 case 1 => 0xA3 case 2 => 0x40 case 3 => 0x8F
    case 4 => 0x92 case 5 => 0x9D case 6 => 0x38 case 7 => 0xF5
    case 8 => 0xBC case 9 => 0xB6 case 10 => 0xDA case 11 => 0x21
    case 12 => 0x10 case 13 => 0xFF case 14 => 0xF3 case _ => 0xD2
  }

  function SboxRow8(lo: bv8): bv8 {
    match lo
    case 0 => 0xCD case 1 => 0x0C case 2 => 0x13 case 3 => 0xEC
    case 4 => 0x5F case 5 => 0x97 case 6 => 0x44 case 7 => 0x17
    case 8 => 0xC4 case 9 => 0xA7 case 10 => 0x7E case 11 => 0x3D
    case 12 => 0x64 case 13 => 0x5D case 14 => 0x19 case _ => 0x73
  }

  function SboxRow9(lo: bv8): bv8 {
    match lo
    case 0 => 0x60 case 1 => 0x81 case 2 => 0x4F case 3 => 0xDC
    case 4 => 0x22 case 5 => 0x2A case 6 => 0x90 case 7 => 0x88
    case 8 => 0x46 case 9 => 0xEE case 10 => 0xB8 case 11 => 0x14
    case 12 => 0xDE case 13 => 0x5E case 14 => 0x0B case _ => 0xDB
  }

  function SboxRowA(lo: bv8): bv8 {
    match lo
    case 0 => 0xE0 case 1 => 0x32 case 2 => 0x3A case 3 => 0x0A
    case 4 => 0x49 case 5 => 0x06 case 6 => 0x24 case 7 => 0x5C
    case 8 => 0xC2 case 9 => 0xD3 case 10 => 0xAC case 11 => 0x62
    case 12 => 0x91 case 13 => 0x95 case 14 => 0xE4 case _ => 0x79
  }

  function SboxRowB(lo: bv8): bv8 {
    match lo
    case 0 => 0xE7 case 1 => 0xC8 case 2 => 0x37 case 3 => 0x6D
    case 4 => 0x8D case 5 => 0xD5 case 6 => 0x4E case 7 => 0xA9
    case 8 => 0x6C case 9 => 0x56 case 10 => 0xF4 case 11 => 0xEA
    case 12 => 0x65 case 13 => 0x7A case 14 => 0xAE case _ => 0x08
  }

  function SboxRowC(lo: bv8): bv8 {
    match lo
    case 0 => 0xBA case 1 => 0x78 case 2 => 0x25 case 3 => 0x2E
    case 4 => 0x1C case 5 => 0xA6 case 6 => 0xB4 case 7 => 0xC6
    case 8 => 0xE8 case 9 => 0xDD case 10 => 0x74 case 11 => 0x1F
    case 12 => 0x4B case 13 => 0xBD case 14 => 0x8B case _ => 0x8A
  }

  function SboxRowD(lo: bv8): bv8 {
    match lo
    case 0 => 0x70 case 1 => 0x3E case 2 => 0xB5 case 3 => 0x66
    case 4 => 0x48 case 5 => 0x03 case 6 => 0xF6 case 7 => 0x0E
    case 8 => 0x61 case 9 => 0x35 case 10 => 0x57 case 11 => 0xB9
    case 12 => 0x86 case 13 => 0xC1 case 14 => 0x1D case _ => 0x9E
  }

  function SboxRowE(lo: bv8): bv8 {
    match lo
    case 0 => 0xE1 case 1 => 0xF8 case 2 => 0x98 case 3 => 0x11
    case 4 => 0x69 case 5 => 0xD9 case 6 => 0x8E case 7 => 0x94
    case 8 => 0x9B case 9 => 0x1E case 10 => 0x87 case 11 => 0xE9
    case 12 => 0xCE case 13 => 0x55 case 14 => 0x28 case _ => 0xDF
  }

  function SboxRowF(lo: bv8): bv8 {
    match lo
    case 0 => 0x8C case 1 => 0xA1 case 2 => 0x89 case 3 => 0x0D
    case 4 => 0xBF case 5 => 0xE6 case 6 => 0x42 case 7 => 0x68
    case 8 => 0x41 case 9 => 0x99 case 10 => 0x2D case 11 => 0x0F
    case 12 => 0xB0 case 13 => 0x54 case 14 => 0xBB case _ => 0x16
  }

  /** aes_sbox[x >> 4][x & 0x0F] */
  function Sbox(x: bv8): bv8 {
    var hi, lo := x >> 4, x & 0x0F;
    match hi
    case 0 => SboxRow0(lo)
    case 1 => SboxRow1(lo)
    case 2 => SboxRow2(lo)
    case 3 => SboxRow3(lo)
    case 4 => SboxRow4(lo)
    case 5 => SboxRow5(lo)
    case 6 => SboxRow6(lo)
    case 7 => SboxRow7(lo)
    case 8 => SboxRow8(lo)
    case 9 => SboxRow9(lo)
    case 10 => SboxRowA(lo)
    case 11 => SboxRowB(lo)
    case 12 => SboxRowC(lo)
    case 13 => SboxRowD(lo)
    case 14 => SboxRowE(lo)
    case _ => SboxRowF(lo)
  }

  function InvSboxRow0(lo: bv8): bv8 {
    match lo
    case 0 => 0x52 case 1 => 0x09 case 2 => 0x6A case 3 => 0xD5
    case 4 => 0x30 case 5 => 0x36 case 6 => 0xA5 case 7 => 0x38
    case 8 => 0xBF case 9 => 0x40 case 10 => 0xA3 case 11 => 0x9E
    case 12 => 0x81 case 13 => 0xF3 case 14 => 0xD7 case _ => 0xFB
  }

  function InvSboxRow1(lo: bv8): bv8 {
    match lo
    case 0 => 0x7C case 1 => 0xE3 case 2 => 0x39 case 3 => 0x82
    case 4 => 0x9B case 5 => 0x2F case 6 => 0xFF case 7 => 0x87
    case 8 => 0x34 case 9 => 0x8E case 10 => 0x43 case 11 => 0x44
    case 12 => 0xC4 case 13 => 0xDE case 14 => 0xE9 case _ => 0xCB
  }

  function InvSboxRow2(lo: bv8): bv8 {
    match lo
    case 0 => 0x54 case 1 => 0x7B case 2 => 0x94 case 3 => 0x32
    case 4 => 0xA6 case 5 => 0xC2 case 6 => 0x23 case 7 => 0x3D
    case 8 => 0xEE case 9 => 0x4C case 10 => 0x95 case 11 => 0x0B
    case 12 => 0x42 case 13 => 0xFA case 14 => 0xC3 case _ => 0x4E
  }

  function InvSboxRow3(lo: bv8): bv8 {
    match lo
    case 0 => 0x08 case 1 => 0x2E case 2 => 0xA1 case 3 => 0x66
    case 4 => 0x28 case 5 => 0xD9 case 6 => 0x24 case 7 => 0xB2
    case 8 => 0x76 case 9 => 0x5B case 10 => 0xA2 case 11 => 0x49
    case 12 => 0x6D case 13 => 0x8B case 14 => 0xD1 case _ => 0x25
  }

  function InvSboxRow4(lo: bv8): bv8 {
    match lo
    case 0 => 0x72 case 1 => 0xF8 case 2 => 0xF6 case 3 => 0x64
    case 4 => 0x86 case 5 => 0x68 case 6 => 0x98 case 7 => 0x16
    case 8 => 0xD4 case 9 => 0xA4 case 10 => 0x5C case 11 => 0xCC
    case 12 => 0x5D case 13 => 0x65 case 14 => 0xB6 case _ => 0x92
  }

  function InvSboxRow5(lo: bv8): bv8 {
    match lo
    case 0 => 0x6C case 1 => 0x70 case 2 => 0x48 case 3 => 0x50
    case 4 => 0xFD case 5 => 0xED case 6 => 0xB9 case 7 => 0xDA
    case 8 => 0x5E case 9 => 0x15 case 10 => 0x46 case 11 => 0x57
    case 12 => 0xA7 case 13 => 0x8D case 14 => 0x9D case _ => 0x84
  }

  function InvSboxRow6(lo: bv8): bv8 {
    match lo
    case 0 => 0x90 case 1 => 0xD8 case 2 => 0xAB case 3 => 0x00
    case 4 => 0x8C case 5 => 0xBC case 6 => 0xD3 case 7 => 0x0A
    case 8 => 0xF7 case 9 => 0xE4 case 10 => 0x58 case 11 => 0x05
    case 12 => 0xB8 case 13 => 0xB3 case 14 => 0x45 case _ => 0x06
  }

  function InvSboxRow7(lo: bv8): bv8 {
    match lo
    case 0 => 0xD0 case 1 => 0x2C case 2 => 0x1E case 3 => 0x8F
    case 4 => 0xCA case 5 => 0x3F case 6 => 0x0F case 7 => 0x02
    case 8 => 0xC1 case 9 => 0xAF case 10 => 0xBD case 11 => 0x03
    case 12 => 0x01 case 13 => 0x13 case 14 => 0x8A case _ => 0x6B
  }

  function InvSboxRow8(lo: bv8): bv8 {
    match lo
    case 0 => 0x3A case 1 => 0x91 case 2 => 0x11 case 3 => 0x41
    case 4 => 0x4F case 5 => 0x67 case 6 => 0xDC case 7 => 0xEA
    case 8 => 0x97 case 9 => 0xF2 case 10 => 0xCF case 11 => 0xCE
    case 12 => 0xF0 case 13 => 0xB4 case 14 => 0xE6 case _ => 0x73
  }

  function InvSboxRow9(lo: bv8): bv8 {
    match lo
    case 0 => 0x96 case 1 => 0xAC case 2 => 0x74 case 3 => 0x22
    case 4 => 0xE7 case 5 => 0xAD case 6 => 0x35 case 7 => 0x85
    case 8 => 0xE2 case 9 => 0xF9 case 10 => 0x37 case 11 => 0xE8
    case 12 => 0x1C case 13 => 0x75 case 14 => 0xDF case _ => 0x6E
  }

  function InvSboxRowA(lo: bv8): bv8 {
    match lo
    case 0 => 0x47 case 1 => 0xF1 case 2 => 0x1A case 3 => 0x71
    case 4 => 0x1D case 5 => 0x29 case 6 => 0xC5 case 7 => 0x89
    case 8 => 0x6F case 9 => 0xB7 case 10 => 0x62 case 11 => 0x0E
    case 12 => 0xAA case 13 => 0x18 case 14 => 0xBE case _ => 0x1B
  }

  function InvSboxRowB(lo: bv8): bv8 {
    match lo
    case 0 => 0xFC case 1 => 0x56 case 2 => 0x3E case 3 => 0x4B
    case 4 => 0xC6 case 5 => 0xD2 case 6 => 0x79 case 7 => 0x20
    case 8 => 0x9A case 9 => 0xDB case 10 => 0xC0 case 11 => 0xFE
    case 12 => 0x78 case 13 => 0xCD case 14 => 0x5A case _ => 0xF4
  }

  function InvSboxRowC(lo: bv8): bv8 {
    match lo
    case 0 => 0x1F case 1 => 0xDD case 2 => 0xA8 case 3 => 0x33
    case 4 => 0x88 case 5 => 0x07 case 6 => 0xC7 case 7 => 0x31
    case 8 => 0xB1 case 9 => 0x12 case 10 => 0x10 case 11 => 0x59
    case 12 => 0x27 case 13 => 0x80 case 14 => 0xEC case _ => 0x5F
  }

  function InvSboxRowD(lo: bv8): bv8 {
    match lo
    case 0 => 0x60 case 1 => 0x51 case 2 => 0x7F case 3 => 0xA9
    case 4 => 0x19 case 5 => 0xB5 case 6 => 0x4A case 7 => 0x0D
    case 8 => 0x2D case 9 => 0xE5 case 10 => 0x7A case 11 => 0x9F
    case 12 => 0x93 case 13 => 0xC9 case 14 => 0x9C case _ => 0xEF
  }

  function InvSboxRowE(lo: bv8): bv8 {
    match lo
    case 0 => 0xA0 case 1 => 0xE0 case 2 => 0x3B case 3 => 0x4D
    case 4 => 0xAE case 5 => 0x2A case 6 => 0xF5 case 7 => 0xB0
    case 8 => 0xC8 case 9 => 0xEB case 10 => 0xBB case 11 => 0x3C
    case 12 => 0x83 case 13 => 0x53 case 14 => 0x99 case _ => 0x61
  }

  function InvSboxRowF(lo: bv8): bv8 {
    match lo
    case 0 => 0x17 case 1 => 0x2B case 2 => 0x04 case 3 => 0x7E
    case 4 => 0xBA case 5 => 0x77 case 6 => 0xD6 case 7 => 0x26
    case 8 => 0xE1 case 9 => 0x69 case 10 => 0x14 case 11 => 0x63
    case 12 => 0x55 case 13 => 0x21 case 14 => 0x0C case _ => 0x7D
  }

  /** aes_invsbox[x >> 4][x & 0x0F] */
  function InvSbox(x: bv8): bv8 {
    var hi, lo := x >> 4, x & 0x0F;
    match hi
    case 0 => InvSboxRow0(lo)
    case 1 => InvSboxRow1(lo)
    case 2 => InvSboxRow2(lo)
    case 3 => InvSboxRow3(lo)
    case 4 => InvSboxRow4(lo)
    case 5 => InvSboxRow5(lo)
    case 6 => InvSboxRow6(lo)
    case 7 => InvSboxRow7(lo)
    case 8 => InvSboxRow8(lo)
    case 9 => InvSboxRow9(lo)
    case 10 => InvSboxRowA(lo)
    case 11 => InvSboxRowB(lo)
    case 12 => InvSboxRowC(lo)
    case 13 => InvSboxRowD(lo)
    case 14 => InvSboxRowE(lo)
    case _ => InvSboxRowF(lo)
  }

  lemma SboxInverse(x: bv8)
    ensures InvSbox(Sbox(x)) == x
  {
  }
}
