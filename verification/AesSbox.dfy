/** The substitution of the Advanced Encryption Standard (FIPS 197, section 5.1.1) and its inverse, as tables. */
module AesSbox {
  import opened Tables

  function Sbox(x: bv8): bv8 {
    var k := x & 15;
    match x >> 4
    case 0 => Pick(k, 0x63, 0x7c, 0x77, 0x7b, 0xf2, 0x6b, 0x6f, 0xc5, 0x30, 0x01, 0x67, 0x2b, 0xfe, 0xd7, 0xab, 0x76)
    case 1 => Pick(k, 0xca, 0x82, 0xc9, 0x7d, 0xfa, 0x59, 0x47, 0xf0, 0xad, 0xd4, 0xa2, 0xaf, 0x9c, 0xa4, 0x72, 0xc0)
    case 2 => Pick(k, 0xb7, 0xfd, 0x93, 0x26, 0x36, 0x3f, 0xf7, 0xcc, 0x34, 0xa5, 0xe5, 0xf1, 0x71, 0xd8, 0x31, 0x15)
    case 3 => Pick(k, 0x04, 0xc7, 0x23, 0xc3, 0x18, 0x96, 0x05, 0x9a, 0x07, 0x12, 0x80, 0xe2, 0xeb, 0x27, 0xb2, 0x75)
    case 4 => Pick(k, 0x09, 0x83, 0x2c, 0x1a, 0x1b, 0x6e, 0x5a, 0xa0, 0x52, 0x3b, 0xd6, 0xb3, 0x29, 0xe3, 0x2f, 0x84)
    case 5 => Pick(k, 0x53, 0xd1, 0x00, 0xed, 0x20, 0xfc, 0xb1, 0x5b, 0x6a, 0xcb, 0xbe, 0x39, 0x4a, 0x4c, 0x58, 0xcf)
    case 6 => Pick(k, 0xd0, 0xef, 0xaa, 0xfb, 0x43, 0x4d, 0x33, 0x85, 0x45, 0xf9, 0x02, 0x7f, 0x50, 0x3c, 0x9f, 0xa8)
    case 7 => Pick(k, 0x51, 0xa3, 0x40, 0x8f, 0x92, 0x9d, 0x38, 0xf5, 0xbc, 0xb6, 0xda, 0x21, 0x10, 0xff, 0xf3, 0xd2)
    case 8 => Pick(k, 0xcd, 0x0c, 0x13, 0xec, 0x5f, 0x97, 0x44, 0x17, 0xc4, 0xa7, 0x7e, 0x3d, 0x64, 0x5d, 0x19, 0x73)
    case 9 => Pick(k, 0x60, 0x81, 0x4f, 0xdc, 0x22, 0x2a, 0x90, 0x88, 0x46, 0xee, 0xb8, 0x14, 0xde, 0x5e, 0x0b, 0xdb)
    case 10 => Pick(k, 0xe0, 0x32, 0x3a, 0x0a, 0x49, 0x06, 0x24, 0x5c, 0xc2, 0xd3, 0xac, 0x62, 0x91, 0x95, 0xe4, 0x79)
    case 11 => Pick(k, 0xe7, 0xc8, 0x37, 0x6d, 0x8d, 0xd5, 0x4e, 0xa9, 0x6c, 0x56, 0xf4, 0xea, 0x65, 0x7a, 0xae, 0x08)
    case 12 => Pick(k, 0xba, 0x78, 0x25, 0x2e, 0x1c, 0xa6, 0xb4, 0xc6, 0xe8, 0xdd, 0x74, 0x1f, 0x4b, 0xbd, 0x8b, 0x8a)
    case 13 => Pick(k, 0x70, 0x3e, 0xb5, 0x66, 0x48, 0x03, 0xf6, 0x0e, 0x61, 0x35, 0x57, 0xb9, 0x86, 0xc1, 0x1d, 0x9e)
    case 14 => Pick(k, 0xe1, 0xf8, 0x98, 0x11, 0x69, 0xd9, 0x8e, 0x94, 0x9b, 0x1e, 0x87, 0xe9, 0xce, 0x55, 0x28, 0xdf)
    case _ => Pick(k, 0x8c, 0xa1, 0x89, 0x0d, 0xbf, 0xe6, 0x42, 0x68, 0x41, 0x99, 0x2d, 0x0f, 0xb0, 0x54, 0xbb, 0x16)
  }

  function InvSbox(x: bv8): bv8 {
    var k := x & 15;
    match x >> 4
    case 0 => Pick(k, 0x52, 0x09, 0x6a, 0xd5, 0x30, 0x36, 0xa5, 0x38, 0xbf, 0x40, 0xa3, 0x9e, 0x81, 0xf3, 0xd7, 0xfb)
    case 1 => Pick(k, 0x7c, 0xe3, 0x39, 0x82, 0x9b, 0x2f, 0xff, 0x87, 0x34, 0x8e, 0x43, 0x44, 0xc4, 0xde, 0xe9, 0xcb)
    case 2 => Pick(k, 0x54, 0x7b, 0x94, 0x32, 0xa6, 0xc2, 0x23, 0x3d, 0xee, 0x4c, 0x95, 0x0b, 0x42, 0xfa, 0xc3, 0x4e)
    case 3 => Pick(k, 0x08, 0x2e, 0xa1, 0x66, 0x28, 0xd9, 0x24, 0xb2, 0x76, 0x5b, 0xa2, 0x49, 0x6d, 0x8b, 0xd1, 0x25)
    case 4 => Pick(k, 0x72, 0xf8, 0xf6, 0x64, 0x86, 0x68, 0x98, 0x16, 0xd4, 0xa4, 0x5c, 0xcc, 0x5d, 0x65, 0xb6, 0x92)
    case 5 => Pick(k, 0x6c, 0x70, 0x48, 0x50, 0xfd, 0xed, 0xb9, 0xda, 0x5e, 0x15, 0x46, 0x57, 0xa7, 0x8d, 0x9d, 0x84)
    case 6 => Pick(k, 0x90, 0xd8, 0xab, 0x00, 0x8c, 0xbc, 0xd3, 0x0a, 0xf7, 0xe4, 0x58, 0x05, 0xb8, 0xb3, 0x45, 0x06)
    case 7 => Pick(k, 0xd0, 0x2c, 0x1e, 0x8f, 0xca, 0x3f, 0x0f, 0x02, 0xc1, 0xaf, 0xbd, 0x03, 0x01, 0x13, 0x8a, 0x6b)
    case 8 => Pick(k, 0x3a, 0x91, 0x11, 0x41, 0x4f, 0x67, 0xdc, 0xea, 0x97, 0xf2, 0xcf, 0xce, 0xf0, 0xb4, 0xe6, 0x73)
    case 9 => Pick(k, 0x96, 0xac, 0x74, 0x22, 0xe7, 0xad, 0x35, 0x85, 0xe2, 0xf9, 0x37, 0xe8, 0x1c, 0x75, 0xdf, 0x6e)
    case 10 => Pick(k, 0x47, 0xf1, 0x1a, 0x71, 0x1d, 0x29, 0xc5, 0x89, 0x6f, 0xb7, 0x62, 0x0e, 0xaa, 0x18, 0xbe, 0x1b)
    case 11 => Pick(k, 0xfc, 0x56, 0x3e, 0x4b, 0xc6, 0xd2, 0x79, 0x20, 0x9a, 0xdb, 0xc0, 0xfe, 0x78, 0xcd, 0x5a, 0xf4)
    case 12 => Pick(k, 0x1f, 0xdd, 0xa8, 0x33, 0x88, 0x07, 0xc7, 0x31, 0xb1, 0x12, 0x10, 0x59, 0x27, 0x80, 0xec, 0x5f)
    case 13 => Pick(k, 0x60, 0x51, 0x7f, 0xa9, 0x19, 0xb5, 0x4a, 0x0d, 0x2d, 0xe5, 0x7a, 0x9f, 0x93, 0xc9, 0x9c, 0xef)
    case 14 => Pick(k, 0xa0, 0xe0, 0x3b, 0x4d, 0xae, 0x2a, 0xf5, 0xb0, 0xc8, 0xeb, 0xbb, 0x3c, 0x83, 0x53, 0x99, 0x61)
    case _ => Pick(k, 0x17, 0x2b, 0x04, 0x7e, 0xba, 0x77, 0xd6, 0x26, 0xe1, 0x69, 0x14, 0x63, 0x55, 0x21, 0x0c, 0x7d)
  }

  // ---------- the tables row by row ----------

  lemma SboxRow0(x: bv8)
    requires x >> 4 == 0
    ensures Sbox(x)
         == Pick(x & 15, 0x63, 0x7c, 0x77, 0x7b, 0xf2, 0x6b, 0x6f, 0xc5, 0x30, 0x01, 0x67, 0x2b, 0xfe, 0xd7, 0xab, 0x76)
  {
  }

  lemma SboxRow1(x: bv8)
    requires x >> 4 == 1
    ensures Sbox(x)
         == Pick(x & 15, 0xca, 0x82, 0xc9, 0x7d, 0xfa, 0x59, 0x47, 0xf0, 0xad, 0xd4, 0xa2, 0xaf, 0x9c, 0xa4, 0x72, 0xc0)
  {
  }

  lemma SboxRow2(x: bv8)
    requires x >> 4 == 2
    ensures Sbox(x)
         == Pick(x & 15, 0xb7, 0xfd, 0x93, 0x26, 0x36, 0x3f, 0xf7, 0xcc, 0x34, 0xa5, 0xe5, 0xf1, 0x71, 0xd8, 0x31, 0x15)
  {
  }

  lemma SboxRow3(x: bv8)
    requires x >> 4 == 3
    ensures Sbox(x)
         == Pick(x & 15, 0x04, 0xc7, 0x23, 0xc3, 0x18, 0x96, 0x05, 0x9a, 0x07, 0x12, 0x80, 0xe2, 0xeb, 0x27, 0xb2, 0x75)
  {
  }

  lemma SboxRow4(x: bv8)
    requires x >> 4 == 4
    ensures Sbox(x)
         == Pick(x & 15, 0x09, 0x83, 0x2c, 0x1a, 0x1b, 0x6e, 0x5a, 0xa0, 0x52, 0x3b, 0xd6, 0xb3, 0x29, 0xe3, 0x2f, 0x84)
  {
  }

  lemma SboxRow5(x: bv8)
    requires x >> 4 == 5
    ensures Sbox(x)
         == Pick(x & 15, 0x53, 0xd1, 0x00, 0xed, 0x20, 0xfc, 0xb1, 0x5b, 0x6a, 0xcb, 0xbe, 0x39, 0x4a, 0x4c, 0x58, 0xcf)
  {
  }

  lemma SboxRow6(x: bv8)
    requires x >> 4 == 6
    ensures Sbox(x)
         == Pick(x & 15, 0xd0, 0xef, 0xaa, 0xfb, 0x43, 0x4d, 0x33, 0x85, 0x45, 0xf9, 0x02, 0x7f, 0x50, 0x3c, 0x9f, 0xa8)
  {
  }

  lemma SboxRow7(x: bv8)
    requires x >> 4 == 7
    ensures Sbox(x)
         == Pick(x & 15, 0x51, 0xa3, 0x40, 0x8f, 0x92, 0x9d, 0x38, 0xf5, 0xbc, 0xb6, 0xda, 0x21, 0x10, 0xff, 0xf3, 0xd2)
  {
  }

  lemma SboxRow8(x: bv8)
    requires x >> 4 == 8
    ensures Sbox(x)
         == Pick(x & 15, 0xcd, 0x0c, 0x13, 0xec, 0x5f, 0x97, 0x44, 0x17, 0xc4, 0xa7, 0x7e, 0x3d, 0x64, 0x5d, 0x19, 0x73)
  {
  }

  lemma SboxRow9(x: bv8)
    requires x >> 4 == 9
    ensures Sbox(x)
         == Pick(x & 15, 0x60, 0x81, 0x4f, 0xdc, 0x22, 0x2a, 0x90, 0x88, 0x46, 0xee, 0xb8, 0x14, 0xde, 0x5e, 0x0b, 0xdb)
  {
  }

  lemma SboxRow10(x: bv8)
    requires x >> 4 == 10
    ensures Sbox(x)
         == Pick(x & 15, 0xe0, 0x32, 0x3a, 0x0a, 0x49, 0x06, 0x24, 0x5c, 0xc2, 0xd3, 0xac, 0x62, 0x91, 0x95, 0xe4, 0x79)
  {
  }

  lemma SboxRow11(x: bv8)
    requires x >> 4 == 11
    ensures Sbox(x)
         == Pick(x & 15, 0xe7, 0xc8, 0x37, 0x6d, 0x8d, 0xd5, 0x4e, 0xa9, 0x6c, 0x56, 0xf4, 0xea, 0x65, 0x7a, 0xae, 0x08)
  {
  }

  lemma SboxRow12(x: bv8)
    requires x >> 4 == 12
    ensures Sbox(x)
         == Pick(x & 15, 0xba, 0x78, 0x25, 0x2e, 0x1c, 0xa6, 0xb4, 0xc6, 0xe8, 0xdd, 0x74, 0x1f, 0x4b, 0xbd, 0x8b, 0x8a)
  {
  }

  lemma SboxRow13(x: bv8)
    requires x >> 4 == 13
    ensures Sbox(x)
         == Pick(x & 15, 0x70, 0x3e, 0xb5, 0x66, 0x48, 0x03, 0xf6, 0x0e, 0x61, 0x35, 0x57, 0xb9, 0x86, 0xc1, 0x1d, 0x9e)
  {
  }

  lemma SboxRow14(x: bv8)
    requires x >> 4 == 14
    ensures Sbox(x)
         == Pick(x & 15, 0xe1, 0xf8, 0x98, 0x11, 0x69, 0xd9, 0x8e, 0x94, 0x9b, 0x1e, 0x87, 0xe9, 0xce, 0x55, 0x28, 0xdf)
  {
  }

  lemma SboxRow15(x: bv8)
    requires x >> 4 == 15
    ensures Sbox(x)
         == Pick(x & 15, 0x8c, 0xa1, 0x89, 0x0d, 0xbf, 0xe6, 0x42, 0x68, 0x41, 0x99, 0x2d, 0x0f, 0xb0, 0x54, 0xbb, 0x16)
  {
  }

  lemma InvRow0(x: bv8)
    requires x >> 4 == 0
    ensures InvSbox(x)
         == Pick(x & 15, 0x52, 0x09, 0x6a, 0xd5, 0x30, 0x36, 0xa5, 0x38, 0xbf, 0x40, 0xa3, 0x9e, 0x81, 0xf3, 0xd7, 0xfb)
  {
  }

  lemma InvRow1(x: bv8)
    requires x >> 4 == 1
    ensures InvSbox(x)
         == Pick(x & 15, 0x7c, 0xe3, 0x39, 0x82, 0x9b, 0x2f, 0xff, 0x87, 0x34, 0x8e, 0x43, 0x44, 0xc4, 0xde, 0xe9, 0xcb)
  {
  }

  lemma InvRow2(x: bv8)
    requires x >> 4 == 2
    ensures InvSbox(x)
         == Pick(x & 15, 0x54, 0x7b, 0x94, 0x32, 0xa6, 0xc2, 0x23, 0x3d, 0xee, 0x4c, 0x95, 0x0b, 0x42, 0xfa, 0xc3, 0x4e)
  {
  }

  lemma InvRow3(x: bv8)
    requires x >> 4 == 3
    ensures InvSbox(x)
         == Pick(x & 15, 0x08, 0x2e, 0xa1, 0x66, 0x28, 0xd9, 0x24, 0xb2, 0x76, 0x5b, 0xa2, 0x49, 0x6d, 0x8b, 0xd1, 0x25)
  {
  }

  lemma InvRow4(x: bv8)
    requires x >> 4 == 4
    ensures InvSbox(x)
         == Pick(x & 15, 0x72, 0xf8, 0xf6, 0x64, 0x86, 0x68, 0x98, 0x16, 0xd4, 0xa4, 0x5c, 0xcc, 0x5d, 0x65, 0xb6, 0x92)
  {
  }

  lemma InvRow5(x: bv8)
    requires x >> 4 == 5
    ensures InvSbox(x)
         == Pick(x & 15, 0x6c, 0x70, 0x48, 0x50, 0xfd, 0xed, 0xb9, 0xda, 0x5e, 0x15, 0x46, 0x57, 0xa7, 0x8d, 0x9d, 0x84)
  {
  }

  lemma InvRow6(x: bv8)
    requires x >> 4 == 6
    ensures InvSbox(x)
         == Pick(x & 15, 0x90, 0xd8, 0xab, 0x00, 0x8c, 0xbc, 0xd3, 0x0a, 0xf7, 0xe4, 0x58, 0x05, 0xb8, 0xb3, 0x45, 0x06)
  {
  }

  lemma InvRow7(x: bv8)
    requires x >> 4 == 7
    ensures InvSbox(x)
         == Pick(x & 15, 0xd0, 0x2c, 0x1e, 0x8f, 0xca, 0x3f, 0x0f, 0x02, 0xc1, 0xaf, 0xbd, 0x03, 0x01, 0x13, 0x8a, 0x6b)
  {
  }

  lemma InvRow8(x: bv8)
    requires x >> 4 == 8
    ensures InvSbox(x)
         == Pick(x & 15, 0x3a, 0x91, 0x11, 0x41, 0x4f, 0x67, 0xdc, 0xea, 0x97, 0xf2, 0xcf, 0xce, 0xf0, 0xb4, 0xe6, 0x73)
  {
  }

  lemma InvRow9(x: bv8)
    requires x >> 4 == 9
    ensures InvSbox(x)
         == Pick(x & 15, 0x96, 0xac, 0x74, 0x22, 0xe7, 0xad, 0x35, 0x85, 0xe2, 0xf9, 0x37, 0xe8, 0x1c, 0x75, 0xdf, 0x6e)
  {
  }

  lemma InvRow10(x: bv8)
    requires x >> 4 == 10
    ensures InvSbox(x)
         == Pick(x & 15, 0x47, 0xf1, 0x1a, 0x71, 0x1d, 0x29, 0xc5, 0x89, 0x6f, 0xb7, 0x62, 0x0e, 0xaa, 0x18, 0xbe, 0x1b)
  {
  }

  lemma InvRow11(x: bv8)
    requires x >> 4 == 11
    ensures InvSbox(x)
         == Pick(x & 15, 0xfc, 0x56, 0x3e, 0x4b, 0xc6, 0xd2, 0x79, 0x20, 0x9a, 0xdb, 0xc0, 0xfe, 0x78, 0xcd, 0x5a, 0xf4)
  {
  }

  lemma InvRow12(x: bv8)
    requires x >> 4 == 12
    ensures InvSbox(x)
         == Pick(x & 15, 0x1f, 0xdd, 0xa8, 0x33, 0x88, 0x07, 0xc7, 0x31, 0xb1, 0x12, 0x10, 0x59, 0x27, 0x80, 0xec, 0x5f)
  {
  }

  lemma InvRow13(x: bv8)
    requires x >> 4 == 13
    ensures InvSbox(x)
         == Pick(x & 15, 0x60, 0x51, 0x7f, 0xa9, 0x19, 0xb5, 0x4a, 0x0d, 0x2d, 0xe5, 0x7a, 0x9f, 0x93, 0xc9, 0x9c, 0xef)
  {
  }

  lemma InvRow14(x: bv8)
    requires x >> 4 == 14
    ensures InvSbox(x)
         == Pick(x & 15, 0xa0, 0xe0, 0x3b, 0x4d, 0xae, 0x2a, 0xf5, 0xb0, 0xc8, 0xeb, 0xbb, 0x3c, 0x83, 0x53, 0x99, 0x61)
  {
  }

  lemma InvRow15(x: bv8)
    requires x >> 4 == 15
    ensures InvSbox(x)
         == Pick(x & 15, 0x17, 0x2b, 0x04, 0x7e, 0xba, 0x77, 0xd6, 0x26, 0xe1, 0x69, 0x14, 0x63, 0x55, 0x21, 0x0c, 0x7d)
  {
  }

  // ---------- the second table inverts the first ----------

  lemma Back0(x: bv8)
    requires x >> 4 == 0
    ensures InvSbox(Sbox(x)) == x
  {
    hide Sbox, InvSbox;
    Sixteen(x, 0x00);
    SboxRow0(x);
    InvRow6(0x63); InvRow7(0x7c); InvRow7(0x77); InvRow7(0x7b);
    InvRow15(0xf2); InvRow6(0x6b); InvRow6(0x6f); InvRow12(0xc5);
    InvRow3(0x30); InvRow0(0x01); InvRow6(0x67); InvRow2(0x2b);
    InvRow15(0xfe); InvRow13(0xd7); InvRow10(0xab); InvRow7(0x76);
  }

  lemma Back1(x: bv8)
    requires x >> 4 == 1
    ensures InvSbox(Sbox(x)) == x
  {
    hide Sbox, InvSbox;
    Sixteen(x, 0x10);
    SboxRow1(x);
    InvRow12(0xca); InvRow8(0x82); InvRow12(0xc9); InvRow7(0x7d);
    InvRow15(0xfa); InvRow5(0x59); InvRow4(0x47); InvRow15(0xf0);
    InvRow10(0xad); InvRow13(0xd4); InvRow10(0xa2); InvRow10(0xaf);
    InvRow9(0x9c); InvRow10(0xa4); InvRow7(0x72); InvRow12(0xc0);
  }

  lemma Back2(x: bv8)
    requires x >> 4 == 2
    ensures InvSbox(Sbox(x)) == x
  {
    hide Sbox, InvSbox;
    Sixteen(x, 0x20);
    SboxRow2(x);
    InvRow11(0xb7); InvRow15(0xfd); InvRow9(0x93); InvRow2(0x26);
    InvRow3(0x36); InvRow3(0x3f); InvRow15(0xf7); InvRow12(0xcc);
    InvRow3(0x34); InvRow10(0xa5); InvRow14(0xe5); InvRow15(0xf1);
    InvRow7(0x71); InvRow13(0xd8); InvRow3(0x31); InvRow1(0x15);
  }

  lemma Back3(x: bv8)
    requires x >> 4 == 3
    ensures InvSbox(Sbox(x)) == x
  {
    hide Sbox, InvSbox;
    Sixteen(x, 0x30);
    SboxRow3(x);
    InvRow0(0x04); InvRow12(0xc7); InvRow2(0x23); InvRow12(0xc3);
    InvRow1(0x18); InvRow9(0x96); InvRow0(0x05); InvRow9(0x9a);
    InvRow0(0x07); InvRow1(0x12); InvRow8(0x80); InvRow14(0xe2);
    InvRow14(0xeb); InvRow2(0x27); InvRow11(0xb2); InvRow7(0x75);
  }

  lemma Back4(x: bv8)
    requires x >> 4 == 4
    ensures InvSbox(Sbox(x)) == x
  {
    hide Sbox, InvSbox;
    Sixteen(x, 0x40);
    SboxRow4(x);
    InvRow0(0x09); InvRow8(0x83); InvRow2(0x2c); InvRow1(0x1a);
    InvRow1(0x1b); InvRow6(0x6e); InvRow5(0x5a); InvRow10(0xa0);
    InvRow5(0x52); InvRow3(0x3b); InvRow13(0xd6); InvRow11(0xb3);
    InvRow2(0x29); InvRow14(0xe3); InvRow2(0x2f); InvRow8(0x84);
  }

  lemma Back5(x: bv8)
    requires x >> 4 == 5
    ensures InvSbox(Sbox(x)) == x
  {
    hide Sbox, InvSbox;
    Sixteen(x, 0x50);
    SboxRow5(x);
    InvRow5(0x53); InvRow13(0xd1); InvRow0(0x00); InvRow14(0xed);
    InvRow2(0x20); InvRow15(0xfc); InvRow11(0xb1); InvRow5(0x5b);
    InvRow6(0x6a); InvRow12(0xcb); InvRow11(0xbe); InvRow3(0x39);
    InvRow4(0x4a); InvRow4(0x4c); InvRow5(0x58); InvRow12(0xcf);
  }

  lemma Back6(x: bv8)
    requires x >> 4 == 6
    ensures InvSbox(Sbox(x)) == x
  {
    hide Sbox, InvSbox;
    Sixteen(x, 0x60);
    SboxRow6(x);
    InvRow13(0xd0); InvRow14(0xef); InvRow10(0xaa); InvRow15(0xfb);
    InvRow4(0x43); InvRow4(0x4d); InvRow3(0x33); InvRow8(0x85);
    InvRow4(0x45); InvRow15(0xf9); InvRow0(0x02); InvRow7(0x7f);
    InvRow5(0x50); InvRow3(0x3c); InvRow9(0x9f); InvRow10(0xa8);
  }

  lemma Back7(x: bv8)
    requires x >> 4 == 7
    ensures InvSbox(Sbox(x)) == x
  {
    hide Sbox, InvSbox;
    Sixteen(x, 0x70);
    SboxRow7(x);
    InvRow5(0x51); InvRow10(0xa3); InvRow4(0x40); InvRow8(0x8f);
    InvRow9(0x92); InvRow9(0x9d); InvRow3(0x38); InvRow15(0xf5);
    InvRow11(0xbc); InvRow11(0xb6); InvRow13(0xda); InvRow2(0x21);
    InvRow1(0x10); InvRow15(0xff); InvRow15(0xf3); InvRow13(0xd2);
  }

  lemma Back8(x: bv8)
    requires x >> 4 == 8
    ensures InvSbox(Sbox(x)) == x
  {
    hide Sbox, InvSbox;
    Sixteen(x, 0x80);
    SboxRow8(x);
    InvRow12(0xcd); InvRow0(0x0c); InvRow1(0x13); InvRow14(0xec);
    InvRow5(0x5f); InvRow9(0x97); InvRow4(0x44); InvRow1(0x17);
    InvRow12(0xc4); InvRow10(0xa7); InvRow7(0x7e); InvRow3(0x3d);
    InvRow6(0x64); InvRow5(0x5d); InvRow1(0x19); InvRow7(0x73);
  }

  lemma Back9(x: bv8)
    requires x >> 4 == 9
    ensures InvSbox(Sbox(x)) == x
  {
    hide Sbox, InvSbox;
    Sixteen(x, 0x90);
    SboxRow9(x);
    InvRow6(0x60); InvRow8(0x81); InvRow4(0x4f); InvRow13(0xdc);
    InvRow2(0x22); InvRow2(0x2a); InvRow9(0x90); InvRow8(0x88);
    InvRow4(0x46); InvRow14(0xee); InvRow11(0xb8); InvRow1(0x14);
    InvRow13(0xde); InvRow5(0x5e); InvRow0(0x0b); InvRow13(0xdb);
  }

  lemma Back10(x: bv8)
    requires x >> 4 == 10
    ensures InvSbox(Sbox(x)) == x
  {
    hide Sbox, InvSbox;
    Sixteen(x, 0xa0);
    SboxRow10(x);
    InvRow14(0xe0); InvRow3(0x32); InvRow3(0x3a); InvRow0(0x0a);
    InvRow4(0x49); InvRow0(0x06); InvRow2(0x24); InvRow5(0x5c);
    InvRow12(0xc2); InvRow13(0xd3); InvRow10(0xac); InvRow6(0x62);
    InvRow9(0x91); InvRow9(0x95); InvRow14(0xe4); InvRow7(0x79);
  }

  lemma Back11(x: bv8)
    requires x >> 4 == 11
    ensures InvSbox(Sbox(x)) == x
  {
    hide Sbox, InvSbox;
    Sixteen(x, 0xb0);
    SboxRow11(x);
    InvRow14(0xe7); InvRow12(0xc8); InvRow3(0x37); InvRow6(0x6d);
    InvRow8(0x8d); InvRow13(0xd5); InvRow4(0x4e); InvRow10(0xa9);
    InvRow6(0x6c); InvRow5(0x56); InvRow15(0xf4); InvRow14(0xea);
    InvRow6(0x65); InvRow7(0x7a); InvRow10(0xae); InvRow0(0x08);
  }

  lemma Back12(x: bv8)
    requires x >> 4 == 12
    ensures InvSbox(Sbox(x)) == x
  {
    hide Sbox, InvSbox;
    Sixteen(x, 0xc0);
    SboxRow12(x);
    InvRow11(0xba); InvRow7(0x78); InvRow2(0x25); InvRow2(0x2e);
    InvRow1(0x1c); InvRow10(0xa6); InvRow11(0xb4); InvRow12(0xc6);
    InvRow14(0xe8); InvRow13(0xdd); InvRow7(0x74); InvRow1(0x1f);
    InvRow4(0x4b); InvRow11(0xbd); InvRow8(0x8b); InvRow8(0x8a);
  }

  lemma Back13(x: bv8)
    requires x >> 4 == 13
    ensures InvSbox(Sbox(x)) == x
  {
    hide Sbox, InvSbox;
    Sixteen(x, 0xd0);
    SboxRow13(x);
    InvRow7(0x70); InvRow3(0x3e); InvRow11(0xb5); InvRow6(0x66);
    InvRow4(0x48); InvRow0(0x03); InvRow15(0xf6); InvRow0(0x0e);
    InvRow6(0x61); InvRow3(0x35); InvRow5(0x57); InvRow11(0xb9);
    InvRow8(0x86); InvRow12(0xc1); InvRow1(0x1d); InvRow9(0x9e);
  }

  lemma Back14(x: bv8)
    requires x >> 4 == 14
    ensures InvSbox(Sbox(x)) == x
  {
    hide Sbox, InvSbox;
    Sixteen(x, 0xe0);
    SboxRow14(x);
    InvRow14(0xe1); InvRow15(0xf8); InvRow9(0x98); InvRow1(0x11);
    InvRow6(0x69); InvRow13(0xd9); InvRow8(0x8e); InvRow9(0x94);
    InvRow9(0x9b); InvRow1(0x1e); InvRow8(0x87); InvRow14(0xe9);
    InvRow12(0xce); InvRow5(0x55); InvRow2(0x28); InvRow13(0xdf);
  }

  lemma Back15(x: bv8)
    requires x >> 4 == 15
    ensures InvSbox(Sbox(x)) == x
  {
    hide Sbox, InvSbox;
    Sixteen(x, 0xf0);
    SboxRow15(x);
    InvRow8(0x8c); InvRow10(0xa1); InvRow8(0x89); InvRow0(0x0d);
    InvRow11(0xbf); InvRow14(0xe6); InvRow4(0x42); InvRow6(0x68);
    InvRow4(0x41); InvRow9(0x99); InvRow2(0x2d); InvRow0(0x0f);
    InvRow11(0xb0); InvRow5(0x54); InvRow11(0xbb); InvRow1(0x16);
  }

  lemma Sixteen(x: bv8, r: bv8)
    requires x >> 4 == r >> 4 && r & 15 == 0
    ensures x == r || x == r + 1 || x == r + 2 || x == r + 3 || x == r + 4 || x == r + 5 || x == r + 6 || x == r + 7
         || x == r + 8 || x == r + 9 || x == r + 10 || x == r + 11 || x == r + 12 || x == r + 13 || x == r + 14
         || x == r + 15
  {
  }

  lemma SboxInverse(x: bv8)
    ensures InvSbox(Sbox(x)) == x
  {
    hide Sbox, InvSbox;
    match x >> 4
    case 0 => Back0(x);
    case 1 => Back1(x);
    case 2 => Back2(x);
    case 3 => Back3(x);
    case 4 => Back4(x);
    case 5 => Back5(x);
    case 6 => Back6(x);
    case 7 => Back7(x);
    case 8 => Back8(x);
    case 9 => Back9(x);
    case 10 => Back10(x);
    case 11 => Back11(x);
    case 12 => Back12(x);
    case 13 => Back13(x);
    case 14 => Back14(x);
    case _ => Back15(x);
  }
}
