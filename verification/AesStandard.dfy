/** The byte operations as the standard defines them (FIPS 197, sections 4 and 5): arithmetic in
    GF(2^8), modulo x^8 + x^4 + x^3 + x + 1. */
module AesStandard {
  import opened AesSbox
  import opened AesBytes

  /** The share of one bit of the second factor. */
  function Share(x: bv8, y: bv8, bit: bv8): bv8 {
    if y & bit != 0 then x else 0
  }

  /** The product: x for every bit of y, doubled as often as the bit's place says. */
  function Product(x: bv8, y: bv8): bv8 {
    var x1 := Xtime(x);
    var x2 := Xtime(x1);
    var x3 := Xtime(x2);
    var x4 := Xtime(x3);
    var x5 := Xtime(x4);
    var x6 := Xtime(x5);
    var x7 := Xtime(x6);
    Share(x, y, 0x01) ^ Share(x1, y, 0x02) ^ Share(x2, y, 0x04) ^ Share(x3, y, 0x08)
    ^ Share(x4, y, 0x10) ^ Share(x5, y, 0x20) ^ Share(x6, y, 0x40) ^ Share(x7, y, 0x80)
  }

  function Rotated(x: bv8, n: bv8): bv8
    requires n <= 8
  {
    (x << n) | (x >> (8 - n))
  }

  /** The affine map of the standard, and the one that undoes it. */
  function Affine(x: bv8): bv8 {
    x ^ Rotated(x, 1) ^ Rotated(x, 2) ^ Rotated(x, 3) ^ Rotated(x, 4) ^ 0x63
  }

  function Unaffine(x: bv8): bv8 {
    Rotated(x, 1) ^ Rotated(x, 3) ^ Rotated(x, 6) ^ 0x05
  }

  lemma AffineBack(x: bv8)
    ensures Affine(Unaffine(x)) == x
  {
  }

  /** What the affine map was applied to inverts the byte; zero stands for its own inverse. */
  predicate Inverts(x: bv8) {
    var y := Unaffine(Sbox(x));
    if x == 0 then y == 0 else Product(x, y) == 1
  }

  lemma Inverse0(x: bv8)
    requires x >> 4 == 0
    ensures Inverts(x)
  {
    hide Sbox;
    SboxRow0(x);
  }

  lemma Inverse1(x: bv8)
    requires x >> 4 == 1
    ensures Inverts(x)
  {
    hide Sbox;
    SboxRow1(x);
  }

  lemma Inverse2(x: bv8)
    requires x >> 4 == 2
    ensures Inverts(x)
  {
    hide Sbox;
    SboxRow2(x);
  }

  lemma Inverse3(x: bv8)
    requires x >> 4 == 3
    ensures Inverts(x)
  {
    hide Sbox;
    SboxRow3(x);
  }

  lemma Inverse4(x: bv8)
    requires x >> 4 == 4
    ensures Inverts(x)
  {
    hide Sbox;
    SboxRow4(x);
  }

  lemma Inverse5(x: bv8)
    requires x >> 4 == 5
    ensures Inverts(x)
  {
    hide Sbox;
    SboxRow5(x);
  }

  lemma Inverse6(x: bv8)
    requires x >> 4 == 6
    ensures Inverts(x)
  {
    hide Sbox;
    SboxRow6(x);
  }

  lemma Inverse7(x: bv8)
    requires x >> 4 == 7
    ensures Inverts(x)
  {
    hide Sbox;
    SboxRow7(x);
  }

  lemma Inverse8(x: bv8)
    requires x >> 4 == 8
    ensures Inverts(x)
  {
    hide Sbox;
    SboxRow8(x);
  }

  lemma Inverse9(x: bv8)
    requires x >> 4 == 9
    ensures Inverts(x)
  {
    hide Sbox;
    SboxRow9(x);
  }

  lemma Inverse10(x: bv8)
    requires x >> 4 == 10
    ensures Inverts(x)
  {
    hide Sbox;
    SboxRow10(x);
  }

  lemma Inverse11(x: bv8)
    requires x >> 4 == 11
    ensures Inverts(x)
  {
    hide Sbox;
    SboxRow11(x);
  }

  lemma Inverse12(x: bv8)
    requires x >> 4 == 12
    ensures Inverts(x)
  {
    hide Sbox;
    SboxRow12(x);
  }

  lemma Inverse13(x: bv8)
    requires x >> 4 == 13
    ensures Inverts(x)
  {
    hide Sbox;
    SboxRow13(x);
  }

  lemma Inverse14(x: bv8)
    requires x >> 4 == 14
    ensures Inverts(x)
  {
    hide Sbox;
    SboxRow14(x);
  }

  lemma Inverse15(x: bv8)
    requires x >> 4 == 15
    ensures Inverts(x)
  {
    hide Sbox;
    SboxRow15(x);
  }

  lemma AllInvert(x: bv8)
    ensures Inverts(x)
  {
    hide Inverts;
    match x >> 4
    case 0 => Inverse0(x);
    case 1 => Inverse1(x);
    case 2 => Inverse2(x);
    case 3 => Inverse3(x);
    case 4 => Inverse4(x);
    case 5 => Inverse5(x);
    case 6 => Inverse6(x);
    case 7 => Inverse7(x);
    case 8 => Inverse8(x);
    case 9 => Inverse9(x);
    case 10 => Inverse10(x);
    case 11 => Inverse11(x);
    case 12 => Inverse12(x);
    case 13 => Inverse13(x);
    case 14 => Inverse14(x);
    case _ => Inverse15(x);
  }

  /** The substitution table is that of the standard: every entry is the affine map of the
      inverse of its index. */
  lemma SboxOfTheStandard(x: bv8)
    ensures exists y: bv8 :: (if x == 0 then y == 0 else Product(x, y) == 1) && Sbox(x) == Affine(y)
  {
    hide Product, Sbox, Affine, Unaffine;
    AllInvert(x);
    AffineBack(Sbox(x));
  }

  lemma Times1(x: bv8)
    ensures Product(x, 1) == x
  {
    hide Xtime;
  }

  lemma Times2(x: bv8)
    ensures Product(x, 2) == Xtime(x)
  {
    hide Xtime;
  }

  lemma Times3(x: bv8)
    ensures Product(x, 3) == Xor(Xtime(x), x)
  {
    hide Xtime;
  }

  lemma Times9(x: bv8)
    ensures Product(x, 9) == Nine(x)
  {
    hide Xtime;
  }

  lemma Times11(x: bv8)
    ensures Product(x, 11) == Eleven(x)
  {
    hide Xtime;
  }

  lemma Times13(x: bv8)
    ensures Product(x, 13) == Thirteen(x)
  {
    hide Xtime;
  }

  lemma Times14(x: bv8)
    ensures Product(x, 14) == Fourteen(x)
  {
    hide Xtime;
  }

  /** The rows of the two mixes are the products of the standard. */
  lemma MixOfTheStandard(a: bv8, b: bv8, c: bv8, d: bv8)
    ensures MixRow(a, b, c, d) == Sum(Product(a, 2), Product(b, 3), Product(c, 1), Product(d, 1))
    ensures InvMixRow(a, b, c, d) == Sum(Product(a, 14), Product(b, 11), Product(c, 13), Product(d, 9))
  {
    hide Product, Xor, Xtime, Nine, Eleven, Thirteen, Fourteen;
    Times2(a);
    Times3(b);
    Times1(c);
    Times1(d);
    Times14(a);
    Times11(b);
    Times13(c);
    Times9(d);
  }
}
