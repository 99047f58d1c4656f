/** Columns as 32-bit words, first byte on top, and the word-parallel doubling. */
module AesWords {
  import opened AesRounds
  import opened AesBlocks
  import opened AesBytes

  function Pack(c: Byte4): bv32 {
    ((c.b0 as bv32) << 24) | ((c.b1 as bv32) << 16) | ((c.b2 as bv32) << 8) | (c.b3 as bv32)
  }

  function Unpack(w: bv32): Byte4 {
    Col(((w >> 24) & 0xFF) as bv8, ((w >> 16) & 0xFF) as bv8, ((w >> 8) & 0xFF) as bv8, (w & 0xFF) as bv8)
  }

  lemma UnpackPack(c: Byte4)
    ensures Unpack(Pack(c)) == c
  {
    UnpackPackByte(c.b0, c.b1, c.b2, c.b3);
  }

  lemma UnpackPackByte(a: bv8, b: bv8, c: bv8, d: bv8)
    ensures ((Pack(Col(a, b, c, d)) >> 24) & 0xFF) as bv8 == a
    ensures ((Pack(Col(a, b, c, d)) >> 16) & 0xFF) as bv8 == b
    ensures ((Pack(Col(a, b, c, d)) >> 8) & 0xFF) as bv8 == c
    ensures (Pack(Col(a, b, c, d)) & 0xFF) as bv8 == d
  {
  }

  function XorWord(x: bv32, y: bv32): bv32 {
    x ^ y
  }

  lemma UnpackXor(x: bv32, y: bv32)
    ensures Unpack(XorWord(x, y)) == XorCol(Unpack(x), Unpack(y))
  {
  }

  // ---------- rotations ----------

  function Rot1(x: bv32): bv32 {
    (x << 24) | (x >> 8)
  }

  function Rot2(x: bv32): bv32 {
    (x << 16) | (x >> 16)
  }

  function Rot3(x: bv32): bv32 {
    (x << 8) | (x >> 24)
  }

  lemma UnpackRot1(x: bv32)
    ensures var c := Unpack(x); Unpack(Rot1(x)) == Col(c.b3, c.b0, c.b1, c.b2)
  {
  }

  lemma UnpackRot2(x: bv32)
    ensures var c := Unpack(x); Unpack(Rot2(x)) == Col(c.b2, c.b3, c.b0, c.b1)
  {
  }

  lemma UnpackRot3(x: bv32)
    ensures var c := Unpack(x); Unpack(Rot3(x)) == Col(c.b1, c.b2, c.b3, c.b0)
  {
  }

  // ---------- four doublings at once ----------

  /** The correction byte for each byte whose top bit is set. */
  function Correction(t: bv32): bv32 {
    (t - (t >> 7)) & 0x1b1b1b1b
  }

  function Mul2(x: bv32): bv32 {
    XorWord((x + x) & 0xfefefefe, Correction(x & 0x80808080))
  }

  function CorrectionByte(b: bv8): bv8 {
    if b & 0x80 != 0 then 0x1b else 0
  }

  lemma XtimeInParts(b: bv8)
    ensures Xtime(b) == Xor(Shifted(b), CorrectionByte(b))
  {
  }

  lemma AddedIsShifted(x: bv32)
    ensures x + x == x << 1
  {
  }

  lemma UnpackShifted(x: bv32)
    ensures Unpack((x << 1) & 0xfefefefe) == MapCol(Shifted, Unpack(x))
  {
  }

  /** No borrow crosses a byte: only the top bit of each byte is left. */
  lemma CorrectionOfBits(t: bv32)
    requires t & 0x7f7f7f7f == 0
    ensures Correction(t)
         == (if t & 0x80000000 != 0 then 0x1b000000 else 0) | (if t & 0x800000 != 0 then 0x1b0000 else 0)
                             | (if t & 0x8000 != 0 then 0x1b00 else 0) | (if t & 0x80 != 0 then 0x1b else 0)
  {
    var high, low := t & 0x80800000, t & 0x8080;
    assert t == high | low;
    assert high == 0 || high == 0x80000000 || high == 0x800000 || high == 0x80800000;
    assert low == 0 || low == 0x8000 || low == 0x80 || low == 0x8080;
  }

  lemma UnpackCorrection(x: bv32)
    ensures Unpack(Correction(x & 0x80808080)) == MapCol(CorrectionByte, Unpack(x))
  {
    hide Correction;
    CorrectionOfBits(x & 0x80808080);
  }

  lemma UnpackMul2(x: bv32)
    ensures Unpack(Mul2(x)) == MapCol(Xtime, Unpack(x))
  {
    hide Unpack, Correction, Xtime, Xor, Shifted, CorrectionByte;
    AddedIsShifted(x);
    UnpackXor((x << 1) & 0xfefefefe, Correction(x & 0x80808080));
    UnpackShifted(x);
    UnpackCorrection(x);
    var c := Unpack(x);
    XtimeInParts(c.b0);
    XtimeInParts(c.b1);
    XtimeInParts(c.b2);
    XtimeInParts(c.b3);
  }

  // ---------- the packed inverse mix ----------

  /** The terms of the packed form are those of the row 14, 11, 13, 9. */
  lemma PackedTerms(a: bv8, b: bv8, c: bv8, d: bv8)
    ensures var f2, f4, f8 := (x: bv8) => Xtime(x), (x: bv8) => Xtime(Xtime(x)), (x: bv8) => Xtime(Xtime(Xtime(x)));
      Xor(Xor(Xor(Xor(Xor(f2(a), f4(a)), f8(a)), Xor(f2(b), Xor(b, f8(b)))), Xor(f4(c), Xor(c, f8(c)))), Xor(d, f8(d)))
      == InvMixRow(a, b, c, d)
  {
    hide Xtime, Xor;
    FourteenTerms(Xtime(a), Xtime(Xtime(a)), Xtime(Xtime(Xtime(a))));
    ThreeTerms(b, Xtime(b), Xtime(Xtime(Xtime(b))));
    ThreeTerms(c, Xtime(Xtime(c)), Xtime(Xtime(Xtime(c))));
    Comm(d, Xtime(Xtime(Xtime(d))));
  }

  lemma FourteenTerms(x2: bv8, x4: bv8, x8: bv8)
    ensures Xor(Xor(x2, x4), x8) == Xor(Xor(x8, x4), x2)
  {
    hide *;
    Swap(x2, x4, x8);
    Comm(x2, x8);
    Swap(x8, x2, x4);
  }

  lemma ThreeTerms(x: bv8, y: bv8, x8: bv8)
    ensures Xor(y, Xor(x, x8)) == Xor(Xor(x8, y), x)
  {
    hide *;
    Comm(x, x8);
    Assoc(y, x8, x);
    Comm(y, x8);
  }

  /** The macro with its temporaries. */
  method InvMixColWord(x: bv32) returns (w: bv32)
    ensures Unpack(w) == InvMixCol(Unpack(x))
  {
    hide *;
    ghost var c := Unpack(x);
    var f2 := Mul2(x);
    UnpackMul2(x);
    var f4 := Mul2(f2);
    UnpackMul2(f2);
    var f8 := Mul2(f4);
    UnpackMul2(f4);
    var f9 := XorWord(x, f8);
    UnpackXor(x, f8);
    ghost var (t2, t4, t8, t9) := (Unpack(f2), Unpack(f4), Unpack(f8), Unpack(f9));
    UnpackXor(f2, f4);
    UnpackXor(XorWord(f2, f4), f8);
    f8 := XorWord(XorWord(f2, f4), f8);
    UnpackXor(f2, f9);
    f2 := XorWord(f2, f9);
    UnpackXor(f4, f9);
    f4 := XorWord(f4, f9);
    UnpackXor(f8, Rot3(f2));
    UnpackRot3(f2);
    f8 := XorWord(f8, Rot3(f2));
    UnpackXor(f8, Rot2(f4));
    UnpackRot2(f4);
    f8 := XorWord(f8, Rot2(f4));
    UnpackXor(f8, Rot1(f9));
    UnpackRot1(f9);
    w := XorWord(f8, Rot1(f9));
    PackedColumn(c, t2, t4, t8, t9, Unpack(w));
  }

  lemma PackedColumn(c: Byte4, t2: Byte4, t4: Byte4, t8: Byte4, t9: Byte4, w: Byte4)
    requires t2 == MapCol(Xtime, c) && t4 == MapCol(Xtime, t2) && t8 == MapCol(Xtime, t4) && t9 == XorCol(c, t8)
    requires var (u2, u4) := (XorCol(t2, t9), XorCol(t4, t9));
      w == XorCol(XorCol(XorCol(XorCol(XorCol(t2, t4), t8), Col(u2.b1, u2.b2, u2.b3, u2.b0)),
          Col(u4.b2, u4.b3, u4.b0, u4.b1)),
                  Col(t9.b3, t9.b0, t9.b1, t9.b2))
    ensures w == InvMixCol(c)
  {
    hide Xtime, Xor, InvMixRow;
    PackedTerms(c.b0, c.b1, c.b2, c.b3);
    PackedTerms(c.b1, c.b2, c.b3, c.b0);
    PackedTerms(c.b2, c.b3, c.b0, c.b1);
    PackedTerms(c.b3, c.b0, c.b1, c.b2);
  }
}
