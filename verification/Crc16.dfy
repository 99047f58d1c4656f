/** The 16-bit code of the newer sensors: a parity table and two shifts a byte, against the
    bit-serial definition. */
module Crc16 {
  import opened ShiftRegister
  import opened Crc
  import opened Tables

  function Low16(x: bv16): bool {
    x & 1 != 0
  }

  function Down16(x: bv16): bv16 {
    x >> 1
  }

  function Xor16(x: bv16, y: bv16): bv16 {
    x ^ y
  }

  /** One step: the polynomial is added when the low bit of the register differs from
      the incoming bit. */
  function Step16(crc: bv16, bit: bool): bv16 {
    if Low16(crc) != bit then Xor16(Down16(crc), 0xA001) else Down16(crc)
  }

  /** A step with no incoming bit. */
  function Shift16(x: bv16): bv16 {
    Step16(x, false)
  }

  /** The reflected bitwise code: the register starts from zero. */
  function Code16(bytes: seq<bv8>): bv16 {
    FoldBytes(Step16, 0, bytes)
  }

  function Wide16(b: bv8): bv16 {
    b as bv16
  }

  lemma LowXor16(x: bv16, y: bv16)
    ensures Low16(Xor16(x, y)) == (Low16(x) != Low16(y))
  {
    assert x & 1 == 0 || x & 1 == 1;
    assert y & 1 == 0 || y & 1 == 1;
    assert (x ^ y) & 1 == (x & 1) ^ (y & 1);
  }

  lemma DownXor16(x: bv16, y: bv16)
    ensures Down16(Xor16(x, y)) == Xor16(Down16(x), Down16(y))
  {
  }

  lemma Assoc16(a: bv16, m: bv16, d: bv16)
    ensures Xor16(Xor16(a, m), d) == Xor16(a, Xor16(m, d))
  {
  }

  lemma Comm16(a: bv16, m: bv16)
    ensures Xor16(a, m) == Xor16(m, a)
  {
  }

  lemma Same16(a: bv16, m: bv16)
    ensures Xor16(Xor16(a, m), m) == a
  {
  }

  lemma Swap16(a: bv16, m: bv16, d: bv16)
    ensures Xor16(Xor16(a, m), d) == Xor16(Xor16(a, d), m) == Xor16(a, Xor16(d, m))
  {
    hide Xor16;
    Assoc16(a, m, d);
    Comm16(m, d);
    Assoc16(a, d, m);
  }

  lemma Cancel16(a: bv16, m: bv16, d: bv16)
    ensures Xor16(Xor16(a, m), Xor16(d, m)) == Xor16(a, d)
  {
    hide Xor16;
    Assoc16(Xor16(a, m), d, m);
    Swap16(a, m, d);
    Same16(Xor16(a, d), m);
  }

  lemma StepIsShift16(c: bv16, b: bv16)
    ensures Xor16(Step16(c, Low16(b)), Down16(b)) == Shift16(Xor16(c, b))
  {
    hide Low16, Down16, Xor16;
    LowXor16(c, b);
    DownXor16(c, b);
    Swap16(Down16(c), 0xA001, Down16(b));
  }

  lemma Linear16(x: bv16, y: bv16)
    ensures Shift16(Xor16(x, y)) == Xor16(Shift16(x), Shift16(y))
  {
    hide Low16, Down16, Xor16;
    LowXor16(x, y);
    DownXor16(x, y);
    Swap16(Down16(x), 0xA001, Down16(y));
    Cancel16(Down16(x), 0xA001, Down16(y));
  }

  lemma Widens16(b: bv8)
    ensures Low16(Wide16(b)) == Low8(b) && Wide16(Down8(b)) == Down16(Wide16(b))
  {
  }

  lemma BitsRunOut16(b: bv8)
    ensures Down16(Down16(Down16(Down16(Down16(Down16(Down16(Down16(Wide16(b))))))))) == 0
  {
  }

  lemma StepsCommute16()
    ensures Commutes(Step16, Low16, Down16, Shift16, Xor16)
  {
    forall c, x ensures Xor16(Step16(c, Low16(x)), Down16(x)) == Shift16(Xor16(c, x)) {
      StepIsShift16(c, x);
    }
  }

  lemma BytesWiden16()
    ensures Widens(Low8, Down8, Low16, Down16, Wide16)
  {
    forall x ensures Low16(Wide16(x)) == Low8(x) && Wide16(Down8(x)) == Down16(Wide16(x)) {
      Widens16(x);
    }
  }

  lemma ZeroNeutral16()
    ensures Neutral(Xor16, 0)
  {
  }

  lemma ShiftIsLinear16()
    ensures IsLinear(Shift16, Xor16)
  {
    forall a, b ensures Shift16(Xor16(a, b)) == Xor16(Shift16(a), Shift16(b)) {
      Linear16(a, b);
    }
  }

  lemma NoneLeft16(b: bv8)
    ensures Times(Down16, Wide16(b), 8) == 0
  {
    TimesEight(Down16, Wide16(b));
    BitsRunOut16(b);
  }

  /** A byte can be combined with the register at once and shifted through afterwards. */
  lemma ByteAtOnce16(crc: bv16, b: bv8)
    ensures Fold(Step16, crc, ByteBits(b)) == Times(Shift16, Xor16(crc, Wide16(b)), 8)
  {
    StepsCommute16();
    BytesWiden16();
    ZeroNeutral16();
    NoneLeft16(b);
    WordAtOnce(Step16, Low8, Down8, Wide16, Low16, Down16, Shift16, Xor16, 0, crc, b, 8);
  }

  function OddParity(k: bv16): bv16 {
    Pick((k & 15) as bv8, 0, 1, 1, 0, 1, 0, 0, 1, 1, 0, 0, 1, 0, 1, 1, 0)
  }

  function ParityFold(c: bv16): bv16 {
    (c ^ (c >> 1) ^ (c >> 2) ^ (c >> 3) ^ (c >> 4) ^ (c >> 5) ^ (c >> 6) ^ (c >> 7)) & 1
  }

  lemma ParityOfFour(k: bv16)
    requires k < 16
    ensures OddParity(k) == ParityFold(k)
  {
  }

  lemma JoinHalves(c: bv16)
    requires c < 256
    ensures c & 0x0F < 16 && c >> 4 < 16
    ensures ParityFold(c & 0x0F) ^ ParityFold(c >> 4) == ParityFold(c)
  {
  }

  /** A step with no incoming bit, free of branches: the mask is all ones exactly when the
      low bit is set. */
  function Masked16(x: bv16): bv16 {
    (x >> 1) ^ ((0 - (x & 1)) & 0xA001)
  }

  lemma MaskedIsShift16(x: bv16)
    ensures Masked16(x) == Shift16(x)
  {
    if Low16(x) {
      assert x & 1 == 1;
    } else {
      assert x & 1 == 0;
    }
  }

  lemma MaskedTimes16(x: bv16, n: nat)
    ensures Times(Masked16, x, n) == Times(Shift16, x, n)
  {
    forall y ensures Masked16(y) == Shift16(y) {
      MaskedIsShift16(y);
    }
    TimesSame(Masked16, Shift16, x, n);
  }

  /** What eight shifts of a byte come to, from its parity. */
  function ParityForm(p: bv16, c: bv16): bv16 {
    ((0 - p) & 0xC001) ^ (c << 6) ^ (c << 7)
  }

  lemma LowShifts16(c: bv16)
    requires c < 256
    ensures Masked16(Masked16(Masked16(Masked16(Masked16(Masked16(Masked16(Masked16(c))))))))
         == ParityForm(ParityFold(c), c)
  {
  }

  lemma ParityIsBit(c: bv16)
    ensures ParityFold(c) == 0 || ParityFold(c) == 1
  {
  }

  /** Two table entries give the parity of eight bits, and with it what their shifts come to. */
  method ParityOfEight(c: bv16) returns (p: bv16)
    requires c < 256
    ensures p == 0 || p == 1
    ensures Times(Shift16, c, 8) == ParityForm(p, c)
  {
    JoinHalves(c);
    ParityOfFour(c & 0x0F);
    ParityOfFour(c >> 4);
    p := OddParity(c & 0x0F) ^ OddParity(c >> 4);
    ParityIsBit(c);
    TimesEight(Masked16, c);
    MaskedTimes16(c, 8);
    LowShifts16(c);
  }

  lemma HighShifts16(x: bv16)
    ensures Masked16(Masked16(Masked16(Masked16(Masked16(Masked16(Masked16(Masked16(x & 0xff00)))))))) == x >> 8
  {
  }

  lemma SplitLow16(crc: bv16, b: bv8)
    ensures var low := (Wide16(b) ^ (crc & 0xff)) & 0xff;
      low < 256 && Xor16(crc, Wide16(b)) == Xor16(low, crc & 0xff00)
  {
  }

  lemma ShiftsOfParts16(low: bv16, crc: bv16)
    ensures Times(Shift16, Xor16(low, crc & 0xff00), 8) == Xor16(Times(Shift16, low, 8), crc >> 8)
  {
    ShiftIsLinear16();
    TimesLinear(Shift16, Xor16, low, crc & 0xff00, 8);
    TimesEight(Masked16, crc & 0xff00);
    MaskedTimes16(crc & 0xff00, 8);
    HighShifts16(crc);
  }

  lemma TwoShifts(x: bv16, p: bv16, c: bv16, y: bv16, z: bv16)
    requires y == x ^ ((0 - p) & 0xC001)
    requires z == (y ^ (c << 6)) ^ ((c << 6) << 1)
    ensures z == Xor16(ParityForm(p, c), x)
  {
  }

  method AddConstant(x: bv16, p: bv16) returns (crc: bv16)
    requires p == 0 || p == 1
    ensures crc == x ^ ((0 - p) & 0xC001)
  {
    crc := x;
    if p != 0 {
      crc := crc ^ 0xC001;
    }
  }

  /** The parity constant and the two shifts. */
  method AddParity(x: bv16, p: bv16, c: bv16) returns (crc: bv16)
    requires p == 0 || p == 1
    ensures crc == Xor16(ParityForm(p, c), x)
  {
    var y := AddConstant(x, p);
    crc := AddShifts(y, c);
    TwoShifts(x, p, c, y, crc);
  }

  method AddShifts(x: bv16, c: bv16) returns (crc: bv16)
    ensures crc == (x ^ (c << 6)) ^ ((c << 6) << 1)
  {
    var cdata := c << 6;
    crc := x ^ cdata;
    cdata := cdata << 1;
    crc := crc ^ cdata;
  }

  /** One byte as the program computes it. */
  method ParityByte(before: bv16, b: bv8) returns (crc: bv16)
    ensures crc == Times(Shift16, Xor16(before, Wide16(b)), 8)
  {
    SplitLow16(before, b);
    var cdata := (Wide16(b) ^ (before & 0xff)) & 0xff;
    ShiftsOfParts16(cdata, before);
    var p := ParityOfEight(cdata);
    crc := AddParity(before >> 8, p, cdata);
  }

  method Crc16Fast(input: seq<bv8>) returns (crc: bv16)
    ensures crc == Code16(input)
  {
    crc := 0;
    for i := 0 to |input|
      invariant crc == Code16(input[..i])
    {
      ByteAtOnce16(crc, input[i]);
      NextByte(Step16, 0, input, i);
      crc := ParityByte(crc, input[i]);
    }
    assert input[..|input|] == input;
  }

  lemma BytesOf16(crc: bv16, lo: bv8, hi: bv8)
    ensures crc == ((hi as bv16) << 8) | (lo as bv16) <==> crc & 0xFF == lo as bv16 && crc >> 8 == hi as bv16
  {
  }

  /** The devices send the code inverted, low byte first. */
  method CheckCrc16(input: seq<bv8>, lo: bv8, hi: bv8) returns (ok: bool)
    ensures ok <==> !Code16(input) == ((hi as bv16) << 8) | (lo as bv16)
  {
    var crc := Crc16Fast(input);
    crc := !crc;
    BytesOf16(crc, lo, hi);
    ok := crc & 0xFF == lo as bv16 && crc >> 8 == hi as bv16;
  }

  // ---------- a published value ----------

  lemma ByteInMasks16(crc: bv16, b: bv8)
    ensures Fold(Step16, crc, ByteBits(b))
         == Masked16(Masked16(Masked16(Masked16(Masked16(Masked16(Masked16(Masked16(Xor16(crc, Wide16(b))))))))))
  {
    hide Step16, Shift16, Masked16, Xor16;
    ByteAtOnce16(crc, b);
    MaskedTimes16(Xor16(crc, Wide16(b)), 8);
    TimesEight(Masked16, Xor16(crc, Wide16(b)));
  }

  lemma Digit16(i: nat, crc: bv16, next: bv16)
    requires i < 9 && FoldBytes(Step16, 0, DIGITS[..i]) == crc
    requires next
          == Masked16(Masked16(Masked16(Masked16(Masked16(Masked16(Masked16(Masked16(
               Xor16(crc, Wide16(DIGITS[i]))))))))))
    ensures FoldBytes(Step16, 0, DIGITS[..i + 1]) == next
  {
    hide Masked16, Xor16, FoldBytes, Fold;
    NextByte(Step16, 0, DIGITS, i);
    ByteInMasks16(crc, DIGITS[i]);
  }

  /** The code of the nine digits. */
  lemma CheckValue16()
    ensures Code16(DIGITS) == 0xbb3d
  {
    hide FoldBytes;
    FiveDigits16();
    Digit16(5, 0xa455, 0x29e4);
    Digit16(6, 0x29e4, 0x9d68);
    Digit16(7, 0x9d68, 0x3c9d);
    Digit16(8, 0x3c9d, 0xbb3d);
    assert DIGITS[..9] == DIGITS;
  }

  lemma FiveDigits16()
    ensures FoldBytes(Step16, 0, DIGITS[..5]) == 0xa455
  {
    hide FoldBytes;
    NoDigits16();
    Digit16(0, 0x0000, 0xd4c1);
    Digit16(1, 0xd4c1, 0x4594);
    Digit16(2, 0x4594, 0xba04);
    Digit16(3, 0xba04, 0x14ba);
    Digit16(4, 0x14ba, 0xa455);
  }

  lemma NoDigits16()
    ensures FoldBytes(Step16, 0, DIGITS[..0]) == 0x0000
  {
  }
}
