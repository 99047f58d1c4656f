/** The seeded 32-bit code of the scripting library. */
module Crc32 {
  import opened ShiftRegister
  import opened Crc
  import opened Tables

  function Low32(x: bv32): bool {
    x & 1 != 0
  }

  function Down32(x: bv32): bv32 {
    x >> 1
  }

  function Xor32(x: bv32, y: bv32): bv32 {
    x ^ y
  }

  /** One step: the polynomial is added when the low bit of the register differs from
      the incoming bit. */
  function Step32(crc: bv32, bit: bool): bv32 {
    if Low32(crc) != bit then Xor32(Down32(crc), 0xEDB88320) else Down32(crc)
  }

  /** A step with no incoming bit. */
  function Shift32(x: bv32): bv32 {
    Step32(x, false)
  }

  function Invert32(x: bv32): bv32 {
    !x
  }

  /** The seeded code: the register starts from the inverted seed and is inverted last. */
  function Code32(bytes: seq<bv8>, seed: bv32): bv32 {
    Invert32(FoldBytes(Step32, Invert32(seed), bytes))
  }

  function Wide32(b: bv8): bv32 {
    b as bv32
  }

  lemma LowXor32(x: bv32, y: bv32)
    ensures Low32(Xor32(x, y)) == (Low32(x) != Low32(y))
  {
    assert x & 1 == 0 || x & 1 == 1;
    assert y & 1 == 0 || y & 1 == 1;
    assert (x ^ y) & 1 == (x & 1) ^ (y & 1);
  }

  lemma DownXor32(x: bv32, y: bv32)
    ensures Down32(Xor32(x, y)) == Xor32(Down32(x), Down32(y))
  {
  }

  lemma Assoc32(a: bv32, m: bv32, d: bv32)
    ensures Xor32(Xor32(a, m), d) == Xor32(a, Xor32(m, d))
  {
  }

  lemma Comm32(a: bv32, m: bv32)
    ensures Xor32(a, m) == Xor32(m, a)
  {
  }

  lemma Same32(a: bv32, m: bv32)
    ensures Xor32(Xor32(a, m), m) == a
  {
  }

  lemma Swap32(a: bv32, m: bv32, d: bv32)
    ensures Xor32(Xor32(a, m), d) == Xor32(Xor32(a, d), m) == Xor32(a, Xor32(d, m))
  {
    hide Xor32;
    Assoc32(a, m, d);
    Comm32(m, d);
    Assoc32(a, d, m);
  }

  lemma Cancel32(a: bv32, m: bv32, d: bv32)
    ensures Xor32(Xor32(a, m), Xor32(d, m)) == Xor32(a, d)
  {
    hide Xor32;
    Assoc32(Xor32(a, m), d, m);
    Swap32(a, m, d);
    Same32(Xor32(a, d), m);
  }

  lemma StepIsShift32(c: bv32, b: bv32)
    ensures Xor32(Step32(c, Low32(b)), Down32(b)) == Shift32(Xor32(c, b))
  {
    hide Low32, Down32, Xor32;
    LowXor32(c, b);
    DownXor32(c, b);
    Swap32(Down32(c), 0xEDB88320, Down32(b));
  }

  lemma Linear32(x: bv32, y: bv32)
    ensures Shift32(Xor32(x, y)) == Xor32(Shift32(x), Shift32(y))
  {
    hide Low32, Down32, Xor32;
    LowXor32(x, y);
    DownXor32(x, y);
    Swap32(Down32(x), 0xEDB88320, Down32(y));
    Cancel32(Down32(x), 0xEDB88320, Down32(y));
  }

  lemma Widens32(b: bv8)
    ensures Low32(Wide32(b)) == Low8(b) && Wide32(Down8(b)) == Down32(Wide32(b))
  {
  }

  lemma BitsRunOut32(b: bv8)
    ensures Down32(Down32(Down32(Down32(Down32(Down32(Down32(Down32(Wide32(b))))))))) == 0
  {
  }

  lemma StepsCommute32()
    ensures Commutes(Step32, Low32, Down32, Shift32, Xor32)
  {
    forall c, x ensures Xor32(Step32(c, Low32(x)), Down32(x)) == Shift32(Xor32(c, x)) {
      StepIsShift32(c, x);
    }
  }

  lemma BytesWiden32()
    ensures Widens(Low8, Down8, Low32, Down32, Wide32)
  {
    forall x ensures Low32(Wide32(x)) == Low8(x) && Wide32(Down8(x)) == Down32(Wide32(x)) {
      Widens32(x);
    }
  }

  lemma ZeroNeutral32()
    ensures Neutral(Xor32, 0)
  {
  }

  lemma ShiftIsLinear32()
    ensures IsLinear(Shift32, Xor32)
  {
    forall a, b ensures Shift32(Xor32(a, b)) == Xor32(Shift32(a), Shift32(b)) {
      Linear32(a, b);
    }
  }

  lemma NoneLeft32(b: bv8)
    ensures Times(Down32, Wide32(b), 8) == 0
  {
    TimesEight(Down32, Wide32(b));
    BitsRunOut32(b);
  }

  /** A byte can be combined with the register at once and shifted through afterwards. */
  lemma ByteAtOnce32(crc: bv32, b: bv8)
    ensures Fold(Step32, crc, ByteBits(b)) == Times(Shift32, Xor32(crc, Wide32(b)), 8)
  {
    StepsCommute32();
    BytesWiden32();
    ZeroNeutral32();
    NoneLeft32(b);
    WordAtOnce(Step32, Low8, Down8, Wide32, Low32, Down32, Shift32, Xor32, 0, crc, b, 8);
  }

  /** The lookup table of the 32-bit code. */
  function Table32(x: bv8): bv32 {
    var k := x & 15;
    match x >> 4
    case 0 => Pick(k, 0x00000000, 0x77073096, 0xee0e612c, 0x990951ba, 0x076dc419, 0x706af48f, 0xe963a535, 0x9e6495a3,
                     0x0edb8832, 0x79dcb8a4, 0xe0d5e91e, 0x97d2d988, 0x09b64c2b, 0x7eb17cbd, 0xe7b82d07, 0x90bf1d91)
    case 1 => Pick(k, 0x1db71064, 0x6ab020f2, 0xf3b97148, 0x84be41de, 0x1adad47d, 0x6ddde4eb, 0xf4d4b551, 0x83d385c7,
                     0x136c9856, 0x646ba8c0, 0xfd62f97a, 0x8a65c9ec, 0x14015c4f, 0x63066cd9, 0xfa0f3d63, 0x8d080df5)
    case 2 => Pick(k, 0x3b6e20c8, 0x4c69105e, 0xd56041e4, 0xa2677172, 0x3c03e4d1, 0x4b04d447, 0xd20d85fd, 0xa50ab56b,
                     0x35b5a8fa, 0x42b2986c, 0xdbbbc9d6, 0xacbcf940, 0x32d86ce3, 0x45df5c75, 0xdcd60dcf, 0xabd13d59)
    case 3 => Pick(k, 0x26d930ac, 0x51de003a, 0xc8d75180, 0xbfd06116, 0x21b4f4b5, 0x56b3c423, 0xcfba9599, 0xb8bda50f,
                     0x2802b89e, 0x5f058808, 0xc60cd9b2, 0xb10be924, 0x2f6f7c87, 0x58684c11, 0xc1611dab, 0xb6662d3d)
    case 4 => Pick(k, 0x76dc4190, 0x01db7106, 0x98d220bc, 0xefd5102a, 0x71b18589, 0x06b6b51f, 0x9fbfe4a5, 0xe8b8d433,
                     0x7807c9a2, 0x0f00f934, 0x9609a88e, 0xe10e9818, 0x7f6a0dbb, 0x086d3d2d, 0x91646c97, 0xe6635c01)
    case 5 => Pick(k, 0x6b6b51f4, 0x1c6c6162, 0x856530d8, 0xf262004e, 0x6c0695ed, 0x1b01a57b, 0x8208f4c1, 0xf50fc457,
                     0x65b0d9c6, 0x12b7e950, 0x8bbeb8ea, 0xfcb9887c, 0x62dd1ddf, 0x15da2d49, 0x8cd37cf3, 0xfbd44c65)
    case 6 => Pick(k, 0x4db26158, 0x3ab551ce, 0xa3bc0074, 0xd4bb30e2, 0x4adfa541, 0x3dd895d7, 0xa4d1c46d, 0xd3d6f4fb,
                     0x4369e96a, 0x346ed9fc, 0xad678846, 0xda60b8d0, 0x44042d73, 0x33031de5, 0xaa0a4c5f, 0xdd0d7cc9)
    case 7 => Pick(k, 0x5005713c, 0x270241aa, 0xbe0b1010, 0xc90c2086, 0x5768b525, 0x206f85b3, 0xb966d409, 0xce61e49f,
                     0x5edef90e, 0x29d9c998, 0xb0d09822, 0xc7d7a8b4, 0x59b33d17, 0x2eb40d81, 0xb7bd5c3b, 0xc0ba6cad)
    case 8 => Pick(k, 0xedb88320, 0x9abfb3b6, 0x03b6e20c, 0x74b1d29a, 0xead54739, 0x9dd277af, 0x04db2615, 0x73dc1683,
                     0xe3630b12, 0x94643b84, 0x0d6d6a3e, 0x7a6a5aa8, 0xe40ecf0b, 0x9309ff9d, 0x0a00ae27, 0x7d079eb1)
    case 9 => Pick(k, 0xf00f9344, 0x8708a3d2, 0x1e01f268, 0x6906c2fe, 0xf762575d, 0x806567cb, 0x196c3671, 0x6e6b06e7,
                     0xfed41b76, 0x89d32be0, 0x10da7a5a, 0x67dd4acc, 0xf9b9df6f, 0x8ebeeff9, 0x17b7be43, 0x60b08ed5)
    case 10 => Pick(k, 0xd6d6a3e8, 0xa1d1937e, 0x38d8c2c4, 0x4fdff252, 0xd1bb67f1, 0xa6bc5767, 0x3fb506dd, 0x48b2364b,
                     0xd80d2bda, 0xaf0a1b4c, 0x36034af6, 0x41047a60, 0xdf60efc3, 0xa867df55, 0x316e8eef, 0x4669be79)
    case 11 => Pick(k, 0xcb61b38c, 0xbc66831a, 0x256fd2a0, 0x5268e236, 0xcc0c7795, 0xbb0b4703, 0x220216b9, 0x5505262f,
                     0xc5ba3bbe, 0xb2bd0b28, 0x2bb45a92, 0x5cb36a04, 0xc2d7ffa7, 0xb5d0cf31, 0x2cd99e8b, 0x5bdeae1d)
    case 12 => Pick(k, 0x9b64c2b0, 0xec63f226, 0x756aa39c, 0x026d930a, 0x9c0906a9, 0xeb0e363f, 0x72076785, 0x05005713,
                     0x95bf4a82, 0xe2b87a14, 0x7bb12bae, 0x0cb61b38, 0x92d28e9b, 0xe5d5be0d, 0x7cdcefb7, 0x0bdbdf21)
    case 13 => Pick(k, 0x86d3d2d4, 0xf1d4e242, 0x68ddb3f8, 0x1fda836e, 0x81be16cd, 0xf6b9265b, 0x6fb077e1, 0x18b74777,
                     0x88085ae6, 0xff0f6a70, 0x66063bca, 0x11010b5c, 0x8f659eff, 0xf862ae69, 0x616bffd3, 0x166ccf45)
    case 14 => Pick(k, 0xa00ae278, 0xd70dd2ee, 0x4e048354, 0x3903b3c2, 0xa7672661, 0xd06016f7, 0x4969474d, 0x3e6e77db,
                     0xaed16a4a, 0xd9d65adc, 0x40df0b66, 0x37d83bf0, 0xa9bcae53, 0xdebb9ec5, 0x47b2cf7f, 0x30b5ffe9)
    case _ => Pick(k, 0xbdbdf21c, 0xcabac28a, 0x53b39330, 0x24b4a3a6, 0xbad03605, 0xcdd70693, 0x54de5729, 0x23d967bf,
                     0xb3667a2e, 0xc4614ab8, 0x5d681b02, 0x2a6f2b94, 0xb40bbe37, 0xc30c8ea1, 0x5a05df1b, 0x2d02ef8d)
  }

  /** A step with no incoming bit, free of branches: the mask is all ones exactly when the
      low bit is set. */
  function Masked32(x: bv32): bv32 {
    (x >> 1) ^ ((0 - (x & 1)) & 0xEDB88320)
  }

  lemma MaskedIsShift32(x: bv32)
    ensures Masked32(x) == Shift32(x)
  {
    if Low32(x) {
      assert x & 1 == 1;
    } else {
      assert x & 1 == 0;
    }
  }

  lemma MaskedTimes32(x: bv32, n: nat)
    ensures Times(Masked32, x, n) == Times(Shift32, x, n)
  {
    forall y ensures Masked32(y) == Shift32(y) {
      MaskedIsShift32(y);
    }
    TimesSame(Masked32, Shift32, x, n);
  }

  /** What eight shifts leave of an index, which is what the table holds. */
  predicate Tabled32(x: bv8) {
    Table32(x) == Masked32(Masked32(Masked32(Masked32(Masked32(Masked32(Masked32(Masked32(Wide32(x)))))))))
  }

  lemma Table32Row0(x: bv8)
    requires x >> 4 == 0
    ensures Tabled32(x)
  {
  }

  lemma Table32Row1(x: bv8)
    requires x >> 4 == 1
    ensures Tabled32(x)
  {
  }

  lemma Table32Row2(x: bv8)
    requires x >> 4 == 2
    ensures Tabled32(x)
  {
  }

  lemma Table32Row3(x: bv8)
    requires x >> 4 == 3
    ensures Tabled32(x)
  {
  }

  lemma Table32Row4(x: bv8)
    requires x >> 4 == 4
    ensures Tabled32(x)
  {
  }

  lemma Table32Row5(x: bv8)
    requires x >> 4 == 5
    ensures Tabled32(x)
  {
  }

  lemma Table32Row6(x: bv8)
    requires x >> 4 == 6
    ensures Tabled32(x)
  {
  }

  lemma Table32Row7(x: bv8)
    requires x >> 4 == 7
    ensures Tabled32(x)
  {
  }

  lemma Table32Row8(x: bv8)
    requires x >> 4 == 8
    ensures Tabled32(x)
  {
  }

  lemma Table32Row9(x: bv8)
    requires x >> 4 == 9
    ensures Tabled32(x)
  {
  }

  lemma Table32Row10(x: bv8)
    requires x >> 4 == 10
    ensures Tabled32(x)
  {
  }

  lemma Table32Row11(x: bv8)
    requires x >> 4 == 11
    ensures Tabled32(x)
  {
  }

  lemma Table32Row12(x: bv8)
    requires x >> 4 == 12
    ensures Tabled32(x)
  {
  }

  lemma Table32Row13(x: bv8)
    requires x >> 4 == 13
    ensures Tabled32(x)
  {
  }

  lemma Table32Row14(x: bv8)
    requires x >> 4 == 14
    ensures Tabled32(x)
  {
  }

  lemma Table32Row15(x: bv8)
    requires x >> 4 == 15
    ensures Tabled32(x)
  {
  }

  lemma Table32IsMasked(x: bv8)
    ensures Table32(x) == Masked32(Masked32(Masked32(Masked32(Masked32(Masked32(Masked32(Masked32(Wide32(x)))))))))
  {
    hide Table32, Masked32;
    match x >> 4
    case 0 => Table32Row0(x); case 1 => Table32Row1(x); case 2 => Table32Row2(x);
    case 3 => Table32Row3(x); case 4 => Table32Row4(x); case 5 => Table32Row5(x);
    case 6 => Table32Row6(x); case 7 => Table32Row7(x); case 8 => Table32Row8(x);
    case 9 => Table32Row9(x); case 10 => Table32Row10(x); case 11 => Table32Row11(x);
    case 12 => Table32Row12(x); case 13 => Table32Row13(x); case 14 => Table32Row14(x);
    case _ => Table32Row15(x);
  }

  method Lookup32(x: bv8) returns (v: bv32)
    ensures v == Times(Shift32, Wide32(x), 8)
  {
    Table32IsMasked(x);
    TimesEight(Masked32, Wide32(x));
    MaskedTimes32(Wide32(x), 8);
    v := Table32(x);
  }

  lemma HighShifts32(x: bv32)
    ensures Masked32(Masked32(Masked32(Masked32(Masked32(Masked32(Masked32(Masked32(x & 0xffffff00)))))))) == x >> 8
  {
  }

  lemma LowPart32(x: bv32, low: bv8)
    requires low == (x & 0xff) as bv8
    ensures Wide32(low) == x & 0xff
  {
  }

  lemma WideIsLow32(b: bv8)
    ensures Wide32(b) & 0xffffff00 == 0
  {
  }

  lemma Parts32(crc: bv32, w: bv32, l: bv32)
    requires w & 0xffffff00 == 0 && l == (crc ^ w) & 0xff
    ensures Xor32(crc, w) == Xor32(l, crc & 0xffffff00)
  {
  }

  lemma SplitLow32(crc: bv32, b: bv8, low: bv8)
    requires low == ((crc ^ Wide32(b)) & 0xff) as bv8
    ensures Xor32(crc, Wide32(b)) == Xor32(Wide32(low), crc & 0xffffff00)
  {
    LowPart32(crc ^ Wide32(b), low);
    WideIsLow32(b);
    Parts32(crc, Wide32(b), Wide32(low));
  }

  lemma ShiftsOfParts32(low: bv32, crc: bv32)
    ensures Times(Shift32, Xor32(low, crc & 0xffffff00), 8) == Xor32(Times(Shift32, low, 8), crc >> 8)
  {
    ShiftIsLinear32();
    TimesLinear(Shift32, Xor32, low, crc & 0xffffff00, 8);
    TimesEight(Masked32, crc & 0xffffff00);
    MaskedTimes32(crc & 0xffffff00, 8);
    HighShifts32(crc);
  }

  /** One byte: a lookup with the low byte of the register and a shift of the rest. */
  method TableByte32(before: bv32, b: bv8) returns (value: bv32)
    ensures value == Times(Shift32, Xor32(before, Wide32(b)), 8)
  {
    var low := ((before ^ Wide32(b)) & 0xff) as bv8;
    SplitLow32(before, b, low);
    ShiftsOfParts32(Wide32(low), before);
    var entry := Lookup32(low);
    value := Xor32(entry, before >> 8);
  }

  method TableLoop32(buffer: seq<bv8>, start: bv32) returns (value: bv32)
    ensures value == FoldBytes(Step32, start, buffer)
  {
    value := start;
    for i := 0 to |buffer|
      invariant value == FoldBytes(Step32, start, buffer[..i])
    {
      ByteAtOnce32(value, buffer[i]);
      NextByte(Step32, start, buffer, i);
      value := TableByte32(value, buffer[i]);
    }
    assert buffer[..|buffer|] == buffer;
  }

  method Crc32Fast(buffer: seq<bv8>, seed: bv32) returns (value: bv32)
    ensures value == Code32(buffer, seed)
  {
    value := Invert32(seed);
    value := TableLoop32(buffer, value);
    InvertsBack(value);
    value := value ^ 0xffffffff;
  }

  lemma InvertsBack(x: bv32)
    ensures x ^ 0xffffffff == Invert32(x) && Invert32(Invert32(x)) == x
  {
  }

  lemma AllInvertBack()
    ensures forall x :: Invert32(Invert32(x)) == x
  {
    forall x ensures Invert32(Invert32(x)) == x {
      InvertsBack(x);
    }
  }

  /** Feeding a message in two parts, the second seeded with the code of the first. */
  lemma Crc32Seeded(a: seq<bv8>, b: seq<bv8>, seed: bv32)
    ensures Code32(a + b, seed) == Code32(b, Code32(a, seed))
  {
    BitStreamConcat(a, b);
    AllInvertBack();
    InvertedSeed(Step32, Invert32, seed, BitStream(a), BitStream(b));
  }

  // ---------- a published value ----------

  lemma ByteInMasks32(crc: bv32, b: bv8)
    ensures Fold(Step32, crc, ByteBits(b))
         == Masked32(Masked32(Masked32(Masked32(Masked32(Masked32(Masked32(Masked32(Xor32(crc, Wide32(b))))))))))
  {
    hide Step32, Shift32, Masked32, Xor32;
    ByteAtOnce32(crc, b);
    MaskedTimes32(Xor32(crc, Wide32(b)), 8);
    TimesEight(Masked32, Xor32(crc, Wide32(b)));
  }

  lemma Digit32(i: nat, crc: bv32, next: bv32)
    requires i < 9 && FoldBytes(Step32, 0xffffffff, DIGITS[..i]) == crc
    requires next
          == Masked32(Masked32(Masked32(Masked32(Masked32(Masked32(Masked32(Masked32(
               Xor32(crc, Wide32(DIGITS[i]))))))))))
    ensures FoldBytes(Step32, 0xffffffff, DIGITS[..i + 1]) == next
  {
    hide Masked32, Xor32, FoldBytes, Fold;
    NextByte(Step32, 0xffffffff, DIGITS, i);
    ByteInMasks32(crc, DIGITS[i]);
  }

  /** The code of the nine digits. */
  lemma CheckValue32()
    ensures Code32(DIGITS, 0) == 0xcbf43926
  {
    hide FoldBytes;
    FiveDigits32();
    Digit32(5, 0x340ac5e3, 0xf68d2c9e);
    Digit32(6, 0xf68d2c9e, 0xaffc9660);
    Digit32(7, 0xaffc9660, 0x651f2550);
    Digit32(8, 0x651f2550, 0x340bc6d9);
    assert DIGITS[..9] == DIGITS;
  }

  lemma FiveDigits32()
    ensures FoldBytes(Step32, 0xffffffff, DIGITS[..5]) == 0x340ac5e3
  {
    hide FoldBytes;
    NoDigits32();
    Digit32(0, 0xffffffff, 0x7c231048);
    Digit32(1, 0x7c231048, 0xb0acbb32);
    Digit32(2, 0xb0acbb32, 0x77b79c2d);
    Digit32(3, 0x77b79c2d, 0x641c1f5c);
    Digit32(4, 0x641c1f5c, 0x340ac5e3);
  }

  lemma NoDigits32()
    ensures FoldBytes(Step32, 0xffffffff, DIGITS[..0]) == 0xffffffff
  {
  }
}
