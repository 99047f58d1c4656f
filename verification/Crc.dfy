/** Cyclic redundancy checks: the table and parity forms the programs use, against the
    bit-serial definition, and what the 8-bit code detects. */
module Crc {
  import opened ShiftRegister
  import opened Tables

  function Low8(x: bv8): bool {
    x & 1 != 0
  }

  function Down8(x: bv8): bv8 {
    x >> 1
  }

  function Xor8(x: bv8, y: bv8): bv8 {
    x ^ y
  }

  /** One step: the polynomial is added when the low bit of the register differs from
      the incoming bit. */
  function Step8(crc: bv8, bit: bool): bv8 {
    if Low8(crc) != bit then Xor8(Down8(crc), 0x8C) else Down8(crc)
  }

  /** A step with no incoming bit. */
  function Shift8(x: bv8): bv8 {
    Step8(x, false)
  }

  /** The bits of a byte in transmission order: lowest first. */
  function ByteBits(b: bv8): (s: seq<bool>)
    ensures |s| == 8
  {
    BitsOf(Low8, Down8, b, 8)
  }

  function BitStream(bytes: seq<bv8>): (s: seq<bool>)
    ensures |s| == 8 * |bytes|
  {
    if bytes == [] then [] else ByteBits(bytes[0]) + BitStream(bytes[1..])
  }

  /** The register after a message. */
  function FoldBytes<T>(step: (T, bool) -> T, crc: T, bytes: seq<bv8>): T {
    Fold(step, crc, BitStream(bytes))
  }

  /** The sensor code of a message: the register starts from zero. */
  function Crc8(bytes: seq<bv8>): bv8 {
    FoldBytes(Step8, 0, bytes)
  }

  // ---------- messages ----------

  lemma {:induction false} BitStreamConcat(a: seq<bv8>, b: seq<bv8>)
    ensures BitStream(a + b) == BitStream(a) + BitStream(b)
  {
    if a == [] {
      assert a + b == b;
    } else {
      assert (a + b)[1..] == a[1..] + b;
      BitStreamConcat(a[1..], b);
      var x, y, z := ByteBits(a[0]), BitStream(a[1..]), BitStream(b);
      assert x + (y + z) == x + y + z;
    }
  }

  lemma OneByteStream(b: bv8)
    ensures BitStream([b]) == ByteBits(b)
  {
    assert [b][1..] == [];
    assert ByteBits(b) + [] == ByteBits(b);
  }

  /** A message in two parts: the register goes on where the first part left it. */
  lemma FoldParts<T>(step: (T, bool) -> T, crc: T, a: seq<bv8>, b: seq<bv8>)
    ensures FoldBytes(step, crc, a + b) == FoldBytes(step, FoldBytes(step, crc, a), b)
  {
    BitStreamConcat(a, b);
    FoldConcat(step, crc, BitStream(a), BitStream(b));
  }

  /** The register after the first i + 1 bytes, from the register after i. */
  lemma NextByte<T>(step: (T, bool) -> T, crc: T, bytes: seq<bv8>, i: nat)
    requires i < |bytes|
    ensures FoldBytes(step, crc, bytes[..i + 1]) == Fold(step, FoldBytes(step, crc, bytes[..i]), ByteBits(bytes[i]))
  {
    assert bytes[..i + 1] == bytes[..i] + [bytes[i]];
    FoldParts(step, crc, bytes[..i], [bytes[i]]);
    OneByteStream(bytes[i]);
  }

  // ---------- the 8-bit code ----------

  lemma LowXor8(x: bv8, y: bv8)
    ensures Low8(Xor8(x, y)) == (Low8(x) != Low8(y))
  {
    assert x & 1 == 0 || x & 1 == 1;
    assert y & 1 == 0 || y & 1 == 1;
    assert (x ^ y) & 1 == (x & 1) ^ (y & 1);
  }

  lemma DownXor8(x: bv8, y: bv8)
    ensures Down8(Xor8(x, y)) == Xor8(Down8(x), Down8(y))
  {
  }

  lemma Assoc8(a: bv8, m: bv8, d: bv8)
    ensures Xor8(Xor8(a, m), d) == Xor8(a, Xor8(m, d))
  {
  }

  lemma Comm8(a: bv8, m: bv8)
    ensures Xor8(a, m) == Xor8(m, a)
  {
  }

  lemma Same8(a: bv8, m: bv8)
    ensures Xor8(Xor8(a, m), m) == a
  {
  }

  lemma Swap8(a: bv8, m: bv8, d: bv8)
    ensures Xor8(Xor8(a, m), d) == Xor8(Xor8(a, d), m) == Xor8(a, Xor8(d, m))
  {
    hide Xor8;
    Assoc8(a, m, d);
    Comm8(m, d);
    Assoc8(a, d, m);
  }

  lemma Cancel8(a: bv8, m: bv8, d: bv8)
    ensures Xor8(Xor8(a, m), Xor8(d, m)) == Xor8(a, d)
  {
    hide Xor8;
    Assoc8(Xor8(a, m), d, m);
    Swap8(a, m, d);
    Same8(Xor8(a, d), m);
  }

  lemma StepIsShift8(c: bv8, b: bv8)
    ensures Xor8(Step8(c, Low8(b)), Down8(b)) == Shift8(Xor8(c, b))
  {
    hide Low8, Down8, Xor8;
    LowXor8(c, b);
    DownXor8(c, b);
    Swap8(Down8(c), 0x8C, Down8(b));
  }

  lemma Linear8(x: bv8, y: bv8)
    ensures Shift8(Xor8(x, y)) == Xor8(Shift8(x), Shift8(y))
  {
    hide Low8, Down8, Xor8;
    LowXor8(x, y);
    DownXor8(x, y);
    Swap8(Down8(x), 0x8C, Down8(y));
    Cancel8(Down8(x), 0x8C, Down8(y));
  }

  lemma BitsRunOut8(b: bv8)
    ensures Down8(Down8(Down8(Down8(Down8(Down8(Down8(Down8(b)))))))) == 0
  {
  }

  lemma NoBitsLeft8(c: bv8)
    ensures Xor8(c, 0) == c
  {
  }

  /** A byte can be combined with the register at once and shifted through afterwards. */
  lemma ByteAtOnce8(crc: bv8, b: bv8)
    ensures Fold(Step8, crc, ByteBits(b)) == Times(Shift8, Xor8(crc, b), 8)
  {
    forall c, x ensures Xor8(Step8(c, Low8(x)), Down8(x)) == Shift8(Xor8(c, x)) {
      StepIsShift8(c, x);
    }
    AtOnce(Step8, Low8, Down8, Shift8, Xor8, crc, b, 8);
    TimesEight(Down8, b);
    BitsRunOut8(b);
    NoBitsLeft8(Fold(Step8, crc, ByteBits(b)));
  }

  /** The lookup table of the sensor code. */
  function Table8(x: bv8): bv8 {
    var k := x & 15;
    match x >> 4
    case 0 => Pick(k, 0, 94, 188, 226, 97, 63, 221, 131, 194, 156, 126, 32, 163, 253, 31, 65)
    case 1 => Pick(k, 157, 195, 33, 127, 252, 162, 64, 30, 95, 1, 227, 189, 62, 96, 130, 220)
    case 2 => Pick(k, 35, 125, 159, 193, 66, 28, 254, 160, 225, 191, 93, 3, 128, 222, 60, 98)
    case 3 => Pick(k, 190, 224, 2, 92, 223, 129, 99, 61, 124, 34, 192, 158, 29, 67, 161, 255)
    case 4 => Pick(k, 70, 24, 250, 164, 39, 121, 155, 197, 132, 218, 56, 102, 229, 187, 89, 7)
    case 5 => Pick(k, 219, 133, 103, 57, 186, 228, 6, 88, 25, 71, 165, 251, 120, 38, 196, 154)
    case 6 => Pick(k, 101, 59, 217, 135, 4, 90, 184, 230, 167, 249, 27, 69, 198, 152, 122, 36)
    case 7 => Pick(k, 248, 166, 68, 26, 153, 199, 37, 123, 58, 100, 134, 216, 91, 5, 231, 185)
    case 8 => Pick(k, 140, 210, 48, 110, 237, 179, 81, 15, 78, 16, 242, 172, 47, 113, 147, 205)
    case 9 => Pick(k, 17, 79, 173, 243, 112, 46, 204, 146, 211, 141, 111, 49, 178, 236, 14, 80)
    case 10 => Pick(k, 175, 241, 19, 77, 206, 144, 114, 44, 109, 51, 209, 143, 12, 82, 176, 238)
    case 11 => Pick(k, 50, 108, 142, 208, 83, 13, 239, 177, 240, 174, 76, 18, 145, 207, 45, 115)
    case 12 => Pick(k, 202, 148, 118, 40, 171, 245, 23, 73, 8, 86, 180, 234, 105, 55, 213, 139)
    case 13 => Pick(k, 87, 9, 235, 181, 54, 104, 138, 212, 149, 203, 41, 119, 244, 170, 72, 22)
    case 14 => Pick(k, 233, 183, 85, 11, 136, 214, 52, 106, 43, 117, 151, 201, 74, 20, 246, 168)
    case _ => Pick(k, 116, 42, 200, 150, 21, 75, 169, 247, 182, 232, 10, 84, 215, 137, 107, 53)
  }

  /** A step with no incoming bit, free of branches: the mask is all ones exactly when the
      low bit is set. */
  function Masked8(x: bv8): bv8 {
    (x >> 1) ^ ((0 - (x & 1)) & 0x8C)
  }

  lemma MaskedIsShift8(x: bv8)
    ensures Masked8(x) == Shift8(x)
  {
    if Low8(x) {
      assert x & 1 == 1;
    } else {
      assert x & 1 == 0;
    }
  }

  lemma MaskedTimes8(x: bv8, n: nat)
    ensures Times(Masked8, x, n) == Times(Shift8, x, n)
  {
    forall y ensures Masked8(y) == Shift8(y) {
      MaskedIsShift8(y);
    }
    TimesSame(Masked8, Shift8, x, n);
  }

  /** What eight shifts leave of an index, which is what the table holds. */
  predicate Tabled8(x: bv8) {
    Table8(x) == Masked8(Masked8(Masked8(Masked8(Masked8(Masked8(Masked8(Masked8(x))))))))
  }

  lemma Table8Row0(x: bv8)
    requires x >> 4 == 0
    ensures Tabled8(x)
  {
  }

  lemma Table8Row1(x: bv8)
    requires x >> 4 == 1
    ensures Tabled8(x)
  {
  }

  lemma Table8Row2(x: bv8)
    requires x >> 4 == 2
    ensures Tabled8(x)
  {
  }

  lemma Table8Row3(x: bv8)
    requires x >> 4 == 3
    ensures Tabled8(x)
  {
  }

  lemma Table8Row4(x: bv8)
    requires x >> 4 == 4
    ensures Tabled8(x)
  {
  }

  lemma Table8Row5(x: bv8)
    requires x >> 4 == 5
    ensures Tabled8(x)
  {
  }

  lemma Table8Row6(x: bv8)
    requires x >> 4 == 6
    ensures Tabled8(x)
  {
  }

  lemma Table8Row7(x: bv8)
    requires x >> 4 == 7
    ensures Tabled8(x)
  {
  }

  lemma Table8Row8(x: bv8)
    requires x >> 4 == 8
    ensures Tabled8(x)
  {
  }

  lemma Table8Row9(x: bv8)
    requires x >> 4 == 9
    ensures Tabled8(x)
  {
  }

  lemma Table8Row10(x: bv8)
    requires x >> 4 == 10
    ensures Tabled8(x)
  {
  }

  lemma Table8Row11(x: bv8)
    requires x >> 4 == 11
    ensures Tabled8(x)
  {
  }

  lemma Table8Row12(x: bv8)
    requires x >> 4 == 12
    ensures Tabled8(x)
  {
  }

  lemma Table8Row13(x: bv8)
    requires x >> 4 == 13
    ensures Tabled8(x)
  {
  }

  lemma Table8Row14(x: bv8)
    requires x >> 4 == 14
    ensures Tabled8(x)
  {
  }

  lemma Table8Row15(x: bv8)
    requires x >> 4 == 15
    ensures Tabled8(x)
  {
  }

  lemma Table8IsMasked(x: bv8)
    ensures Table8(x) == Masked8(Masked8(Masked8(Masked8(Masked8(Masked8(Masked8(Masked8(x))))))))
  {
    hide Table8, Masked8;
    match x >> 4
    case 0 => Table8Row0(x); case 1 => Table8Row1(x); case 2 => Table8Row2(x);
    case 3 => Table8Row3(x); case 4 => Table8Row4(x); case 5 => Table8Row5(x);
    case 6 => Table8Row6(x); case 7 => Table8Row7(x); case 8 => Table8Row8(x);
    case 9 => Table8Row9(x); case 10 => Table8Row10(x); case 11 => Table8Row11(x);
    case 12 => Table8Row12(x); case 13 => Table8Row13(x); case 14 => Table8Row14(x);
    case _ => Table8Row15(x);
  }

  method Lookup8(x: bv8) returns (v: bv8)
    ensures v == Times(Shift8, x, 8)
  {
    Table8IsMasked(x);
    TimesEight(Masked8, x);
    MaskedTimes8(x, 8);
    v := Table8(x);
  }

  /** The table form. */
  method Crc8Fast(addr: array<bv8>, len: nat) returns (crc: bv8)
    requires len <= addr.Length
    ensures crc == Crc8(addr[..len])
  {
    crc := 0;
    for i := 0 to len
      invariant crc == Crc8(addr[..i])
    {
      ByteAtOnce8(crc, addr[i]);
      NextByte(Step8, 0, addr[..len], i);
      assert addr[..len][..i] == addr[..i] && addr[..len][..i + 1] == addr[..i + 1];
      crc := Lookup8(Xor8(crc, addr[i]));
    }
  }

  /** What is left of a byte after k shifts. */
  function Remaining(k: nat): bv8
    requires k <= 8
  {
    match k
    case 0 => 255 case 1 => 127 case 2 => 63 case 3 => 31 case 4 => 15 case 5 => 7 case 6 => 3 case 7 => 1 case _ => 0
  }

  lemma OneLess(b: bv8, k: nat)
    requires k < 8 && b <= Remaining(k)
    ensures Down8(b) <= Remaining(k + 1)
  {
  }

  /** One shift of the slow form. */
  method SlowBit(before: bv8, inbyte: bv8) returns (crc: bv8)
    ensures Xor8(crc, Down8(inbyte)) == Shift8(Xor8(before, inbyte))
  {
    MixIsBit(before, inbyte);
    StepIsShift8(before, inbyte);
    var mix := (before ^ inbyte) & 1;
    crc := before >> 1;
    if mix != 0 {
      crc := crc ^ 0x8C;
    }
  }

  lemma MixIsBit(crc: bv8, b: bv8)
    ensures (if (crc ^ b) & 1 != 0 then (crc >> 1) ^ 0x8C else crc >> 1) == Step8(crc, Low8(b))
  {
  }

  /** One byte of the slow form: eight shifts, the byte shifted along with the register. */
  method SlowByte(before: bv8, b: bv8) returns (crc: bv8)
    ensures crc == Times(Shift8, Xor8(before, b), 8)
  {
    crc := before;
    var inbyte := b;
    for k := 0 to 8
      invariant inbyte <= Remaining(k)
      invariant Times(Shift8, Xor8(crc, inbyte), 8 - k) == Times(Shift8, Xor8(before, b), 8)
    {
      OneLess(inbyte, k);
      crc := SlowBit(crc, inbyte);
      inbyte := Down8(inbyte);
    }
    NoBitsLeft8(crc);
  }

  /** The slow form. */
  method Crc8Slow(addr: array<bv8>, len: nat) returns (crc: bv8)
    requires len <= addr.Length
    ensures crc == Crc8(addr[..len])
  {
    crc := 0;
    for i := 0 to len
      invariant crc == Crc8(addr[..i])
    {
      ByteAtOnce8(crc, addr[i]);
      NextByte(Step8, 0, addr[..len], i);
      assert addr[..len][..i] == addr[..i] && addr[..len][..i + 1] == addr[..i + 1];
      crc := SlowByte(crc, addr[i]);
    }
  }

  /** The seeded 8-bit code of the scripting library, over the same table. */
  method DowCrc(buffer: seq<bv8>, seed: bv8) returns (value: bv8)
    ensures value == FoldBytes(Step8, seed, buffer)
  {
    value := seed;
    for i := 0 to |buffer|
      invariant value == FoldBytes(Step8, seed, buffer[..i])
    {
      ByteAtOnce8(value, buffer[i]);
      NextByte(Step8, seed, buffer, i);
      value := Lookup8(Xor8(value, buffer[i]));
    }
    assert buffer[..|buffer|] == buffer;
  }

  /** Feeding a message in two parts, the second seeded with the code of the first. */
  lemma DowSeeded(a: seq<bv8>, b: seq<bv8>, seed: bv8)
    ensures FoldBytes(Step8, seed, a + b) == FoldBytes(Step8, FoldBytes(Step8, seed, a), b)
  {
    FoldParts(Step8, seed, a, b);
  }

  // ---------- what the 8-bit code detects ----------

  lemma StepInjective(x: bv8, y: bv8, bit: bool)
    requires Step8(x, bit) == Step8(y, bit)
    ensures x == y
  {
  }

  lemma FoldInjective8(x: bv8, y: bv8, bits: seq<bool>)
    requires Fold(Step8, x, bits) == Fold(Step8, y, bits)
    ensures x == y
  {
    forall a, b, bit | Step8(a, bit) == Step8(b, bit) ensures a == b {
      StepInjective(a, b, bit);
    }
    FoldInjective(Step8, x, y, bits);
  }

  lemma ShiftInjective(x: bv8, y: bv8)
    requires Shift8(x) == Shift8(y)
    ensures x == y
  {
  }

  lemma ShiftsInjective(x: bv8, y: bv8)
    requires Times(Shift8, x, 8) == Times(Shift8, y, 8)
    ensures x == y
  {
    forall a, b | Shift8(a) == Shift8(b) ensures a == b {
      ShiftInjective(a, b);
    }
    TimesInjective(Shift8, x, y, 8);
  }

  lemma XorCancels(c: bv8, x: bv8, y: bv8)
    requires Xor8(c, x) == Xor8(c, y)
    ensures x == y
  {
  }

  lemma XorSelf(c: bv8)
    ensures Xor8(c, c) == 0 && Shift8(0) == 0
  {
  }

  lemma ZeroStays()
    ensures Times(Shift8, 0, 8) == 0
  {
    XorSelf(0);
    TimesEight(Shift8, 0);
  }

  /** A message followed by a byte has code zero exactly when the byte is its code. */
  lemma SelfChecking(bytes: seq<bv8>, b: bv8)
    ensures Crc8(bytes + [b]) == 0 <==> b == Crc8(bytes)
  {
    var c := Crc8(bytes);
    FoldParts(Step8, 0, bytes, [b]);
    OneByteStream(b);
    ByteAtOnce8(c, b);
    XorSelf(c);
    ZeroStays();
    if Crc8(bytes + [b]) == 0 {
      ShiftsInjective(Xor8(c, b), 0);
      XorCancels(c, b, c);
    }
  }

  /** A bit put below a word. */
  function PutBit(b: bool, w: bv8): bv8 {
    (w << 1) | (if b then 1 else 0)
  }

  lemma PutBitTaken(b: bool, w: bv8, k: nat)
    requires k < 8 && w <= Remaining(k + 1)
    ensures Low8(PutBit(b, w)) == b && Down8(PutBit(b, w)) == w && PutBit(b, w) <= Remaining(k)
  {
  }

  /** Up to eight bits, whatever they are, are the bits of a word. */
  lemma {:induction false} WordOfBits(w: seq<bool>) returns (x: bv8)
    requires |w| <= 8
    ensures x <= Remaining(8 - |w|) && BitsOf(Low8, Down8, x, |w|) == w
    decreases |w|
  {
    if w == [] {
      x := 0;
    } else {
      var y := WordOfBits(w[1..]);
      PutBitTaken(w[0], y, 8 - |w|);
      x := PutBit(w[0], y);
      assert w == [w[0]] + w[1..];
    }
  }

  /** Two different windows of eight bits take a register to different places. */
  lemma WindowDetected(c: bv8, w: seq<bool>, w': seq<bool>)
    requires |w| == |w'| == 8 && Fold(Step8, c, w) == Fold(Step8, c, w')
    ensures w == w'
  {
    var x := WordOfBits(w);
    var y := WordOfBits(w');
    ByteAtOnce8(c, x);
    ByteAtOnce8(c, y);
    ShiftsInjective(Xor8(c, x), Xor8(c, y));
    XorCancels(c, x, y);
  }

  lemma WindowsDiffer(a: seq<bool>, w: seq<bool>, w': seq<bool>, z: seq<bool>)
    requires |w| == |w'| == 8 && w != w'
    ensures Fold(Step8, 0, a + (w + z)) != Fold(Step8, 0, a + (w' + z))
  {
    FoldWindow(Step8, 0, a, w, z);
    FoldWindow(Step8, 0, a, w', z);
    var c := Fold(Step8, 0, a);
    var x, y := Fold(Step8, c, w), Fold(Step8, c, w');
    if Fold(Step8, x, z) == Fold(Step8, y, z) {
      FoldInjective8(x, y, z);
      WindowDetected(c, w, w');
    }
  }

  /** The streams s and s' agree in front of place k and from place j on. */
  predicate AlikeOutside(s: seq<bool>, s': seq<bool>, k: nat, j: nat) {
    k <= j <= |s| == |s'| && s[..k] == s'[..k] && s[j..] == s'[j..]
  }

  /** Any error confined to eight consecutive transmitted bits changes the code. */
  lemma BurstDetected(m: seq<bv8>, m': seq<bv8>, k: nat)
    requires m != m' && AlikeOutside(BitStream(m), BitStream(m'), k, k + 8)
    ensures Crc8(m) != Crc8(m')
  {
    SameLength(m, m');
    if BitStream(m) == BitStream(m') {
      StreamInjective(m, m');
    }
    var s, s' := BitStream(m), BitStream(m');
    var a, w, w', z := s[..k], s[k..k + 8], s'[k..k + 8], s[k + 8..];
    CutOut(s, k, 8);
    CutOut(s', k, 8);
    WindowsDiffer(a, w, w', z);
  }

  /** Different messages of the same length have different bits. */
  lemma {:induction false} StreamInjective(m: seq<bv8>, m': seq<bv8>)
    requires |m| == |m'| && BitStream(m) == BitStream(m')
    ensures m == m'
  {
    if m != [] {
      var s := BitStream(m);
      assert s[..8] == ByteBits(m[0]) == ByteBits(m'[0]);
      assert s[8..] == BitStream(m[1..]) == BitStream(m'[1..]);
      StreamInjective(m[1..], m'[1..]);
      SameByte(m[0], m'[0]);
      assert m == [m[0]] + m[1..] && m' == [m'[0]] + m'[1..];
    }
  }

  lemma LowAndDown(x: bv8, y: bv8)
    requires Low8(x) == Low8(y) && Down8(x) == Down8(y)
    ensures x == y
  {
  }

  lemma SameByte(x: bv8, y: bv8)
    requires ByteBits(x) == ByteBits(y)
    ensures x == y
  {
    hide Low8, Down8, BitsOf, Times;
    forall a, b | Low8(a) == Low8(b) && Down8(a) == Down8(b) ensures a == b {
      LowAndDown(a, b);
    }
    TimesEight(Down8, x);
    TimesEight(Down8, y);
    BitsRunOut8(x);
    BitsRunOut8(y);
    BitsOfInjective(Low8, Down8, x, y, 8);
  }

  lemma SameLength(m: seq<bv8>, m': seq<bv8>)
    requires |BitStream(m)| == |BitStream(m')|
    ensures |m| == |m'|
  {
  }

  /** In particular a single damaged byte is always noticed. */
  lemma DamagedByteDetected(m: seq<bv8>, i: nat, b: bv8)
    requires i < |m| && m[i] != b
    ensures Crc8(m[i := b]) != Crc8(m)
  {
    var m' := m[i := b];
    var a, z := m[..i], m[i + 1..];
    assert m == a + ([m[i]] + z) && m' == a + ([b] + z);
    BitStreamConcat(a, [m[i]] + z);
    BitStreamConcat(a, [b] + z);
    BitStreamConcat([m[i]], z);
    BitStreamConcat([b], z);
    OneByteStream(m[i]);
    OneByteStream(b);
    if BitStream(m) == BitStream(m') {
      StreamInjective(m, m');
    }
    DamagedWindow(m, m', 8 * i, BitStream(a), ByteBits(m[i]), ByteBits(b), BitStream(z));
  }

  lemma DamagedWindow(m: seq<bv8>, m': seq<bv8>, k: nat, a: seq<bool>, w: seq<bool>, w': seq<bool>, z: seq<bool>)
    requires BitStream(m) == a + (w + z) && BitStream(m') == a + (w' + z) && BitStream(m) != BitStream(m')
    requires k == |a| && |w| == |w'| == 8
    ensures Crc8(m') != Crc8(m)
  {
    var s, s' := BitStream(m), BitStream(m');
    assert s[..k] == a == s'[..k] && s[k + 8..] == z == s'[k + 8..];
    BurstDetected(m, m', k);
  }

  /** A bit on top of the register is the polynomial after eight shifts. */
  lemma TopBit(x: bv8)
    ensures Times(Shift8, Xor8(x, 0x80), 8) == Xor8(Times(Shift8, x, 8), 0x8C)
  {
    forall u, v ensures Shift8(Xor8(u, v)) == Xor8(Shift8(u), Shift8(v)) {
      Linear8(u, v);
    }
    TimesLinear(Shift8, Xor8, x, 0x80, 8);
    TimesEight(Shift8, 0x80);
    TopBitDown();
  }

  lemma TopBitDown()
    ensures Shift8(Shift8(Shift8(Shift8(Shift8(Shift8(Shift8(Shift8(0x80)))))))) == 0x8C
  {
  }

  lemma TwoBytes(c: bv8, x: bv8, y: bv8)
    ensures FoldBytes(Step8, c, [x, y]) == Times(Shift8, Xor8(Times(Shift8, Xor8(c, x), 8), y), 8)
  {
    assert [x, y] == [x] + [y];
    FoldParts(Step8, c, [x], [y]);
    OneByteStream(x);
    OneByteStream(y);
    ByteAtOnce8(c, x);
    ByteAtOnce8(Times(Shift8, Xor8(c, x), 8), y);
  }

  lemma SameAfterNine(c: bv8, x: bv8, y: bv8)
    ensures FoldBytes(Step8, c, [Xor8(x, 0x80), Xor8(y, 0x8C)]) == FoldBytes(Step8, c, [x, y])
  {
    TwoBytes(c, x, y);
    TwoBytes(c, Xor8(x, 0x80), Xor8(y, 0x8C));
    Swap8(c, 0x80, x);
    TopBit(Xor8(c, x));
    Cancel8(Times(Shift8, Xor8(c, x), 8), 0x8C, y);
  }

  /** Nine bits are too many. In any message, at any place, inverting the last bit sent of
      one byte and the three bits of the polynomial in the next gives another message of
      the same length with the same code. */
  lemma NineBitsUndetected(a: seq<bv8>, x: bv8, y: bv8, z: seq<bv8>)
    ensures var m, m' := a + ([x, y] + z), a + ([Xor8(x, 0x80), Xor8(y, 0x8C)] + z);
      && m != m' && Crc8(m) == Crc8(m')
      && AlikeOutside(BitStream(m), BitStream(m'), 8 * |a| + 7, 8 * |a| + 16)
  {
    var w, w' := [x, y], [Xor8(x, 0x80), Xor8(y, 0x8C)];
    Apart(x);
    assert (a + (w + z))[|a|] != (a + (w' + z))[|a|];
    FoldParts(Step8, 0, a, w + z);
    FoldParts(Step8, 0, a, w' + z);
    FoldParts(Step8, Crc8(a), w, z);
    FoldParts(Step8, Crc8(a), w', z);
    SameAfterNine(Crc8(a), x, y);
    SevenBitsAlike(x);
    NineBitWindow(a, w, w', z);
  }

  /** The byte with one bit set; moving it on from the last bit leaves none. */
  function Mask(k: nat): bv8
    requires k <= 8
  {
    match k
    case 0 => 1 case 1 => 2 case 2 => 4 case 3 => 8 case 4 => 16 case 5 => 32 case 6 => 64 case 7 => 128 case _ => 0
  }

  lemma Apart(x: bv8)
    ensures Xor8(x, 0x80) != x && x ^ Xor8(x, 0x80) == Mask(7)
  {
  }

  lemma ApartBelow(x: bv8, y: bv8, n: nat)
    requires 0 < n < 8 && x ^ y == Mask(n)
    ensures Low8(x) == Low8(y) && Down8(x) ^ Down8(y) == Mask(n - 1)
  {
    LowXor8(x, y);
    DownXor8(x, y);
  }

  /** Words that differ in one bit have the bits below it alike. */
  lemma {:induction false} BitsBelow(x: bv8, y: bv8, n: nat)
    requires n < 8 && x ^ y == Mask(n)
    ensures BitsOf(Low8, Down8, x, n) == BitsOf(Low8, Down8, y, n)
    decreases n
  {
    if n > 0 {
      ApartBelow(x, y, n);
      BitsBelow(Down8(x), Down8(y), n - 1);
    }
  }

  lemma SevenBitsAlike(x: bv8)
    ensures ByteBits(Xor8(x, 0x80))[..7] == ByteBits(x)[..7]
  {
    hide Mask, Xor8, BitsOf;
    var y := Xor8(x, 0x80);
    Apart(x);
    BitsBelow(x, y, 7);
    BitsOfPrefix(Low8, Down8, x, 8, 7);
    BitsOfPrefix(Low8, Down8, y, 8, 7);
  }

  lemma NineBitWindow(a: seq<bv8>, w: seq<bv8>, w': seq<bv8>, z: seq<bv8>)
    requires |w| == |w'| == 2 && ByteBits(w[0])[..7] == ByteBits(w'[0])[..7]
    ensures AlikeOutside(BitStream(a + (w + z)), BitStream(a + (w' + z)), 8 * |a| + 7, 8 * |a| + 16)
  {
    hide *;
    StreamParts(a, w, z);
    StreamParts(a, w', z);
    StreamOfTwo(w);
    StreamOfTwo(w');
    SameOutside(BitStream(a), BitStream(w), BitStream(w'), BitStream(z), 7);
  }

  lemma StreamParts(a: seq<bv8>, w: seq<bv8>, z: seq<bv8>)
    ensures BitStream(a + (w + z)) == BitStream(a) + (BitStream(w) + BitStream(z))
  {
    BitStreamConcat(a, w + z);
    BitStreamConcat(w, z);
  }

  lemma StreamOfTwo(w: seq<bv8>)
    requires |w| == 2
    ensures BitStream(w)[..7] == ByteBits(w[0])[..7]
  {
    hide ByteBits, BitStream;
    assert w == [w[0]] + [w[1]];
    BitStreamConcat([w[0]], [w[1]]);
    OneByteStream(w[0]);
  }

  lemma SameOutside(b: seq<bool>, t: seq<bool>, t': seq<bool>, u: seq<bool>, n: nat)
    requires |t| == |t'| && n <= |t| && t[..n] == t'[..n]
    ensures AlikeOutside(b + (t + u), b + (t' + u), |b| + n, |b| + |t|)
  {
    var s, s' := b + (t + u), b + (t' + u);
    assert s[..|b| + n] == b + t[..n] && s'[..|b| + n] == b + t'[..n];
    assert s[|b| + |t|..] == u && s'[|b| + |t|..] == u;
  }

  // ---------- a published value ----------

  /** The digits one to nine as text, whose codes are published as check values. */
  const DIGITS: seq<bv8> := [0x31, 0x32, 0x33, 0x34, 0x35, 0x36, 0x37, 0x38, 0x39]

  lemma ByteInMasks8(crc: bv8, b: bv8)
    ensures Fold(Step8, crc, ByteBits(b))
         == Masked8(Masked8(Masked8(Masked8(Masked8(Masked8(Masked8(Masked8(Xor8(crc, b)))))))))
  {
    hide Step8, Shift8, Masked8, Xor8;
    ByteAtOnce8(crc, b);
    MaskedTimes8(Xor8(crc, b), 8);
    TimesEight(Masked8, Xor8(crc, b));
  }

  lemma Digit8(i: nat, crc: bv8, next: bv8)
    requires i < 9 && FoldBytes(Step8, 0, DIGITS[..i]) == crc
    requires next
          == Masked8(Masked8(Masked8(Masked8(Masked8(Masked8(Masked8(Masked8(Xor8(crc, DIGITS[i])))))))))
    ensures FoldBytes(Step8, 0, DIGITS[..i + 1]) == next
  {
    hide Masked8, Xor8, FoldBytes, Fold;
    NextByte(Step8, 0, DIGITS, i);
    ByteInMasks8(crc, DIGITS[i]);
  }

  /** The code of the nine digits. */
  lemma CheckValue8()
    ensures Crc8(DIGITS) == 0xa1
  {
    hide FoldBytes;
    FiveDigits8();
    Digit8(5, 0xab, 0xec);
    Digit8(6, 0xec, 0x77);
    Digit8(7, 0x77, 0x07);
    Digit8(8, 0x07, 0xa1);
    assert DIGITS[..9] == DIGITS;
  }

  lemma FiveDigits8()
    ensures FoldBytes(Step8, 0, DIGITS[..5]) == 0xab
  {
    hide FoldBytes;
    NoDigits8();
    Digit8(0, 0x00, 0xe0);
    Digit8(1, 0xe0, 0xeb);
    Digit8(2, 0xeb, 0x95);
    Digit8(3, 0x95, 0xf1);
    Digit8(4, 0xf1, 0xab);
  }

  lemma NoDigits8()
    ensures FoldBytes(Step8, 0, DIGITS[..0]) == 0x00
  {
  }
}
