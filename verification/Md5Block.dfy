/** The MD5 compression function (RFC 1321, section 3.4): the program's unrolled steps against
    the standard's table of steps. */
module Md5Block {
  /** The four registers. */
  datatype Regs = Regs(a: bv32, b: bv32, c: bv32, d: bv32)

  function F(x: bv32, y: bv32, z: bv32): bv32 {
    (x & y) | (!x & z)
  }

  function G(x: bv32, y: bv32, z: bv32): bv32 {
    (x & z) | (y & !z)
  }

  function H(x: bv32, y: bv32, z: bv32): bv32 {
    x ^ y ^ z
  }

  function I(x: bv32, y: bv32, z: bv32): bv32 {
    y ^ (x | !z)
  }

  function RotateLeft(x: bv32, n: bv32): bv32
    requires n < 32
  {
    (x << n) | (x >> (32 - n))
  }

  // ---------- what the four functions and the rotation do to each bit ----------

  /** Where x is one F is y, and where x is zero it is z. */
  lemma SelectsByX(x: bv32, y: bv32, z: bv32, m: bv32)
    ensures x & m == m ==> F(x, y, z) & m == y & m
    ensures x & m == 0 ==> F(x, y, z) & m == z & m
  {
  }

  /** Where z is one G is x, and where z is zero it is y. */
  lemma SelectsByZ(x: bv32, y: bv32, z: bv32, m: bv32)
    ensures z & m == m ==> G(x, y, z) & m == x & m
    ensures z & m == 0 ==> G(x, y, z) & m == y & m
  {
  }

  /** Where y and z agree H is x, and where they differ it is the opposite. */
  lemma TakesParity(x: bv32, y: bv32, z: bv32, m: bv32)
    ensures y & m == z & m ==> H(x, y, z) & m == x & m
    ensures y & m == !z & m ==> H(x, y, z) & m == !x & m
  {
  }

  /** Where x is zero and z is one I is y, and everywhere else it is the opposite. */
  lemma TurnsAround(x: bv32, y: bv32, z: bv32, m: bv32)
    ensures x & m == 0 && z & m == m ==> I(x, y, z) & m == y & m
    ensures x & m == m || z & m == 0 ==> I(x, y, z) & m == !y & m
  {
  }

  /** The lower bits move up n places, and the n upper ones come round below them. */
  lemma MovesUp(x: bv32, n: bv32)
    requires n < 32
    ensures RotateLeft(x, n) >> n == (x << n) >> n
  {
  }

  lemma ComesRound(x: bv32, n: bv32)
    requires n < 32
    ensures RotateLeft(x, n) << (32 - n) == (x >> (32 - n)) << (32 - n)
  {
  }

  /** Those two parts are the word. */
  lemma TwoParts(x: bv32, n: bv32)
    requires n < 32
    ensures ((x >> (32 - n)) << (32 - n)) | ((x << n) >> n) == x
  {
  }

  // ---------- the steps ----------

  /** The sine table: entry i is the integer part of 4294967296 times abs(sin(i + 1)). */
  function Sine(i: nat): bv32
    requires i < 64
  {
    match i
    case 0 => 0xd76aa478 case 1 => 0xe8c7b756 case 2 => 0x242070db case 3 => 0xc1bdceee
    case 4 => 0xf57c0faf case 5 => 0x4787c62a case 6 => 0xa8304613 case 7 => 0xfd469501
    case 8 => 0x698098d8 case 9 => 0x8b44f7af case 10 => 0xffff5bb1 case 11 => 0x895cd7be
    case 12 => 0x6b901122 case 13 => 0xfd987193 case 14 => 0xa679438e case 15 => 0x49b40821
    case 16 => 0xf61e2562 case 17 => 0xc040b340 case 18 => 0x265e5a51 case 19 => 0xe9b6c7aa
    case 20 => 0xd62f105d case 21 => 0x02441453 case 22 => 0xd8a1e681 case 23 => 0xe7d3fbc8
    case 24 => 0x21e1cde6 case 25 => 0xc33707d6 case 26 => 0xf4d50d87 case 27 => 0x455a14ed
    case 28 => 0xa9e3e905 case 29 => 0xfcefa3f8 case 30 => 0x676f02d9 case 31 => 0x8d2a4c8a
    case 32 => 0xfffa3942 case 33 => 0x8771f681 case 34 => 0x6d9d6122 case 35 => 0xfde5380c
    case 36 => 0xa4beea44 case 37 => 0x4bdecfa9 case 38 => 0xf6bb4b60 case 39 => 0xbebfbc70
    case 40 => 0x289b7ec6 case 41 => 0xeaa127fa case 42 => 0xd4ef3085 case 43 => 0x04881d05
    case 44 => 0xd9d4d039 case 45 => 0xe6db99e5 case 46 => 0x1fa27cf8 case 47 => 0xc4ac5665
    case 48 => 0xf4292244 case 49 => 0x432aff97 case 50 => 0xab9423a7 case 51 => 0xfc93a039
    case 52 => 0x655b59c3 case 53 => 0x8f0ccc92 case 54 => 0xffeff47d case 55 => 0x85845dd1
    case 56 => 0x6fa87e4f case 57 => 0xfe2ce6e0 case 58 => 0xa3014314 case 59 => 0x4e0811a1
    case 60 => 0xf7537e82 case 61 => 0xbd3af235 case 62 => 0x2ad7d2bb case 63 => 0xeb86d391
  }

  /** The word of the block that step i uses. */
  function WordIndex(i: nat): (k: nat)
    ensures k < 16
  {
    if i < 16 then i else if i < 32 then (5 * i + 1) % 16 else if i < 48 then (3 * i + 5) % 16 else 7 * i % 16
  }

  function ShiftAmount(i: nat): (s: bv32)
    ensures s < 32
  {
    if i < 16 then (if i % 4 == 0 then 7 else if i % 4 == 1 then 12 else if i % 4 == 2 then 17 else 22)
    else if i < 32 then (if i % 4 == 0 then 5 else if i % 4 == 1 then 9 else if i % 4 == 2 then 14 else 20)
    else if i < 48 then (if i % 4 == 0 then 4 else if i % 4 == 1 then 11 else if i % 4 == 2 then 16 else 23)
    else if i % 4 == 0 then 6 else if i % 4 == 1 then 10 else if i % 4 == 2 then 15 else 21
  }

  /** The auxiliary function of a step's round. */
  function Auxiliary(i: nat, x: bv32, y: bv32, z: bv32): bv32 {
    if i < 16 then F(x, y, z) else if i < 32 then G(x, y, z) else if i < 48 then H(x, y, z) else I(x, y, z)
  }

  /** b plus the sum rotated. */
  function Turn(a: bv32, aux: bv32, x: bv32, s: bv32, t: bv32, b: bv32): bv32
    requires s < 32
  {
    RotateLeft(a + aux + x + t, s) + b
  }

  /** Step i; the registers change places after it. */
  function Step(X: seq<bv32>, i: nat, r: Regs): Regs
    requires |X| == 16 && i < 64
  {
    Regs(r.d, Turn(r.a, Auxiliary(i, r.b, r.c, r.d), X[WordIndex(i)], ShiftAmount(i), Sine(i), r.b), r.b, r.c)
  }

  function Steps(X: seq<bv32>, r: Regs, n: nat): Regs
    requires |X| == 16 && n <= 64
  {
    if n == 0 then r else Step(X, n - 1, Steps(X, r, n - 1))
  }

  /** Four bytes as a little-endian word. */
  function Word(b0: bv8, b1: bv8, b2: bv8, b3: bv8): bv32 {
    (b0 as bv32) + ((b1 as bv32) << 8) + ((b2 as bv32) << 16) + ((b3 as bv32) << 24)
  }

  function WordAt(b: seq<bv8>, at: nat): bv32
    requires at + 4 <= |b|
  {
    Word(b[at], b[at + 1], b[at + 2], b[at + 3])
  }

  function Words(b: seq<bv8>): (X: seq<bv32>)
    requires |b| == 64
    ensures |X| == 16
  {
    seq(16, i requires 0 <= i < 16 && |b| == 64 => WordAt(b, 4 * i))
  }

  function AddRegs(x: Regs, y: Regs): Regs {
    Regs(x.a + y.a, x.b + y.b, x.c + y.c, x.d + y.d)
  }

  /** The registers after a block. */
  function Compress(h: Regs, block: seq<bv8>): Regs
    requires |block| == 64
  {
    AddRegs(h, Steps(Words(block), h, 64))
  }

  /** Four steps bring the registers back to their places. */
  lemma FourSteps(X: seq<bv32>, r: Regs, i: nat, x: Regs, a: bv32, d: bv32, c: bv32, b: bv32)
    requires |X| == 16 && i + 4 <= 64 && Steps(X, r, i) == x
    requires a == Turn(x.a, Auxiliary(i, x.b, x.c, x.d), X[WordIndex(i)], ShiftAmount(i), Sine(i), x.b)
    requires d == Turn(x.d, Auxiliary(i + 1, a, x.b, x.c), X[WordIndex(i + 1)], ShiftAmount(i + 1), Sine(i + 1), a)
    requires c == Turn(x.c, Auxiliary(i + 2, d, a, x.b), X[WordIndex(i + 2)], ShiftAmount(i + 2), Sine(i + 2), d)
    requires b == Turn(x.b, Auxiliary(i + 3, c, d, a), X[WordIndex(i + 3)], ShiftAmount(i + 3), Sine(i + 3), c)
    ensures Steps(X, r, i + 4) == Regs(a, b, c, d)
  {
    hide Turn, Auxiliary, WordIndex, ShiftAmount, Sine;
    assert Steps(X, r, i + 1) == Step(X, i, Steps(X, r, i));
    assert Steps(X, r, i + 2) == Step(X, i + 1, Steps(X, r, i + 1));
    assert Steps(X, r, i + 3) == Step(X, i + 2, Steps(X, r, i + 2));
    assert Steps(X, r, i + 4) == Step(X, i + 3, Steps(X, r, i + 3));
  }

  /** Round 1: sixteen steps, four at a time. */
  method Round1(X: seq<bv32>, a0: bv32, b0: bv32, c0: bv32, d0: bv32, ghost r: Regs)
    returns (a: bv32, b: bv32, c: bv32, d: bv32)
    requires |X| == 16 && Steps(X, r, 0) == Regs(a0, b0, c0, d0)
    ensures Steps(X, r, 16) == Regs(a, b, c, d)
  {
    a, b, c, d := a0, b0, c0, d0;
    a, b, c, d := FourF0(X, a, b, c, d, r);
    a, b, c, d := FourF4(X, a, b, c, d, r);
    a, b, c, d := FourF8(X, a, b, c, d, r);
    a, b, c, d := FourF12(X, a, b, c, d, r);
  }

  lemma Entries0()
    ensures WordIndex(0) == 0 && ShiftAmount(0) == 7 && Sine(0) == 0xffffffff ^ 0x28955b87
    ensures WordIndex(1) == 1 && ShiftAmount(1) == 12 && Sine(1) == 0xffffffff ^ 0x173848a9
    ensures WordIndex(2) == 2 && ShiftAmount(2) == 17 && Sine(2) == 0x242070db
    ensures WordIndex(3) == 3 && ShiftAmount(3) == 22 && Sine(3) == 0xffffffff ^ 0x3e423111
  {
  }

  method FourF0(X: seq<bv32>, a0: bv32, b0: bv32, c0: bv32, d0: bv32, ghost r: Regs)
    returns (a: bv32, b: bv32, c: bv32, d: bv32)
    requires |X| == 16 && Steps(X, r, 0) == Regs(a0, b0, c0, d0)
    ensures Steps(X, r, 4) == Regs(a, b, c, d)
  {
    hide Turn, F, G, H, I, Steps, Sine, WordIndex, ShiftAmount;
    Entries0();
    a, b, c, d := a0, b0, c0, d0;
    a := Turn(a, F(b, c, d), X[0], 7, 0xffffffff ^ 0x28955b87, b);
    d := Turn(d, F(a, b, c), X[1], 12, 0xffffffff ^ 0x173848a9, a);
    c := Turn(c, F(d, a, b), X[2], 17, 0x242070db, d);
    b := Turn(b, F(c, d, a), X[3], 22, 0xffffffff ^ 0x3e423111, c);
    FourSteps(X, r, 0, Regs(a0, b0, c0, d0), a, d, c, b);
  }

  lemma Entries4()
    ensures WordIndex(4) == 4 && ShiftAmount(4) == 7 && Sine(4) == 0xffffffff ^ 0x0a83f050
    ensures WordIndex(5) == 5 && ShiftAmount(5) == 12 && Sine(5) == 0x4787c62a
    ensures WordIndex(6) == 6 && ShiftAmount(6) == 17 && Sine(6) == 0xffffffff ^ 0x57cfb9ec
    ensures WordIndex(7) == 7 && ShiftAmount(7) == 22 && Sine(7) == 0xffffffff ^ 0x02b96afe
  {
  }

  method FourF4(X: seq<bv32>, a0: bv32, b0: bv32, c0: bv32, d0: bv32, ghost r: Regs)
    returns (a: bv32, b: bv32, c: bv32, d: bv32)
    requires |X| == 16 && Steps(X, r, 4) == Regs(a0, b0, c0, d0)
    ensures Steps(X, r, 8) == Regs(a, b, c, d)
  {
    hide Turn, F, G, H, I, Steps, Sine, WordIndex, ShiftAmount;
    Entries4();
    a, b, c, d := a0, b0, c0, d0;
    a := Turn(a, F(b, c, d), X[4], 7, 0xffffffff ^ 0x0a83f050, b);
    d := Turn(d, F(a, b, c), X[5], 12, 0x4787c62a, a);
    c := Turn(c, F(d, a, b), X[6], 17, 0xffffffff ^ 0x57cfb9ec, d);
    b := Turn(b, F(c, d, a), X[7], 22, 0xffffffff ^ 0x02b96afe, c);
    FourSteps(X, r, 4, Regs(a0, b0, c0, d0), a, d, c, b);
  }

  lemma Entries8()
    ensures WordIndex(8) == 8 && ShiftAmount(8) == 7 && Sine(8) == 0x698098d8
    ensures WordIndex(9) == 9 && ShiftAmount(9) == 12 && Sine(9) == 0xffffffff ^ 0x74bb0850
    ensures WordIndex(10) == 10 && ShiftAmount(10) == 17 && Sine(10) == 0xffffffff ^ 0x0000a44e
    ensures WordIndex(11) == 11 && ShiftAmount(11) == 22 && Sine(11) == 0xffffffff ^ 0x76a32841
  {
  }

  method FourF8(X: seq<bv32>, a0: bv32, b0: bv32, c0: bv32, d0: bv32, ghost r: Regs)
    returns (a: bv32, b: bv32, c: bv32, d: bv32)
    requires |X| == 16 && Steps(X, r, 8) == Regs(a0, b0, c0, d0)
    ensures Steps(X, r, 12) == Regs(a, b, c, d)
  {
    hide Turn, F, G, H, I, Steps, Sine, WordIndex, ShiftAmount;
    Entries8();
    a, b, c, d := a0, b0, c0, d0;
    a := Turn(a, F(b, c, d), X[8], 7, 0x698098d8, b);
    d := Turn(d, F(a, b, c), X[9], 12, 0xffffffff ^ 0x74bb0850, a);
    c := Turn(c, F(d, a, b), X[10], 17, 0xffffffff ^ 0x0000a44e, d);
    b := Turn(b, F(c, d, a), X[11], 22, 0xffffffff ^ 0x76a32841, c);
    FourSteps(X, r, 8, Regs(a0, b0, c0, d0), a, d, c, b);
  }

  lemma Entries12()
    ensures WordIndex(12) == 12 && ShiftAmount(12) == 7 && Sine(12) == 0x6b901122
    ensures WordIndex(13) == 13 && ShiftAmount(13) == 12 && Sine(13) == 0xffffffff ^ 0x02678e6c
    ensures WordIndex(14) == 14 && ShiftAmount(14) == 17 && Sine(14) == 0xffffffff ^ 0x5986bc71
    ensures WordIndex(15) == 15 && ShiftAmount(15) == 22 && Sine(15) == 0x49b40821
  {
  }

  method FourF12(X: seq<bv32>, a0: bv32, b0: bv32, c0: bv32, d0: bv32, ghost r: Regs)
    returns (a: bv32, b: bv32, c: bv32, d: bv32)
    requires |X| == 16 && Steps(X, r, 12) == Regs(a0, b0, c0, d0)
    ensures Steps(X, r, 16) == Regs(a, b, c, d)
  {
    hide Turn, F, G, H, I, Steps, Sine, WordIndex, ShiftAmount;
    Entries12();
    a, b, c, d := a0, b0, c0, d0;
    a := Turn(a, F(b, c, d), X[12], 7, 0x6b901122, b);
    d := Turn(d, F(a, b, c), X[13], 12, 0xffffffff ^ 0x02678e6c, a);
    c := Turn(c, F(d, a, b), X[14], 17, 0xffffffff ^ 0x5986bc71, d);
    b := Turn(b, F(c, d, a), X[15], 22, 0x49b40821, c);
    FourSteps(X, r, 12, Regs(a0, b0, c0, d0), a, d, c, b);
  }

  /** Round 2: sixteen steps, four at a time. */
  method Round2(X: seq<bv32>, a0: bv32, b0: bv32, c0: bv32, d0: bv32, ghost r: Regs)
    returns (a: bv32, b: bv32, c: bv32, d: bv32)
    requires |X| == 16 && Steps(X, r, 16) == Regs(a0, b0, c0, d0)
    ensures Steps(X, r, 32) == Regs(a, b, c, d)
  {
    a, b, c, d := a0, b0, c0, d0;
    a, b, c, d := FourG16(X, a, b, c, d, r);
    a, b, c, d := FourG20(X, a, b, c, d, r);
    a, b, c, d := FourG24(X, a, b, c, d, r);
    a, b, c, d := FourG28(X, a, b, c, d, r);
  }

  lemma Entries16()
    ensures WordIndex(16) == 1 && ShiftAmount(16) == 5 && Sine(16) == 0xffffffff ^ 0x09e1da9d
    ensures WordIndex(17) == 6 && ShiftAmount(17) == 9 && Sine(17) == 0xffffffff ^ 0x3fbf4cbf
    ensures WordIndex(18) == 11 && ShiftAmount(18) == 14 && Sine(18) == 0x265e5a51
    ensures WordIndex(19) == 0 && ShiftAmount(19) == 20 && Sine(19) == 0xffffffff ^ 0x16493855
  {
  }

  method FourG16(X: seq<bv32>, a0: bv32, b0: bv32, c0: bv32, d0: bv32, ghost r: Regs)
    returns (a: bv32, b: bv32, c: bv32, d: bv32)
    requires |X| == 16 && Steps(X, r, 16) == Regs(a0, b0, c0, d0)
    ensures Steps(X, r, 20) == Regs(a, b, c, d)
  {
    hide Turn, F, G, H, I, Steps, Sine, WordIndex, ShiftAmount;
    Entries16();
    a, b, c, d := a0, b0, c0, d0;
    a := Turn(a, G(b, c, d), X[1], 5, 0xffffffff ^ 0x09e1da9d, b);
    d := Turn(d, G(a, b, c), X[6], 9, 0xffffffff ^ 0x3fbf4cbf, a);
    c := Turn(c, G(d, a, b), X[11], 14, 0x265e5a51, d);
    b := Turn(b, G(c, d, a), X[0], 20, 0xffffffff ^ 0x16493855, c);
    FourSteps(X, r, 16, Regs(a0, b0, c0, d0), a, d, c, b);
  }

  lemma Entries20()
    ensures WordIndex(20) == 5 && ShiftAmount(20) == 5 && Sine(20) == 0xffffffff ^ 0x29d0efa2
    ensures WordIndex(21) == 10 && ShiftAmount(21) == 9 && Sine(21) == 0x02441453
    ensures WordIndex(22) == 15 && ShiftAmount(22) == 14 && Sine(22) == 0xffffffff ^ 0x275e197e
    ensures WordIndex(23) == 4 && ShiftAmount(23) == 20 && Sine(23) == 0xffffffff ^ 0x182c0437
  {
  }

  method FourG20(X: seq<bv32>, a0: bv32, b0: bv32, c0: bv32, d0: bv32, ghost r: Regs)
    returns (a: bv32, b: bv32, c: bv32, d: bv32)
    requires |X| == 16 && Steps(X, r, 20) == Regs(a0, b0, c0, d0)
    ensures Steps(X, r, 24) == Regs(a, b, c, d)
  {
    hide Turn, F, G, H, I, Steps, Sine, WordIndex, ShiftAmount;
    Entries20();
    a, b, c, d := a0, b0, c0, d0;
    a := Turn(a, G(b, c, d), X[5], 5, 0xffffffff ^ 0x29d0efa2, b);
    d := Turn(d, G(a, b, c), X[10], 9, 0x02441453, a);
    c := Turn(c, G(d, a, b), X[15], 14, 0xffffffff ^ 0x275e197e, d);
    b := Turn(b, G(c, d, a), X[4], 20, 0xffffffff ^ 0x182c0437, c);
    FourSteps(X, r, 20, Regs(a0, b0, c0, d0), a, d, c, b);
  }

  lemma Entries24()
    ensures WordIndex(24) == 9 && ShiftAmount(24) == 5 && Sine(24) == 0x21e1cde6
    ensures WordIndex(25) == 14 && ShiftAmount(25) == 9 && Sine(25) == 0xffffffff ^ 0x3cc8f829
    ensures WordIndex(26) == 3 && ShiftAmount(26) == 14 && Sine(26) == 0xffffffff ^ 0x0b2af278
    ensures WordIndex(27) == 8 && ShiftAmount(27) == 20 && Sine(27) == 0x455a14ed
  {
  }

  method FourG24(X: seq<bv32>, a0: bv32, b0: bv32, c0: bv32, d0: bv32, ghost r: Regs)
    returns (a: bv32, b: bv32, c: bv32, d: bv32)
    requires |X| == 16 && Steps(X, r, 24) == Regs(a0, b0, c0, d0)
    ensures Steps(X, r, 28) == Regs(a, b, c, d)
  {
    hide Turn, F, G, H, I, Steps, Sine, WordIndex, ShiftAmount;
    Entries24();
    a, b, c, d := a0, b0, c0, d0;
    a := Turn(a, G(b, c, d), X[9], 5, 0x21e1cde6, b);
    d := Turn(d, G(a, b, c), X[14], 9, 0xffffffff ^ 0x3cc8f829, a);
    c := Turn(c, G(d, a, b), X[3], 14, 0xffffffff ^ 0x0b2af278, d);
    b := Turn(b, G(c, d, a), X[8], 20, 0x455a14ed, c);
    FourSteps(X, r, 24, Regs(a0, b0, c0, d0), a, d, c, b);
  }

  lemma Entries28()
    ensures WordIndex(28) == 13 && ShiftAmount(28) == 5 && Sine(28) == 0xffffffff ^ 0x561c16fa
    ensures WordIndex(29) == 2 && ShiftAmount(29) == 9 && Sine(29) == 0xffffffff ^ 0x03105c07
    ensures WordIndex(30) == 7 && ShiftAmount(30) == 14 && Sine(30) == 0x676f02d9
    ensures WordIndex(31) == 12 && ShiftAmount(31) == 20 && Sine(31) == 0xffffffff ^ 0x72d5b375
  {
  }

  method FourG28(X: seq<bv32>, a0: bv32, b0: bv32, c0: bv32, d0: bv32, ghost r: Regs)
    returns (a: bv32, b: bv32, c: bv32, d: bv32)
    requires |X| == 16 && Steps(X, r, 28) == Regs(a0, b0, c0, d0)
    ensures Steps(X, r, 32) == Regs(a, b, c, d)
  {
    hide Turn, F, G, H, I, Steps, Sine, WordIndex, ShiftAmount;
    Entries28();
    a, b, c, d := a0, b0, c0, d0;
    a := Turn(a, G(b, c, d), X[13], 5, 0xffffffff ^ 0x561c16fa, b);
    d := Turn(d, G(a, b, c), X[2], 9, 0xffffffff ^ 0x03105c07, a);
    c := Turn(c, G(d, a, b), X[7], 14, 0x676f02d9, d);
    b := Turn(b, G(c, d, a), X[12], 20, 0xffffffff ^ 0x72d5b375, c);
    FourSteps(X, r, 28, Regs(a0, b0, c0, d0), a, d, c, b);
  }

  /** Round 3: sixteen steps, four at a time. */
  method Round3(X: seq<bv32>, a0: bv32, b0: bv32, c0: bv32, d0: bv32, ghost r: Regs)
    returns (a: bv32, b: bv32, c: bv32, d: bv32)
    requires |X| == 16 && Steps(X, r, 32) == Regs(a0, b0, c0, d0)
    ensures Steps(X, r, 48) == Regs(a, b, c, d)
  {
    a, b, c, d := a0, b0, c0, d0;
    a, b, c, d := FourH32(X, a, b, c, d, r);
    a, b, c, d := FourH36(X, a, b, c, d, r);
    a, b, c, d := FourH40(X, a, b, c, d, r);
    a, b, c, d := FourH44(X, a, b, c, d, r);
  }

  lemma Entries32()
    ensures WordIndex(32) == 5 && ShiftAmount(32) == 4 && Sine(32) == 0xffffffff ^ 0x0005c6bd
    ensures WordIndex(33) == 8 && ShiftAmount(33) == 11 && Sine(33) == 0xffffffff ^ 0x788e097e
    ensures WordIndex(34) == 11 && ShiftAmount(34) == 16 && Sine(34) == 0x6d9d6122
    ensures WordIndex(35) == 14 && ShiftAmount(35) == 23 && Sine(35) == 0xffffffff ^ 0x021ac7f3
  {
  }

  method FourH32(X: seq<bv32>, a0: bv32, b0: bv32, c0: bv32, d0: bv32, ghost r: Regs)
    returns (a: bv32, b: bv32, c: bv32, d: bv32)
    requires |X| == 16 && Steps(X, r, 32) == Regs(a0, b0, c0, d0)
    ensures Steps(X, r, 36) == Regs(a, b, c, d)
  {
    hide Turn, F, G, H, I, Steps, Sine, WordIndex, ShiftAmount;
    Entries32();
    a, b, c, d := a0, b0, c0, d0;
    a := Turn(a, H(b, c, d), X[5], 4, 0xffffffff ^ 0x0005c6bd, b);
    d := Turn(d, H(a, b, c), X[8], 11, 0xffffffff ^ 0x788e097e, a);
    c := Turn(c, H(d, a, b), X[11], 16, 0x6d9d6122, d);
    b := Turn(b, H(c, d, a), X[14], 23, 0xffffffff ^ 0x021ac7f3, c);
    FourSteps(X, r, 32, Regs(a0, b0, c0, d0), a, d, c, b);
  }

  lemma Entries36()
    ensures WordIndex(36) == 1 && ShiftAmount(36) == 4 && Sine(36) == 0xffffffff ^ 0x5b4115bb
    ensures WordIndex(37) == 4 && ShiftAmount(37) == 11 && Sine(37) == 0x4bdecfa9
    ensures WordIndex(38) == 7 && ShiftAmount(38) == 16 && Sine(38) == 0xffffffff ^ 0x0944b49f
    ensures WordIndex(39) == 10 && ShiftAmount(39) == 23 && Sine(39) == 0xffffffff ^ 0x4140438f
  {
  }

  method FourH36(X: seq<bv32>, a0: bv32, b0: bv32, c0: bv32, d0: bv32, ghost r: Regs)
    returns (a: bv32, b: bv32, c: bv32, d: bv32)
    requires |X| == 16 && Steps(X, r, 36) == Regs(a0, b0, c0, d0)
    ensures Steps(X, r, 40) == Regs(a, b, c, d)
  {
    hide Turn, F, G, H, I, Steps, Sine, WordIndex, ShiftAmount;
    Entries36();
    a, b, c, d := a0, b0, c0, d0;
    a := Turn(a, H(b, c, d), X[1], 4, 0xffffffff ^ 0x5b4115bb, b);
    d := Turn(d, H(a, b, c), X[4], 11, 0x4bdecfa9, a);
    c := Turn(c, H(d, a, b), X[7], 16, 0xffffffff ^ 0x0944b49f, d);
    b := Turn(b, H(c, d, a), X[10], 23, 0xffffffff ^ 0x4140438f, c);
    FourSteps(X, r, 36, Regs(a0, b0, c0, d0), a, d, c, b);
  }

  lemma Entries40()
    ensures WordIndex(40) == 13 && ShiftAmount(40) == 4 && Sine(40) == 0x289b7ec6
    ensures WordIndex(41) == 0 && ShiftAmount(41) == 11 && Sine(41) == 0xffffffff ^ 0x155ed805
    ensures WordIndex(42) == 3 && ShiftAmount(42) == 16 && Sine(42) == 0xffffffff ^ 0x2b10cf7a
    ensures WordIndex(43) == 6 && ShiftAmount(43) == 23 && Sine(43) == 0x04881d05
  {
  }

  method FourH40(X: seq<bv32>, a0: bv32, b0: bv32, c0: bv32, d0: bv32, ghost r: Regs)
    returns (a: bv32, b: bv32, c: bv32, d: bv32)
    requires |X| == 16 && Steps(X, r, 40) == Regs(a0, b0, c0, d0)
    ensures Steps(X, r, 44) == Regs(a, b, c, d)
  {
    hide Turn, F, G, H, I, Steps, Sine, WordIndex, ShiftAmount;
    Entries40();
    a, b, c, d := a0, b0, c0, d0;
    a := Turn(a, H(b, c, d), X[13], 4, 0x289b7ec6, b);
    d := Turn(d, H(a, b, c), X[0], 11, 0xffffffff ^ 0x155ed805, a);
    c := Turn(c, H(d, a, b), X[3], 16, 0xffffffff ^ 0x2b10cf7a, d);
    b := Turn(b, H(c, d, a), X[6], 23, 0x04881d05, c);
    FourSteps(X, r, 40, Regs(a0, b0, c0, d0), a, d, c, b);
  }

  lemma Entries44()
    ensures WordIndex(44) == 9 && ShiftAmount(44) == 4 && Sine(44) == 0xffffffff ^ 0x262b2fc6
    ensures WordIndex(45) == 12 && ShiftAmount(45) == 11 && Sine(45) == 0xffffffff ^ 0x1924661a
    ensures WordIndex(46) == 15 && ShiftAmount(46) == 16 && Sine(46) == 0x1fa27cf8
    ensures WordIndex(47) == 2 && ShiftAmount(47) == 23 && Sine(47) == 0xffffffff ^ 0x3b53a99a
  {
  }

  method FourH44(X: seq<bv32>, a0: bv32, b0: bv32, c0: bv32, d0: bv32, ghost r: Regs)
    returns (a: bv32, b: bv32, c: bv32, d: bv32)
    requires |X| == 16 && Steps(X, r, 44) == Regs(a0, b0, c0, d0)
    ensures Steps(X, r, 48) == Regs(a, b, c, d)
  {
    hide Turn, F, G, H, I, Steps, Sine, WordIndex, ShiftAmount;
    Entries44();
    a, b, c, d := a0, b0, c0, d0;
    a := Turn(a, H(b, c, d), X[9], 4, 0xffffffff ^ 0x262b2fc6, b);
    d := Turn(d, H(a, b, c), X[12], 11, 0xffffffff ^ 0x1924661a, a);
    c := Turn(c, H(d, a, b), X[15], 16, 0x1fa27cf8, d);
    b := Turn(b, H(c, d, a), X[2], 23, 0xffffffff ^ 0x3b53a99a, c);
    FourSteps(X, r, 44, Regs(a0, b0, c0, d0), a, d, c, b);
  }

  /** Round 4: sixteen steps, four at a time. */
  method Round4(X: seq<bv32>, a0: bv32, b0: bv32, c0: bv32, d0: bv32, ghost r: Regs)
    returns (a: bv32, b: bv32, c: bv32, d: bv32)
    requires |X| == 16 && Steps(X, r, 48) == Regs(a0, b0, c0, d0)
    ensures Steps(X, r, 64) == Regs(a, b, c, d)
  {
    a, b, c, d := a0, b0, c0, d0;
    a, b, c, d := FourI48(X, a, b, c, d, r);
    a, b, c, d := FourI52(X, a, b, c, d, r);
    a, b, c, d := FourI56(X, a, b, c, d, r);
    a, b, c, d := FourI60(X, a, b, c, d, r);
  }

  lemma Entries48()
    ensures WordIndex(48) == 0 && ShiftAmount(48) == 6 && Sine(48) == 0xffffffff ^ 0x0bd6ddbb
    ensures WordIndex(49) == 7 && ShiftAmount(49) == 10 && Sine(49) == 0x432aff97
    ensures WordIndex(50) == 14 && ShiftAmount(50) == 15 && Sine(50) == 0xffffffff ^ 0x546bdc58
    ensures WordIndex(51) == 5 && ShiftAmount(51) == 21 && Sine(51) == 0xffffffff ^ 0x036c5fc6
  {
  }

  method FourI48(X: seq<bv32>, a0: bv32, b0: bv32, c0: bv32, d0: bv32, ghost r: Regs)
    returns (a: bv32, b: bv32, c: bv32, d: bv32)
    requires |X| == 16 && Steps(X, r, 48) == Regs(a0, b0, c0, d0)
    ensures Steps(X, r, 52) == Regs(a, b, c, d)
  {
    hide Turn, F, G, H, I, Steps, Sine, WordIndex, ShiftAmount;
    Entries48();
    a, b, c, d := a0, b0, c0, d0;
    a := Turn(a, I(b, c, d), X[0], 6, 0xffffffff ^ 0x0bd6ddbb, b);
    d := Turn(d, I(a, b, c), X[7], 10, 0x432aff97, a);
    c := Turn(c, I(d, a, b), X[14], 15, 0xffffffff ^ 0x546bdc58, d);
    b := Turn(b, I(c, d, a), X[5], 21, 0xffffffff ^ 0x036c5fc6, c);
    FourSteps(X, r, 48, Regs(a0, b0, c0, d0), a, d, c, b);
  }

  lemma Entries52()
    ensures WordIndex(52) == 12 && ShiftAmount(52) == 6 && Sine(52) == 0x655b59c3
    ensures WordIndex(53) == 3 && ShiftAmount(53) == 10 && Sine(53) == 0xffffffff ^ 0x70f3336d
    ensures WordIndex(54) == 10 && ShiftAmount(54) == 15 && Sine(54) == 0xffffffff ^ 0x00100b82
    ensures WordIndex(55) == 1 && ShiftAmount(55) == 21 && Sine(55) == 0xffffffff ^ 0x7a7ba22e
  {
  }

  method FourI52(X: seq<bv32>, a0: bv32, b0: bv32, c0: bv32, d0: bv32, ghost r: Regs)
    returns (a: bv32, b: bv32, c: bv32, d: bv32)
    requires |X| == 16 && Steps(X, r, 52) == Regs(a0, b0, c0, d0)
    ensures Steps(X, r, 56) == Regs(a, b, c, d)
  {
    hide Turn, F, G, H, I, Steps, Sine, WordIndex, ShiftAmount;
    Entries52();
    a, b, c, d := a0, b0, c0, d0;
    a := Turn(a, I(b, c, d), X[12], 6, 0x655b59c3, b);
    d := Turn(d, I(a, b, c), X[3], 10, 0xffffffff ^ 0x70f3336d, a);
    c := Turn(c, I(d, a, b), X[10], 15, 0xffffffff ^ 0x00100b82, d);
    b := Turn(b, I(c, d, a), X[1], 21, 0xffffffff ^ 0x7a7ba22e, c);
    FourSteps(X, r, 52, Regs(a0, b0, c0, d0), a, d, c, b);
  }

  lemma Entries56()
    ensures WordIndex(56) == 8 && ShiftAmount(56) == 6 && Sine(56) == 0x6fa87e4f
    ensures WordIndex(57) == 15 && ShiftAmount(57) == 10 && Sine(57) == 0xffffffff ^ 0x01d3191f
    ensures WordIndex(58) == 6 && ShiftAmount(58) == 15 && Sine(58) == 0xffffffff ^ 0x5cfebceb
    ensures WordIndex(59) == 13 && ShiftAmount(59) == 21 && Sine(59) == 0x4e0811a1
  {
  }

  method FourI56(X: seq<bv32>, a0: bv32, b0: bv32, c0: bv32, d0: bv32, ghost r: Regs)
    returns (a: bv32, b: bv32, c: bv32, d: bv32)
    requires |X| == 16 && Steps(X, r, 56) == Regs(a0, b0, c0, d0)
    ensures Steps(X, r, 60) == Regs(a, b, c, d)
  {
    hide Turn, F, G, H, I, Steps, Sine, WordIndex, ShiftAmount;
    Entries56();
    a, b, c, d := a0, b0, c0, d0;
    a := Turn(a, I(b, c, d), X[8], 6, 0x6fa87e4f, b);
    d := Turn(d, I(a, b, c), X[15], 10, 0xffffffff ^ 0x01d3191f, a);
    c := Turn(c, I(d, a, b), X[6], 15, 0xffffffff ^ 0x5cfebceb, d);
    b := Turn(b, I(c, d, a), X[13], 21, 0x4e0811a1, c);
    FourSteps(X, r, 56, Regs(a0, b0, c0, d0), a, d, c, b);
  }

  lemma Entries60()
    ensures WordIndex(60) == 4 && ShiftAmount(60) == 6 && Sine(60) == 0xffffffff ^ 0x08ac817d
    ensures WordIndex(61) == 11 && ShiftAmount(61) == 10 && Sine(61) == 0xffffffff ^ 0x42c50dca
    ensures WordIndex(62) == 2 && ShiftAmount(62) == 15 && Sine(62) == 0x2ad7d2bb
    ensures WordIndex(63) == 9 && ShiftAmount(63) == 21 && Sine(63) == 0xffffffff ^ 0x14792c6e
  {
  }

  method FourI60(X: seq<bv32>, a0: bv32, b0: bv32, c0: bv32, d0: bv32, ghost r: Regs)
    returns (a: bv32, b: bv32, c: bv32, d: bv32)
    requires |X| == 16 && Steps(X, r, 60) == Regs(a0, b0, c0, d0)
    ensures Steps(X, r, 64) == Regs(a, b, c, d)
  {
    hide Turn, F, G, H, I, Steps, Sine, WordIndex, ShiftAmount;
    Entries60();
    a, b, c, d := a0, b0, c0, d0;
    a := Turn(a, I(b, c, d), X[4], 6, 0xffffffff ^ 0x08ac817d, b);
    d := Turn(d, I(a, b, c), X[11], 10, 0xffffffff ^ 0x42c50dca, a);
    c := Turn(c, I(d, a, b), X[2], 15, 0x2ad7d2bb, d);
    b := Turn(b, I(c, d, a), X[9], 21, 0xffffffff ^ 0x14792c6e, c);
    FourSteps(X, r, 60, Regs(a0, b0, c0, d0), a, d, c, b);
  }

  method LoadWords(data: array<bv8>, at: nat) returns (X: seq<bv32>)
    requires at + 64 <= data.Length
    ensures |X| == 16 && X == Words(data[at..at + 64])
  {
    hide WordAt;
    ghost var block := data[at..at + 64];
    X := [];
    var xp := at;
    for i := 0 to 16
      invariant |X| == i && xp == at + 4 * i
      invariant forall j: nat :: j < i ==> X[j] == WordAt(block, 4 * j)
    {
      SameWord(data[..], at, i);
      X := X + [WordAt(data[..], xp)];
      xp := xp + 4;
    }
  }

  lemma SameWord(data: seq<bv8>, at: nat, i: nat)
    requires at + 64 <= |data| && i < 16
    ensures WordAt(data, at + 4 * i) == WordAt(data[at..at + 64], 4 * i)
  {
    hide Word;
    var block := data[at..at + 64];
    assert block[4 * i] == data[at + 4 * i] && block[4 * i + 1] == data[at + 4 * i + 1]
        && block[4 * i + 2] == data[at + 4 * i + 2] && block[4 * i + 3] == data[at + 4 * i + 3];
  }

  /** One block. */
  method Process(abcd: Regs, data: array<bv8>, at: nat) returns (next: Regs)
    requires at + 64 <= data.Length
    ensures next == Compress(abcd, data[at..at + 64])
  {
    hide Step, Words;
    var X := LoadWords(data, at);
    var a, b, c, d := abcd.a, abcd.b, abcd.c, abcd.d;
    a, b, c, d := Round1(X, a, b, c, d, abcd);
    a, b, c, d := Round2(X, a, b, c, d, abcd);
    a, b, c, d := Round3(X, a, b, c, d, abcd);
    a, b, c, d := Round4(X, a, b, c, d, abcd);
    next := AddRegs(abcd, Regs(a, b, c, d));
  }
}
