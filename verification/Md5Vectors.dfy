/** A published value (RFC 1321, appendix A.5): the digest of the empty message, step by step. */
module Md5Vectors {
  import opened Md5Block
  import opened Md5

  /** The words of the padded empty message. */
  predicate EmptyWords(X: seq<bv32>) {
    X == [0x80, 0, 0, 0, 0, 0, 0, 0, 0, 0, 0, 0, 0, 0, 0, 0]
  }

  lemma Turns0()
    ensures Turn(0x67452301, F(0xefcdab89, 0x98badcfe, 0x10325476), 0x80, 7, 0xd76aa478, 0xefcdab89) == 0xa5202774
    ensures Turn(0x10325476, F(0xa5202774, 0xefcdab89, 0x98badcfe), 0, 12, 0xe8c7b756, 0xa5202774) == 0xf59592dd
    ensures Turn(0x98badcfe, F(0xf59592dd, 0xa5202774, 0xefcdab89), 0, 17, 0x242070db, 0xf59592dd) == 0xe7f06b23
    ensures Turn(0xefcdab89, F(0xe7f06b23, 0xf59592dd, 0xa5202774), 0, 22, 0xc1bdceee, 0xe7f06b23) == 0x1b163203
  {
  }

  lemma Empty0(X: seq<bv32>)
    requires EmptyWords(X) && Steps(X, Init(), 0) == Regs(0x67452301, 0xefcdab89, 0x98badcfe, 0x10325476)
    ensures Steps(X, Init(), 4) == Regs(0xa5202774, 0x1b163203, 0xe7f06b23, 0xf59592dd)
  {
    hide Turn, F, G, H, I, Steps, Sine, WordIndex, ShiftAmount;
    Entries0();
    Turns0();
    FourSteps(X, Init(), 0, Regs(0x67452301, 0xefcdab89, 0x98badcfe, 0x10325476),
              0xa5202774, 0xf59592dd, 0xe7f06b23, 0x1b163203);
  }

  lemma Turns4()
    ensures Turn(0xa5202774, F(0x1b163203, 0xe7f06b23, 0xf59592dd), 0, 7, 0xf57c0faf, 0x1b163203) == 0x32033344
    ensures Turn(0xf59592dd, F(0x32033344, 0x1b163203, 0xe7f06b23), 0, 12, 0x4787c62a, 0x32033344) == 0x2f35d494
    ensures Turn(0xe7f06b23, F(0x2f35d494, 0x32033344, 0x1b163203), 0, 17, 0xa8304613, 0x2f35d494) == 0xf5b158db
    ensures Turn(0x1b163203, F(0xf5b158db, 0x2f35d494, 0x32033344), 0, 22, 0xfd469501, 0xf5b158db) == 0x9bc13ce9
  {
  }

  lemma Empty4(X: seq<bv32>)
    requires EmptyWords(X) && Steps(X, Init(), 4) == Regs(0xa5202774, 0x1b163203, 0xe7f06b23, 0xf59592dd)
    ensures Steps(X, Init(), 8) == Regs(0x32033344, 0x9bc13ce9, 0xf5b158db, 0x2f35d494)
  {
    hide Turn, F, G, H, I, Steps, Sine, WordIndex, ShiftAmount;
    Entries4();
    Turns4();
    FourSteps(X, Init(), 4, Regs(0xa5202774, 0x1b163203, 0xe7f06b23, 0xf59592dd),
              0x32033344, 0x2f35d494, 0xf5b158db, 0x9bc13ce9);
  }

  lemma Turns8()
    ensures Turn(0x32033344, F(0x9bc13ce9, 0xf5b158db, 0x2f35d494), 0, 7, 0x698098d8, 0x9bc13ce9) == 0x3893b991
    ensures Turn(0x2f35d494, F(0x3893b991, 0x9bc13ce9, 0xf5b158db), 0, 12, 0x8b44f7af, 0x3893b991) == 0xfce4a312
    ensures Turn(0xf5b158db, F(0xfce4a312, 0x3893b991, 0x9bc13ce9), 0, 17, 0xffff5bb1, 0xfce4a312) == 0xe1ef0576
    ensures Turn(0x9bc13ce9, F(0xe1ef0576, 0xfce4a312, 0x3893b991), 0, 22, 0x895cd7be, 0xe1ef0576) == 0x70768a29
  {
  }

  lemma Empty8(X: seq<bv32>)
    requires EmptyWords(X) && Steps(X, Init(), 8) == Regs(0x32033344, 0x9bc13ce9, 0xf5b158db, 0x2f35d494)
    ensures Steps(X, Init(), 12) == Regs(0x3893b991, 0x70768a29, 0xe1ef0576, 0xfce4a312)
  {
    hide Turn, F, G, H, I, Steps, Sine, WordIndex, ShiftAmount;
    Entries8();
    Turns8();
    FourSteps(X, Init(), 8, Regs(0x32033344, 0x9bc13ce9, 0xf5b158db, 0x2f35d494),
              0x3893b991, 0xfce4a312, 0xe1ef0576, 0x70768a29);
  }

  lemma Turns12()
    ensures Turn(0x3893b991, F(0x70768a29, 0xe1ef0576, 0xfce4a312), 0, 7, 0x6b901122, 0x70768a29) == 0xf56c7cf1
    ensures Turn(0xfce4a312, F(0xf56c7cf1, 0x70768a29, 0xe1ef0576), 0, 12, 0xfd987193, 0xf56c7cf1) == 0x374943a7
    ensures Turn(0xe1ef0576, F(0x374943a7, 0xf56c7cf1, 0x70768a29), 0, 17, 0xa679438e, 0x374943a7) == 0x5aa53f75
    ensures Turn(0x70768a29, F(0x5aa53f75, 0x374943a7, 0xf56c7cf1), 0, 22, 0x49b40821, 0x5aa53f75) == 0xd6819c6a
  {
  }

  lemma Empty12(X: seq<bv32>)
    requires EmptyWords(X) && Steps(X, Init(), 12) == Regs(0x3893b991, 0x70768a29, 0xe1ef0576, 0xfce4a312)
    ensures Steps(X, Init(), 16) == Regs(0xf56c7cf1, 0xd6819c6a, 0x5aa53f75, 0x374943a7)
  {
    hide Turn, F, G, H, I, Steps, Sine, WordIndex, ShiftAmount;
    Entries12();
    Turns12();
    FourSteps(X, Init(), 12, Regs(0x3893b991, 0x70768a29, 0xe1ef0576, 0xfce4a312),
              0xf56c7cf1, 0x374943a7, 0x5aa53f75, 0xd6819c6a);
  }

  lemma Turns16()
    ensures Turn(0xf56c7cf1, G(0xd6819c6a, 0x5aa53f75, 0x374943a7), 0, 5, 0xf61e2562, 0xd6819c6a) == 0x1c7d7513
    ensures Turn(0x374943a7, G(0x1c7d7513, 0xd6819c6a, 0x5aa53f75), 0, 9, 0xc040b340, 0x1c7d7513) == 0x7bd57a3a
    ensures Turn(0x5aa53f75, G(0x7bd57a3a, 0x1c7d7513, 0xd6819c6a), 0, 14, 0x265e5a51, 0x7bd57a3a) == 0xc095f13a
    ensures Turn(0xd6819c6a, G(0xc095f13a, 0x7bd57a3a, 0x1c7d7513), 0x80, 20, 0xe9b6c7aa, 0xc095f13a) == 0xbd782e17
  {
  }

  lemma Empty16(X: seq<bv32>)
    requires EmptyWords(X) && Steps(X, Init(), 16) == Regs(0xf56c7cf1, 0xd6819c6a, 0x5aa53f75, 0x374943a7)
    ensures Steps(X, Init(), 20) == Regs(0x1c7d7513, 0xbd782e17, 0xc095f13a, 0x7bd57a3a)
  {
    hide Turn, F, G, H, I, Steps, Sine, WordIndex, ShiftAmount;
    Entries16();
    Turns16();
    FourSteps(X, Init(), 16, Regs(0xf56c7cf1, 0xd6819c6a, 0x5aa53f75, 0x374943a7),
              0x1c7d7513, 0x7bd57a3a, 0xc095f13a, 0xbd782e17);
  }

  lemma Turns20()
    ensures Turn(0x1c7d7513, G(0xbd782e17, 0xc095f13a, 0x7bd57a3a), 0, 5, 0xd62f105d, 0xbd782e17) == 0x3d1e3e6c
    ensures Turn(0x7bd57a3a, G(0x3d1e3e6c, 0xbd782e17, 0xc095f13a), 0, 9, 0x02441453, 0x3d1e3e6c) == 0x68b7b3e3
    ensures Turn(0xc095f13a, G(0x68b7b3e3, 0x3d1e3e6c, 0xbd782e17), 0, 14, 0xd8a1e681, 0x68b7b3e3) == 0xeb41643e
    ensures Turn(0xbd782e17, G(0xeb41643e, 0x68b7b3e3, 0x3d1e3e6c), 0, 20, 0xe7d3fbc8, 0xeb41643e) == 0xe422531a
  {
  }

  lemma Empty20(X: seq<bv32>)
    requires EmptyWords(X) && Steps(X, Init(), 20) == Regs(0x1c7d7513, 0xbd782e17, 0xc095f13a, 0x7bd57a3a)
    ensures Steps(X, Init(), 24) == Regs(0x3d1e3e6c, 0xe422531a, 0xeb41643e, 0x68b7b3e3)
  {
    hide Turn, F, G, H, I, Steps, Sine, WordIndex, ShiftAmount;
    Entries20();
    Turns20();
    FourSteps(X, Init(), 20, Regs(0x1c7d7513, 0xbd782e17, 0xc095f13a, 0x7bd57a3a),
              0x3d1e3e6c, 0x68b7b3e3, 0xeb41643e, 0xe422531a);
  }

  lemma Turns24()
    ensures Turn(0x3d1e3e6c, G(0xe422531a, 0xeb41643e, 0x68b7b3e3), 0, 5, 0x21e1cde6, 0xe422531a) == 0x306ec122
    ensures Turn(0x68b7b3e3, G(0x306ec122, 0xe422531a, 0xeb41643e), 0, 9, 0xc33707d6, 0x306ec122) == 0xd28c77c2
    ensures Turn(0xeb41643e, G(0xd28c77c2, 0x306ec122, 0xe422531a), 0, 14, 0xf4d50d87, 0xd28c77c2) == 0xa3c663da
    ensures Turn(0xe422531a, G(0xa3c663da, 0xd28c77c2, 0x306ec122), 0, 20, 0x455a14ed, 0xa3c663da) == 0xa0572807
  {
  }

  lemma Empty24(X: seq<bv32>)
    requires EmptyWords(X) && Steps(X, Init(), 24) == Regs(0x3d1e3e6c, 0xe422531a, 0xeb41643e, 0x68b7b3e3)
    ensures Steps(X, Init(), 28) == Regs(0x306ec122, 0xa0572807, 0xa3c663da, 0xd28c77c2)
  {
    hide Turn, F, G, H, I, Steps, Sine, WordIndex, ShiftAmount;
    Entries24();
    Turns24();
    FourSteps(X, Init(), 24, Regs(0x3d1e3e6c, 0xe422531a, 0xeb41643e, 0x68b7b3e3),
              0x306ec122, 0xd28c77c2, 0xa3c663da, 0xa0572807);
  }

  lemma Turns28()
    ensures Turn(0x306ec122, G(0xa0572807, 0xa3c663da, 0xd28c77c2), 0, 5, 0xa9e3e905, 0xa0572807) == 0x13707036
    ensures Turn(0xd28c77c2, G(0x13707036, 0xa0572807, 0xa3c663da), 0, 9, 0xfcefa3f8, 0x13707036) == 0xae7813db
    ensures Turn(0xa3c663da, G(0xae7813db, 0x13707036, 0xa0572807), 0, 14, 0x676f02d9, 0xae7813db) == 0x1c31c384
    ensures Turn(0xa0572807, G(0x1c31c384, 0xae7813db, 0x13707036), 0, 20, 0x8d2a4c8a, 0x1c31c384) == 0xa2205f1f
  {
  }

  lemma Empty28(X: seq<bv32>)
    requires EmptyWords(X) && Steps(X, Init(), 28) == Regs(0x306ec122, 0xa0572807, 0xa3c663da, 0xd28c77c2)
    ensures Steps(X, Init(), 32) == Regs(0x13707036, 0xa2205f1f, 0x1c31c384, 0xae7813db)
  {
    hide Turn, F, G, H, I, Steps, Sine, WordIndex, ShiftAmount;
    Entries28();
    Turns28();
    FourSteps(X, Init(), 28, Regs(0x306ec122, 0xa0572807, 0xa3c663da, 0xd28c77c2),
              0x13707036, 0xae7813db, 0x1c31c384, 0xa2205f1f);
  }

  lemma Turns32()
    ensures Turn(0x13707036, H(0xa2205f1f, 0x1c31c384, 0xae7813db), 0, 4, 0xfffa3942, 0xa2205f1f) == 0xdf63eaa1
    ensures Turn(0xae7813db, H(0xdf63eaa1, 0xa2205f1f, 0x1c31c384), 0, 11, 0x8771f681, 0xdf63eaa1) == 0xc3689f5b
    ensures Turn(0x1c31c384, H(0xc3689f5b, 0xdf63eaa1, 0xa2205f1f), 0, 16, 0x6d9d6122, 0xc3689f5b) == 0x12f3e755
    ensures Turn(0xa2205f1f, H(0x12f3e755, 0xc3689f5b, 0xdf63eaa1), 0, 23, 0xfde5380c, 0x12f3e755) == 0x004b6669
  {
  }

  lemma Empty32(X: seq<bv32>)
    requires EmptyWords(X) && Steps(X, Init(), 32) == Regs(0x13707036, 0xa2205f1f, 0x1c31c384, 0xae7813db)
    ensures Steps(X, Init(), 36) == Regs(0xdf63eaa1, 0x004b6669, 0x12f3e755, 0xc3689f5b)
  {
    hide Turn, F, G, H, I, Steps, Sine, WordIndex, ShiftAmount;
    Entries32();
    Turns32();
    FourSteps(X, Init(), 32, Regs(0x13707036, 0xa2205f1f, 0x1c31c384, 0xae7813db),
              0xdf63eaa1, 0xc3689f5b, 0x12f3e755, 0x004b6669);
  }

  lemma Turns36()
    ensures Turn(0xdf63eaa1, H(0x004b6669, 0x12f3e755, 0xc3689f5b), 0, 4, 0xa4beea44, 0x004b6669) == 0x5f7a9b2e
    ensures Turn(0xc3689f5b, H(0x5f7a9b2e, 0x004b6669, 0x12f3e755), 0, 11, 0x4bdecfa9, 0x5f7a9b2e) == 0xabc34e16
    ensures Turn(0x12f3e755, H(0xabc34e16, 0x5f7a9b2e, 0x004b6669), 0, 16, 0xf6bb4b60, 0xabc34e16) == 0x91ca4cb7
    ensures Turn(0x004b6669, H(0x91ca4cb7, 0xabc34e16, 0x5f7a9b2e), 0, 23, 0xbebfbc70, 0x91ca4cb7) == 0xc5dc8c15
  {
  }

  lemma Empty36(X: seq<bv32>)
    requires EmptyWords(X) && Steps(X, Init(), 36) == Regs(0xdf63eaa1, 0x004b6669, 0x12f3e755, 0xc3689f5b)
    ensures Steps(X, Init(), 40) == Regs(0x5f7a9b2e, 0xc5dc8c15, 0x91ca4cb7, 0xabc34e16)
  {
    hide Turn, F, G, H, I, Steps, Sine, WordIndex, ShiftAmount;
    Entries36();
    Turns36();
    FourSteps(X, Init(), 36, Regs(0xdf63eaa1, 0x004b6669, 0x12f3e755, 0xc3689f5b),
              0x5f7a9b2e, 0xabc34e16, 0x91ca4cb7, 0xc5dc8c15);
  }

  lemma Turns40()
    ensures Turn(0x5f7a9b2e, H(0xc5dc8c15, 0x91ca4cb7, 0xabc34e16), 0, 4, 0x289b7ec6, 0xc5dc8c15) == 0x4497169d
    ensures Turn(0xabc34e16, H(0x4497169d, 0xc5dc8c15, 0x91ca4cb7), 0x80, 11, 0xeaa127fa, 0x4497169d) == 0x76fd93d4
    ensures Turn(0x91ca4cb7, H(0x76fd93d4, 0x4497169d, 0xc5dc8c15), 0, 16, 0xd4ef3085, 0x76fd93d4) == 0xfd95f243
    ensures Turn(0xc5dc8c15, H(0xfd95f243, 0x76fd93d4, 0x4497169d), 0, 23, 0x04881d05, 0xfd95f243) == 0x0fe32453
  {
  }

  lemma Empty40(X: seq<bv32>)
    requires EmptyWords(X) && Steps(X, Init(), 40) == Regs(0x5f7a9b2e, 0xc5dc8c15, 0x91ca4cb7, 0xabc34e16)
    ensures Steps(X, Init(), 44) == Regs(0x4497169d, 0x0fe32453, 0xfd95f243, 0x76fd93d4)
  {
    hide Turn, F, G, H, I, Steps, Sine, WordIndex, ShiftAmount;
    Entries40();
    Turns40();
    FourSteps(X, Init(), 40, Regs(0x5f7a9b2e, 0xc5dc8c15, 0x91ca4cb7, 0xabc34e16),
              0x4497169d, 0x76fd93d4, 0xfd95f243, 0x0fe32453);
  }

  lemma Turns44()
    ensures Turn(0x4497169d, H(0x0fe32453, 0xfd95f243, 0x76fd93d4), 0, 4, 0xd9d4d039, 0x0fe32453) == 0x3f55edfd
    ensures Turn(0x76fd93d4, H(0x3f55edfd, 0x0fe32453, 0xfd95f243), 0, 11, 0xe6db99e5, 0x3f55edfd) == 0x22a31f54
    ensures Turn(0xfd95f243, H(0x22a31f54, 0x3f55edfd, 0x0fe32453), 0, 16, 0x1fa27cf8, 0x22a31f54) == 0x68d84ea2
    ensures Turn(0x0fe32453, H(0x68d84ea2, 0x22a31f54, 0x3f55edfd), 0, 23, 0xc4ac5665, 0x68d84ea2) == 0xca7d2dbd
  {
  }

  lemma Empty44(X: seq<bv32>)
    requires EmptyWords(X) && Steps(X, Init(), 44) == Regs(0x4497169d, 0x0fe32453, 0xfd95f243, 0x76fd93d4)
    ensures Steps(X, Init(), 48) == Regs(0x3f55edfd, 0xca7d2dbd, 0x68d84ea2, 0x22a31f54)
  {
    hide Turn, F, G, H, I, Steps, Sine, WordIndex, ShiftAmount;
    Entries44();
    Turns44();
    FourSteps(X, Init(), 44, Regs(0x4497169d, 0x0fe32453, 0xfd95f243, 0x76fd93d4),
              0x3f55edfd, 0x22a31f54, 0x68d84ea2, 0xca7d2dbd);
  }

  lemma Turns48()
    ensures Turn(0x3f55edfd, I(0xca7d2dbd, 0x68d84ea2, 0x22a31f54), 0x80, 6, 0xf4292244, 0xca7d2dbd) == 0x93aa2577
    ensures Turn(0x22a31f54, I(0x93aa2577, 0xca7d2dbd, 0x68d84ea2), 0, 10, 0x432aff97, 0x93aa2577) == 0x1688dc85
    ensures Turn(0x68d84ea2, I(0x1688dc85, 0x93aa2577, 0xca7d2dbd), 0, 15, 0xab9423a7, 0x1688dc85) == 0xcd85b8cb
    ensures Turn(0xca7d2dbd, I(0xcd85b8cb, 0x1688dc85, 0x93aa2577), 0, 21, 0xfc93a039, 0xcd85b8cb) == 0x561e0689
  {
  }

  lemma Empty48(X: seq<bv32>)
    requires EmptyWords(X) && Steps(X, Init(), 48) == Regs(0x3f55edfd, 0xca7d2dbd, 0x68d84ea2, 0x22a31f54)
    ensures Steps(X, Init(), 52) == Regs(0x93aa2577, 0x561e0689, 0xcd85b8cb, 0x1688dc85)
  {
    hide Turn, F, G, H, I, Steps, Sine, WordIndex, ShiftAmount;
    Entries48();
    Turns48();
    FourSteps(X, Init(), 48, Regs(0x3f55edfd, 0xca7d2dbd, 0x68d84ea2, 0x22a31f54),
              0x93aa2577, 0x1688dc85, 0xcd85b8cb, 0x561e0689);
  }

  lemma Turns52()
    ensures Turn(0x93aa2577, I(0x561e0689, 0xcd85b8cb, 0x1688dc85), 0, 6, 0x655b59c3, 0x561e0689) == 0x5625a114
    ensures Turn(0x1688dc85, I(0x5625a114, 0x561e0689, 0xcd85b8cb), 0, 10, 0x8f0ccc92, 0x5625a114) == 0x3450f42b
    ensures Turn(0xcd85b8cb, I(0x3450f42b, 0x5625a114, 0x561e0689), 0, 15, 0xffeff47d, 0x3450f42b) == 0x392ad0d0
    ensures Turn(0x561e0689, I(0x392ad0d0, 0x3450f42b, 0x5625a114), 0, 21, 0x85845dd1, 0x392ad0d0) == 0x1e77fa61
  {
  }

  lemma Empty52(X: seq<bv32>)
    requires EmptyWords(X) && Steps(X, Init(), 52) == Regs(0x93aa2577, 0x561e0689, 0xcd85b8cb, 0x1688dc85)
    ensures Steps(X, Init(), 56) == Regs(0x5625a114, 0x1e77fa61, 0x392ad0d0, 0x3450f42b)
  {
    hide Turn, F, G, H, I, Steps, Sine, WordIndex, ShiftAmount;
    Entries52();
    Turns52();
    FourSteps(X, Init(), 52, Regs(0x93aa2577, 0x561e0689, 0xcd85b8cb, 0x1688dc85),
              0x5625a114, 0x3450f42b, 0x392ad0d0, 0x1e77fa61);
  }

  lemma Turns56()
    ensures Turn(0x5625a114, I(0x1e77fa61, 0x392ad0d0, 0x3450f42b), 0, 6, 0x6fa87e4f, 0x1e77fa61) == 0x474a9c8c
    ensures Turn(0x3450f42b, I(0x474a9c8c, 0x1e77fa61, 0x392ad0d0), 0, 10, 0xfe2ce6e0, 0x474a9c8c) == 0xdfce00bc
    ensures Turn(0x392ad0d0, I(0xdfce00bc, 0x474a9c8c, 0x1e77fa61), 0, 15, 0xa3014314, 0xdfce00bc) == 0x36594b14
    ensures Turn(0x1e77fa61, I(0x36594b14, 0xdfce00bc, 0x474a9c8c), 0, 21, 0x4e0811a1, 0x36594b14) == 0x30130182
  {
  }

  lemma Empty56(X: seq<bv32>)
    requires EmptyWords(X) && Steps(X, Init(), 56) == Regs(0x5625a114, 0x1e77fa61, 0x392ad0d0, 0x3450f42b)
    ensures Steps(X, Init(), 60) == Regs(0x474a9c8c, 0x30130182, 0x36594b14, 0xdfce00bc)
  {
    hide Turn, F, G, H, I, Steps, Sine, WordIndex, ShiftAmount;
    Entries56();
    Turns56();
    FourSteps(X, Init(), 56, Regs(0x5625a114, 0x1e77fa61, 0x392ad0d0, 0x3450f42b),
              0x474a9c8c, 0xdfce00bc, 0x36594b14, 0x30130182);
  }

  lemma Turns60()
    ensures Turn(0x474a9c8c, I(0x30130182, 0x36594b14, 0xdfce00bc), 0, 6, 0xf7537e82, 0x30130182) == 0x7246fad3
    ensures Turn(0xdfce00bc, I(0x7246fad3, 0x30130182, 0x36594b14), 0, 10, 0xbd3af235, 0x7246fad3) == 0x6e10a476
    ensures Turn(0x36594b14, I(0x6e10a476, 0x7246fad3, 0x30130182), 0, 15, 0x2ad7d2bb, 0x6e10a476) == 0xff4ea3eb
    ensures Turn(0x30130182, I(0xff4ea3eb, 0x6e10a476, 0x7246fad3), 0, 21, 0xeb86d391, 0xff4ea3eb) == 0x14e45506
  {
  }

  lemma Empty60(X: seq<bv32>)
    requires EmptyWords(X) && Steps(X, Init(), 60) == Regs(0x474a9c8c, 0x30130182, 0x36594b14, 0xdfce00bc)
    ensures Steps(X, Init(), 64) == Regs(0x7246fad3, 0x14e45506, 0xff4ea3eb, 0x6e10a476)
  {
    hide Turn, F, G, H, I, Steps, Sine, WordIndex, ShiftAmount;
    Entries60();
    Turns60();
    FourSteps(X, Init(), 60, Regs(0x474a9c8c, 0x30130182, 0x36594b14, 0xdfce00bc),
              0x7246fad3, 0x6e10a476, 0xff4ea3eb, 0x14e45506);
  }

  lemma PaddedWords()
    ensures |[] + Padding(0)| == 64 && EmptyWords(Words([] + Padding(0)))
  {
    hide Padding, WordAt, LengthBytes;
    var p := [] + Padding(0);
    ZeroLength();
    EmptyPadding();
    assert p == Padding(0);
    ZeroWords(p);
    var X := Words(p);
    assert X[0] == 0x80 && forall i: nat | 1 <= i < 16 :: X[i] == WordAt(p, 4 * i) == 0;
  }

  lemma ZeroByte(k: nat)
    requires k < 4
    ensures ByteOf(0, k) == 0
  {
  }

  lemma ZeroLength()
    ensures LengthBytes(0) == [0, 0, 0, 0, 0, 0, 0, 0]
  {
    hide ByteOf;
    assert 8 * 0 % (WORD * WORD) == 0;
    ZeroByte(0);
    ZeroByte(1);
    ZeroByte(2);
    ZeroByte(3);
  }

  lemma EmptyPadding()
    requires LengthBytes(0) == [0, 0, 0, 0, 0, 0, 0, 0]
    ensures |Padding(0)| == 64 && Padding(0)[0] == 0x80 && forall i | 0 < i < 64 :: Padding(0)[i] == 0
  {
    hide LengthBytes;
  }

  lemma ZeroWords(p: seq<bv8>)
    requires |p| == 64 && p[0] == 0x80 && forall i | 0 < i < 64 :: p[i] == 0
    ensures WordAt(p, 0) == 0x80 && forall i: nat | 1 <= i < 16 :: WordAt(p, 4 * i) == 0
  {
  }

  lemma AllSteps(X: seq<bv32>)
    requires EmptyWords(X)
    ensures Steps(X, Init(), 64) == Regs(0x7246fad3, 0x14e45506, 0xff4ea3eb, 0x6e10a476)
  {
    assert Steps(X, Init(), 0) == Init();
    Empty0(X); Empty4(X); Empty8(X); Empty12(X);
    Empty16(X); Empty20(X); Empty24(X); Empty28(X);
    Empty32(X); Empty36(X); Empty40(X); Empty44(X);
    Empty48(X); Empty52(X); Empty56(X); Empty60(X);
  }

  lemma EmptyBytes()
    ensures AddRegs(Init(), Regs(0x7246fad3, 0x14e45506, 0xff4ea3eb, 0x6e10a476))
         == Regs(0xd98c1dd4, 0x04b2008f, 0x980980e9, 0x7e42f8ec)
    ensures RegBytes(0xd98c1dd4) == [0xd4, 0x1d, 0x8c, 0xd9] && RegBytes(0x04b2008f) == [0x8f, 0x00, 0xb2, 0x04]
    ensures RegBytes(0x980980e9) == [0xe9, 0x80, 0x09, 0x98] && RegBytes(0x7e42f8ec) == [0xec, 0xf8, 0x42, 0x7e]
  {
  }

  /** The digest of the empty message. */
  lemma DigestOfNothing()
    ensures Digest([]) == [0xd4, 0x1d, 0x8c, 0xd9, 0x8f, 0x00, 0xb2, 0x04,
                           0xe9, 0x80, 0x09, 0x98, 0xec, 0xf8, 0x42, 0x7e]
  {
    hide Padding, Words, EmptyWords, RegBytes, Steps, AddRegs, Init;
    var block := [] + Padding(0);
    PaddedWords();
    FoldBlock(Init(), block);
    AllSteps(Words(block));
    EmptyBytes();
  }
}
