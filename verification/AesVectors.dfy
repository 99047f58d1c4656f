/** Published values (FIPS 197, appendices C.1 and A.3): the key schedule and the encryption of a
    block round by round with a key of 128 bits, and the two kinds of words with one of 256. */
module AesVectors {
  import opened AesRounds
  import opened AesBlocks
  import opened AesSbox
  import opened AesBytes
  import opened Aes
  import opened AesCbc
  import opened AesSession

  /** A block from its bytes. */
  function Of(b0: bv8, b1: bv8, b2: bv8, b3: bv8, b4: bv8, b5: bv8, b6: bv8, b7: bv8,
              b8: bv8, b9: bv8, ba: bv8, bb: bv8, bc: bv8, bd: bv8, be: bv8, bf: bv8): State {
    Block(Col(b0, b1, b2, b3), Col(b4, b5, b6, b7), Col(b8, b9, ba, bb), Col(bc, bd, be, bf))
  }

  /** The bytes of a buffer fill a block column by column. */
  lemma BlockOfBytes(b: seq<bv8>, at: nat)
    requires at + 16 <= |b|
    ensures BlockAt(b, at) == Of(b[at], b[at + 1], b[at + 2], b[at + 3], b[at + 4], b[at + 5], b[at + 6], b[at + 7],
                                 b[at + 8], b[at + 9], b[at + 10], b[at + 11], b[at + 12], b[at + 13], b[at + 14],
                                 b[at + 15])
  {
  }

  // ---------- one step ----------

  /** SubBytes and ShiftRows, byte by byte: the bytes of a column come from the diagonal. */
  lemma SubShiftOf(b0: bv8, b1: bv8, b2: bv8, b3: bv8, b4: bv8, b5: bv8, b6: bv8, b7: bv8,
                   b8: bv8, b9: bv8, ba: bv8, bb: bv8, bc: bv8, bd: bv8, be: bv8, bf: bv8)
    ensures SubShift(Of(b0, b1, b2, b3, b4, b5, b6, b7, b8, b9, ba, bb, bc, bd, be, bf))
         == Of(Sbox(b0), Sbox(b5), Sbox(ba), Sbox(bf), Sbox(b4), Sbox(b9), Sbox(be), Sbox(b3),
               Sbox(b8), Sbox(bd), Sbox(b2), Sbox(b7), Sbox(bc), Sbox(b1), Sbox(b6), Sbox(bb))
  {
    hide Sbox;
  }

  /** Four successive words of the expanded key. */
  predicate FourKeyWords(key: seq<bv8>, nk: nat, i: nat, k: State)
    requires 0 < nk && 4 * nk <= |key|
  {
    KeyWord(key, nk, i) == k.c0 && KeyWord(key, nk, i + 1) == k.c1
    && KeyWord(key, nk, i + 2) == k.c2 && KeyWord(key, nk, i + 3) == k.c3
  }

  lemma NextKeyWords(key: seq<bv8>, nk: nat, i: nat, before: State, last: Byte4, k: State)
    requires (nk == 4 || nk == 8) && 4 * nk <= |key| && i % 4 == 0 && nk <= i
    requires FourKeyWords(key, nk, i - nk, before) && KeyWord(key, nk, i - 1) == last
    requires k.c0 == XorCol(before.c0, Contribution(nk, i, last)) && k.c1 == XorCol(before.c1, k.c0)
    requires k.c2 == XorCol(before.c2, k.c1) && k.c3 == XorCol(before.c3, k.c2)
    ensures FourKeyWords(key, nk, i, k)
  {
    hide KeyWord, XorCol, SubWord, Contribution;
    KeyWordSteps(key, nk, i);
    KeyWordSteps(key, nk, i + 1);
    KeyWordSteps(key, nk, i + 2);
    KeyWordSteps(key, nk, i + 3);
    PlainWord(nk, i, 1, k.c0);
    PlainWord(nk, i, 2, k.c1);
    PlainWord(nk, i, 3, k.c2);
  }

  lemma KeyItself(key: seq<bv8>, nk: nat, i: nat)
    requires i + 4 <= nk && 4 * nk <= |key|
    ensures FourKeyWords(key, nk, i,
        Of(key[4 * i], key[4 * i + 1], key[4 * i + 2], key[4 * i + 3],
           key[4 * i + 4], key[4 * i + 5], key[4 * i + 6], key[4 * i + 7],
           key[4 * i + 8], key[4 * i + 9], key[4 * i + 10], key[4 * i + 11],
           key[4 * i + 12], key[4 * i + 13], key[4 * i + 14], key[4 * i + 15]))
  {
    hide KeyWord;
    KeyWordSteps(key, nk, i);
    KeyWordSteps(key, nk, i + 1);
    KeyWordSteps(key, nk, i + 2);
    KeyWordSteps(key, nk, i + 3);
  }

  /** Inside a group of four the word before goes in as it is. */
  lemma PlainWord(nk: nat, i: nat, j: nat, before: Byte4)
    requires (nk == 4 || nk == 8) && i % 4 == 0 && nk <= i && 0 < j < 4
    ensures Contribution(nk, i + j, before) == before
  {
    hide Contribution;
    Residues(i, j);
    if nk == 4 {
      NotRotated(4, i + j, before);
    } else {
      NotRotated(8, i + j, before);
    }
  }

  lemma Residues(i: nat, j: nat)
    requires i % 4 == 0 && 0 < j < 4
    ensures (i + j) % 4 != 0 && (i + j) % 8 != 0 && (i + j) % 8 != 4
  {
  }

  lemma NotRotated(nk: nat, i: nat, before: Byte4)
    requires 0 < nk <= i && i % nk != 0 && (nk > 6 ==> i % nk != 4)
    ensures Contribution(nk, i, before) == before
  {
    hide XorCol, SubWord, RotWord, PowerOfTwo;
  }

  /** The state after n rounds. */
  predicate After(keys: seq<State>, plain: State, n: nat, s: State) {
    n < |keys| && Forward(SubShift, MixColumns, AddKey, keys, plain, n) == s
  }

  lemma NextState(keys: seq<State>, plain: State, n: nat, before: State, t: State, key: State, s: State)
    requires 0 < n < |keys| && After(keys, plain, n - 1, before) && SubShift(before) == t && keys[n] == key
    requires s == AddKey(if n < |keys| - 1 then MixColumns(t) else t, key)
    ensures After(keys, plain, n, s)
  {
    hide SubShift, MixColumns, AddKey;
  }

  // ---------- a key of 128 bits ----------

  const KEY_128: seq<bv8> :=
    [0x00, 0x01, 0x02, 0x03, 0x04, 0x05, 0x06, 0x07, 0x08, 0x09, 0x0a, 0x0b, 0x0c, 0x0d, 0x0e, 0x0f]

  lemma Key128_1()
    requires FourKeyWords(KEY_128, 4, 0,
        Of(0x00, 0x01, 0x02, 0x03, 0x04, 0x05, 0x06, 0x07, 0x08, 0x09, 0x0a, 0x0b, 0x0c, 0x0d, 0x0e, 0x0f))
    ensures FourKeyWords(KEY_128, 4, 4,
        Of(0xd6, 0xaa, 0x74, 0xfd, 0xd2, 0xaf, 0x72, 0xfa, 0xda, 0xa6, 0x78, 0xf1, 0xd6, 0xab, 0x76, 0xfe))
  {
    hide KeyWord, Sbox, Xtime, PowerOfTwo;
    RconIsPower(0);
    SboxRow0(0x0c); SboxRow0(0x0d); SboxRow0(0x0e); SboxRow0(0x0f);
    assert Contribution(4, 4, Col(0x0c, 0x0d, 0x0e, 0x0f)) == Col(0xd6, 0xab, 0x76, 0xfe);
    NextKeyWords(KEY_128, 4, 4,
                 Of(0x00, 0x01, 0x02, 0x03, 0x04, 0x05, 0x06, 0x07, 0x08, 0x09, 0x0a, 0x0b, 0x0c, 0x0d, 0x0e, 0x0f),
                 Col(0x0c, 0x0d, 0x0e, 0x0f),
                 Of(0xd6, 0xaa, 0x74, 0xfd, 0xd2, 0xaf, 0x72, 0xfa, 0xda, 0xa6, 0x78, 0xf1, 0xd6, 0xab, 0x76, 0xfe));
  }

  lemma Key128_2()
    requires FourKeyWords(KEY_128, 4, 4,
        Of(0xd6, 0xaa, 0x74, 0xfd, 0xd2, 0xaf, 0x72, 0xfa, 0xda, 0xa6, 0x78, 0xf1, 0xd6, 0xab, 0x76, 0xfe))
    ensures FourKeyWords(KEY_128, 4, 8,
        Of(0xb6, 0x92, 0xcf, 0x0b, 0x64, 0x3d, 0xbd, 0xf1, 0xbe, 0x9b, 0xc5, 0x00, 0x68, 0x30, 0xb3, 0xfe))
  {
    hide KeyWord, Sbox, Xtime, PowerOfTwo;
    RconIsPower(1);
    SboxRow13(0xd6); SboxRow10(0xab); SboxRow7(0x76); SboxRow15(0xfe);
    assert Contribution(4, 8, Col(0xd6, 0xab, 0x76, 0xfe)) == Col(0x60, 0x38, 0xbb, 0xf6);
    NextKeyWords(KEY_128, 4, 8,
                 Of(0xd6, 0xaa, 0x74, 0xfd, 0xd2, 0xaf, 0x72, 0xfa, 0xda, 0xa6, 0x78, 0xf1, 0xd6, 0xab, 0x76, 0xfe),
                 Col(0xd6, 0xab, 0x76, 0xfe),
                 Of(0xb6, 0x92, 0xcf, 0x0b, 0x64, 0x3d, 0xbd, 0xf1, 0xbe, 0x9b, 0xc5, 0x00, 0x68, 0x30, 0xb3, 0xfe));
  }

  lemma Key128_3()
    requires FourKeyWords(KEY_128, 4, 8,
        Of(0xb6, 0x92, 0xcf, 0x0b, 0x64, 0x3d, 0xbd, 0xf1, 0xbe, 0x9b, 0xc5, 0x00, 0x68, 0x30, 0xb3, 0xfe))
    ensures FourKeyWords(KEY_128, 4, 12,
        Of(0xb6, 0xff, 0x74, 0x4e, 0xd2, 0xc2, 0xc9, 0xbf, 0x6c, 0x59, 0x0c, 0xbf, 0x04, 0x69, 0xbf, 0x41))
  {
    hide KeyWord, Sbox, Xtime, PowerOfTwo;
    RconIsPower(2);
    SboxRow6(0x68); SboxRow3(0x30); SboxRow11(0xb3); SboxRow15(0xfe);
    assert Contribution(4, 12, Col(0x68, 0x30, 0xb3, 0xfe)) == Col(0x00, 0x6d, 0xbb, 0x45);
    NextKeyWords(KEY_128, 4, 12,
                 Of(0xb6, 0x92, 0xcf, 0x0b, 0x64, 0x3d, 0xbd, 0xf1, 0xbe, 0x9b, 0xc5, 0x00, 0x68, 0x30, 0xb3, 0xfe),
                 Col(0x68, 0x30, 0xb3, 0xfe),
                 Of(0xb6, 0xff, 0x74, 0x4e, 0xd2, 0xc2, 0xc9, 0xbf, 0x6c, 0x59, 0x0c, 0xbf, 0x04, 0x69, 0xbf, 0x41));
  }

  lemma Key128_4()
    requires FourKeyWords(KEY_128, 4, 12,
        Of(0xb6, 0xff, 0x74, 0x4e, 0xd2, 0xc2, 0xc9, 0xbf, 0x6c, 0x59, 0x0c, 0xbf, 0x04, 0x69, 0xbf, 0x41))
    ensures FourKeyWords(KEY_128, 4, 16,
        Of(0x47, 0xf7, 0xf7, 0xbc, 0x95, 0x35, 0x3e, 0x03, 0xf9, 0x6c, 0x32, 0xbc, 0xfd, 0x05, 0x8d, 0xfd))
  {
    hide KeyWord, Sbox, Xtime, PowerOfTwo;
    RconIsPower(3);
    SboxRow0(0x04); SboxRow6(0x69); SboxRow11(0xbf); SboxRow4(0x41);
    assert Contribution(4, 16, Col(0x04, 0x69, 0xbf, 0x41)) == Col(0xf1, 0x08, 0x83, 0xf2);
    NextKeyWords(KEY_128, 4, 16,
                 Of(0xb6, 0xff, 0x74, 0x4e, 0xd2, 0xc2, 0xc9, 0xbf, 0x6c, 0x59, 0x0c, 0xbf, 0x04, 0x69, 0xbf, 0x41),
                 Col(0x04, 0x69, 0xbf, 0x41),
                 Of(0x47, 0xf7, 0xf7, 0xbc, 0x95, 0x35, 0x3e, 0x03, 0xf9, 0x6c, 0x32, 0xbc, 0xfd, 0x05, 0x8d, 0xfd));
  }

  lemma Key128_5()
    requires FourKeyWords(KEY_128, 4, 16,
        Of(0x47, 0xf7, 0xf7, 0xbc, 0x95, 0x35, 0x3e, 0x03, 0xf9, 0x6c, 0x32, 0xbc, 0xfd, 0x05, 0x8d, 0xfd))
    ensures FourKeyWords(KEY_128, 4, 20,
        Of(0x3c, 0xaa, 0xa3, 0xe8, 0xa9, 0x9f, 0x9d, 0xeb, 0x50, 0xf3, 0xaf, 0x57, 0xad, 0xf6, 0x22, 0xaa))
  {
    hide KeyWord, Sbox, Xtime, PowerOfTwo;
    RconIsPower(4);
    SboxRow15(0xfd); SboxRow0(0x05); SboxRow8(0x8d);
    assert Contribution(4, 20, Col(0xfd, 0x05, 0x8d, 0xfd)) == Col(0x7b, 0x5d, 0x54, 0x54);
    NextKeyWords(KEY_128, 4, 20,
                 Of(0x47, 0xf7, 0xf7, 0xbc, 0x95, 0x35, 0x3e, 0x03, 0xf9, 0x6c, 0x32, 0xbc, 0xfd, 0x05, 0x8d, 0xfd),
                 Col(0xfd, 0x05, 0x8d, 0xfd),
                 Of(0x3c, 0xaa, 0xa3, 0xe8, 0xa9, 0x9f, 0x9d, 0xeb, 0x50, 0xf3, 0xaf, 0x57, 0xad, 0xf6, 0x22, 0xaa));
  }

  lemma Key128_6()
    requires FourKeyWords(KEY_128, 4, 20,
        Of(0x3c, 0xaa, 0xa3, 0xe8, 0xa9, 0x9f, 0x9d, 0xeb, 0x50, 0xf3, 0xaf, 0x57, 0xad, 0xf6, 0x22, 0xaa))
    ensures FourKeyWords(KEY_128, 4, 24,
        Of(0x5e, 0x39, 0x0f, 0x7d, 0xf7, 0xa6, 0x92, 0x96, 0xa7, 0x55, 0x3d, 0xc1, 0x0a, 0xa3, 0x1f, 0x6b))
  {
    hide KeyWord, Sbox, Xtime, PowerOfTwo;
    RconIsPower(5);
    SboxRow10(0xad); SboxRow15(0xf6); SboxRow2(0x22); SboxRow10(0xaa);
    assert Contribution(4, 24, Col(0xad, 0xf6, 0x22, 0xaa)) == Col(0x62, 0x93, 0xac, 0x95);
    NextKeyWords(KEY_128, 4, 24,
                 Of(0x3c, 0xaa, 0xa3, 0xe8, 0xa9, 0x9f, 0x9d, 0xeb, 0x50, 0xf3, 0xaf, 0x57, 0xad, 0xf6, 0x22, 0xaa),
                 Col(0xad, 0xf6, 0x22, 0xaa),
                 Of(0x5e, 0x39, 0x0f, 0x7d, 0xf7, 0xa6, 0x92, 0x96, 0xa7, 0x55, 0x3d, 0xc1, 0x0a, 0xa3, 0x1f, 0x6b));
  }

  lemma Key128_7()
    requires FourKeyWords(KEY_128, 4, 24,
        Of(0x5e, 0x39, 0x0f, 0x7d, 0xf7, 0xa6, 0x92, 0x96, 0xa7, 0x55, 0x3d, 0xc1, 0x0a, 0xa3, 0x1f, 0x6b))
    ensures FourKeyWords(KEY_128, 4, 28,
        Of(0x14, 0xf9, 0x70, 0x1a, 0xe3, 0x5f, 0xe2, 0x8c, 0x44, 0x0a, 0xdf, 0x4d, 0x4e, 0xa9, 0xc0, 0x26))
  {
    hide KeyWord, Sbox, Xtime, PowerOfTwo;
    RconIsPower(6);
    SboxRow0(0x0a); SboxRow10(0xa3); SboxRow1(0x1f); SboxRow6(0x6b);
    assert Contribution(4, 28, Col(0x0a, 0xa3, 0x1f, 0x6b)) == Col(0x4a, 0xc0, 0x7f, 0x67);
    NextKeyWords(KEY_128, 4, 28,
                 Of(0x5e, 0x39, 0x0f, 0x7d, 0xf7, 0xa6, 0x92, 0x96, 0xa7, 0x55, 0x3d, 0xc1, 0x0a, 0xa3, 0x1f, 0x6b),
                 Col(0x0a, 0xa3, 0x1f, 0x6b),
                 Of(0x14, 0xf9, 0x70, 0x1a, 0xe3, 0x5f, 0xe2, 0x8c, 0x44, 0x0a, 0xdf, 0x4d, 0x4e, 0xa9, 0xc0, 0x26));
  }

  lemma Key128_8()
    requires FourKeyWords(KEY_128, 4, 28,
        Of(0x14, 0xf9, 0x70, 0x1a, 0xe3, 0x5f, 0xe2, 0x8c, 0x44, 0x0a, 0xdf, 0x4d, 0x4e, 0xa9, 0xc0, 0x26))
    ensures FourKeyWords(KEY_128, 4, 32,
        Of(0x47, 0x43, 0x87, 0x35, 0xa4, 0x1c, 0x65, 0xb9, 0xe0, 0x16, 0xba, 0xf4, 0xae, 0xbf, 0x7a, 0xd2))
  {
    hide KeyWord, Sbox, Xtime, PowerOfTwo;
    RconIsPower(7);
    SboxRow4(0x4e); SboxRow10(0xa9); SboxRow12(0xc0); SboxRow2(0x26);
    assert Contribution(4, 32, Col(0x4e, 0xa9, 0xc0, 0x26)) == Col(0x53, 0xba, 0xf7, 0x2f);
    NextKeyWords(KEY_128, 4, 32,
                 Of(0x14, 0xf9, 0x70, 0x1a, 0xe3, 0x5f, 0xe2, 0x8c, 0x44, 0x0a, 0xdf, 0x4d, 0x4e, 0xa9, 0xc0, 0x26),
                 Col(0x4e, 0xa9, 0xc0, 0x26),
                 Of(0x47, 0x43, 0x87, 0x35, 0xa4, 0x1c, 0x65, 0xb9, 0xe0, 0x16, 0xba, 0xf4, 0xae, 0xbf, 0x7a, 0xd2));
  }

  lemma Key128_9()
    requires FourKeyWords(KEY_128, 4, 32,
        Of(0x47, 0x43, 0x87, 0x35, 0xa4, 0x1c, 0x65, 0xb9, 0xe0, 0x16, 0xba, 0xf4, 0xae, 0xbf, 0x7a, 0xd2))
    ensures FourKeyWords(KEY_128, 4, 36,
        Of(0x54, 0x99, 0x32, 0xd1, 0xf0, 0x85, 0x57, 0x68, 0x10, 0x93, 0xed, 0x9c, 0xbe, 0x2c, 0x97, 0x4e))
  {
    hide KeyWord, Sbox, Xtime, PowerOfTwo;
    RconIsPower(8);
    SboxRow10(0xae); SboxRow11(0xbf); SboxRow7(0x7a); SboxRow13(0xd2);
    assert Contribution(4, 36, Col(0xae, 0xbf, 0x7a, 0xd2)) == Col(0x13, 0xda, 0xb5, 0xe4);
    NextKeyWords(KEY_128, 4, 36,
                 Of(0x47, 0x43, 0x87, 0x35, 0xa4, 0x1c, 0x65, 0xb9, 0xe0, 0x16, 0xba, 0xf4, 0xae, 0xbf, 0x7a, 0xd2),
                 Col(0xae, 0xbf, 0x7a, 0xd2),
                 Of(0x54, 0x99, 0x32, 0xd1, 0xf0, 0x85, 0x57, 0x68, 0x10, 0x93, 0xed, 0x9c, 0xbe, 0x2c, 0x97, 0x4e));
  }

  lemma Key128_10()
    requires FourKeyWords(KEY_128, 4, 36,
        Of(0x54, 0x99, 0x32, 0xd1, 0xf0, 0x85, 0x57, 0x68, 0x10, 0x93, 0xed, 0x9c, 0xbe, 0x2c, 0x97, 0x4e))
    ensures FourKeyWords(KEY_128, 4, 40,
        Of(0x13, 0x11, 0x1d, 0x7f, 0xe3, 0x94, 0x4a, 0x17, 0xf3, 0x07, 0xa7, 0x8b, 0x4d, 0x2b, 0x30, 0xc5))
  {
    hide KeyWord, Sbox, Xtime, PowerOfTwo;
    RconIsPower(9);
    SboxRow11(0xbe); SboxRow2(0x2c); SboxRow9(0x97); SboxRow4(0x4e);
    assert Contribution(4, 40, Col(0xbe, 0x2c, 0x97, 0x4e)) == Col(0x47, 0x88, 0x2f, 0xae);
    NextKeyWords(KEY_128, 4, 40,
                 Of(0x54, 0x99, 0x32, 0xd1, 0xf0, 0x85, 0x57, 0x68, 0x10, 0x93, 0xed, 0x9c, 0xbe, 0x2c, 0x97, 0x4e),
                 Col(0xbe, 0x2c, 0x97, 0x4e),
                 Of(0x13, 0x11, 0x1d, 0x7f, 0xe3, 0x94, 0x4a, 0x17, 0xf3, 0x07, 0xa7, 0x8b, 0x4d, 0x2b, 0x30, 0xc5));
  }

  lemma Sub1()
    ensures SubShift(Of(0x00, 0x10, 0x20, 0x30, 0x40, 0x50, 0x60, 0x70, 0x80, 0x90, 0xa0, 0xb0, 0xc0, 0xd0, 0xe0, 0xf0))
         == Of(0x63, 0x53, 0xe0, 0x8c, 0x09, 0x60, 0xe1, 0x04, 0xcd, 0x70, 0xb7, 0x51, 0xba, 0xca, 0xd0, 0xe7)
  {
    hide Sbox, SubShift;
    SubShiftOf(0x00, 0x10, 0x20, 0x30, 0x40, 0x50, 0x60, 0x70, 0x80, 0x90, 0xa0, 0xb0, 0xc0, 0xd0, 0xe0, 0xf0);
    SboxRow0(0x00); SboxRow1(0x10); SboxRow2(0x20); SboxRow3(0x30); SboxRow4(0x40); SboxRow5(0x50);
    SboxRow6(0x60); SboxRow7(0x70); SboxRow8(0x80); SboxRow9(0x90); SboxRow10(0xa0); SboxRow11(0xb0);
    SboxRow12(0xc0); SboxRow13(0xd0); SboxRow14(0xe0); SboxRow15(0xf0);
  }

  lemma Add1()
    ensures var t := Of(0x63, 0x53, 0xe0, 0x8c, 0x09, 0x60, 0xe1, 0x04, 0xcd, 0x70, 0xb7, 0x51, 0xba, 0xca, 0xd0, 0xe7);
      AddKey(MixColumns(t),
             Of(0xd6, 0xaa, 0x74, 0xfd, 0xd2, 0xaf, 0x72, 0xfa, 0xda, 0xa6, 0x78, 0xf1, 0xd6, 0xab, 0x76, 0xfe))
      == Of(0x89, 0xd8, 0x10, 0xe8, 0x85, 0x5a, 0xce, 0x68, 0x2d, 0x18, 0x43, 0xd8, 0xcb, 0x12, 0x8f, 0xe4)
  {
  }

  lemma Round1(keys: seq<State>, plain: State)
    requires |keys| == 11 && keys[1]
         == Of(0xd6, 0xaa, 0x74, 0xfd, 0xd2, 0xaf, 0x72, 0xfa, 0xda, 0xa6, 0x78, 0xf1, 0xd6, 0xab, 0x76, 0xfe)
    requires After(keys, plain, 0,
        Of(0x00, 0x10, 0x20, 0x30, 0x40, 0x50, 0x60, 0x70, 0x80, 0x90, 0xa0, 0xb0, 0xc0, 0xd0, 0xe0, 0xf0))
    ensures After(keys, plain, 1,
        Of(0x89, 0xd8, 0x10, 0xe8, 0x85, 0x5a, 0xce, 0x68, 0x2d, 0x18, 0x43, 0xd8, 0xcb, 0x12, 0x8f, 0xe4))
  {
    hide SubShift, MixColumns, AddKey, Of, After;
    Sub1();
    Add1();
    NextState(keys, plain, 1,
              Of(0x00, 0x10, 0x20, 0x30, 0x40, 0x50, 0x60, 0x70, 0x80, 0x90, 0xa0, 0xb0, 0xc0, 0xd0, 0xe0, 0xf0),
              Of(0x63, 0x53, 0xe0, 0x8c, 0x09, 0x60, 0xe1, 0x04, 0xcd, 0x70, 0xb7, 0x51, 0xba, 0xca, 0xd0, 0xe7),
              Of(0xd6, 0xaa, 0x74, 0xfd, 0xd2, 0xaf, 0x72, 0xfa, 0xda, 0xa6, 0x78, 0xf1, 0xd6, 0xab, 0x76, 0xfe),
              Of(0x89, 0xd8, 0x10, 0xe8, 0x85, 0x5a, 0xce, 0x68, 0x2d, 0x18, 0x43, 0xd8, 0xcb, 0x12, 0x8f, 0xe4));
  }

  lemma Sub2()
    ensures SubShift(Of(0x89, 0xd8, 0x10, 0xe8, 0x85, 0x5a, 0xce, 0x68, 0x2d, 0x18, 0x43, 0xd8, 0xcb, 0x12, 0x8f, 0xe4))
         == Of(0xa7, 0xbe, 0x1a, 0x69, 0x97, 0xad, 0x73, 0x9b, 0xd8, 0xc9, 0xca, 0x45, 0x1f, 0x61, 0x8b, 0x61)
  {
    hide Sbox, SubShift;
    SubShiftOf(0x89, 0xd8, 0x10, 0xe8, 0x85, 0x5a, 0xce, 0x68, 0x2d, 0x18, 0x43, 0xd8, 0xcb, 0x12, 0x8f, 0xe4);
    SboxRow8(0x89); SboxRow13(0xd8); SboxRow1(0x10); SboxRow14(0xe8); SboxRow8(0x85); SboxRow5(0x5a);
    SboxRow12(0xce); SboxRow6(0x68); SboxRow2(0x2d); SboxRow1(0x18); SboxRow4(0x43); SboxRow12(0xcb);
    SboxRow1(0x12); SboxRow8(0x8f); SboxRow14(0xe4);
  }

  lemma Add2()
    ensures var t := Of(0xa7, 0xbe, 0x1a, 0x69, 0x97, 0xad, 0x73, 0x9b, 0xd8, 0xc9, 0xca, 0x45, 0x1f, 0x61, 0x8b, 0x61);
      AddKey(MixColumns(t),
             Of(0xb6, 0x92, 0xcf, 0x0b, 0x64, 0x3d, 0xbd, 0xf1, 0xbe, 0x9b, 0xc5, 0x00, 0x68, 0x30, 0xb3, 0xfe))
      == Of(0x49, 0x15, 0x59, 0x8f, 0x55, 0xe5, 0xd7, 0xa0, 0xda, 0xca, 0x94, 0xfa, 0x1f, 0x0a, 0x63, 0xf7)
  {
  }

  lemma Round2(keys: seq<State>, plain: State)
    requires |keys| == 11 && keys[2]
         == Of(0xb6, 0x92, 0xcf, 0x0b, 0x64, 0x3d, 0xbd, 0xf1, 0xbe, 0x9b, 0xc5, 0x00, 0x68, 0x30, 0xb3, 0xfe)
    requires After(keys, plain, 1,
        Of(0x89, 0xd8, 0x10, 0xe8, 0x85, 0x5a, 0xce, 0x68, 0x2d, 0x18, 0x43, 0xd8, 0xcb, 0x12, 0x8f, 0xe4))
    ensures After(keys, plain, 2,
        Of(0x49, 0x15, 0x59, 0x8f, 0x55, 0xe5, 0xd7, 0xa0, 0xda, 0xca, 0x94, 0xfa, 0x1f, 0x0a, 0x63, 0xf7))
  {
    hide SubShift, MixColumns, AddKey, Of, After;
    Sub2();
    Add2();
    NextState(keys, plain, 2,
              Of(0x89, 0xd8, 0x10, 0xe8, 0x85, 0x5a, 0xce, 0x68, 0x2d, 0x18, 0x43, 0xd8, 0xcb, 0x12, 0x8f, 0xe4),
              Of(0xa7, 0xbe, 0x1a, 0x69, 0x97, 0xad, 0x73, 0x9b, 0xd8, 0xc9, 0xca, 0x45, 0x1f, 0x61, 0x8b, 0x61),
              Of(0xb6, 0x92, 0xcf, 0x0b, 0x64, 0x3d, 0xbd, 0xf1, 0xbe, 0x9b, 0xc5, 0x00, 0x68, 0x30, 0xb3, 0xfe),
              Of(0x49, 0x15, 0x59, 0x8f, 0x55, 0xe5, 0xd7, 0xa0, 0xda, 0xca, 0x94, 0xfa, 0x1f, 0x0a, 0x63, 0xf7));
  }

  lemma Sub3()
    ensures SubShift(Of(0x49, 0x15, 0x59, 0x8f, 0x55, 0xe5, 0xd7, 0xa0, 0xda, 0xca, 0x94, 0xfa, 0x1f, 0x0a, 0x63, 0xf7))
         == Of(0x3b, 0xd9, 0x22, 0x68, 0xfc, 0x74, 0xfb, 0x73, 0x57, 0x67, 0xcb, 0xe0, 0xc0, 0x59, 0x0e, 0x2d)
  {
    hide Sbox, SubShift;
    SubShiftOf(0x49, 0x15, 0x59, 0x8f, 0x55, 0xe5, 0xd7, 0xa0, 0xda, 0xca, 0x94, 0xfa, 0x1f, 0x0a, 0x63, 0xf7);
    SboxRow4(0x49); SboxRow1(0x15); SboxRow5(0x59); SboxRow8(0x8f); SboxRow5(0x55); SboxRow14(0xe5);
    SboxRow13(0xd7); SboxRow10(0xa0); SboxRow13(0xda); SboxRow12(0xca); SboxRow9(0x94); SboxRow15(0xfa);
    SboxRow1(0x1f); SboxRow0(0x0a); SboxRow6(0x63); SboxRow15(0xf7);
  }

  lemma Add3()
    ensures var t := Of(0x3b, 0xd9, 0x22, 0x68, 0xfc, 0x74, 0xfb, 0x73, 0x57, 0x67, 0xcb, 0xe0, 0xc0, 0x59, 0x0e, 0x2d);
      AddKey(MixColumns(t),
             Of(0xb6, 0xff, 0x74, 0x4e, 0xd2, 0xc2, 0xc9, 0xbf, 0x6c, 0x59, 0x0c, 0xbf, 0x04, 0x69, 0xbf, 0x41))
      == Of(0xfa, 0x63, 0x6a, 0x28, 0x25, 0xb3, 0x39, 0xc9, 0x40, 0x66, 0x8a, 0x31, 0x57, 0x24, 0x4d, 0x17)
  {
  }

  lemma Round3(keys: seq<State>, plain: State)
    requires |keys| == 11 && keys[3]
         == Of(0xb6, 0xff, 0x74, 0x4e, 0xd2, 0xc2, 0xc9, 0xbf, 0x6c, 0x59, 0x0c, 0xbf, 0x04, 0x69, 0xbf, 0x41)
    requires After(keys, plain, 2,
        Of(0x49, 0x15, 0x59, 0x8f, 0x55, 0xe5, 0xd7, 0xa0, 0xda, 0xca, 0x94, 0xfa, 0x1f, 0x0a, 0x63, 0xf7))
    ensures After(keys, plain, 3,
        Of(0xfa, 0x63, 0x6a, 0x28, 0x25, 0xb3, 0x39, 0xc9, 0x40, 0x66, 0x8a, 0x31, 0x57, 0x24, 0x4d, 0x17))
  {
    hide SubShift, MixColumns, AddKey, Of, After;
    Sub3();
    Add3();
    NextState(keys, plain, 3,
              Of(0x49, 0x15, 0x59, 0x8f, 0x55, 0xe5, 0xd7, 0xa0, 0xda, 0xca, 0x94, 0xfa, 0x1f, 0x0a, 0x63, 0xf7),
              Of(0x3b, 0xd9, 0x22, 0x68, 0xfc, 0x74, 0xfb, 0x73, 0x57, 0x67, 0xcb, 0xe0, 0xc0, 0x59, 0x0e, 0x2d),
              Of(0xb6, 0xff, 0x74, 0x4e, 0xd2, 0xc2, 0xc9, 0xbf, 0x6c, 0x59, 0x0c, 0xbf, 0x04, 0x69, 0xbf, 0x41),
              Of(0xfa, 0x63, 0x6a, 0x28, 0x25, 0xb3, 0x39, 0xc9, 0x40, 0x66, 0x8a, 0x31, 0x57, 0x24, 0x4d, 0x17));
  }

  lemma Looked4()
    ensures Sbox(0xfa) == 0x2d && Sbox(0x63) == 0xfb && Sbox(0x6a) == 0x02 && Sbox(0x28) == 0x34
    ensures Sbox(0x25) == 0x3f && Sbox(0xb3) == 0x6d && Sbox(0x39) == 0x12 && Sbox(0xc9) == 0xdd
  {
    hide Sbox;
    SboxRow15(0xfa); SboxRow6(0x63); SboxRow6(0x6a); SboxRow2(0x28); SboxRow2(0x25); SboxRow11(0xb3);
    SboxRow3(0x39); SboxRow12(0xc9);
  }

  lemma Sub4()
    ensures SubShift(Of(0xfa, 0x63, 0x6a, 0x28, 0x25, 0xb3, 0x39, 0xc9, 0x40, 0x66, 0x8a, 0x31, 0x57, 0x24, 0x4d, 0x17))
         == Of(0x2d, 0x6d, 0x7e, 0xf0, 0x3f, 0x33, 0xe3, 0x34, 0x09, 0x36, 0x02, 0xdd, 0x5b, 0xfb, 0x12, 0xc7)
  {
    hide Sbox, SubShift;
    SubShiftOf(0xfa, 0x63, 0x6a, 0x28, 0x25, 0xb3, 0x39, 0xc9, 0x40, 0x66, 0x8a, 0x31, 0x57, 0x24, 0x4d, 0x17);
    Looked4();
    SboxRow4(0x40); SboxRow6(0x66); SboxRow8(0x8a); SboxRow3(0x31); SboxRow5(0x57); SboxRow2(0x24);
    SboxRow4(0x4d); SboxRow1(0x17);
  }

  lemma Add4()
    ensures var t := Of(0x2d, 0x6d, 0x7e, 0xf0, 0x3f, 0x33, 0xe3, 0x34, 0x09, 0x36, 0x02, 0xdd, 0x5b, 0xfb, 0x12, 0xc7);
      AddKey(MixColumns(t),
             Of(0x47, 0xf7, 0xf7, 0xbc, 0x95, 0x35, 0x3e, 0x03, 0xf9, 0x6c, 0x32, 0xbc, 0xfd, 0x05, 0x8d, 0xfd))
      == Of(0x24, 0x72, 0x40, 0x23, 0x69, 0x66, 0xb3, 0xfa, 0x6e, 0xd2, 0x75, 0x32, 0x88, 0x42, 0x5b, 0x6c)
  {
  }

  lemma Round4(keys: seq<State>, plain: State)
    requires |keys| == 11 && keys[4]
         == Of(0x47, 0xf7, 0xf7, 0xbc, 0x95, 0x35, 0x3e, 0x03, 0xf9, 0x6c, 0x32, 0xbc, 0xfd, 0x05, 0x8d, 0xfd)
    requires After(keys, plain, 3,
        Of(0xfa, 0x63, 0x6a, 0x28, 0x25, 0xb3, 0x39, 0xc9, 0x40, 0x66, 0x8a, 0x31, 0x57, 0x24, 0x4d, 0x17))
    ensures After(keys, plain, 4,
        Of(0x24, 0x72, 0x40, 0x23, 0x69, 0x66, 0xb3, 0xfa, 0x6e, 0xd2, 0x75, 0x32, 0x88, 0x42, 0x5b, 0x6c))
  {
    hide SubShift, MixColumns, AddKey, Of, After;
    Sub4();
    Add4();
    NextState(keys, plain, 4,
              Of(0xfa, 0x63, 0x6a, 0x28, 0x25, 0xb3, 0x39, 0xc9, 0x40, 0x66, 0x8a, 0x31, 0x57, 0x24, 0x4d, 0x17),
              Of(0x2d, 0x6d, 0x7e, 0xf0, 0x3f, 0x33, 0xe3, 0x34, 0x09, 0x36, 0x02, 0xdd, 0x5b, 0xfb, 0x12, 0xc7),
              Of(0x47, 0xf7, 0xf7, 0xbc, 0x95, 0x35, 0x3e, 0x03, 0xf9, 0x6c, 0x32, 0xbc, 0xfd, 0x05, 0x8d, 0xfd),
              Of(0x24, 0x72, 0x40, 0x23, 0x69, 0x66, 0xb3, 0xfa, 0x6e, 0xd2, 0x75, 0x32, 0x88, 0x42, 0x5b, 0x6c));
  }

  lemma Sub5()
    ensures SubShift(Of(0x24, 0x72, 0x40, 0x23, 0x69, 0x66, 0xb3, 0xfa, 0x6e, 0xd2, 0x75, 0x32, 0x88, 0x42, 0x5b, 0x6c))
         == Of(0x36, 0x33, 0x9d, 0x50, 0xf9, 0xb5, 0x39, 0x26, 0x9f, 0x2c, 0x09, 0x2d, 0xc4, 0x40, 0x6d, 0x23)
  {
    hide Sbox, SubShift;
    SubShiftOf(0x24, 0x72, 0x40, 0x23, 0x69, 0x66, 0xb3, 0xfa, 0x6e, 0xd2, 0x75, 0x32, 0x88, 0x42, 0x5b, 0x6c);
    SboxRow2(0x24); SboxRow7(0x72); SboxRow4(0x40); SboxRow2(0x23); SboxRow6(0x69); SboxRow6(0x66);
    SboxRow11(0xb3); SboxRow15(0xfa); SboxRow6(0x6e); SboxRow13(0xd2); SboxRow7(0x75); SboxRow3(0x32);
    SboxRow8(0x88); SboxRow4(0x42); SboxRow5(0x5b); SboxRow6(0x6c);
  }

  lemma Add5()
    ensures var t := Of(0x36, 0x33, 0x9d, 0x50, 0xf9, 0xb5, 0x39, 0x26, 0x9f, 0x2c, 0x09, 0x2d, 0xc4, 0x40, 0x6d, 0x23);
      AddKey(MixColumns(t),
             Of(0x3c, 0xaa, 0xa3, 0xe8, 0xa9, 0x9f, 0x9d, 0xeb, 0x50, 0xf3, 0xaf, 0x57, 0xad, 0xf6, 0x22, 0xaa))
      == Of(0xc8, 0x16, 0x77, 0xbc, 0x9b, 0x7a, 0xc9, 0x3b, 0x25, 0x02, 0x79, 0x92, 0xb0, 0x26, 0x19, 0x96)
  {
  }

  lemma Round5(keys: seq<State>, plain: State)
    requires |keys| == 11 && keys[5]
         == Of(0x3c, 0xaa, 0xa3, 0xe8, 0xa9, 0x9f, 0x9d, 0xeb, 0x50, 0xf3, 0xaf, 0x57, 0xad, 0xf6, 0x22, 0xaa)
    requires After(keys, plain, 4,
        Of(0x24, 0x72, 0x40, 0x23, 0x69, 0x66, 0xb3, 0xfa, 0x6e, 0xd2, 0x75, 0x32, 0x88, 0x42, 0x5b, 0x6c))
    ensures After(keys, plain, 5,
        Of(0xc8, 0x16, 0x77, 0xbc, 0x9b, 0x7a, 0xc9, 0x3b, 0x25, 0x02, 0x79, 0x92, 0xb0, 0x26, 0x19, 0x96))
  {
    hide SubShift, MixColumns, AddKey, Of, After;
    Sub5();
    Add5();
    NextState(keys, plain, 5,
              Of(0x24, 0x72, 0x40, 0x23, 0x69, 0x66, 0xb3, 0xfa, 0x6e, 0xd2, 0x75, 0x32, 0x88, 0x42, 0x5b, 0x6c),
              Of(0x36, 0x33, 0x9d, 0x50, 0xf9, 0xb5, 0x39, 0x26, 0x9f, 0x2c, 0x09, 0x2d, 0xc4, 0x40, 0x6d, 0x23),
              Of(0x3c, 0xaa, 0xa3, 0xe8, 0xa9, 0x9f, 0x9d, 0xeb, 0x50, 0xf3, 0xaf, 0x57, 0xad, 0xf6, 0x22, 0xaa),
              Of(0xc8, 0x16, 0x77, 0xbc, 0x9b, 0x7a, 0xc9, 0x3b, 0x25, 0x02, 0x79, 0x92, 0xb0, 0x26, 0x19, 0x96));
  }

  lemma Sub6()
    ensures SubShift(Of(0xc8, 0x16, 0x77, 0xbc, 0x9b, 0x7a, 0xc9, 0x3b, 0x25, 0x02, 0x79, 0x92, 0xb0, 0x26, 0x19, 0x96))
         == Of(0xe8, 0xda, 0xb6, 0x90, 0x14, 0x77, 0xd4, 0x65, 0x3f, 0xf7, 0xf5, 0xe2, 0xe7, 0x47, 0xdd, 0x4f)
  {
    hide Sbox, SubShift;
    SubShiftOf(0xc8, 0x16, 0x77, 0xbc, 0x9b, 0x7a, 0xc9, 0x3b, 0x25, 0x02, 0x79, 0x92, 0xb0, 0x26, 0x19, 0x96);
    SboxRow12(0xc8); SboxRow1(0x16); SboxRow7(0x77); SboxRow11(0xbc); SboxRow9(0x9b); SboxRow7(0x7a);
    SboxRow12(0xc9); SboxRow3(0x3b); SboxRow2(0x25); SboxRow0(0x02); SboxRow7(0x79); SboxRow9(0x92);
    SboxRow11(0xb0); SboxRow2(0x26); SboxRow1(0x19); SboxRow9(0x96);
  }

  lemma Add6()
    ensures var t := Of(0xe8, 0xda, 0xb6, 0x90, 0x14, 0x77, 0xd4, 0x65, 0x3f, 0xf7, 0xf5, 0xe2, 0xe7, 0x47, 0xdd, 0x4f);
      AddKey(MixColumns(t),
             Of(0x5e, 0x39, 0x0f, 0x7d, 0xf7, 0xa6, 0x92, 0x96, 0xa7, 0x55, 0x3d, 0xc1, 0x0a, 0xa3, 0x1f, 0x6b))
      == Of(0xc6, 0x2f, 0xe1, 0x09, 0xf7, 0x5e, 0xed, 0xc3, 0xcc, 0x79, 0x39, 0x5d, 0x84, 0xf9, 0xcf, 0x5d)
  {
  }

  lemma Round6(keys: seq<State>, plain: State)
    requires |keys| == 11 && keys[6]
         == Of(0x5e, 0x39, 0x0f, 0x7d, 0xf7, 0xa6, 0x92, 0x96, 0xa7, 0x55, 0x3d, 0xc1, 0x0a, 0xa3, 0x1f, 0x6b)
    requires After(keys, plain, 5,
        Of(0xc8, 0x16, 0x77, 0xbc, 0x9b, 0x7a, 0xc9, 0x3b, 0x25, 0x02, 0x79, 0x92, 0xb0, 0x26, 0x19, 0x96))
    ensures After(keys, plain, 6,
        Of(0xc6, 0x2f, 0xe1, 0x09, 0xf7, 0x5e, 0xed, 0xc3, 0xcc, 0x79, 0x39, 0x5d, 0x84, 0xf9, 0xcf, 0x5d))
  {
    hide SubShift, MixColumns, AddKey, Of, After;
    Sub6();
    Add6();
    NextState(keys, plain, 6,
              Of(0xc8, 0x16, 0x77, 0xbc, 0x9b, 0x7a, 0xc9, 0x3b, 0x25, 0x02, 0x79, 0x92, 0xb0, 0x26, 0x19, 0x96),
              Of(0xe8, 0xda, 0xb6, 0x90, 0x14, 0x77, 0xd4, 0x65, 0x3f, 0xf7, 0xf5, 0xe2, 0xe7, 0x47, 0xdd, 0x4f),
              Of(0x5e, 0x39, 0x0f, 0x7d, 0xf7, 0xa6, 0x92, 0x96, 0xa7, 0x55, 0x3d, 0xc1, 0x0a, 0xa3, 0x1f, 0x6b),
              Of(0xc6, 0x2f, 0xe1, 0x09, 0xf7, 0x5e, 0xed, 0xc3, 0xcc, 0x79, 0x39, 0x5d, 0x84, 0xf9, 0xcf, 0x5d));
  }

  lemma Looked7()
    ensures Sbox(0xc6) == 0xb4 && Sbox(0x2f) == 0x15 && Sbox(0xe1) == 0xf8 && Sbox(0x09) == 0x01
    ensures Sbox(0xf7) == 0x68 && Sbox(0x5e) == 0x58 && Sbox(0xed) == 0x55
  {
    hide Sbox;
    SboxRow12(0xc6); SboxRow2(0x2f); SboxRow14(0xe1); SboxRow0(0x09); SboxRow15(0xf7); SboxRow5(0x5e);
    SboxRow14(0xed);
  }

  lemma Sub7()
    ensures SubShift(Of(0xc6, 0x2f, 0xe1, 0x09, 0xf7, 0x5e, 0xed, 0xc3, 0xcc, 0x79, 0x39, 0x5d, 0x84, 0xf9, 0xcf, 0x5d))
         == Of(0xb4, 0x58, 0x12, 0x4c, 0x68, 0xb6, 0x8a, 0x01, 0x4b, 0x99, 0xf8, 0x2e, 0x5f, 0x15, 0x55, 0x4c)
  {
    hide Sbox, SubShift;
    SubShiftOf(0xc6, 0x2f, 0xe1, 0x09, 0xf7, 0x5e, 0xed, 0xc3, 0xcc, 0x79, 0x39, 0x5d, 0x84, 0xf9, 0xcf, 0x5d);
    Looked7();
    SboxRow12(0xc3); SboxRow12(0xcc); SboxRow7(0x79); SboxRow3(0x39); SboxRow5(0x5d); SboxRow8(0x84);
    SboxRow15(0xf9); SboxRow12(0xcf);
  }

  lemma Add7()
    ensures var t := Of(0xb4, 0x58, 0x12, 0x4c, 0x68, 0xb6, 0x8a, 0x01, 0x4b, 0x99, 0xf8, 0x2e, 0x5f, 0x15, 0x55, 0x4c);
      AddKey(MixColumns(t),
             Of(0x14, 0xf9, 0x70, 0x1a, 0xe3, 0x5f, 0xe2, 0x8c, 0x44, 0x0a, 0xdf, 0x4d, 0x4e, 0xa9, 0xc0, 0x26))
      == Of(0xd1, 0x87, 0x6c, 0x0f, 0x79, 0xc4, 0x30, 0x0a, 0xb4, 0x55, 0x94, 0xad, 0xd6, 0x6f, 0xf4, 0x1f)
  {
  }

  lemma Round7(keys: seq<State>, plain: State)
    requires |keys| == 11 && keys[7]
         == Of(0x14, 0xf9, 0x70, 0x1a, 0xe3, 0x5f, 0xe2, 0x8c, 0x44, 0x0a, 0xdf, 0x4d, 0x4e, 0xa9, 0xc0, 0x26)
    requires After(keys, plain, 6,
        Of(0xc6, 0x2f, 0xe1, 0x09, 0xf7, 0x5e, 0xed, 0xc3, 0xcc, 0x79, 0x39, 0x5d, 0x84, 0xf9, 0xcf, 0x5d))
    ensures After(keys, plain, 7,
        Of(0xd1, 0x87, 0x6c, 0x0f, 0x79, 0xc4, 0x30, 0x0a, 0xb4, 0x55, 0x94, 0xad, 0xd6, 0x6f, 0xf4, 0x1f))
  {
    hide SubShift, MixColumns, AddKey, Of, After;
    Sub7();
    Add7();
    NextState(keys, plain, 7,
              Of(0xc6, 0x2f, 0xe1, 0x09, 0xf7, 0x5e, 0xed, 0xc3, 0xcc, 0x79, 0x39, 0x5d, 0x84, 0xf9, 0xcf, 0x5d),
              Of(0xb4, 0x58, 0x12, 0x4c, 0x68, 0xb6, 0x8a, 0x01, 0x4b, 0x99, 0xf8, 0x2e, 0x5f, 0x15, 0x55, 0x4c),
              Of(0x14, 0xf9, 0x70, 0x1a, 0xe3, 0x5f, 0xe2, 0x8c, 0x44, 0x0a, 0xdf, 0x4d, 0x4e, 0xa9, 0xc0, 0x26),
              Of(0xd1, 0x87, 0x6c, 0x0f, 0x79, 0xc4, 0x30, 0x0a, 0xb4, 0x55, 0x94, 0xad, 0xd6, 0x6f, 0xf4, 0x1f));
  }

  lemma Looked8()
    ensures Sbox(0xd1) == 0x3e && Sbox(0x87) == 0x17 && Sbox(0x6c) == 0x50 && Sbox(0x0f) == 0x76
    ensures Sbox(0x79) == 0xb6 && Sbox(0xc4) == 0x1c && Sbox(0x30) == 0x04 && Sbox(0x0a) == 0x67
  {
    hide Sbox;
    SboxRow13(0xd1); SboxRow8(0x87); SboxRow6(0x6c); SboxRow0(0x0f); SboxRow7(0x79); SboxRow12(0xc4);
    SboxRow3(0x30); SboxRow0(0x0a);
  }

  lemma Sub8()
    ensures SubShift(Of(0xd1, 0x87, 0x6c, 0x0f, 0x79, 0xc4, 0x30, 0x0a, 0xb4, 0x55, 0x94, 0xad, 0xd6, 0x6f, 0xf4, 0x1f))
         == Of(0x3e, 0x1c, 0x22, 0xc0, 0xb6, 0xfc, 0xbf, 0x76, 0x8d, 0xa8, 0x50, 0x67, 0xf6, 0x17, 0x04, 0x95)
  {
    hide Sbox, SubShift;
    SubShiftOf(0xd1, 0x87, 0x6c, 0x0f, 0x79, 0xc4, 0x30, 0x0a, 0xb4, 0x55, 0x94, 0xad, 0xd6, 0x6f, 0xf4, 0x1f);
    Looked8();
    SboxRow11(0xb4); SboxRow5(0x55); SboxRow9(0x94); SboxRow10(0xad); SboxRow13(0xd6); SboxRow6(0x6f);
    SboxRow15(0xf4); SboxRow1(0x1f);
  }

  lemma Add8()
    ensures var t := Of(0x3e, 0x1c, 0x22, 0xc0, 0xb6, 0xfc, 0xbf, 0x76, 0x8d, 0xa8, 0x50, 0x67, 0xf6, 0x17, 0x04, 0x95);
      AddKey(MixColumns(t),
             Of(0x47, 0x43, 0x87, 0x35, 0xa4, 0x1c, 0x65, 0xb9, 0xe0, 0x16, 0xba, 0xf4, 0xae, 0xbf, 0x7a, 0xd2))
      == Of(0xfd, 0xe3, 0xba, 0xd2, 0x05, 0xe5, 0xd0, 0xd7, 0x35, 0x47, 0x96, 0x4e, 0xf1, 0xfe, 0x37, 0xf1)
  {
  }

  lemma Round8(keys: seq<State>, plain: State)
    requires |keys| == 11 && keys[8]
         == Of(0x47, 0x43, 0x87, 0x35, 0xa4, 0x1c, 0x65, 0xb9, 0xe0, 0x16, 0xba, 0xf4, 0xae, 0xbf, 0x7a, 0xd2)
    requires After(keys, plain, 7,
        Of(0xd1, 0x87, 0x6c, 0x0f, 0x79, 0xc4, 0x30, 0x0a, 0xb4, 0x55, 0x94, 0xad, 0xd6, 0x6f, 0xf4, 0x1f))
    ensures After(keys, plain, 8,
        Of(0xfd, 0xe3, 0xba, 0xd2, 0x05, 0xe5, 0xd0, 0xd7, 0x35, 0x47, 0x96, 0x4e, 0xf1, 0xfe, 0x37, 0xf1))
  {
    hide SubShift, MixColumns, AddKey, Of, After;
    Sub8();
    Add8();
    NextState(keys, plain, 8,
              Of(0xd1, 0x87, 0x6c, 0x0f, 0x79, 0xc4, 0x30, 0x0a, 0xb4, 0x55, 0x94, 0xad, 0xd6, 0x6f, 0xf4, 0x1f),
              Of(0x3e, 0x1c, 0x22, 0xc0, 0xb6, 0xfc, 0xbf, 0x76, 0x8d, 0xa8, 0x50, 0x67, 0xf6, 0x17, 0x04, 0x95),
              Of(0x47, 0x43, 0x87, 0x35, 0xa4, 0x1c, 0x65, 0xb9, 0xe0, 0x16, 0xba, 0xf4, 0xae, 0xbf, 0x7a, 0xd2),
              Of(0xfd, 0xe3, 0xba, 0xd2, 0x05, 0xe5, 0xd0, 0xd7, 0x35, 0x47, 0x96, 0x4e, 0xf1, 0xfe, 0x37, 0xf1));
  }

  lemma Sub9()
    ensures SubShift(Of(0xfd, 0xe3, 0xba, 0xd2, 0x05, 0xe5, 0xd0, 0xd7, 0x35, 0x47, 0x96, 0x4e, 0xf1, 0xfe, 0x37, 0xf1))
         == Of(0x54, 0xd9, 0x90, 0xa1, 0x6b, 0xa0, 0x9a, 0xb5, 0x96, 0xbb, 0xf4, 0x0e, 0xa1, 0x11, 0x70, 0x2f)
  {
    hide Sbox, SubShift;
    SubShiftOf(0xfd, 0xe3, 0xba, 0xd2, 0x05, 0xe5, 0xd0, 0xd7, 0x35, 0x47, 0x96, 0x4e, 0xf1, 0xfe, 0x37, 0xf1);
    SboxRow15(0xfd); SboxRow14(0xe3); SboxRow11(0xba); SboxRow13(0xd2); SboxRow0(0x05); SboxRow14(0xe5);
    SboxRow13(0xd0); SboxRow13(0xd7); SboxRow3(0x35); SboxRow4(0x47); SboxRow9(0x96); SboxRow4(0x4e);
    SboxRow15(0xf1); SboxRow15(0xfe); SboxRow3(0x37);
  }

  lemma Add9()
    ensures var t := Of(0x54, 0xd9, 0x90, 0xa1, 0x6b, 0xa0, 0x9a, 0xb5, 0x96, 0xbb, 0xf4, 0x0e, 0xa1, 0x11, 0x70, 0x2f);
      AddKey(MixColumns(t),
             Of(0x54, 0x99, 0x32, 0xd1, 0xf0, 0x85, 0x57, 0x68, 0x10, 0x93, 0xed, 0x9c, 0xbe, 0x2c, 0x97, 0x4e))
      == Of(0xbd, 0x6e, 0x7c, 0x3d, 0xf2, 0xb5, 0x77, 0x9e, 0x0b, 0x61, 0x21, 0x6e, 0x8b, 0x10, 0xb6, 0x89)
  {
  }

  lemma Round9(keys: seq<State>, plain: State)
    requires |keys| == 11 && keys[9]
         == Of(0x54, 0x99, 0x32, 0xd1, 0xf0, 0x85, 0x57, 0x68, 0x10, 0x93, 0xed, 0x9c, 0xbe, 0x2c, 0x97, 0x4e)
    requires After(keys, plain, 8,
        Of(0xfd, 0xe3, 0xba, 0xd2, 0x05, 0xe5, 0xd0, 0xd7, 0x35, 0x47, 0x96, 0x4e, 0xf1, 0xfe, 0x37, 0xf1))
    ensures After(keys, plain, 9,
        Of(0xbd, 0x6e, 0x7c, 0x3d, 0xf2, 0xb5, 0x77, 0x9e, 0x0b, 0x61, 0x21, 0x6e, 0x8b, 0x10, 0xb6, 0x89))
  {
    hide SubShift, MixColumns, AddKey, Of, After;
    Sub9();
    Add9();
    NextState(keys, plain, 9,
              Of(0xfd, 0xe3, 0xba, 0xd2, 0x05, 0xe5, 0xd0, 0xd7, 0x35, 0x47, 0x96, 0x4e, 0xf1, 0xfe, 0x37, 0xf1),
              Of(0x54, 0xd9, 0x90, 0xa1, 0x6b, 0xa0, 0x9a, 0xb5, 0x96, 0xbb, 0xf4, 0x0e, 0xa1, 0x11, 0x70, 0x2f),
              Of(0x54, 0x99, 0x32, 0xd1, 0xf0, 0x85, 0x57, 0x68, 0x10, 0x93, 0xed, 0x9c, 0xbe, 0x2c, 0x97, 0x4e),
              Of(0xbd, 0x6e, 0x7c, 0x3d, 0xf2, 0xb5, 0x77, 0x9e, 0x0b, 0x61, 0x21, 0x6e, 0x8b, 0x10, 0xb6, 0x89));
  }

  lemma Sub10()
    ensures SubShift(Of(0xbd, 0x6e, 0x7c, 0x3d, 0xf2, 0xb5, 0x77, 0x9e, 0x0b, 0x61, 0x21, 0x6e, 0x8b, 0x10, 0xb6, 0x89))
         == Of(0x7a, 0xd5, 0xfd, 0xa7, 0x89, 0xef, 0x4e, 0x27, 0x2b, 0xca, 0x10, 0x0b, 0x3d, 0x9f, 0xf5, 0x9f)
  {
    hide Sbox, SubShift;
    SubShiftOf(0xbd, 0x6e, 0x7c, 0x3d, 0xf2, 0xb5, 0x77, 0x9e, 0x0b, 0x61, 0x21, 0x6e, 0x8b, 0x10, 0xb6, 0x89);
    SboxRow11(0xbd); SboxRow6(0x6e); SboxRow7(0x7c); SboxRow3(0x3d); SboxRow15(0xf2); SboxRow11(0xb5);
    SboxRow7(0x77); SboxRow9(0x9e); SboxRow0(0x0b); SboxRow6(0x61); SboxRow2(0x21); SboxRow8(0x8b);
    SboxRow1(0x10); SboxRow11(0xb6); SboxRow8(0x89);
  }

  lemma Add10()
    ensures AddKey(Of(0x7a, 0xd5, 0xfd, 0xa7, 0x89, 0xef, 0x4e, 0x27, 0x2b, 0xca, 0x10, 0x0b, 0x3d, 0x9f, 0xf5, 0x9f),
                   Of(0x13, 0x11, 0x1d, 0x7f, 0xe3, 0x94, 0x4a, 0x17, 0xf3, 0x07, 0xa7, 0x8b, 0x4d, 0x2b, 0x30, 0xc5))
         == Of(0x69, 0xc4, 0xe0, 0xd8, 0x6a, 0x7b, 0x04, 0x30, 0xd8, 0xcd, 0xb7, 0x80, 0x70, 0xb4, 0xc5, 0x5a)
  {
  }

  lemma Round10(keys: seq<State>, plain: State)
    requires |keys| == 11 && keys[10]
         == Of(0x13, 0x11, 0x1d, 0x7f, 0xe3, 0x94, 0x4a, 0x17, 0xf3, 0x07, 0xa7, 0x8b, 0x4d, 0x2b, 0x30, 0xc5)
    requires After(keys, plain, 9,
        Of(0xbd, 0x6e, 0x7c, 0x3d, 0xf2, 0xb5, 0x77, 0x9e, 0x0b, 0x61, 0x21, 0x6e, 0x8b, 0x10, 0xb6, 0x89))
    ensures After(keys, plain, 10,
        Of(0x69, 0xc4, 0xe0, 0xd8, 0x6a, 0x7b, 0x04, 0x30, 0xd8, 0xcd, 0xb7, 0x80, 0x70, 0xb4, 0xc5, 0x5a))
  {
    hide SubShift, MixColumns, AddKey, Of, After;
    Sub10();
    Add10();
    NextState(keys, plain, 10,
              Of(0xbd, 0x6e, 0x7c, 0x3d, 0xf2, 0xb5, 0x77, 0x9e, 0x0b, 0x61, 0x21, 0x6e, 0x8b, 0x10, 0xb6, 0x89),
              Of(0x7a, 0xd5, 0xfd, 0xa7, 0x89, 0xef, 0x4e, 0x27, 0x2b, 0xca, 0x10, 0x0b, 0x3d, 0x9f, 0xf5, 0x9f),
              Of(0x13, 0x11, 0x1d, 0x7f, 0xe3, 0x94, 0x4a, 0x17, 0xf3, 0x07, 0xa7, 0x8b, 0x4d, 0x2b, 0x30, 0xc5),
              Of(0x69, 0xc4, 0xe0, 0xd8, 0x6a, 0x7b, 0x04, 0x30, 0xd8, 0xcd, 0xb7, 0x80, 0x70, 0xb4, 0xc5, 0x5a));
  }

  lemma KeyPart128_0()
    ensures FourKeyWords(KEY_128, 4, 0,
        Of(0x00, 0x01, 0x02, 0x03, 0x04, 0x05, 0x06, 0x07, 0x08, 0x09, 0x0a, 0x0b, 0x0c, 0x0d, 0x0e, 0x0f))
  {
    hide KeyWord;
    KeyItself(KEY_128, 4, 0);
  }

  lemma Keys128()
    ensures var keys := Schedule(KEY_128, Mode128);
      && |keys| == 11
      && keys[0] == Of(0x00, 0x01, 0x02, 0x03, 0x04, 0x05, 0x06, 0x07, 0x08, 0x09, 0x0a, 0x0b, 0x0c, 0x0d, 0x0e, 0x0f)
      && keys[1] == Of(0xd6, 0xaa, 0x74, 0xfd, 0xd2, 0xaf, 0x72, 0xfa, 0xda, 0xa6, 0x78, 0xf1, 0xd6, 0xab, 0x76, 0xfe)
      && keys[2] == Of(0xb6, 0x92, 0xcf, 0x0b, 0x64, 0x3d, 0xbd, 0xf1, 0xbe, 0x9b, 0xc5, 0x00, 0x68, 0x30, 0xb3, 0xfe)
      && keys[3] == Of(0xb6, 0xff, 0x74, 0x4e, 0xd2, 0xc2, 0xc9, 0xbf, 0x6c, 0x59, 0x0c, 0xbf, 0x04, 0x69, 0xbf, 0x41)
      && keys[4] == Of(0x47, 0xf7, 0xf7, 0xbc, 0x95, 0x35, 0x3e, 0x03, 0xf9, 0x6c, 0x32, 0xbc, 0xfd, 0x05, 0x8d, 0xfd)
      && keys[5] == Of(0x3c, 0xaa, 0xa3, 0xe8, 0xa9, 0x9f, 0x9d, 0xeb, 0x50, 0xf3, 0xaf, 0x57, 0xad, 0xf6, 0x22, 0xaa)
      && keys[6] == Of(0x5e, 0x39, 0x0f, 0x7d, 0xf7, 0xa6, 0x92, 0x96, 0xa7, 0x55, 0x3d, 0xc1, 0x0a, 0xa3, 0x1f, 0x6b)
      && keys[7] == Of(0x14, 0xf9, 0x70, 0x1a, 0xe3, 0x5f, 0xe2, 0x8c, 0x44, 0x0a, 0xdf, 0x4d, 0x4e, 0xa9, 0xc0, 0x26)
      && keys[8] == Of(0x47, 0x43, 0x87, 0x35, 0xa4, 0x1c, 0x65, 0xb9, 0xe0, 0x16, 0xba, 0xf4, 0xae, 0xbf, 0x7a, 0xd2)
      && keys[9] == Of(0x54, 0x99, 0x32, 0xd1, 0xf0, 0x85, 0x57, 0x68, 0x10, 0x93, 0xed, 0x9c, 0xbe, 0x2c, 0x97, 0x4e)
      && keys[10] == Of(0x13, 0x11, 0x1d, 0x7f, 0xe3, 0x94, 0x4a, 0x17, 0xf3, 0x07, 0xa7, 0x8b, 0x4d, 0x2b, 0x30, 0xc5)
  {
    hide KeyWord, Of;
    KeyPart128_0();
    Key128_1(); Key128_2(); Key128_3(); Key128_4(); Key128_5(); Key128_6(); Key128_7();
    Key128_8(); Key128_9(); Key128_10();
  }

  const PLAIN: seq<bv8> :=
    [0x00, 0x11, 0x22, 0x33, 0x44, 0x55, 0x66, 0x77, 0x88, 0x99, 0xaa, 0xbb, 0xcc, 0xdd, 0xee, 0xff]

  const CIPHER: seq<bv8> :=
    [0x69, 0xc4, 0xe0, 0xd8, 0x6a, 0x7b, 0x04, 0x30, 0xd8, 0xcd, 0xb7, 0x80, 0x70, 0xb4, 0xc5, 0x5a]

  /** The bytes of appendix C.1. */
  lemma EncryptsBytes()
    ensures EncryptWith(Schedule(KEY_128, Mode128))(BlockAt(PLAIN, 0)) == BlockAt(CIPHER, 0)
  {
    hide Schedule, EncryptWith, BlockAt;
    Encrypts128();
    BlockOfBytes(PLAIN, 0);
    BlockOfBytes(CIPHER, 0);
  }

  /** The block of appendix C.1. */
  lemma Encrypts128()
    ensures EncryptWith(Schedule(KEY_128, Mode128))(
              Of(0x00, 0x11, 0x22, 0x33, 0x44, 0x55, 0x66, 0x77, 0x88, 0x99, 0xaa, 0xbb, 0xcc, 0xdd, 0xee, 0xff))
         == Of(0x69, 0xc4, 0xe0, 0xd8, 0x6a, 0x7b, 0x04, 0x30, 0xd8, 0xcd, 0xb7, 0x80, 0x70, 0xb4, 0xc5, 0x5a)
  {
    hide SubShift, MixColumns, AddKey, Of, Schedule;
    var keys := Schedule(KEY_128, Mode128);
    var plain := Of(0x00, 0x11, 0x22, 0x33, 0x44, 0x55, 0x66, 0x77, 0x88, 0x99, 0xaa, 0xbb, 0xcc, 0xdd, 0xee, 0xff);
    Keys128();
    First128();
    Round1(keys, plain); Round2(keys, plain); Round3(keys, plain); Round4(keys, plain);
    Round5(keys, plain); Round6(keys, plain); Round7(keys, plain); Round8(keys, plain);
    Round9(keys, plain); Round10(keys, plain);
  }

  lemma First128()
    ensures AddKey(Of(0x00, 0x11, 0x22, 0x33, 0x44, 0x55, 0x66, 0x77, 0x88, 0x99, 0xaa, 0xbb, 0xcc, 0xdd, 0xee, 0xff),
                   Of(0x00, 0x01, 0x02, 0x03, 0x04, 0x05, 0x06, 0x07, 0x08, 0x09, 0x0a, 0x0b, 0x0c, 0x0d, 0x0e, 0x0f))
         == Of(0x00, 0x10, 0x20, 0x30, 0x40, 0x50, 0x60, 0x70, 0x80, 0x90, 0xa0, 0xb0, 0xc0, 0xd0, 0xe0, 0xf0)
  {
  }

  // ---------- a key of 256 bits ----------

  const KEY_256: seq<bv8> :=
    [0x60, 0x3d, 0xeb, 0x10, 0x15, 0xca, 0x71, 0xbe, 0x2b, 0x73, 0xae, 0xf0, 0x85, 0x7d, 0x77, 0x81,
     0x1f, 0x35, 0x2c, 0x07, 0x3b, 0x61, 0x08, 0xd7, 0x2d, 0x98, 0x10, 0xa3, 0x09, 0x14, 0xdf, 0xf4]

  lemma Key256_2()
    requires FourKeyWords(KEY_256, 8, 0,
        Of(0x60, 0x3d, 0xeb, 0x10, 0x15, 0xca, 0x71, 0xbe, 0x2b, 0x73, 0xae, 0xf0, 0x85, 0x7d, 0x77, 0x81))
    requires FourKeyWords(KEY_256, 8, 4,
        Of(0x1f, 0x35, 0x2c, 0x07, 0x3b, 0x61, 0x08, 0xd7, 0x2d, 0x98, 0x10, 0xa3, 0x09, 0x14, 0xdf, 0xf4))
    ensures FourKeyWords(KEY_256, 8, 8,
        Of(0x9b, 0xa3, 0x54, 0x11, 0x8e, 0x69, 0x25, 0xaf, 0xa5, 0x1a, 0x8b, 0x5f, 0x20, 0x67, 0xfc, 0xde))
  {
    hide KeyWord, Sbox, Xtime, PowerOfTwo;
    RconIsPower(0);
    SboxRow0(0x09); SboxRow1(0x14); SboxRow13(0xdf); SboxRow15(0xf4);
    assert Contribution(8, 8, Col(0x09, 0x14, 0xdf, 0xf4)) == Col(0xfb, 0x9e, 0xbf, 0x01);
    NextKeyWords(KEY_256, 8, 8,
                 Of(0x60, 0x3d, 0xeb, 0x10, 0x15, 0xca, 0x71, 0xbe, 0x2b, 0x73, 0xae, 0xf0, 0x85, 0x7d, 0x77, 0x81),
                 Col(0x09, 0x14, 0xdf, 0xf4),
                 Of(0x9b, 0xa3, 0x54, 0x11, 0x8e, 0x69, 0x25, 0xaf, 0xa5, 0x1a, 0x8b, 0x5f, 0x20, 0x67, 0xfc, 0xde));
  }

  lemma Key256_3()
    requires FourKeyWords(KEY_256, 8, 4,
        Of(0x1f, 0x35, 0x2c, 0x07, 0x3b, 0x61, 0x08, 0xd7, 0x2d, 0x98, 0x10, 0xa3, 0x09, 0x14, 0xdf, 0xf4))
    requires FourKeyWords(KEY_256, 8, 8,
        Of(0x9b, 0xa3, 0x54, 0x11, 0x8e, 0x69, 0x25, 0xaf, 0xa5, 0x1a, 0x8b, 0x5f, 0x20, 0x67, 0xfc, 0xde))
    ensures FourKeyWords(KEY_256, 8, 12,
        Of(0xa8, 0xb0, 0x9c, 0x1a, 0x93, 0xd1, 0x94, 0xcd, 0xbe, 0x49, 0x84, 0x6e, 0xb7, 0x5d, 0x5b, 0x9a))
  {
    hide KeyWord, Sbox, Xtime, PowerOfTwo;
    SboxRow2(0x20); SboxRow6(0x67); SboxRow15(0xfc); SboxRow13(0xde);
    assert Contribution(8, 12, Col(0x20, 0x67, 0xfc, 0xde)) == Col(0xb7, 0x85, 0xb0, 0x1d);
    NextKeyWords(KEY_256, 8, 12,
                 Of(0x1f, 0x35, 0x2c, 0x07, 0x3b, 0x61, 0x08, 0xd7, 0x2d, 0x98, 0x10, 0xa3, 0x09, 0x14, 0xdf, 0xf4),
                 Col(0x20, 0x67, 0xfc, 0xde),
                 Of(0xa8, 0xb0, 0x9c, 0x1a, 0x93, 0xd1, 0x94, 0xcd, 0xbe, 0x49, 0x84, 0x6e, 0xb7, 0x5d, 0x5b, 0x9a));
  }

  /** The first eight words computed from the key of appendix A.3. */
  lemma Expands256()
    ensures FourKeyWords(KEY_256, 8, 8,
        Of(0x9b, 0xa3, 0x54, 0x11, 0x8e, 0x69, 0x25, 0xaf, 0xa5, 0x1a, 0x8b, 0x5f, 0x20, 0x67, 0xfc, 0xde))
    ensures FourKeyWords(KEY_256, 8, 12,
        Of(0xa8, 0xb0, 0x9c, 0x1a, 0x93, 0xd1, 0x94, 0xcd, 0xbe, 0x49, 0x84, 0x6e, 0xb7, 0x5d, 0x5b, 0x9a))
  {
    KeyPart256_0();
    KeyPart256_1();
    Key256_2();
    Key256_3();
  }

  lemma KeyPart256_0()
    ensures FourKeyWords(KEY_256, 8, 0,
        Of(0x60, 0x3d, 0xeb, 0x10, 0x15, 0xca, 0x71, 0xbe, 0x2b, 0x73, 0xae, 0xf0, 0x85, 0x7d, 0x77, 0x81))
  {
    hide KeyWord;
    KeyItself(KEY_256, 8, 0);
  }

  lemma KeyPart256_1()
    ensures FourKeyWords(KEY_256, 8, 4,
        Of(0x1f, 0x35, 0x2c, 0x07, 0x3b, 0x61, 0x08, 0xd7, 0x2d, 0x98, 0x10, 0xa3, 0x09, 0x14, 0xdf, 0xf4))
  {
    hide KeyWord;
    KeyItself(KEY_256, 8, 4);
  }
}
