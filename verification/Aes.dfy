/** The cipher context: key schedule, key conversion, single blocks and cipher block chaining. */
module Aes {
  import opened AesRounds
  import opened AesBlocks
  import opened AesSbox
  import opened AesBytes
  import opened AesWords

  datatype Mode = Mode128 | Mode256 | OtherMode

  const KEY_WORDS: nat := 120

  /** Four words as a block. */
  function StateOf(words: seq<bv32>): State
    requires |words| == 4
  {
    Block(Unpack(words[0]), Unpack(words[1]), Unpack(words[2]), Unpack(words[3]))
  }

  /** The key of a round. */
  function RoundKey(ks: seq<bv32>, r: nat): State
    requires 4 * r + 4 <= |ks|
  {
    StateOf(ks[4 * r..4 * r + 4])
  }

  function RoundKeys(ks: seq<bv32>, rounds: nat): (keys: seq<State>)
    requires 4 * rounds + 4 <= |ks|
    ensures |keys| == rounds + 1
  {
    seq(rounds + 1, r requires 0 <= r <= rounds && 4 * rounds + 4 <= |ks| => RoundKey(ks, r))
  }

  lemma StateAt(words: seq<bv32>, s: State)
    requires |words| == 4
    requires forall j: nat :: j < 4 ==> Unpack(words[j]) == ColAt(s, j)
    ensures StateOf(words) == s
  {
    hide Unpack;
    assert Unpack(words[0]) == s.c0 && Unpack(words[1]) == s.c1 && Unpack(words[2]) == s.c2 && Unpack(words[3]) == s.c3;
  }

  lemma ColumnOf(words: seq<bv32>, j: nat)
    requires |words| == 4
    ensures ColAt(StateOf(words), j) == Unpack(words[j % 4])
  {
  }

  // ---------- one round ----------

  /** The column of a round before the key is added. */
  function RoundCol(s: State, j: nat, mixing: bool): Byte4 {
    var c := MapCol(Sbox, ShiftedCol(s, j));
    if mixing then MixCol(c) else c
  }

  function InvRoundCol(s: State, j: nat, mixing: bool): Byte4 {
    var c := MapCol(InvSbox, UnshiftedCol(s, j));
    if mixing then InvMixCol(c) else c
  }

  function RoundOf(s: State, mixing: bool): State {
    if mixing then MixColumns(SubShift(s)) else SubShift(s)
  }

  function InvRoundOf(s: State, mixing: bool): State {
    if mixing then InvMixColumns(InvSubShift(s)) else InvSubShift(s)
  }

  lemma RoundColumns(s: State, j: nat, mixing: bool)
    requires j < 4
    ensures ColAt(RoundOf(s, mixing), j) == RoundCol(s, j, mixing)
         && ColAt(InvRoundOf(s, mixing), j) == InvRoundCol(s, j, mixing)
  {
    hide RoundOf, InvRoundOf, RoundCol, InvRoundCol;
    ForwardColumns(s, j, mixing);
    InverseColumns(s, j, mixing);
  }

  lemma ForwardColumns(s: State, j: nat, mixing: bool)
    requires j < 4
    ensures ColAt(RoundOf(s, mixing), j) == RoundCol(s, j, mixing)
  {
    hide Sbox, MixCol, ShiftedCol, MapCol;
  }

  lemma InverseColumns(s: State, j: nat, mixing: bool)
    requires j < 4
    ensures ColAt(InvRoundOf(s, mixing), j) == InvRoundCol(s, j, mixing)
  {
    hide InvSbox, InvMixCol, UnshiftedCol, MapCol;
  }

  /** The column mix as the program computes it, from the sum of the four bytes. */
  method MixBytes(b0: bv8, b1: bv8, b2: bv8, b3: bv8) returns (a0: bv8, a1: bv8, a2: bv8, a3: bv8)
    ensures Col(a0, a1, a2, a3) == MixCol(Col(b0, b1, b2, b3))
  {
    hide Xor, Xtime, MixRow, Sum;
    a0, a1, a2, a3 := b0, b1, b2, b3;
    MixedByte(a0, a1, a2, a3);
    MixedByte(a1, a2, a3, a0);
    MixedByte(a2, a3, a0, a1);
    MixedByte(a3, a0, a1, a2);
    SumTurns(a0, a1, a2, a3);
    SumTurns(a1, a2, a3, a0);
    SumTurns(a2, a3, a0, a1);
    var tmp1 := Sum(a0, a1, a2, a3);
    var oldA0 := a0;
    a0 := Xor(a0, Xor(tmp1, Xtime(Xor(a0, a1))));
    a1 := Xor(a1, Xor(tmp1, Xtime(Xor(a1, a2))));
    a2 := Xor(a2, Xor(tmp1, Xtime(Xor(a2, a3))));
    a3 := Xor(a3, Xor(tmp1, Xtime(Xor(a3, oldA0))));
  }

  lemma MixedByte(a: bv8, b: bv8, c: bv8, d: bv8)
    ensures MixRow(a, b, c, d) == Xor(a, Xor(Sum(a, b, c, d), Xtime(Xor(a, b))))
  {
    hide *;
    RowBySum(a, b, c, d);
    Assoc(a, Sum(a, b, c, d), Xtime(Xor(a, b)));
  }

  /** The inverse mix as the program computes it, with shared doublings. */
  method UnmixBytes(a0: bv8, a1: bv8, a2: bv8, a3: bv8) returns (x0: bv8, x1: bv8, x2: bv8, x3: bv8)
    ensures Col(x0, x1, x2, x3) == InvMixCol(Col(a0, a1, a2, a3))
  {
    hide Xor, Xtime, InvMixRow;
    UnmixRowIsInverseRow(a0, a1, a2, a3);
    UnmixRowIsInverseRow(a1, a2, a3, a0);
    UnmixRowIsInverseRow(a2, a3, a0, a1);
    UnmixRowIsInverseRow(a3, a0, a1, a2);
    x0, x1, x2, x3 := Xtime(Xor(a0, a1)), Xtime(Xor(a1, a2)), Xtime(Xor(a2, a3)), Xtime(Xor(a3, a0));
    var xt4, xt5 := Xtime(Xor(x0, x1)), Xtime(Xor(x1, x2));
    var xt6 := Xtime(Xor(xt4, xt5));
    SharedDoublings(a0, a1, a2, a3);
    OtherTerms(a0, a1, a2, a3);
    x0 := Xor(x0, Xor(Xor(Xor(Xor(a1, a2), a3), xt4), xt6));
    x1 := Xor(x1, Xor(Xor(Xor(Xor(a0, a2), a3), xt5), xt6));
    x2 := Xor(x2, Xor(Xor(Xor(Xor(a0, a1), a3), xt4), xt6));
    x3 := Xor(x3, Xor(Xor(Xor(Xor(a0, a1), a2), xt5), xt6));
  }

  /** Opposite pairs of a column have the same second doubling. */
  lemma SharedDoublings(a: bv8, b: bv8, c: bv8, d: bv8)
    ensures Xtime(Xor(Xtime(Xor(a, b)), Xtime(Xor(b, c)))) == Xtime(Xor(Xtime(Xor(c, d)), Xtime(Xor(d, a))))
    ensures Xtime(Xor(Xtime(Xor(b, c)), Xtime(Xor(c, d)))) == Xtime(Xor(Xtime(Xor(d, a)), Xtime(Xor(a, b))))
    ensures var (p, q) := (Xtime(Xor(Xtime(Xor(a, b)), Xtime(Xor(b, c)))),
                           Xtime(Xor(Xtime(Xor(b, c)), Xtime(Xor(c, d)))));
      Xor(p, q) == Xor(q, p)
  {
    hide *;
    XtimeLinear(Xor(a, b), Xor(b, c));
    XtimeLinear(Xor(c, d), Xor(d, a));
    XtimeLinear(Xor(b, c), Xor(c, d));
    XtimeLinear(Xor(d, a), Xor(a, b));
    Between(a, b, c);
    Between(c, d, a);
    Between(b, c, d);
    Between(d, a, b);
    Comm(a, c);
    Comm(b, d);
    Comm(Xtime(Xor(Xtime(Xor(a, b)), Xtime(Xor(b, c)))), Xtime(Xor(Xtime(Xor(b, c)), Xtime(Xor(c, d)))));
  }

  lemma OtherTerms(a: bv8, b: bv8, c: bv8, d: bv8)
    ensures Xor(Xor(a, c), d) == Xor(Xor(c, d), a) && Xor(Xor(a, b), d) == Xor(Xor(d, a), b)
  {
    hide *;
    Assoc(a, c, d);
    Comm(a, Xor(c, d));
    Comm(Xor(a, b), d);
    Assoc(d, a, b);
  }

  /** A column of an encryption round. */
  method EncryptRow(data: array<bv32>, row: nat, mixing: bool) returns (w: bv32)
    requires data.Length == 4 && row < 4
    ensures Unpack(w) == RoundCol(StateOf(data[..]), row, mixing)
  {
    hide Sbox, Unpack, MixCol, StateOf, ColAt, Pack;
    ghost var s := StateOf(data[..]);
    ColumnOf(data[..], row);
    ColumnOf(data[..], row + 1);
    ColumnOf(data[..], row + 2);
    ColumnOf(data[..], row + 3);
    var a0, a1 := Sbox(Unpack(data[row % 4]).b0), Sbox(Unpack(data[(row + 1) % 4]).b1);
    var a2, a3 := Sbox(Unpack(data[(row + 2) % 4]).b2), Sbox(Unpack(data[(row + 3) % 4]).b3);
    if mixing {
      a0, a1, a2, a3 := MixBytes(a0, a1, a2, a3);
    }
    UnpackPack(Col(a0, a1, a2, a3));
    w := Pack(Col(a0, a1, a2, a3));
  }

  method DecryptRow(data: array<bv32>, row: nat, mixing: bool) returns (w: bv32)
    requires data.Length == 4 && 0 < row <= 4
    ensures Unpack(w) == InvRoundCol(StateOf(data[..]), row - 1, mixing)
  {
    hide InvSbox, Unpack, InvMixCol, StateOf, ColAt, Pack;
    ghost var s := StateOf(data[..]);
    ColumnOf(data[..], row - 1);
    ColumnOf(data[..], row + 2);
    ColumnOf(data[..], row + 1);
    ColumnOf(data[..], row);
    var a0, a1 := InvSbox(Unpack(data[(row + 3) % 4]).b0), InvSbox(Unpack(data[(row + 2) % 4]).b1);
    var a2, a3 := InvSbox(Unpack(data[(row + 1) % 4]).b2), InvSbox(Unpack(data[row % 4]).b3);
    assert MapCol(InvSbox, UnshiftedCol(s, row - 1)) == Col(a0, a1, a2, a3);
    if mixing {
      a0, a1, a2, a3 := UnmixBytes(a0, a1, a2, a3);
    }
    UnpackPack(Col(a0, a1, a2, a3));
    w := Pack(Col(a0, a1, a2, a3));
  }

  /** The columns of a round, into the second array. */
  method EncryptRows(data: array<bv32>, tmp: array<bv32>, mixing: bool)
    requires data.Length == 4 && tmp.Length == 4 && data != tmp
    modifies tmp
    ensures StateOf(tmp[..]) == RoundOf(StateOf(data[..]), mixing)
  {
    hide *;
    ghost var s := StateOf(data[..]);
    for row := 0 to 4
      invariant data[..] == old(data[..])
      invariant forall j: nat :: j < row ==> Unpack(tmp[j]) == ColAt(RoundOf(s, mixing), j)
    {
      RoundColumns(s, row, mixing);
      tmp[row] := EncryptRow(data, row, mixing);
    }
    StateAt(tmp[..], RoundOf(s, mixing));
  }

  method DecryptRows(data: array<bv32>, tmp: array<bv32>, mixing: bool)
    requires data.Length == 4 && tmp.Length == 4 && data != tmp
    modifies tmp
    ensures StateOf(tmp[..]) == InvRoundOf(StateOf(data[..]), mixing)
  {
    hide *;
    ghost var s := StateOf(data[..]);
    for row := 4 downto 0
      invariant data[..] == old(data[..])
      invariant forall j: nat :: row <= j < 4 ==> Unpack(tmp[j]) == ColAt(InvRoundOf(s, mixing), j)
    {
      RoundColumns(s, row, mixing);
      tmp[row] := DecryptRow(data, row + 1, mixing);
    }
    StateAt(tmp[..], InvRoundOf(s, mixing));
  }

  // ---------- the key schedule ----------

  /** Powers of two in GF(2^8): the round constants of the standard. */
  function PowerOfTwo(n: nat): bv8 {
    if n == 0 then 1 else Xtime(PowerOfTwo(n - 1))
  }

  function RotWord(c: Byte4): Byte4 {
    Col(c.b1, c.b2, c.b3, c.b0)
  }

  function SubWord(c: Byte4): Byte4 {
    MapCol(Sbox, c)
  }

  /** What the word before contributes to word i of the expanded key (FIPS 197, section 5.2). */
  function Contribution(nk: nat, i: nat, before: Byte4): Byte4
    requires 0 < nk <= i
  {
    if i % nk == 0 then XorCol(SubWord(RotWord(before)), Col(PowerOfTwo(i / nk - 1), 0, 0, 0))
    else if nk > 6 && i % nk == 4 then SubWord(before)
    else before
  }

  /** Word i of the expanded key. */
  function KeyWord(key: seq<bv8>, nk: nat, i: nat): Byte4
    requires 0 < nk && 4 * nk <= |key|
  {
    if i < nk then Col(key[4 * i], key[4 * i + 1], key[4 * i + 2], key[4 * i + 3])
    else XorCol(KeyWord(key, nk, i - nk), Contribution(nk, i, KeyWord(key, nk, i - 1)))
  }

  /** The table of round constants. */
  function Rcon(n: nat): bv8
    requires n < 30
  {
    match n
    case 0 => 0x01 case 1 => 0x02 case 2 => 0x04 case 3 => 0x08 case 4 => 0x10 case 5 => 0x20
    case 6 => 0x40 case 7 => 0x80 case 8 => 0x1b case 9 => 0x36 case 10 => 0x6c case 11 => 0xd8
    case 12 => 0xab case 13 => 0x4d case 14 => 0x9a case 15 => 0x2f case 16 => 0x5e case 17 => 0xbc
    case 18 => 0x63 case 19 => 0xc6 case 20 => 0x97 case 21 => 0x35 case 22 => 0x6a case 23 => 0xd4
    case 24 => 0xb3 case 25 => 0x7d case 26 => 0xfa case 27 => 0xef case 28 => 0xc5 case 29 => 0x91
  }

  lemma RconDoublesEarly(n: nat)
    requires n < 15
    ensures Rcon(n + 1) == Xtime(Rcon(n))
  {
  }

  lemma RconDoublesLate(n: nat)
    requires 15 <= n < 29
    ensures Rcon(n + 1) == Xtime(Rcon(n))
  {
  }

  lemma {:induction false} RconIsPower(n: nat)
    requires n < 30
    ensures Rcon(n) == PowerOfTwo(n)
  {
    hide Xtime;
    if n > 0 {
      RconIsPower(n - 1);
      if n < 16 {
        RconDoublesEarly(n - 1);
      } else {
        RconDoublesLate(n - 1);
      }
    }
  }

  /** The changed word of the key expansion, built byte by byte. */
  method ExpandWord(tmp: bv32, i: nat, words: nat, ip: nat) returns (w: bv32, ip': nat)
    requires (words == 4 || words == 8) && words <= i < 60 && ip == (i - 1) / words && (words == 4 ==> i < 44)
    ensures Unpack(w) == Contribution(words, i, Unpack(tmp)) && ip' == i / words
  {
    hide Unpack, Sbox, Xor, PowerOfTwo, Rcon, Pack;
    var c := Unpack(tmp);
    w, ip' := tmp, ip;
    if i % words == 0 {
      assert i / words == ip + 1;
      RconIsPower(ip);
      UnpackPack(Col(Sbox(c.b1), Sbox(c.b2), Sbox(c.b3), Sbox(c.b0)));
      UnpackPack(Col(Rcon(ip), 0, 0, 0));
      var rotated, constant := Pack(Col(Sbox(c.b1), Sbox(c.b2), Sbox(c.b3), Sbox(c.b0))), Pack(Col(Rcon(ip), 0, 0, 0));
      UnpackXor(rotated, constant);
      w, ip' := XorWord(rotated, constant), ip + 1;
    } else {
      assert i / words == ip;
      if words == 8 && i % words == 4 {
        UnpackPack(Col(Sbox(c.b0), Sbox(c.b1), Sbox(c.b2), Sbox(c.b3)));
        w := Pack(Col(Sbox(c.b0), Sbox(c.b1), Sbox(c.b2), Sbox(c.b3)));
      }
    }
  }

  method LoadWord(key: array<bv8>, at: nat) returns (w: bv32)
    requires at + 4 <= key.Length
    ensures Unpack(w) == Col(key[at], key[at + 1], key[at + 2], key[at + 3])
  {
    hide Unpack, Pack;
    UnpackPack(Col(key[at], key[at + 1], key[at + 2], key[at + 3]));
    w := Pack(Col(key[at], key[at + 1], key[at + 2], key[at + 3]));
  }

  /** The first n words hold the expanded key. */
  ghost predicate Expanded(ks: seq<bv32>, key: seq<bv8>, words: nat, n: nat)
    requires n <= |ks| && 0 < words && 4 * words <= |key|
  {
    forall i: nat :: i < n ==> Unpack(ks[i]) == KeyWord(key, words, i)
  }

  lemma NothingExpanded(ks: seq<bv32>, key: seq<bv8>, words: nat)
    requires 0 < words && 4 * words <= |key|
    ensures Expanded(ks, key, words, 0)
  {
  }

  lemma ExpandedWord(ks: seq<bv32>, key: seq<bv8>, words: nat, n: nat, i: nat)
    requires i < n <= |ks| && 0 < words && 4 * words <= |key| && Expanded(ks, key, words, n)
    ensures Unpack(ks[i]) == KeyWord(key, words, i)
  {
    hide Unpack, KeyWord;
  }

  lemma ExpandedMore(was: seq<bv32>, ks: seq<bv32>, key: seq<bv8>, words: nat, n: nat)
    requires n < |was| == |ks| && 0 < words && 4 * words <= |key| && Expanded(was, key, words, n)
    requires ks[..n] == was[..n] && Unpack(ks[n]) == KeyWord(key, words, n)
    ensures Expanded(ks, key, words, n + 1)
  {
    hide Unpack, KeyWord;
    forall i: nat | i < n ensures ks[i] == was[i] {
      assert ks[i] == ks[..n][i] && was[i] == was[..n][i];
    }
  }

  lemma KeyWordSteps(key: seq<bv8>, nk: nat, i: nat)
    requires 0 < nk && 4 * nk <= |key|
    ensures i < nk ==> KeyWord(key, nk, i) == Col(key[4 * i], key[4 * i + 1], key[4 * i + 2], key[4 * i + 3])
    ensures i >= nk
         ==> KeyWord(key, nk, i) == XorCol(KeyWord(key, nk, i - nk), Contribution(nk, i, KeyWord(key, nk, i - 1)))
  {
    hide Contribution, XorCol;
  }

  /** The key itself, two words a turn. */
  method LoadKey(W: array<bv32>, key: array<bv8>, words: nat)
    requires words % 2 == 0 && 0 < words <= W.Length && 4 * words <= key.Length
    modifies W
    ensures Expanded(W[..], key[..], words, words)
  {
    hide *;
    ghost var k := key[..];
    NothingExpanded(W[..], k, words);
    var i, at := 0, 0;
    while i < words
      invariant i <= words && i % 2 == 0 && at == 4 * i
      invariant Expanded(W[..], k, words, i)
    {
      ghost var was := W[..];
      KeyWordSteps(k, words, i);
      KeyWordSteps(k, words, i + 1);
      W[i] := LoadWord(key, at);
      ExpandedMore(was, W[..], k, words, i);
      was := W[..];
      W[i + 1] := LoadWord(key, at + 4);
      ExpandedMore(was, W[..], k, words, i + 1);
      at := at + 8;
      i := i + 2;
    }
  }

  /** The words that follow, each from the one before and the one a key length before. */
  method ExpandKey(W: array<bv32>, key: array<bv8>, words: nat, ii: nat)
    requires ((words == 4 && ii == 44) || (words == 8 && ii == 60)) && ii <= W.Length && 4 * words <= key.Length
    modifies W
    ensures Expanded(W[..], key[..], words, ii)
  {
    hide *;
    ghost var k := key[..];
    LoadKey(W, key, words);
    var i, ip := words, 0;
    while i < ii
      invariant words <= i <= ii && ip == (i - 1) / words
      invariant Expanded(W[..], k, words, i)
    {
      ghost var was := W[..];
      ExpandedWord(was, k, words, i, i - 1);
      ExpandedWord(was, k, words, i, i - words);
      KeyWordSteps(k, words, i);
      var tmp;
      tmp, ip := ExpandWord(W[i - 1], i, words, ip);
      UnpackXor(W[i - words], tmp);
      W[i] := XorWord(W[i - words], tmp);
      ExpandedMore(was, W[..], k, words, i);
      i := i + 1;
    }
  }

  // ---------- key addition ----------

  lemma AddedKey(data: seq<bv32>, tmp: seq<bv32>, key: seq<bv32>)
    requires |data| == |tmp| == |key| == 4 && forall j: nat :: j < 4 ==> data[j] == XorWord(tmp[j], key[j])
    ensures StateOf(data) == AddKey(StateOf(tmp), StateOf(key))
  {
    hide Unpack, XorWord, Xor;
    assert data[0] == XorWord(tmp[0], key[0]) && data[1] == XorWord(tmp[1], key[1])
        && data[2] == XorWord(tmp[2], key[2]) && data[3] == XorWord(tmp[3], key[3]);
    UnpackXor(tmp[0], key[0]);
    UnpackXor(tmp[1], key[1]);
    UnpackXor(tmp[2], key[2]);
    UnpackXor(tmp[3], key[3]);
  }

  /** Key addition going up the key words; the arrays may be the same. */
  method AddKeyUp(data: array<bv32>, tmp: array<bv32>, ks: array<bv32>, k: nat) returns (k': nat)
    requires data.Length == 4 && tmp.Length == 4 && k + 4 <= ks.Length && ks != data
    modifies data
    ensures StateOf(data[..]) == AddKey(old(StateOf(tmp[..])), StateOf(ks[k..k + 4])) && k' == k + 4
  {
    hide *;
    ghost var was := tmp[..];
    k' := k;
    for row := 0 to 4
      invariant k' == k + row && ks[..] == old(ks[..])
      invariant tmp[row..] == was[row..]
      invariant forall j: nat :: j < row ==> data[j] == XorWord(was[j], ks[k + j])
    {
      assert tmp[row] == was[row];
      data[row] := XorWord(tmp[row], ks[k']);
      k' := k' + 1;
    }
    AddedKey(data[..], was, ks[k..k + 4]);
  }

  /** Key addition going down. */
  method AddKeyDown(data: array<bv32>, tmp: array<bv32>, ks: array<bv32>, k: nat) returns (k': nat)
    requires data.Length == 4 && tmp.Length == 4 && 4 <= k <= ks.Length && ks != data
    modifies data
    ensures StateOf(data[..]) == AddKey(old(StateOf(tmp[..])), StateOf(ks[k - 4..k])) && k' == k - 4
  {
    hide *;
    ghost var was := tmp[..];
    k' := k;
    for row := 4 downto 0
      invariant k' == k - 4 + row && ks[..] == old(ks[..])
      invariant tmp[..row] == was[..row]
      invariant forall j: nat :: row <= j < 4 ==> data[j] == XorWord(was[j], ks[k - 4 + j])
    {
      assert tmp[..row + 1][row] == was[..row + 1][row];
      k' := k' - 1;
      data[row] := XorWord(tmp[row], ks[k']);
    }
    AddedKey(data[..], was, ks[k - 4..k]);
  }

  // ---------- the context ----------

  class AesCtx {
    var rounds: nat
    var keySize: nat
    const ks: array<bv32>
    const iv: array<bv8>

    ghost predicate Valid()
      reads this
    {
      ks.Length == KEY_WORDS && iv.Length == 16 && 2 <= rounds <= 14
    }

    /** The round keys as the cipher uses them. */
    ghost function Keys(): (keys: seq<State>)
      requires Valid()
      reads this, ks
      ensures |keys| == rounds + 1
    {
      RoundKeys(ks[..], rounds)
    }

    constructor ()
      ensures Valid() && fresh(ks) && fresh(iv)
    {
      ks := new bv32[KEY_WORDS];
      iv := new bv8[16];
      rounds, keySize := 10, 4;
    }

    /** Setting a key; a mode that does not exist changes nothing. */
    method SetKey(key: array<bv8>, newIv: array<bv8>, mode: Mode)
      requires Valid() && newIv.Length >= 16
      requires (mode == Mode128 ==> key.Length >= 16) && (mode == Mode256 ==> key.Length >= 32)
      modifies this, ks, iv
      ensures Valid()
      ensures mode == OtherMode ==> unchanged(this) && unchanged(ks) && unchanged(iv)
      ensures mode == Mode128 ==> rounds == 10 && keySize == 4 && Expanded(ks[..], old(key[..]), 4, 44)
      ensures mode == Mode256 ==> rounds == 14 && keySize == 8 && Expanded(ks[..], old(key[..]), 8, 60)
      ensures mode != OtherMode ==> iv[..] == old(newIv[..16])
    {
      var i, words;
      ghost var given := newIv[..16];
      match mode {
        case Mode128 => i, words := 10, 4;
        case Mode256 => i, words := 14, 8;
        case OtherMode => return;
      }
      rounds := i;
      keySize := words;
      ExpandKey(ks, key, words, 4 * (rounds + 1));
      for j := 0 to 16
        modifies iv
        invariant iv[..j] == given[..j] && newIv[j..16] == given[j..]
      {
        assert newIv[j..16][0] == given[j];
        iv[j] := newIv[j];
      }
    }

    /** Converting the key for decryption: every word between the first and the last round key. */
    method ConvertKey()
      requires Valid()
      modifies ks
      ensures Valid() && Keys() == Converted(InvMixColumns, old(Keys()))
    {
      hide Unpack, InvMixCol, RoundKeys, Converted;
      ghost var was := ks[..];
      var k := 4;
      for i := rounds * 4 downto 4
        invariant k == rounds * 4 - i + 4 && ks.Length == KEY_WORDS
        invariant forall j: nat :: j < k && j >= 4 ==> Unpack(ks[j]) == InvMixCol(Unpack(was[j]))
        invariant forall j: nat :: j < KEY_WORDS && (j < 4 || j >= k) ==> ks[j] == was[j]
      {
        ks[k] := InvMixColWord(ks[k]);
        k := k + 1;
      }
      KeysConverted(was, ks[..], rounds);
    }

    lemma KeysAre()
      requires Valid()
      ensures Keys() == RoundKeys(ks[..], rounds) && 4 * rounds + 4 <= ks.Length && 2 <= rounds
    {
    }

    /** One block. */
    method Encrypt(data: array<bv32>)
      requires Valid() && data.Length == 4 && data != ks
      modifies data
      ensures StateOf(data[..]) == Cipher(SubShift, MixColumns, AddKey, Keys(), old(StateOf(data[..])))
    {
      hide *;
      KeysAre();
      ghost var s, keys, w := StateOf(data[..]), Keys(), ks[..];
      CipherEnds(keys, s);
      var tmp := new bv32[4];
      KeyOfRound(w, rounds, 0);
      var k := AddKeyUp(data, data, ks, 0);
      for currRnd := 0 to rounds
        invariant k == 4 * currRnd + 4 && data != ks && tmp != ks && tmp != data
        invariant ks[..] == w
        invariant StateOf(data[..]) == Forward(SubShift, MixColumns, AddKey, keys, s, currRnd)
      {
        KeyOfRound(w, rounds, currRnd + 1);
        EncryptRows(data, tmp, currRnd < rounds - 1);
        k := AddKeyUp(data, tmp, ks, k);
        ForwardStep(keys, s, currRnd);
      }
    }

    method Decrypt(data: array<bv32>)
      requires Valid() && data.Length == 4 && data != ks
      modifies data
      ensures StateOf(data[..]) == InvCipher(InvSubShift, InvMixColumns, AddKey, Keys(), old(StateOf(data[..])))
    {
      hide *;
      KeysAre();
      ghost var c, keys, w := StateOf(data[..]), Keys(), ks[..];
      InvCipherEnds(keys, c);
      var tmp := new bv32[4];
      KeyOfRound(w, rounds, rounds);
      var k := AddKeyDown(data, data, ks, (rounds + 1) * 4);
      for currRnd := 0 to rounds
        invariant k == 4 * (rounds - currRnd) && data != ks && tmp != ks && tmp != data
        invariant ks[..] == w
        invariant StateOf(data[..]) == Backward(InvSubShift, InvMixColumns, AddKey, keys, c, currRnd)
      {
        KeyOfRound(w, rounds, rounds - currRnd - 1);
        DecryptRows(data, tmp, currRnd < rounds - 1);
        k := AddKeyDown(data, tmp, ks, k);
        BackwardStep(keys, c, currRnd);
      }
    }
  }

  lemma KeyOfRound(ks: seq<bv32>, rounds: nat, r: nat)
    requires 4 * rounds + 4 <= |ks| && r <= rounds
    ensures RoundKeys(ks, rounds)[r] == StateOf(ks[4 * r..4 * r + 4])
  {
    hide StateOf;
  }

  lemma CipherEnds(keys: seq<State>, s: State)
    requires |keys| >= 2
    ensures Forward(SubShift, MixColumns, AddKey, keys, s, 0) == AddKey(s, keys[0])
    ensures Cipher(SubShift, MixColumns, AddKey, keys, s) == Forward(SubShift, MixColumns, AddKey, keys, s, |keys| - 1)
  {
    hide SubShift, MixColumns, AddKey;
  }

  lemma InvCipherEnds(keys: seq<State>, c: State)
    requires |keys| >= 2
    ensures Backward(InvSubShift, InvMixColumns, AddKey, keys, c, 0) == AddKey(c, keys[|keys| - 1])
    ensures InvCipher(InvSubShift, InvMixColumns, AddKey, keys, c)
         == Backward(InvSubShift, InvMixColumns, AddKey, keys, c, |keys| - 1)
  {
    hide InvSubShift, InvMixColumns, AddKey;
  }

  lemma ForwardStep(keys: seq<State>, s: State, n: nat)
    requires n + 1 < |keys|
    ensures Forward(SubShift, MixColumns, AddKey, keys, s, n + 1)
         == AddKey(RoundOf(Forward(SubShift, MixColumns, AddKey, keys, s, n), n < |keys| - 2), keys[n + 1])
  {
    hide SubShift, MixColumns, AddKey;
  }

  lemma BackwardStep(keys: seq<State>, c: State, n: nat)
    requires n + 1 < |keys|
    ensures Backward(InvSubShift, InvMixColumns, AddKey, keys, c, n + 1)
         == AddKey(InvRoundOf(Backward(InvSubShift, InvMixColumns, AddKey, keys, c, n), n < |keys| - 2),
                   keys[|keys| - 2 - n])
  {
    hide InvSubShift, InvMixColumns, AddKey;
  }

  lemma KeysConverted(was: seq<bv32>, now: seq<bv32>, rounds: nat)
    requires |was| == |now| == KEY_WORDS && 1 <= rounds <= 14
    requires forall j: nat :: 4 <= j < 4 * rounds ==> Unpack(now[j]) == InvMixCol(Unpack(was[j]))
    requires forall j: nat :: j < KEY_WORDS && (j < 4 || j >= 4 * rounds) ==> now[j] == was[j]
    ensures RoundKeys(now, rounds) == Converted(InvMixColumns, RoundKeys(was, rounds))
  {
    hide Unpack, InvMixCol;
    var a, b := RoundKeys(now, rounds), Converted(InvMixColumns, RoundKeys(was, rounds));
    forall r: nat | r <= rounds ensures a[r] == b[r] {
      var x, y := now[4 * r..4 * r + 4], was[4 * r..4 * r + 4];
      assert x[0] == now[4 * r] && x[1] == now[4 * r + 1] && x[2] == now[4 * r + 2] && x[3] == now[4 * r + 3];
      assert y[0] == was[4 * r] && y[1] == was[4 * r + 1] && y[2] == was[4 * r + 2] && y[3] == was[4 * r + 3];
      if 0 < r < rounds {
        assert StateOf(x) == InvMixColumns(StateOf(y));
      } else {
        assert StateOf(x) == StateOf(y);
      }
    }
  }

  // ---------- decryption undoes encryption ----------

  lemma SubShiftUndone()
    ensures Undoes(InvSubShift, SubShift)
  {
    hide Sbox, InvSbox;
    forall x: bv8 ensures InvSbox(Sbox(x)) == x {
      SboxInverse(x);
    }
    forall s: State ensures InvSubShift(SubShift(s)) == s {
      ShiftMaps(Sbox, InvSbox, s);
      UnshiftUndoesShift(Sbox, s);
      MapUndoes(Sbox, InvSbox, s);
    }
  }

  lemma ShiftMaps<T, U, V>(f: T -> U, g: U -> V, b: Block<T>)
    ensures MapBlock(g, InvShiftRows(MapBlock(f, ShiftRows(b)))) == MapBlock(g, MapBlock(f, b))
  {
    UnshiftUndoesShift(f, b);
  }

  lemma MixUndone()
    ensures Undoes(InvMixColumns, MixColumns)
  {
    hide MixCol, InvMixCol;
    forall c: Byte4 ensures InvMixCol(MixCol(c)) == c {
      UnmixUndoesMix(c);
    }
    forall s: State ensures InvMixColumns(MixColumns(s)) == s {
      MapColsUndoes(MixCol, InvMixCol, s);
    }
  }

  lemma UnmixingIsLinear()
    ensures Linear(InvMixColumns, AddKey)
  {
    hide InvMixCol, Xor;
    forall x, y: Byte4 ensures InvMixCol(ZipCol(Xor, x, y)) == ZipCol(Xor, InvMixCol(x), InvMixCol(y)) {
      UnmixLinear(x, y);
    }
    forall x, y: State ensures InvMixColumns(AddKey(x, y)) == AddKey(InvMixColumns(x), InvMixColumns(y)) {
      MapColsLinear(InvMixCol, Xor, x, y);
    }
  }

  lemma KeyAdditionCancels()
    ensures Cancels(AddKey)
  {
    hide Xor;
    forall x, y ensures Xor(Xor(x, y), y) == x {
      Self(x, y);
    }
    forall x, y: State ensures AddKey(AddKey(x, y), y) == x {
      ZipCancels(Xor, x, y);
    }
  }

  /** For any round keys, decryption with the converted keys returns the block. */
  lemma BlockRoundTrip(keys: seq<State>, s: State)
    requires |keys| >= 2
    ensures InvCipher(InvSubShift, InvMixColumns, AddKey, Converted(InvMixColumns, keys),
                      Cipher(SubShift, MixColumns, AddKey, keys, s)) == s
  {
    hide *;
    SubShiftUndone();
    MixUndone();
    UnmixingIsLinear();
    KeyAdditionCancels();
    DecryptionUndoesEncryption(SubShift, MixColumns, InvSubShift, InvMixColumns, AddKey, keys, s);
  }
}
