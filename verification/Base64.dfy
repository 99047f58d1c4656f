/** Base64 (RFC 4648, section 4): the program's loops over buffers against the definition by
    groups of three bytes. Bit fields are written as quotients and remainders. */
module Base64 {
  import opened ByteStrings

  type Sextet = s: int | 0 <= s < 64

  const PAD: Byte := 61
  const INVALID: Byte := 0xff

  function EncodeTable(s: Sextet): Byte {
    match s
    case 0 => 65 case 1 => 66 case 2 => 67 case 3 => 68 case 4 => 69 case 5 => 70 case 6 => 71
    case 7 => 72 case 8 => 73 case 9 => 74 case 10 => 75 case 11 => 76 case 12 => 77 case 13 => 78
    case 14 => 79 case 15 => 80 case 16 => 81 case 17 => 82 case 18 => 83 case 19 => 84 case 20 => 85
    case 21 => 86 case 22 => 87 case 23 => 88 case 24 => 89 case 25 => 90 case 26 => 97 case 27 => 98
    case 28 => 99 case 29 => 100 case 30 => 101 case 31 => 102 case 32 => 103 case 33 => 104 case 34 => 105
    case 35 => 106 case 36 => 107 case 37 => 108 case 38 => 109 case 39 => 110 case 40 => 111 case 41 => 112
    case 42 => 113 case 43 => 114 case 44 => 115 case 45 => 116 case 46 => 117 case 47 => 118 case 48 => 119
    case 49 => 120 case 50 => 121 case 51 => 122 case 52 => 48 case 53 => 49 case 54 => 50 case 55 => 51
    case 56 => 52 case 57 => 53 case 58 => 54 case 59 => 55 case 60 => 56 case 61 => 57 case 62 => 43
    case _ => 47
  }

  function DecodeTable(c: int): Byte
    requires 0 <= c < 80
  {
    match c
    case 0 => 0x3e case 1 => 0xff case 2 => 0xff case 3 => 0xff case 4 => 0x3f case 5 => 0x34 case 6 => 0x35
    case 7 => 0x36 case 8 => 0x37 case 9 => 0x38 case 10 => 0x39 case 11 => 0x3a case 12 => 0x3b case 13 => 0x3c
    case 14 => 0x3d case 15 => 0xff case 16 => 0xff case 17 => 0xff case 18 => 0x00 case 19 => 0xff case 20 => 0xff
    case 21 => 0xff case 22 => 0x00 case 23 => 0x01 case 24 => 0x02 case 25 => 0x03 case 26 => 0x04 case 27 => 0x05
    case 28 => 0x06 case 29 => 0x07 case 30 => 0x08 case 31 => 0x09 case 32 => 0x0a case 33 => 0x0b case 34 => 0x0c
    case 35 => 0x0d case 36 => 0x0e case 37 => 0x0f case 38 => 0x10 case 39 => 0x11 case 40 => 0x12 case 41 => 0x13
    case 42 => 0x14 case 43 => 0x15 case 44 => 0x16 case 45 => 0x17 case 46 => 0x18 case 47 => 0x19 case 48 => 0xff
    case 49 => 0xff case 50 => 0xff case 51 => 0xff case 52 => 0xff case 53 => 0xff case 54 => 0x1a case 55 => 0x1b
    case 56 => 0x1c case 57 => 0x1d case 58 => 0x1e case 59 => 0x1f case 60 => 0x20 case 61 => 0x21 case 62 => 0x22
    case 63 => 0x23 case 64 => 0x24 case 65 => 0x25 case 66 => 0x26 case 67 => 0x27 case 68 => 0x28 case 69 => 0x29
    case 70 => 0x2a case 71 => 0x2b case 72 => 0x2c case 73 => 0x2d case 74 => 0x2e case 75 => 0x2f case 76 => 0x30
    case 77 => 0x31 case 78 => 0x32 case _ => 0x33
  }

  /** The value of a character, with the wrap of the unsigned subtraction. */
  function Value(ch: Byte): (v: Option<Sextet>)
  {
    var c := (ch - 43) % 0x100;
    if c > 79 || DecodeTable(c) == INVALID then None else ValueIsSextet(c); Some(DecodeTable(c))
  }

  lemma ValueIsSextet(c: int)
    requires 0 <= c < 80
    ensures DecodeTable(c) == INVALID || DecodeTable(c) < 64
  {
  }

  lemma TableInverse(s: Sextet)
    ensures 43 <= EncodeTable(s) < 123 && DecodeTable(EncodeTable(s) - 43) == s && EncodeTable(s) != PAD
  {
  }

  lemma ValueOfEncoded(s: Sextet)
    ensures Value(EncodeTable(s)) == Some(s) && EncodeTable(s) != PAD
  {
    hide EncodeTable, DecodeTable;
    TableInverse(s);
  }

  lemma ValueOfPad()
    ensures Value(PAD) == Some(0)
  {
  }

  // ---------- the definition ----------

  /** Three bytes as a number. */
  function Group(a: Byte, b: Byte, c: Byte): (cv: nat)
    ensures cv < 0x100_0000
  {
    a * 0x1_0000 + b * 0x100 + c
  }

  function Part(cv: nat, k: nat): Sextet
    requires k < 4
  {
    (if k == 0 then cv / 0x4_0000 else if k == 1 then cv / 0x1000 else if k == 2 then cv / 0x40 else cv) % 64
  }

  function Four(cv: nat): (t: Bytes)
    ensures |t| == 4
  {
    [EncodeTable(Part(cv, 0)), EncodeTable(Part(cv, 1)), EncodeTable(Part(cv, 2)), EncodeTable(Part(cv, 3))]
  }

  /** Whole groups give four characters; a rest of one or two bytes is filled with zero bits
      and padded. */
  function Encode(s: Bytes): Bytes {
    if |s| == 0 then []
    else if |s| == 1 then Four(Group(s[0], 0, 0))[..2] + [PAD, PAD]
    else if |s| == 2 then Four(Group(s[0], s[1], 0))[..3] + [PAD]
    else Four(Group(s[0], s[1], s[2])) + Encode(s[3..])
  }

  /** The alphabet of the standard: capitals, small letters, digits, plus and slash. */
  lemma Alphabet(s: Sextet)
    ensures EncodeTable(s) == if s < 26 then 'A' as int + s
                              else if s < 52 then 'a' as int + (s - 26)
                              else if s < 62 then '0' as int + (s - 52)
                              else if s == 62 then '+' as int else '/' as int
  {
  }

  lemma FourOfF()
    ensures Four(Group(0x66, 0, 0)) == [0x5a, 0x67, 0x41, 0x41]
  {
    hide EncodeTable;
    assert Group(0x66, 0, 0) == Join(25, 32, 0, 0);
    PartOfJoin(25, 32, 0, 0);
    Alphabet(25); Alphabet(32); Alphabet(0); Alphabet(0);
  }

  lemma FourOfFo()
    ensures Four(Group(0x66, 0x6f, 0)) == [0x5a, 0x6d, 0x38, 0x41]
  {
    hide EncodeTable;
    assert Group(0x66, 0x6f, 0) == Join(25, 38, 60, 0);
    PartOfJoin(25, 38, 60, 0);
    Alphabet(25); Alphabet(38); Alphabet(60); Alphabet(0);
  }

  lemma FourOfFoo()
    ensures Four(Group(0x66, 0x6f, 0x6f)) == [0x5a, 0x6d, 0x39, 0x76]
  {
    hide EncodeTable;
    assert Group(0x66, 0x6f, 0x6f) == Join(25, 38, 61, 47);
    PartOfJoin(25, 38, 61, 47);
    Alphabet(25); Alphabet(38); Alphabet(61); Alphabet(47);
  }

  lemma FourOfBar()
    ensures Four(Group(0x62, 0x61, 0x72)) == [0x59, 0x6d, 0x46, 0x79]
  {
    hide EncodeTable;
    assert Group(0x62, 0x61, 0x72) == Join(24, 38, 5, 50);
    PartOfJoin(24, 38, 5, 50);
    Alphabet(24); Alphabet(38); Alphabet(5); Alphabet(50);
  }

  /** Published texts (RFC 4648, section 10): f, fo, foo and foobar are Zg==, Zm8=, Zm9v and
      Zm9vYmFy. */
  lemma PublishedTexts()
    ensures Encode([0x66]) == [0x5a, 0x67, 0x3d, 0x3d] && Encode([0x66, 0x6f]) == [0x5a, 0x6d, 0x38, 0x3d]
    ensures Encode([0x66, 0x6f, 0x6f]) == [0x5a, 0x6d, 0x39, 0x76]
    ensures Encode([0x66, 0x6f, 0x6f, 0x62, 0x61, 0x72]) == [0x5a, 0x6d, 0x39, 0x76, 0x59, 0x6d, 0x46, 0x79]
  {
    hide Four, Group;
    FourOfF();
    FourOfFo();
    FourOfFoo();
    FourOfBar();
    var foo, bar := [0x66, 0x6f, 0x6f], [0x62, 0x61, 0x72];
    assert foo[3..] == [] && bar[3..] == [];
    assert (foo + bar)[3..] == bar && foo + bar == [0x66, 0x6f, 0x6f, 0x62, 0x61, 0x72];
  }

  function Join(v0: Sextet, v1: Sextet, v2: Sextet, v3: Sextet): (cv: nat)
    ensures cv < 0x100_0000
  {
    ((v0 * 64 + v1) * 64 + v2) * 64 + v3
  }

  function Three(cv: nat): (b: Bytes)
    requires cv < 0x100_0000
    ensures |b| == 3
  {
    [cv / 0x1_0000, cv / 0x100 % 0x100, cv % 0x100]
  }

  /** The bytes of a text of whole groups, if every character has a value. */
  function Groups(t: Bytes): Option<Bytes> {
    if |t| < 4 then Some([])
    else
      var rest := Groups(t[4..]);
      if rest.Some? && Value(t[0]).Some? && Value(t[1]).Some? && Value(t[2]).Some? && Value(t[3]).Some? then
        Some(Three(Join(Value(t[0]).value, Value(t[1]).value, Value(t[2]).value, Value(t[3]).value)) + rest.value)
      else None
  }

  lemma {:induction false} GroupsLength(t: Bytes)
    requires |t| % 4 == 0
    ensures Groups(t).Some? ==> |Groups(t).value| == |t| / 4 * 3
    decreases |t|
  {
    hide Value, Join;
    if |t| >= 4 {
      GroupsLength(t[4..]);
    }
  }

  /** Each of the last two characters takes a byte off when it is a padding character. */
  function PadCount(t: Bytes): (n: nat)
    requires |t| >= 2
    ensures n <= 2
  {
    (if t[|t| - 1] == PAD then 1 else 0) + if t[|t| - 2] == PAD then 1 else 0
  }

  function Decode(t: Bytes): Option<Bytes> {
    if t == [] then Some([])
    else if |t| % 4 != 0 then None
    else
      match Groups(t)
      case None => None
      case Some(b) => GroupsLength(t); Some(b[..|b| - PadCount(t)])
  }

  lemma {:induction false} EncodedLength(s: Bytes)
    ensures |Encode(s)| == 4 * ((|s| + 2) / 3)
  {
    hide EncodeTable, Group, Part;
    if |s| > 2 {
      EncodedLength(s[3..]);
    }
  }

  // ---------- the round trip ----------

  lemma PartsOfGroup(a: Byte, b: Byte, c: Byte)
    ensures var cv := Group(a, b, c);
      Join(Part(cv, 0), Part(cv, 1), Part(cv, 2), Part(cv, 3)) == cv && Three(cv) == [a, b, c]
  {
    hide Part, Join, Group, Three;
    JoinParts(Group(a, b, c));
    ThreeOfGroup(a, b, c);
  }

  lemma ThreeOfGroup(a: Byte, b: Byte, c: Byte)
    ensures Three(Group(a, b, c)) == [a, b, c]
  {
    var cv := Group(a, b, c);
    assert cv / 0x100 == a * 0x100 + b;
    assert cv / 0x1_0000 == a;
  }

  lemma JoinParts(cv: nat)
    requires cv < 0x100_0000
    ensures Join(Part(cv, 0), Part(cv, 1), Part(cv, 2), Part(cv, 3)) == cv
  {
    Quotients(cv);
    var a := cv / 0x40;
    var b := a / 0x40;
    assert cv == a * 64 + cv % 64;
    assert a == b * 64 + a % 64;
    assert b == b / 0x40 * 64 + b % 64;
    assert b / 0x40 < 64;
  }

  lemma Quotients(cv: nat)
    ensures cv / 0x1000 == cv / 0x40 / 0x40 && cv / 0x4_0000 == cv / 0x40 / 0x40 / 0x40
  {
  }

  /** Four characters and what follows them. */
  lemma GroupsOfFour(t: Bytes, v0: Sextet, v1: Sextet, v2: Sextet, v3: Sextet)
    requires |t| >= 4 && Value(t[0]) == Some(v0) && Value(t[1]) == Some(v1) && Value(t[2]) == Some(v2)
         && Value(t[3]) == Some(v3)
    ensures Groups(t[4..]).Some? ==> Groups(t) == Some(Three(Join(v0, v1, v2, v3)) + Groups(t[4..]).value)
  {
    hide Value, Join, Three;
  }

  lemma NoGroups()
    ensures Groups([]) == Some([])
  {
  }

  /** The characters of a group decode to it. */
  lemma GroupDecodes(a: Byte, b: Byte, c: Byte, rest: Bytes)
    requires Groups(rest).Some?
    ensures Groups(Four(Group(a, b, c)) + rest) == Some([a, b, c] + Groups(rest).value)
  {
    hide EncodeTable, DecodeTable, Value, Part, Join, Three, Group, Groups;
    var cv := Group(a, b, c);
    PartsOfGroup(a, b, c);
    ValueOfEncoded(Part(cv, 0));
    ValueOfEncoded(Part(cv, 1));
    ValueOfEncoded(Part(cv, 2));
    ValueOfEncoded(Part(cv, 3));
    var t := Four(cv) + rest;
    assert t[4..] == rest;
    GroupsOfFour(t, Part(cv, 0), Part(cv, 1), Part(cv, 2), Part(cv, 3));
  }

  /** Padding characters have the value of the zero bits they stand for. */
  lemma TwoDecode(a: Byte, b: Byte)
    ensures Groups(Four(Group(a, b, 0))[..3] + [PAD]) == Some([a, b, 0])
  {
    hide EncodeTable, DecodeTable, Value, Part, Join, Three, Group, Groups;
    var cv := Group(a, b, 0);
    ZeroParts(a, b);
    PartsOfGroup(a, b, 0);
    ValueOfEncoded(Part(cv, 0));
    ValueOfEncoded(Part(cv, 1));
    ValueOfEncoded(Part(cv, 2));
    ValueOfPad();
    var t := Four(cv)[..3] + [PAD];
    GroupsOfFour(t, Part(cv, 0), Part(cv, 1), Part(cv, 2), 0);
    NoGroups();
    assert t[4..] == [] && [a, b, 0] + [] == [a, b, 0];
  }

  lemma OneDecodes(a: Byte)
    ensures Groups(Four(Group(a, 0, 0))[..2] + [PAD, PAD]) == Some([a, 0, 0])
  {
    hide EncodeTable, DecodeTable, Value, Part, Join, Three, Group, Groups;
    var cv := Group(a, 0, 0);
    ZeroParts(a, 0);
    PartsOfGroup(a, 0, 0);
    ValueOfEncoded(Part(cv, 0));
    ValueOfEncoded(Part(cv, 1));
    ValueOfPad();
    var t := Four(cv)[..2] + [PAD, PAD];
    GroupsOfFour(t, Part(cv, 0), Part(cv, 1), 0, 0);
    NoGroups();
    assert t[4..] == [] && [a, 0, 0] + [] == [a, 0, 0];
  }

  lemma ZeroParts(a: Byte, b: Byte)
    ensures Part(Group(a, b, 0), 3) == 0 && Part(Group(a, 0, 0), 2) == 0 && Part(Group(a, 0, 0), 3) == 0
  {
    hide Part;
    LowParts(a * 0x100 + b);
    LowParts(a * 0x100);
    assert Group(a, b, 0) == (a * 0x100 + b) * 0x100 && Group(a, 0, 0) == a * 0x1_0000;
    MiddlePart(a);
  }

  lemma LowParts(m: nat)
    ensures Part(m * 0x100, 3) == 0
  {
  }

  lemma MiddlePart(a: nat)
    ensures Part(a * 0x1_0000, 2) == 0
  {
    assert a * 0x1_0000 / 0x40 == 64 * (a * 16);
  }

  /** How many bytes the last group lacks. */
  function Lacking(n: nat): (k: nat)
    ensures k < 3 && (n + k) % 3 == 0
  {
    (3 - n % 3) % 3
  }

  function Filled(s: Bytes): (f: Bytes)
    ensures |f| == |s| + Lacking(|s|) && f[..|s|] == s
  {
    s + seq(Lacking(|s|), _ => 0)
  }

  lemma FilledRest(s: Bytes)
    requires |s| >= 3
    ensures Lacking(|s|) == Lacking(|s| - 3) && [s[0], s[1], s[2]] + Filled(s[3..]) == Filled(s)
  {
  }

  /** What the text of a byte string decodes to before the padding is taken off. */
  lemma {:induction false} GroupsOfEncoded(s: Bytes)
    ensures Groups(Encode(s)) == Some(Filled(s))
    decreases |s|
  {
    hide EncodeTable, DecodeTable, Value, Part, Join, Three, Groups, Group, Four, Filled, Lacking;
    ShortFilled(s);
    if |s| == 0 {
      NoGroups();
    } else if |s| == 1 {
      OneDecodes(s[0]);
    } else if |s| == 2 {
      TwoDecode(s[0], s[1]);
    } else {
      GroupsOfEncoded(s[3..]);
      GroupDecodes(s[0], s[1], s[2], Encode(s[3..]));
      FilledRest(s);
    }
  }

  lemma ShortFilled(s: Bytes)
    ensures |s| == 0 ==> Filled(s) == []
    ensures |s| == 1 ==> Filled(s) == [s[0], 0, 0]
    ensures |s| == 2 ==> Filled(s) == [s[0], s[1], 0]
  {
  }

  lemma FourEnds(cv: nat)
    ensures Four(cv)[2] != PAD && Four(cv)[3] != PAD
  {
    hide EncodeTable, Part;
    ValueOfEncoded(Part(cv, 2));
    ValueOfEncoded(Part(cv, 3));
  }

  /** The padding of a text says how many bytes its last group lacks. */
  lemma {:induction false} PadsOfEncoded(s: Bytes)
    requires s != []
    ensures |Encode(s)| >= 4 && PadCount(Encode(s)) == Lacking(|s|)
    decreases |s|
  {
    hide EncodeTable, Part, Group, Four;
    if |s| < 3 {
      FourEnds(Group(s[0], if |s| == 2 then s[1] else 0, 0));
    } else {
      FourEnds(Group(s[0], s[1], s[2]));
      if |s| == 3 {
        assert Encode(s[3..]) == [];
      } else {
        PadsOfEncoded(s[3..]);
      }
    }
  }

  /** Decoding an encoded byte string returns it. */
  lemma RoundTrip(s: Bytes)
    ensures Decode(Encode(s)) == Some(s)
  {
    hide EncodeTable, DecodeTable, Value, Part, Join, Three, Groups, Group, Four, Filled, Lacking, PadCount;
    EncodedLength(s);
    if s != [] {
      GroupsOfEncoded(s);
      PadsOfEncoded(s);
      FilledStarts(s);
    } else {
      assert Encode(s) == [];
    }
  }

  lemma FilledStarts(s: Bytes)
    ensures |Filled(s)| == |s| + Lacking(|s|) && Filled(s)[..|s|] == s
  {
  }

  // ---------- which texts are texts of byte strings ----------

  predicate Plain(ch: Byte) {
    ch != PAD && Value(ch).Some?
  }

  /** The last group: no padding, or padding in place of characters over zero bits. */
  predicate LastGroup(t: Bytes)
    requires |t| == 4
  {
    && Plain(t[0]) && Plain(t[1])
    && if t[3] != PAD then Plain(t[2]) && Plain(t[3])
       else if t[2] != PAD then Plain(t[2]) && Value(t[2]).value % 4 == 0
       else Value(t[1]).value % 16 == 0
  }

  /** Groups of plain characters, with padding at the very end only. */
  predicate Canonical(t: Bytes) {
    if |t| < 4 then t == []
    else if |t| == 4 then LastGroup(t)
    else Plain(t[0]) && Plain(t[1]) && Plain(t[2]) && Plain(t[3]) && Canonical(t[4..])
  }

  lemma TableInverseBack(c: int)
    requires 0 <= c < 80 && DecodeTable(c) != INVALID && c + 43 != PAD
    ensures DecodeTable(c) < 64 && EncodeTable(DecodeTable(c)) == c + 43
  {
    match c
    case 0 => case 1 => case 2 => case 3 => case 4 => case 5 => case 6 => case 7 => case 8 => case 9 =>
    case 10 => case 11 => case 12 => case 13 => case 14 => case 15 => case 16 => case 17 => case 18 => case 19 =>
    case 20 => case 21 => case 22 => case 23 => case 24 => case 25 => case 26 => case 27 => case 28 => case 29 =>
    case 30 => case 31 => case 32 => case 33 => case 34 => case 35 => case 36 => case 37 => case 38 => case 39 =>
    case 40 => case 41 => case 42 => case 43 => case 44 => case 45 => case 46 => case 47 => case 48 => case 49 =>
    case 50 => case 51 => case 52 => case 53 => case 54 => case 55 => case 56 => case 57 => case 58 => case 59 =>
    case 60 => case 61 => case 62 => case 63 => case 64 => case 65 => case 66 => case 67 => case 68 => case 69 =>
    case 70 => case 71 => case 72 => case 73 => case 74 => case 75 => case 76 => case 77 => case 78 => case _ =>
  }

  lemma EncodedOfValue(ch: Byte)
    requires Plain(ch)
    ensures EncodeTable(Value(ch).value) == ch
  {
    hide EncodeTable, DecodeTable;
    TableInverseBack(ch - 43);
  }

  lemma PartOfJoin(v0: Sextet, v1: Sextet, v2: Sextet, v3: Sextet)
    ensures var cv := Join(v0, v1, v2, v3);
      Part(cv, 0) == v0 && Part(cv, 1) == v1 && Part(cv, 2) == v2 && Part(cv, 3) == v3
  {
    var cv := Join(v0, v1, v2, v3);
    assert cv / 0x40 == (v0 * 64 + v1) * 64 + v2;
    assert cv / 0x1000 == v0 * 64 + v1;
    assert cv / 0x4_0000 == v0;
  }

  lemma GroupOfThree(cv: nat)
    requires cv < 0x100_0000
    ensures var b := Three(cv); Group(b[0], b[1], b[2]) == cv
  {
  }

  lemma MultipleOf(m: nat)
    ensures 0x100 * m % 0x100 == 0
  {
  }

  lemma ZeroEnd(v0: Sextet, v1: Sextet, v2: Sextet)
    requires v2 % 4 == 0
    ensures Three(Join(v0, v1, v2, 0))[2] == 0
  {
    var m := (v0 * 64 + v1) * 16 + v2 / 4;
    assert Join(v0, v1, v2, 0) == 0x100 * m;
    MultipleOf(m);
  }

  lemma ZeroEnds(v0: Sextet, v1: Sextet)
    requires v1 % 16 == 0
    ensures Three(Join(v0, v1, 0, 0))[1] == 0 && Three(Join(v0, v1, 0, 0))[2] == 0
  {
    var cv, n := Join(v0, v1, 0, 0), v0 * 4 + v1 / 16;
    assert cv == n * 0x1_0000;
    assert cv / 0x100 == n * 0x100;
  }

  /** The bytes of four plain characters. */
  lemma PlainFour(t: Bytes) returns (b: Bytes)
    requires |t| == 4 && Plain(t[0]) && Plain(t[1]) && Plain(t[2]) && Plain(t[3])
    ensures b == Three(Join(Value(t[0]).value, Value(t[1]).value, Value(t[2]).value, Value(t[3]).value))
    ensures |b| == 3 && Four(Group(b[0], b[1], b[2])) == t
  {
    hide EncodeTable, Value, Part, Join, Three, Group;
    var v0, v1, v2, v3 := Value(t[0]).value, Value(t[1]).value, Value(t[2]).value, Value(t[3]).value;
    EncodedOfValue(t[0]);
    EncodedOfValue(t[1]);
    EncodedOfValue(t[2]);
    EncodedOfValue(t[3]);
    PartOfJoin(v0, v1, v2, v3);
    GroupOfThree(Join(v0, v1, v2, v3));
    b := Three(Join(v0, v1, v2, v3));
  }

  lemma LastDecodes(t: Bytes) returns (s: Bytes)
    requires |t| == 4 && LastGroup(t)
    ensures Encode(s) == t
  {
    hide EncodeTable, Value, Part, Join, Three, Group, Four;
    var a: Byte := 65;
    ValueOfA();
    var v0, v1 := Value(t[0]).value, Value(t[1]).value;
    if t[3] != PAD {
      var b := PlainFour(t);
      s := b;
      assert s[3..] == [];
      NothingEncoded();
      assert Encode(s) == t + [];
    } else if t[2] != PAD {
      var whole := [t[0], t[1], t[2], a];
      var b := PlainFour(whole);
      ZeroEnd(v0, v1, Value(t[2]).value);
      s := b[..2];
      assert Encode(s) == whole[..3] + [PAD];
    } else {
      var whole := [t[0], t[1], a, a];
      var b := PlainFour(whole);
      ZeroEnds(v0, v1);
      s := b[..1];
      assert Encode(s) == whole[..2] + [PAD, PAD];
    }
  }

  /** A canonical text is the text of a byte string. */
  lemma {:induction false} CanonicalDecodes(t: Bytes) returns (s: Bytes)
    requires Canonical(t)
    ensures Encode(s) == t
    decreases |t|
  {
    hide EncodeTable, Value, Part, Join, Three, Group, Four, LastGroup;
    if t == [] {
      s := [];
    } else if |t| == 4 {
      s := LastDecodes(t);
    } else {
      var first := PlainFour(t[..4]);
      var rest := CanonicalDecodes(t[4..]);
      s := first + rest;
      assert s[3..] == rest;
      assert t == t[..4] + t[4..];
    }
  }

  lemma EncodedIsPlain(s: Sextet)
    ensures Plain(EncodeTable(s)) && Value(EncodeTable(s)) == Some(s)
  {
    hide EncodeTable, Value;
    ValueOfEncoded(s);
  }

  lemma ZeroBits(a: Byte, b: Byte)
    ensures Part(Group(a, b, 0), 2) % 4 == 0 && Part(Group(a, 0, 0), 1) % 16 == 0
  {
    hide Part, Group;
    GroupMultiples(a, b);
    EvenPart(a * 0x100 + b);
    SixteenPart(a);
  }

  lemma GroupMultiples(a: Byte, b: Byte)
    ensures Group(a, b, 0) == (a * 0x100 + b) * 0x100 && Group(a, 0, 0) == a * 0x1_0000
  {
  }

  lemma EvenPart(m: nat)
    ensures Part(m * 0x100, 2) % 4 == 0
  {
    assert m * 0x100 / 0x40 == 4 * m;
    assert 4 * m % 64 == 4 * (m % 16);
  }

  lemma SixteenPart(a: nat)
    ensures Part(a * 0x1_0000, 1) % 16 == 0
  {
    assert a * 0x1_0000 / 0x1000 == 16 * a;
    assert 16 * a % 64 == 16 * (a % 4);
  }

  /** The text of a byte string is canonical. */
  lemma {:induction false} EncodedIsCanonical(s: Bytes)
    ensures Canonical(Encode(s))
    decreases |s|
  {
    hide EncodeTable, Value, Part, Group, Plain;
    if s != [] {
      var cv := Group(s[0], if |s| > 1 then s[1] else 0, if |s| > 2 then s[2] else 0);
      EncodedIsPlain(Part(cv, 0));
      EncodedIsPlain(Part(cv, 1));
      EncodedIsPlain(Part(cv, 2));
      EncodedIsPlain(Part(cv, 3));
      PlainIsNotPad(EncodeTable(Part(cv, 2)));
      PlainIsNotPad(EncodeTable(Part(cv, 3)));
      if |s| < 3 {
        ZeroBits(s[0], if |s| > 1 then s[1] else 0);
      } else {
        EncodedIsCanonical(s[3..]);
        var t := Encode(s);
        assert t[4..] == Encode(s[3..]);
        if |t| == 4 {
          assert t == Four(cv);
        }
      }
    }
  }

  lemma PlainIsNotPad(ch: Byte)
    ensures Plain(ch) ==> ch != PAD
  {
  }

  /** Encoding again what a text decodes to gives the text exactly when it is canonical. */
  lemma ReencodesExactly(t: Bytes)
    ensures Decode(t).Some? && Encode(Decode(t).value) == t <==> Canonical(t)
  {
    hide *;
    if Canonical(t) {
      var s := CanonicalDecodes(t);
      RoundTrip(s);
    }
    if Decode(t).Some? && Encode(Decode(t).value) == t {
      EncodedIsCanonical(Decode(t).value);
    }
  }

  /** A text where it fails: "QR==" decodes to one byte, whose text is "QQ==". */
  lemma StrayBitsDecode()
    ensures var t: Bytes := [81, 82, PAD, PAD];
      Decode(t) == Some([65]) && Encode([65]) == [81, 81, PAD, PAD] && !Canonical(t)
  {
    hide EncodeTable, DecodeTable, Value, Join, Three, Groups, Part, Group, Canonical;
    var t: Bytes := [81, 82, PAD, PAD];
    ValuesOfQR();
    ValueOfPad();
    NoGroups();
    assert t[4..] == [];
    GroupsOfFour(t, 16, 17, 0, 0);
    ThreeOfQR();
    assert [0x41, 0x10, 0] + [] == [0x41, 0x10, 0];
    assert [0x41, 0x10, 0][..1] == [65];
    TextOfOne();
    ReencodesExactly(t);
  }

  lemma ValuesOfQR()
    ensures Value(81) == Some(16) && Value(82) == Some(17)
  {
  }

  lemma ThreeOfQR()
    ensures Three(Join(16, 17, 0, 0)) == [0x41, 0x10, 0]
  {
  }

  lemma TextOfOne()
    ensures Encode([65]) == [81, 81, PAD, PAD]
  {
    assert Part(Group(65, 0, 0), 0) == 16 && Part(Group(65, 0, 0), 1) == 16;
  }

  /** A text is accepted exactly when it consists of whole groups of characters with a value. */
  lemma {:induction false} GroupsExactly(t: Bytes)
    requires |t| % 4 == 0
    ensures Groups(t).Some? <==> forall i :: 0 <= i < |t| ==> Value(t[i]).Some?
    decreases |t|
  {
    hide Value, Join, Three;
    if t != [] {
      GroupsExactly(t[4..]);
      assert forall i :: 4 <= i < |t| ==> t[i] == t[4..][i - 4];
    }
  }

  lemma DecodesExactly(t: Bytes)
    ensures Decode(t).Some? <==> |t| % 4 == 0 && forall i :: 0 <= i < |t| ==> Value(t[i]).Some?
  {
    hide Value, Groups;
    if |t| % 4 == 0 {
      GroupsExactly(t);
    }
  }

  lemma ValueOfA()
    ensures Value(65) == Some(0)
  {
  }

  // ---------- the loops ----------

  lemma EncodeStep(s: Bytes, i: nat)
    requires i % 3 == 0 && i + 3 <= |s|
    ensures Encode(s[..i + 3]) == Encode(s[..i]) + Four(Group(s[i], s[i + 1], s[i + 2]))
  {
    hide EncodeTable, Part, Group, Four;
    EncodeAppends(s[..i], s[i], s[i + 1], s[i + 2]);
    assert s[..i + 3] == s[..i] + [s[i], s[i + 1], s[i + 2]];
  }

  lemma {:induction false} EncodeAppends(s: Bytes, a: Byte, b: Byte, c: Byte)
    requires |s| % 3 == 0
    ensures Encode(s + [a, b, c]) == Encode(s) + Four(Group(a, b, c))
    decreases |s|
  {
    hide EncodeTable, Part, Group, Four;
    var t := s + [a, b, c];
    if s == [] {
      assert t[3..] == [];
      assert Encode(t) == Four(Group(a, b, c)) + Encode([]);
      assert Encode(s) == [];
    } else {
      EncodeAppends(s[3..], a, b, c);
      assert t[3..] == s[3..] + [a, b, c];
      assert t[0] == s[0] && t[1] == s[1] && t[2] == s[2];
      assert Encode(t) == Four(Group(s[0], s[1], s[2])) + (Encode(s[3..]) + Four(Group(a, b, c)));
    }
  }

  lemma {:induction false} EncodeRest(s: Bytes, rest: Bytes)
    requires |s| % 3 == 0
    ensures Encode(s + rest) == Encode(s) + Encode(rest)
    decreases |s|
  {
    hide EncodeTable, Part, Group, Four;
    var t := s + rest;
    if s == [] {
      assert t == rest;
    } else {
      EncodeRest(s[3..], rest);
      assert t[3..] == s[3..] + rest;
      assert t[0] == s[0] && t[1] == s[1] && t[2] == s[2];
      assert Encode(t) == Four(Group(s[0], s[1], s[2])) + (Encode(s[3..]) + Encode(rest));
    }
  }

  /** Writing the four characters of a number. */
  method PutFour(out: array<Byte>, o: nat, cv: nat)
    requires o + 4 <= out.Length
    modifies out
    ensures out[..o + 4] == old(out[..o]) + Four(cv)
  {
    hide EncodeTable, Part;
    out[o + 3] := EncodeTable(Part(cv, 3));
    out[o + 2] := EncodeTable(Part(cv, 2));
    out[o + 1] := EncodeTable(Part(cv, 1));
    out[o] := EncodeTable(Part(cv, 0));
  }

  lemma EncodeShort(s: Bytes)
    ensures |s| == 2 ==> Encode(s) == Four(Group(s[0], s[1], 0))[..3] + [PAD]
    ensures |s| == 1 ==> Encode(s) == Four(Group(s[0], 0, 0))[..2] + [PAD, PAD]
  {
    hide EncodeTable, Part, Group, Four;
  }

  /** The last group again, from the bytes there are: one or two padding characters. */
  method PadLast(out: array<Byte>, o: nat, data: array<Byte>, len: nat, pad: nat)
    requires 4 <= o <= out.Length && pad <= len <= data.Length && (pad == 1 || pad == 2) && data != out
    modifies out
    ensures out[..o - 4] == old(out[..o - 4]) && out[o - 4..o] == Encode(data[len - pad..len])
  {
    hide EncodeTable, Part, Group, Encode;
    ghost var rest := data[len - pad..len];
    var cv := Group(data[len - pad], 0, 0);
    out[o - 1] := PAD;
    out[o - 2] := PAD;
    if pad == 2 {
      cv := Group(data[len - pad], data[len - pad + 1], 0);
      out[o - 2] := EncodeTable(Part(cv, 2));
    }
    out[o - 3] := EncodeTable(Part(cv, 1));
    out[o - 4] := EncodeTable(Part(cv, 0));
    EncodeShort(rest);
    assert out[o - 4..o] == if pad == 2 then Four(cv)[..3] + [PAD] else Four(cv)[..2] + [PAD, PAD];
  }

  /** What is in the buffer after a turn of the loop: the text so far, or, when the turn read past
      the end, the text of the whole groups and four characters more. */
  ghost predicate Written(out: seq<Byte>, s: Bytes, i: nat) {
    && i % 3 == 0 && i / 3 * 4 <= |out| && i < |s| + 3
    && if i <= |s| then out[..i / 3 * 4] == Encode(s[..i])
       else out[..i / 3 * 4 - 4] == Encode(s[..i - 3])
  }

  method EncodeTurn(out: array<Byte>, o: nat, data: array<Byte>, len: nat, i: nat)
    requires len + 2 <= data.Length && i < len && o == i / 3 * 4 && o + 4 <= out.Length && data != out
    requires Written(out[..], data[..len], i)
    modifies out
    ensures Written(out[..], data[..len], i + 3)
  {
    hide EncodeTable, Part, Group, Four, Encode;
    ghost var s := data[..len];
    PutFour(out, o, Group(data[i], data[i + 1], data[i + 2]));
    if i + 3 <= len {
      EncodeStep(s, i);
    }
    NextTurn(i);
  }

  /** Three bytes more are four characters more. */
  lemma NextTurn(i: nat)
    requires i % 3 == 0
    ensures (i + 3) % 3 == 0 && (i + 3) / 3 * 4 == i / 3 * 4 + 4
  {
  }

  /** A turn that starts has room for its four characters. */
  lemma RoomForTurn(i: nat, len: nat)
    requires i % 3 == 0 && i < len
    ensures i / 3 * 4 + 4 <= len / 3 * 4 + if len % 3 != 0 then 4 else 0
  {
    var q := i / 3;
    assert i == 3 * q;
    if len % 3 == 0 {
      assert len == 3 * (len / 3);
    }
  }

  /** Encoding: the last turn of the loop may read up to two bytes past the end; the padding step
      overwrites what they led to, so the text depends on the first len bytes only. */
  method EncodeBuffer(data: array<Byte>, len: nat) returns (text: Bytes)
    requires len + 2 <= data.Length
    ensures text == Encode(data[..len])
  {
    hide *;
    ghost var s := data[..len];
    NothingEncoded();
    if len == 0 {
      assert s == [];
      return data[..0];
    }
    var lenout, pad := len / 3 * 4, len % 3;
    if pad != 0 {
      lenout := lenout + 4;
    }
    var out := new Byte[lenout];
    var i, o := 0, 0;
    WrittenStarts(out[..], s);
    while i < len
      invariant i % 3 == 0 && o == i / 3 * 4 && i < len + 3
      invariant Written(out[..], s, i)
    {
      RoomForTurn(i, len);
      EncodeTurn(out, o, data, len, i);
      NextTurn(i);
      o := o + 4;
      i := i + 3;
    }
    WrittenEnds(out[..], s, i);
    if pad != 0 {
      ghost var was := out[..];
      PadLast(out, o, data, len, pad);
      PaddedEnds(was, out[..], s, i, pad);
    }
    text := out[..];
  }

  lemma NothingEncoded()
    ensures Encode([]) == []
  {
  }

  lemma WrittenStarts(out: seq<Byte>, s: Bytes)
    ensures Written(out, s, 0)
  {
    assert s[..0] == [];
  }

  lemma WrittenEnds(out: seq<Byte>, s: Bytes, i: nat)
    requires Written(out, s, i) && i >= |s| && |out| == |s| / 3 * 4 + if |s| % 3 != 0 then 4 else 0
    ensures i / 3 * 4 == |out|
    ensures |s| % 3 == 0 ==> out == Encode(s)
    ensures |s| % 3 != 0 ==> i == |s| - |s| % 3 + 3 && |out| >= 4 && out[..|out| - 4] == Encode(s[..|s| - |s| % 3])
  {
    hide Encode;
    if i == |s| {
      assert s[..i] == s;
    }
  }

  lemma PaddedEnds(was: seq<Byte>, out: seq<Byte>, s: Bytes, i: nat, pad: nat)
    requires |was| == |out| >= 4 && pad == |s| % 3 != 0 && i == |s| - pad + 3
    requires was[..|was| - 4] == Encode(s[..|s| - pad])
    requires out[..|out| - 4] == was[..|was| - 4] && out[|out| - 4..] == Encode(s[|s| - pad..])
    ensures out == Encode(s)
  {
    hide Encode;
    EncodeRest(s[..|s| - pad], s[|s| - pad..]);
    assert s[..|s| - pad] + s[|s| - pad..] == s;
    assert out == out[..|out| - 4] + out[|out| - 4..];
  }

  /** One group of a text: the value of its four characters, if they have one. */
  method DecodeGroup(dt: Bytes, i: nat) returns (ok: bool, cv: nat)
    requires i + 4 <= |dt|
    ensures ok <==> Value(dt[i]).Some? && Value(dt[i + 1]).Some? && Value(dt[i + 2]).Some? && Value(dt[i + 3]).Some?
    ensures ok
         ==> cv == Join(Value(dt[i]).value, Value(dt[i + 1]).value, Value(dt[i + 2]).value, Value(dt[i + 3]).value)
    ensures cv < 0x100_0000
  {
    hide Value;
    cv := 0;
    ok := true;
    var n := 0;
    for j := 0 to 4
      invariant j > 0 ==> Value(dt[i]).Some?
      invariant j > 1 ==> Value(dt[i + 1]).Some?
      invariant j > 2 ==> Value(dt[i + 2]).Some?
      invariant j > 3 ==> Value(dt[i + 3]).Some?
      invariant j == 0 ==> cv == 0
      invariant j == 1 ==> cv == Value(dt[i]).value * 64
      invariant j == 2 ==> cv == (Value(dt[i]).value * 64 + Value(dt[i + 1]).value) * 64
      invariant j == 3 ==> cv == ((Value(dt[i]).value * 64 + Value(dt[i + 1]).value) * 64 + Value(dt[i + 2]).value) * 64
      invariant j == 4
           ==> cv == Join(Value(dt[i]).value, Value(dt[i + 1]).value, Value(dt[i + 2]).value, Value(dt[i + 3]).value)
    {
      var v := Value(dt[i + j]);
      if v.None? {
        return false, 0;
      }
      cv := cv + v.value;
      if j != 3 {
        cv := cv * 64;
      }
    }
  }

  lemma {:induction false} GroupsAppend(t: Bytes, four: Bytes)
    requires |t| % 4 == 0 && |four| == 4 && Groups(t).Some? && Groups(four).Some?
    ensures Groups(t + four) == Some(Groups(t).value + Groups(four).value)
    decreases |t|
  {
    hide Value, Join, Three;
    var all := t + four;
    if t == [] {
      assert all == four;
      NoGroups();
      assert [] + Groups(four).value == Groups(four).value;
    } else {
      assert all[4..] == t[4..] + four;
      assert all[0] == t[0] && all[1] == t[1] && all[2] == t[2] && all[3] == t[3];
      GroupsAppend(t[4..], four);
      var first := Three(Join(Value(t[0]).value, Value(t[1]).value, Value(t[2]).value, Value(t[3]).value));
      assert first + (Groups(t[4..]).value + Groups(four).value) == (first + Groups(t[4..]).value) + Groups(four).value;
    }
  }

  lemma GroupsOfOne(dt: Bytes, i: nat, v0: Sextet, v1: Sextet, v2: Sextet, v3: Sextet)
    requires i % 4 == 0 && i + 4 <= |dt| && Groups(dt[..i]).Some?
    requires Value(dt[i]) == Some(v0) && Value(dt[i + 1]) == Some(v1) && Value(dt[i + 2]) == Some(v2)
         && Value(dt[i + 3]) == Some(v3)
    ensures Groups(dt[..i + 4]) == Some(Groups(dt[..i]).value + Three(Join(v0, v1, v2, v3)))
  {
    hide Value, Join, Three, Groups;
    var four := dt[i..i + 4];
    GroupsOfFour(four, v0, v1, v2, v3);
    NoGroups();
    assert four[4..] == [];
    assert Three(Join(v0, v1, v2, v3)) + [] == Three(Join(v0, v1, v2, v3));
    GroupsAppend(dt[..i], four);
    assert dt[..i + 4] == dt[..i] + four;
  }

  method PutThree(out: array<Byte>, o: nat, cv: nat)
    requires o + 3 <= out.Length && cv < 0x100_0000
    modifies out
    ensures out[..o + 3] == old(out[..o]) + Three(cv)
  {
    out[o + 2] := cv % 0x100;
    out[o + 1] := cv / 0x100 % 0x100;
    out[o] := cv / 0x1_0000;
  }

  /** Decoding into a buffer of three bytes a group, of which the padding characters take some off. */
  method DecodeText(dt: Bytes) returns (r: Option<Bytes>)
    ensures r == Decode(dt)
  {
    hide Value, Groups, Join, Three;
    var len := |dt|;
    if len == 0 {
      return Some(dt);
    }
    if len % 4 != 0 {
      return None;
    }
    var lenout := len / 4 * 3;
    var out := new Byte[lenout];
    var i, o := 0, 0;
    NoGroups();
    assert dt[..0] == [];
    while i < len
      invariant i <= len && i % 4 == 0 && o == i / 4 * 3
      invariant Groups(dt[..i]) == Some(out[..o])
    {
      var ok, cv := DecodeGroup(dt, i);
      if !ok {
        GroupsExactly(dt);
        return None;
      }
      GroupsOfOne(dt, i, Value(dt[i]).value, Value(dt[i + 1]).value, Value(dt[i + 2]).value, Value(dt[i + 3]).value);
      PutThree(out, o, cv);
      o := o + 3;
      i := i + 4;
    }
    assert dt[..i] == dt && out[..o] == out[..];
    GroupsLength(dt);
    if dt[len - 1] == PAD {
      lenout := lenout - 1;
    }
    if dt[len - 2] == PAD {
      lenout := lenout - 1;
    }
    r := Some(out[..lenout]);
  }
}
