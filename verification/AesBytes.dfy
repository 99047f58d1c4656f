/** The byte operations of the Advanced Encryption Standard (FIPS 197) and their inverses. */
module AesBytes {
  import opened AesRounds
  import opened AesBlocks
  import opened AesSbox

  type Byte4 = Col<bv8>
  type State = Block<bv8>

  function Xor(x: bv8, y: bv8): bv8 {
    x ^ y
  }

  /** Doubling in GF(2^8). */
  function Xtime(x: bv8): bv8 {
    if TopBit(x) then Xor(Shifted(x), 0x1b) else Shifted(x)
  }

  predicate TopBit(x: bv8) {
    x & 0x80 != 0
  }

  function Shifted(x: bv8): bv8 {
    x << 1
  }

  function Nine(x: bv8): bv8 {
    Xor(Xtime(Xtime(Xtime(x))), x)
  }

  function Eleven(x: bv8): bv8 {
    Xor(Xor(Xtime(Xtime(Xtime(x))), Xtime(x)), x)
  }

  function Thirteen(x: bv8): bv8 {
    Xor(Xor(Xtime(Xtime(Xtime(x))), Xtime(Xtime(x))), x)
  }

  function Fourteen(x: bv8): bv8 {
    Xor(Xor(Xtime(Xtime(Xtime(x))), Xtime(Xtime(x))), Xtime(x))
  }

  /** A row of the MixColumns matrix: 2, 3, 1, 1. */
  function MixRow(a: bv8, b: bv8, c: bv8, d: bv8): bv8 {
    Xor(Xor(Xor(Xtime(a), Xor(Xtime(b), b)), c), d)
  }

  /** A row of the inverse matrix: 14, 11, 13, 9. */
  function InvMixRow(a: bv8, b: bv8, c: bv8, d: bv8): bv8 {
    Xor(Xor(Xor(Fourteen(a), Eleven(b)), Thirteen(c)), Nine(d))
  }

  function MixCol(c: Byte4): Byte4 {
    Col(MixRow(c.b0, c.b1, c.b2, c.b3), MixRow(c.b1, c.b2, c.b3, c.b0), MixRow(c.b2, c.b3, c.b0, c.b1),
        MixRow(c.b3, c.b0, c.b1, c.b2))
  }

  function InvMixCol(c: Byte4): Byte4 {
    Col(InvMixRow(c.b0, c.b1, c.b2, c.b3), InvMixRow(c.b1, c.b2, c.b3, c.b0), InvMixRow(c.b2, c.b3, c.b0, c.b1),
        InvMixRow(c.b3, c.b0, c.b1, c.b2))
  }

  function XorCol(x: Byte4, y: Byte4): Byte4 {
    ZipCol(Xor, x, y)
  }

  function AddKey(s: State, k: State): State {
    ZipBlock(Xor, s, k)
  }

  /** SubBytes and ShiftRows together. */
  function SubShift(s: State): State {
    MapBlock(Sbox, ShiftRows(s))
  }

  function InvSubShift(s: State): State {
    MapBlock(InvSbox, InvShiftRows(s))
  }

  function MixColumns(s: State): State {
    MapCols(MixCol, s)
  }

  function InvMixColumns(s: State): State {
    MapCols(InvMixCol, s)
  }

  // ---------- doubling is linear ----------

  lemma TopBitXor(x: bv8, y: bv8)
    ensures TopBit(Xor(x, y)) == (TopBit(x) != TopBit(y))
  {
    assert x & 0x80 == 0 || x & 0x80 == 0x80;
    assert y & 0x80 == 0 || y & 0x80 == 0x80;
    assert (x ^ y) & 0x80 == (x & 0x80) ^ (y & 0x80);
  }

  lemma ShiftedXor(x: bv8, y: bv8)
    ensures Shifted(Xor(x, y)) == Xor(Shifted(x), Shifted(y))
  {
  }

  lemma XtimeLinear(x: bv8, y: bv8)
    ensures Xtime(Xor(x, y)) == Xor(Xtime(x), Xtime(y))
  {
    hide Xor, TopBit, Shifted;
    var u, v := Shifted(x), Shifted(y);
    TopBitXor(x, y);
    ShiftedXor(x, y);
    Common(u, v, 0x1b);
    Assoc(u, v, 0x1b);
    Assoc(u, 0x1b, v);
    Comm(v, 0x1b);
  }

  // ---------- sums of few bytes ----------

  function Sum(a: bv8, b: bv8, c: bv8, d: bv8): bv8 {
    Xor(Xor(Xor(a, b), c), d)
  }

  lemma Comm(a: bv8, b: bv8)
    ensures Xor(a, b) == Xor(b, a)
  {
  }

  lemma Assoc(a: bv8, b: bv8, c: bv8)
    ensures Xor(Xor(a, b), c) == Xor(a, Xor(b, c))
  {
  }

  lemma Self(a: bv8, b: bv8)
    ensures Xor(Xor(a, b), b) == a
  {
  }

  /** A term in the middle of two sums cancels. */
  lemma Between(a: bv8, b: bv8, c: bv8)
    ensures Xor(Xor(a, b), Xor(b, c)) == Xor(a, c)
  {
    hide *;
    Assoc(Xor(a, b), b, c);
    Self(a, b);
  }

  lemma Swap(a: bv8, b: bv8, c: bv8)
    ensures Xor(Xor(a, b), c) == Xor(Xor(a, c), b)
  {
    hide *;
    Assoc(a, b, c);
    Comm(b, c);
    Assoc(a, c, b);
  }

  lemma Pairs(a: bv8, b: bv8, c: bv8, d: bv8)
    ensures Xor(Xor(a, b), Xor(c, d)) == Xor(Xor(a, c), Xor(b, d))
  {
    hide *;
    Assoc(Xor(a, b), c, d);
    Swap(a, b, c);
    Assoc(Xor(a, c), b, d);
  }

  /** A term common to two sums cancels. */
  lemma Common(a: bv8, b: bv8, c: bv8)
    ensures Xor(Xor(a, c), Xor(b, c)) == Xor(a, b)
  {
    hide *;
    Comm(b, c);
    Between(a, c, b);
  }

  lemma SumOfPairs(a: bv8, b: bv8, c: bv8, d: bv8)
    ensures Sum(a, b, c, d) == Xor(Xor(a, b), Xor(c, d))
  {
    hide Xor;
    Assoc(Xor(a, b), c, d);
  }

  /** A sum of four without its first term. */
  lemma WithoutFirst(a: bv8, b: bv8, c: bv8, d: bv8)
    ensures Xor(a, Sum(a, b, c, d)) == Xor(Xor(b, c), d)
  {
    hide Xor;
    Assoc(a, b, c);
    Assoc(a, Xor(b, c), d);
    var rest := Xor(Xor(b, c), d);
    Comm(a, Xor(a, rest));
    Comm(a, rest);
    Self(rest, a);
  }

  // ---------- mixing four times changes nothing ----------

  lemma RowTerms(a: bv8, b: bv8, c: bv8, d: bv8, a': bv8, b': bv8)
    ensures Xor(Xor(Xor(a', Xor(b', b)), c), d) == Xor(Xor(a, Sum(a, b, c, d)), Xor(a', b'))
  {
    hide *;
    WithoutFirst(a, b, c, d);
    var u := Xor(a', b');
    Comm(Xor(Xor(b, c), d), u);
    Assoc(u, Xor(b, c), d);
    Assoc(u, b, c);
    Assoc(a', b', b);
  }

  /** The form of the program: a cell plus the sum of all four plus one doubling. */
  lemma RowBySum(a: bv8, b: bv8, c: bv8, d: bv8)
    ensures MixRow(a, b, c, d) == Xor(Xor(a, Sum(a, b, c, d)), Xtime(Xor(a, b)))
  {
    hide Xtime, Xor, Sum;
    RowTerms(a, b, c, d, Xtime(a), Xtime(b));
    XtimeLinear(a, b);
  }

  lemma SumTurns(a: bv8, b: bv8, c: bv8, d: bv8)
    ensures Sum(b, c, d, a) == Sum(a, b, c, d)
  {
    hide Xor;
    Comm(Xor(Xor(b, c), d), a);
    Assoc(a, Xor(b, c), d);
    Assoc(a, b, c);
  }

  lemma PairTerms(a: bv8, b: bv8, s: bv8, y: bv8, z: bv8)
    ensures Xor(Xor(Xor(a, s), y), Xor(Xor(b, s), Xor(y, z))) == Xor(Xor(a, b), z)
  {
    hide *;
    Pairs(Xor(a, s), y, Xor(b, s), Xor(y, z));
    Common(a, b, s);
    Comm(y, Xor(y, z));
    Comm(y, z);
    Self(z, y);
  }

  lemma SumTerms(a: bv8, b: bv8, c: bv8, d: bv8, s: bv8, y: bv8, w: bv8, z: bv8)
    ensures Sum(Xor(Xor(a, s), y), Xor(Xor(b, s), Xor(y, z)), Xor(Xor(c, s), w), Xor(Xor(d, s), Xor(w, z)))
         == Sum(a, b, c, d)
  {
    hide *;
    SumOfPairs(Xor(Xor(a, s), y), Xor(Xor(b, s), Xor(y, z)), Xor(Xor(c, s), w), Xor(Xor(d, s), Xor(w, z)));
    PairTerms(a, b, s, y, z);
    PairTerms(c, d, s, w, z);
    Common(Xor(a, b), Xor(c, d), z);
    SumOfPairs(a, b, c, d);
  }

  lemma DoublingsMeet(a: bv8, b: bv8, c: bv8)
    ensures Xtime(Xor(b, c)) == Xor(Xtime(Xor(a, b)), Xtime(Xor(a, c)))
  {
    hide Xtime, Xor;
    XtimeLinear(Xor(a, b), Xor(a, c));
    Comm(a, b);
    Between(b, a, c);
  }

  /** Mixing keeps the sum of a column. */
  lemma SumKept(a: bv8, b: bv8, c: bv8, d: bv8)
    ensures Sum(MixRow(a, b, c, d), MixRow(b, c, d, a), MixRow(c, d, a, b), MixRow(d, a, b, c)) == Sum(a, b, c, d)
  {
    hide *;
    RowBySum(a, b, c, d);
    RowBySum(b, c, d, a);
    RowBySum(c, d, a, b);
    RowBySum(d, a, b, c);
    SumTurns(a, b, c, d);
    SumTurns(b, c, d, a);
    SumTurns(c, d, a, b);
    DoublingsMeet(a, b, c);
    DoublingsMeet(c, d, a);
    Comm(a, c);
    SumTerms(a, b, c, d, Sum(a, b, c, d), Xtime(Xor(a, b)), Xtime(Xor(c, d)), Xtime(Xor(a, c)));
  }

  /** Twice mixed: a cell plus four times itself and its opposite. */
  function Twice(a: bv8, c: bv8): bv8 {
    Xor(a, Xtime(Xtime(Xor(a, c))))
  }

  lemma TwiceTerms(a: bv8, s: bv8, y: bv8, z: bv8)
    ensures Xor(Xor(Xor(Xor(a, s), y), s), Xor(y, z)) == Xor(a, z)
  {
    hide *;
    Swap(a, s, y);
    Self(Xor(a, y), s);
    Between(a, y, z);
  }

  lemma RowTwice(a: bv8, b: bv8, c: bv8, d: bv8)
    ensures MixRow(MixRow(a, b, c, d), MixRow(b, c, d, a), MixRow(c, d, a, b), MixRow(d, a, b, c)) == Twice(a, c)
  {
    hide MixRow, Xor, Xtime, Sum;
    var m, n := MixRow(a, b, c, d), MixRow(b, c, d, a);
    var s, y, z := Sum(a, b, c, d), Xtime(Xor(a, b)), Xtime(Xor(a, c));
    RowBySum(m, n, MixRow(c, d, a, b), MixRow(d, a, b, c));
    SumKept(a, b, c, d);
    RowBySum(a, b, c, d);
    RowBySum(b, c, d, a);
    SumTurns(a, b, c, d);
    DoublingsMeet(a, b, c);
    PairTerms(a, b, s, y, z);
    XtimeLinear(Xor(a, b), z);
    TwiceTerms(a, s, y, Xtime(z));
  }

  lemma TwiceTwice(a: bv8, c: bv8)
    ensures Twice(Twice(a, c), Twice(c, a)) == a
  {
    hide Xor, Xtime;
    var z := Xtime(Xtime(Xor(a, c)));
    Comm(a, c);
    Common(a, c, z);
    Self(a, z);
  }

  // ---------- unmixing is mixing three times ----------

  function MixCol2(c: Byte4): Byte4 {
    Col(Twice(c.b0, c.b2), Twice(c.b1, c.b3), Twice(c.b2, c.b0), Twice(c.b3, c.b1))
  }

  lemma MixedTwice(c: Byte4)
    ensures MixCol(MixCol(c)) == MixCol2(c)
  {
    hide MixRow, Twice;
    RowTwice(c.b0, c.b1, c.b2, c.b3);
    RowTwice(c.b1, c.b2, c.b3, c.b0);
    RowTwice(c.b2, c.b3, c.b0, c.b1);
    RowTwice(c.b3, c.b0, c.b1, c.b2);
  }

  lemma MixedFourTimes(c: Byte4)
    ensures MixCol2(MixCol2(c)) == c
  {
    hide Twice;
    TwiceTwice(c.b0, c.b2);
    TwiceTwice(c.b1, c.b3);
    TwiceTwice(c.b2, c.b0);
    TwiceTwice(c.b3, c.b1);
  }

  /** The form of the program's decryption: three doublings shared by the column. */
  function UnmixRow(a: bv8, b: bv8, c: bv8, d: bv8): bv8 {
    var xt4 := Xtime(Xor(Xtime(Xor(a, b)), Xtime(Xor(b, c))));
    var xt5 := Xtime(Xor(Xtime(Xor(b, c)), Xtime(Xor(c, d))));
    Xor(Xtime(Xor(a, b)), Xor(Xor(Xor(Xor(b, c), d), xt4), Xtime(Xor(xt4, xt5))))
  }

  lemma UnmixTerms(a: bv8, b: bv8, c: bv8, d: bv8, y: bv8, p: bv8, q: bv8, r: bv8)
    ensures Xor(Xor(Xor(a, p), Sum(Xor(a, p), Xor(b, q), Xor(c, p), Xor(d, q))), Xor(y, r))
         == Xor(y, Xor(Xor(Xor(Xor(b, c), d), p), r))
  {
    hide *;
    WithoutFirst(Xor(a, p), Xor(b, q), Xor(c, p), Xor(d, q));
    Swap(Xor(b, q), Xor(c, p), Xor(d, q));
    Common(b, d, q);
    Assoc(Xor(b, d), c, p);
    Swap(b, d, c);
    var k := Xor(Xor(Xor(b, c), d), p);
    Assoc(k, y, r);
    Comm(k, y);
    Assoc(y, k, r);
  }

  lemma UnmixRowIsThird(a: bv8, b: bv8, c: bv8, d: bv8)
    ensures UnmixRow(a, b, c, d) == MixRow(Twice(a, c), Twice(b, d), Twice(c, a), Twice(d, b))
  {
    hide MixRow, Xor, Xtime, Sum;
    var p, q := Xtime(Xtime(Xor(a, c))), Xtime(Xtime(Xor(b, d)));
    RowBySum(Twice(a, c), Twice(b, d), Twice(c, a), Twice(d, b));
    Comm(a, c);
    Comm(b, d);
    UnmixTerms(a, b, c, d, Xtime(Xor(a, b)), p, q, Xtime(Xor(p, q)));
    Pairs(a, p, b, q);
    XtimeLinear(Xor(a, b), Xor(p, q));
    XtimeLinear(Xor(a, b), Xor(b, c));
    XtimeLinear(Xor(b, c), Xor(c, d));
    Between(a, b, c);
    Between(b, c, d);
  }

  lemma FiveTerms(w: bv8, q: bv8, b1: bv8, a1: bv8, s: bv8)
    ensures Xor(Xor(w, Xor(q, b1)), Xor(a1, s)) == Xor(Xor(a1, b1), Xor(Xor(s, q), w))
  {
    hide *;
    Pairs(w, Xor(q, b1), a1, s);
    Comm(w, a1);
    Swap(q, b1, s);
    Comm(q, s);
    var t := Xor(s, q);
    Comm(t, b1);
    Pairs(a1, w, b1, t);
    Comm(w, t);
  }

  lemma FipsTerms(b: bv8, c: bv8, d: bv8, a1: bv8, b1: bv8, a2: bv8, c2: bv8, a3: bv8, b3: bv8, c3: bv8, d3: bv8)
    ensures Xor(Xor(Xor(Xor(Xor(a3, a2), a1), Xor(Xor(b3, b1), b)), Xor(Xor(c3, c2), c)), Xor(d3, d))
         == Xor(Xor(a1, b1), Xor(Xor(Xor(Xor(b, c), d), Xor(a2, c2)), Xor(Xor(a3, c3), Xor(b3, d3))))
  {
    hide *;
    var ab, x, y := Xor(Xor(Xor(a3, a2), a1), Xor(Xor(b3, b1), b)), Xor(Xor(a3, b3), Xor(a2, b1)), Xor(Xor(c3, d3), c2);
    Assoc(ab, Xor(Xor(c3, c2), c), Xor(d3, d));
    Pairs(Xor(a3, a2), a1, Xor(b3, b1), b);
    Pairs(a3, a2, b3, b1);
    Pairs(Xor(c3, c2), c, d3, d);
    Swap(c3, c2, d3);
    Pairs(x, Xor(a1, b), y, Xor(c, d));
    Pairs(Xor(a3, b3), Xor(a2, b1), Xor(c3, d3), c2);
    Pairs(a3, b3, c3, d3);
    Swap(a2, b1, c2);
    Assoc(a1, b, Xor(c, d));
    Assoc(b, c, d);
    FiveTerms(Xor(Xor(a3, c3), Xor(b3, d3)), Xor(a2, c2), b1, a1, Xor(Xor(b, c), d));
  }

  lemma XtimeTwice(x: bv8, y: bv8)
    ensures Xtime(Xtime(Xor(x, y))) == Xor(Xtime(Xtime(x)), Xtime(Xtime(y)))
    ensures Xtime(Xtime(Xtime(Xor(x, y)))) == Xor(Xtime(Xtime(Xtime(x))), Xtime(Xtime(Xtime(y))))
  {
    hide *;
    XtimeLinear(x, y);
    XtimeLinear(Xtime(x), Xtime(y));
    XtimeLinear(Xtime(Xtime(x)), Xtime(Xtime(y)));
  }

  /** The program's form is the row 14, 11, 13, 9 of the standard. */
  lemma UnmixRowIsInverseRow(a: bv8, b: bv8, c: bv8, d: bv8)
    ensures UnmixRow(a, b, c, d) == InvMixRow(a, b, c, d)
  {
    hide Xor, Xtime;
    XtimeLinear(a, b);
    XtimeTwice(a, c);
    XtimeTwice(b, d);
    XtimeLinear(Xor(a, b), Xor(b, c));
    XtimeLinear(Xor(b, c), Xor(c, d));
    Between(a, b, c);
    Between(b, c, d);
    XtimeLinear(Xtime(Xtime(Xor(a, c))), Xtime(Xtime(Xor(b, d))));
    FipsTerms(b, c, d, Xtime(a), Xtime(b), Xtime(Xtime(a)), Xtime(Xtime(c)),
              Xtime(Xtime(Xtime(a))), Xtime(Xtime(Xtime(b))), Xtime(Xtime(Xtime(c))), Xtime(Xtime(Xtime(d))));
  }

  lemma UnmixedIsThird(c: Byte4)
    ensures InvMixCol(c) == MixCol(MixCol2(c))
  {
    hide MixRow, InvMixRow, Twice;
    UnmixRowIsInverseRow(c.b0, c.b1, c.b2, c.b3);
    UnmixRowIsInverseRow(c.b1, c.b2, c.b3, c.b0);
    UnmixRowIsInverseRow(c.b2, c.b3, c.b0, c.b1);
    UnmixRowIsInverseRow(c.b3, c.b0, c.b1, c.b2);
    UnmixRowIsThird(c.b0, c.b1, c.b2, c.b3);
    UnmixRowIsThird(c.b1, c.b2, c.b3, c.b0);
    UnmixRowIsThird(c.b2, c.b3, c.b0, c.b1);
    UnmixRowIsThird(c.b3, c.b0, c.b1, c.b2);
  }

  /** InvMixColumns undoes MixColumns. */
  lemma UnmixUndoesMix(c: Byte4)
    ensures InvMixCol(MixCol(c)) == c
  {
    hide *;
    UnmixedIsThird(MixCol(c));
    MixedTwice(MixCol(c));
    MixedTwice(c);
    MixedTwice(MixCol(MixCol(c)));
    MixedFourTimes(c);
  }

  // ---------- linearity ----------

  lemma RowLinear(a: bv8, b: bv8, c: bv8, d: bv8, a': bv8, b': bv8, c': bv8, d': bv8)
    ensures MixRow(Xor(a, a'), Xor(b, b'), Xor(c, c'), Xor(d, d')) == Xor(MixRow(a, b, c, d), MixRow(a', b', c', d'))
  {
    hide Xor, Xtime;
    XtimeLinear(a, a');
    XtimeLinear(b, b');
    var (x, x') := (Xor(Xtime(b), b), Xor(Xtime(b'), b'));
    Pairs(Xtime(b), Xtime(b'), b, b');
    Pairs(Xtime(a), Xtime(a'), x, x');
    Pairs(Xor(Xtime(a), x), Xor(Xtime(a'), x'), c, c');
    Pairs(Xor(Xor(Xtime(a), x), c), Xor(Xor(Xtime(a'), x'), c'), d, d');
  }

  lemma MixLinear(x: Byte4, y: Byte4)
    ensures MixCol(XorCol(x, y)) == XorCol(MixCol(x), MixCol(y))
  {
    hide MixRow, Xor;
    RowLinear(x.b0, x.b1, x.b2, x.b3, y.b0, y.b1, y.b2, y.b3);
    RowLinear(x.b1, x.b2, x.b3, x.b0, y.b1, y.b2, y.b3, y.b0);
    RowLinear(x.b2, x.b3, x.b0, x.b1, y.b2, y.b3, y.b0, y.b1);
    RowLinear(x.b3, x.b0, x.b1, x.b2, y.b3, y.b0, y.b1, y.b2);
  }

  lemma UnmixLinear(x: Byte4, y: Byte4)
    ensures InvMixCol(XorCol(x, y)) == XorCol(InvMixCol(x), InvMixCol(y))
  {
    hide *;
    MixLinear(x, y);
    MixLinear(MixCol(x), MixCol(y));
    MixLinear(MixCol(MixCol(x)), MixCol(MixCol(y)));
    UnmixedIsThird(XorCol(x, y));
    UnmixedIsThird(x);
    UnmixedIsThird(y);
    MixedTwice(XorCol(x, y));
    MixedTwice(x);
    MixedTwice(y);
  }
}
