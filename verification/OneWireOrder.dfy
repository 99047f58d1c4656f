/** The order in which a 1-Wire search meets the devices of a bus. A device is its 64 ROM
    bits in transmission order; a search goes down the binary tree of the devices' prefixes. */
module OneWireOrder {
  type Bits = seq<bool>

  const ROM_BITS: nat := 64

  ghost predicate Roms(D: set<Bits>) {
    forall d :: d in D ==> |d| == ROM_BITS
  }

  /** The devices still taking part after the directions p were written. */
  function Live(D: set<Bits>, p: Bits): (l: set<Bits>)
    ensures l <= D
  {
    set d | d in D && p <= d
  }

  predicate CanGo(D: set<Bits>, p: Bits, b: bool) {
    Live(D, p + [b]) != {}
  }

  /** Devices with a zero and devices with a one come next. */
  predicate Split(D: set<Bits>, p: Bits) {
    CanGo(D, p, false) && CanGo(D, p, true)
  }

  /** The last place, counted from one, where a zero was taken although a one was live. */
  function LastZero(D: set<Bits>, p: Bits): (z: nat)
    ensures z <= |p|
    decreases |p|
  {
    if p == [] then 0
    else
      var q := p[..|p| - 1];
      if Split(D, q) && !p[|p| - 1] then |p| else LastZero(D, q)
  }

  /** The direction after the prefix p, for a search that last found r with its last
      discrepancy at place last: repeat r before that place, take one there, zero after it. */
  predicate Direction(D: set<Bits>, r: Bits, last: nat, p: Bits)
    requires |p| < |r|
  {
    if Split(D, p) then (if |p| + 1 < last then r[|p|] else |p| + 1 == last)
    else CanGo(D, p, true)
  }

  /** The device such a search arrives at. */
  function Walk(D: set<Bits>, r: Bits, last: nat, p: Bits): (t: Bits)
    requires |p| <= |r|
    ensures |t| == |r| && p <= t
    decreases |r| - |p|
  {
    if |p| == |r| then p else Walk(D, r, last, p + [Direction(D, r, last, p)])
  }

  /** Lexicographic order: a zero where the other has the first different bit. */
  predicate Before(a: Bits, b: Bits) {
    a != [] && b != [] && if a[0] == b[0] then Before(a[1..], b[1..]) else b[0]
  }

  /** How many devices come before d. */
  function Rank(D: set<Bits>, d: Bits): nat {
    |set e | e in D && Before(e, d)|
  }

  // ---------- the order ----------

  lemma {:induction false} BeforeSplits(p: Bits, a: Bits, b: Bits)
    requires p + [false] <= a && p + [true] <= b
    ensures Before(a, b)
    decreases |p|
  {
    if p != [] {
      assert a[0] == p[0] == b[0];
      assert p[1..] + [false] == (p + [false])[1..] <= a[1..];
      assert p[1..] + [true] == (p + [true])[1..] <= b[1..];
      BeforeSplits(p[1..], a[1..], b[1..]);
    }
  }

  /** Two different bit strings of one length part somewhere. */
  lemma {:induction false} FirstDifference(a: Bits, b: Bits) returns (p: Bits)
    requires |a| == |b| && Before(a, b)
    ensures |p| < |a| && p + [false] <= a && p + [true] <= b
    decreases |a|
  {
    if a[0] != b[0] {
      p := [];
    } else {
      var q := FirstDifference(a[1..], b[1..]);
      p := [a[0]] + q;
      assert a == [a[0]] + a[1..] && b == [a[0]] + b[1..];
      assert p + [false] == [a[0]] + (q + [false]) && p + [true] == [a[0]] + (q + [true]);
    }
  }

  lemma {:induction false} Irreflexive(a: Bits)
    ensures !Before(a, a)
    decreases |a|
  {
    if a != [] {
      Irreflexive(a[1..]);
    }
  }

  lemma {:induction false} Transitive(a: Bits, b: Bits, c: Bits)
    requires Before(a, b) && Before(b, c)
    ensures Before(a, c)
    decreases |a|
  {
    if a[0] == b[0] == c[0] {
      Transitive(a[1..], b[1..], c[1..]);
    }
  }

  lemma {:induction false} Total(a: Bits, b: Bits)
    requires |a| == |b| && a != b
    ensures Before(a, b) || Before(b, a)
    decreases |a|
  {
    if a[0] == b[0] {
      assert a == [a[0]] + a[1..] && b == [b[0]] + b[1..];
      Total(a[1..], b[1..]);
    }
  }

  /** Of two codes the one whose ones are all ones of the other comes first. */
  lemma {:induction false} FewerOnesFirst(a: Bits, b: Bits)
    requires |a| == |b| && a != b && forall i | 0 <= i < |a| :: a[i] ==> b[i]
    ensures Before(a, b)
    decreases |a|
  {
    assert a == [a[0]] + a[1..] && b == [b[0]] + b[1..];
    if a[0] == b[0] {
      assert forall i | 0 <= i < |a| - 1 :: a[1..][i] == a[i + 1] && b[1..][i] == b[i + 1];
      FewerOnesFirst(a[1..], b[1..]);
    }
  }

  // ---------- going down the tree ----------

  lemma LiveHere(D: set<Bits>, d: Bits, k: nat)
    requires d in D && k < |d|
    ensures d in Live(D, d[..k]) && CanGo(D, d[..k], d[k])
  {
    assert d[..k] + [d[k]] == d[..k + 1] <= d;
    assert d in Live(D, d[..k] + [d[k]]);
  }

  /** A live prefix has a live extension, and every live device is on one of its sides. */
  lemma SomeoneLeft(D: set<Bits>, p: Bits, d: Bits)
    requires d in Live(D, p) && |p| < |d|
    ensures d in Live(D, p + [d[|p|]])
  {
    assert d[..|p| + 1] == p + [d[|p|]];
  }

  lemma DirectionIsLive(D: set<Bits>, r: Bits, last: nat, p: Bits)
    requires Roms(D) && |r| == ROM_BITS && |p| < |r| && Live(D, p) != {}
    ensures CanGo(D, p, Direction(D, r, last, p))
  {
    var d :| d in Live(D, p);
    SomeoneLeft(D, p, d);
    assert CanGo(D, p, d[|p|]);
  }

  lemma {:induction false} WalkArrives(D: set<Bits>, r: Bits, last: nat, p: Bits)
    requires Roms(D) && |r| == ROM_BITS && |p| <= |r| && Live(D, p) != {}
    ensures Walk(D, r, last, p) in D
    decreases |r| - |p|
  {
    if |p| == |r| {
      var d :| d in Live(D, p);
      assert d == p;
    } else {
      DirectionIsLive(D, r, last, p);
      WalkArrives(D, r, last, p + [Direction(D, r, last, p)]);
    }
  }

  /** Past the last discrepancy a search takes the least device. */
  lemma {:induction false} WalkIsLeast(D: set<Bits>, r: Bits, last: nat, p: Bits, e: Bits)
    requires Roms(D) && |r| == ROM_BITS && last <= |p| <= |r| && e in Live(D, p)
    ensures var t := Walk(D, r, last, p); t == e || Before(t, e)
    decreases |r| - |p|
  {
    if |p| == |r| {
      assert e == p;
    } else {
      var d := Direction(D, r, last, p);
      SomeoneLeft(D, p, e);
      if d == e[|p|] {
        WalkIsLeast(D, r, last, p + [d], e);
      } else {
        assert !d;
        assert p + [false] <= Walk(D, r, last, p + [d]);
        BeforeSplits(p, Walk(D, r, last, p), e);
      }
    }
  }

  /** Up to the last discrepancy the search follows the device it found last. */
  lemma FollowsOld(D: set<Bits>, r: Bits, last: nat, k: nat)
    requires r in D && k < |r| && k + 1 < last
    ensures Direction(D, r, last, r[..k]) == r[k]
  {
    LiveHere(D, r, k);
  }

  lemma {:induction false} WalkFollows(D: set<Bits>, r: Bits, last: nat, k: nat)
    requires r in D && k < last <= |r|
    ensures Walk(D, r, last, []) == Walk(D, r, last, r[..k])
    decreases k
  {
    hide LastZero, Live, Direction;
    if k > 0 {
      WalkFollows(D, r, last, k - 1);
      FollowsOld(D, r, last, k - 1);
      assert r[..k - 1] + [r[k - 1]] == r[..k];
    } else {
      assert r[..0] == [];
    }
  }

  // ---------- the last discrepancy ----------

  lemma {:induction false} LastZeroIsSplit(D: set<Bits>, p: Bits)
    requires LastZero(D, p) > 0
    ensures var k := LastZero(D, p) - 1; Split(D, p[..k]) && !p[k]
    decreases |p|
  {
    var q := p[..|p| - 1];
    if !(Split(D, q) && !p[|p| - 1]) {
      LastZeroIsSplit(D, q);
      assert q[..LastZero(D, q) - 1] == p[..LastZero(D, q) - 1];
    }
  }

  lemma {:induction false} LastZeroIsLast(D: set<Bits>, p: Bits, k: nat)
    requires k < |p| && Split(D, p[..k]) && !p[k]
    ensures k + 1 <= LastZero(D, p)
    decreases |p|
  {
    var q := p[..|p| - 1];
    if k < |q| {
      assert q[..k] == p[..k];
      if !(Split(D, q) && !p[|p| - 1]) {
        LastZeroIsLast(D, q, k);
      }
    }
  }

  lemma LastZeroExtends(D: set<Bits>, p: Bits, b: bool)
    ensures LastZero(D, p + [b]) == if Split(D, p) && !b then |p| + 1 else LastZero(D, p)
  {
    assert (p + [b])[..|p|] == p;
  }

  // ---------- one search ----------

  /** A fresh search finds the first device. */
  lemma FreshFindsFirst(D: set<Bits>, r: Bits, e: Bits)
    requires Roms(D) && |r| == ROM_BITS && e in D
    ensures var t := Walk(D, r, 0, []); t in D && (t == e || Before(t, e))
  {
    assert e in Live(D, []);
    WalkArrives(D, r, 0, []);
    WalkIsLeast(D, r, 0, [], e);
  }

  /** A device that comes later than r parts from it no later than the last discrepancy of r. */
  lemma LaterPartsEarly(D: set<Bits>, r: Bits, e: Bits) returns (p: Bits)
    requires Roms(D) && r in D && e in D && Before(r, e)
    ensures |p| < LastZero(D, r) && p + [false] <= r && p + [true] <= e
  {
    p := FirstDifference(r, e);
    assert r in Live(D, p + [false]) && e in Live(D, p + [true]);
    assert r[..|p|] == p && !r[|p|];
    LastZeroIsLast(D, r, |p|);
  }

  /** A resumed search finds a device after r ... */
  lemma ResumedMovesOn(D: set<Bits>, r: Bits)
    requires Roms(D) && r in D && LastZero(D, r) > 0
    ensures var t := Walk(D, r, LastZero(D, r), []);
      && Before(r, t) && r[..LastZero(D, r) - 1] + [true] <= t && t in D
      && t == Walk(D, r, LastZero(D, r), r[..LastZero(D, r) - 1] + [true])
      && Live(D, r[..LastZero(D, r) - 1] + [true]) != {}
  {
    var last := LastZero(D, r);
    var p := r[..last - 1];
    LastZeroIsSplit(D, r);
    WalkFollows(D, r, last, last - 1);
    WalkArrives(D, r, last, p + [true]);
    assert p + [r[last - 1]] == r[..last] <= r;
    BeforeSplits(p, r, Walk(D, r, last, p + [true]));
  }

  /** ... and no device is between the two. */
  lemma ResumedSkipsNothing(D: set<Bits>, r: Bits, e: Bits)
    requires Roms(D) && r in D && e in D && Before(r, e)
    ensures LastZero(D, r) > 0
    ensures var t := Walk(D, r, LastZero(D, r), []); t == e || Before(t, e)
  {
    hide LastZero, Walk, Before;
    var p := LaterPartsEarly(D, r, e);
    var last := LastZero(D, r);
    var t := Walk(D, r, last, []);
    ResumedMovesOn(D, r);
    if |p| + 1 < last {
      assert r[..last - 1][..|p| + 1] == r[..|p| + 1] == p + [false];
      assert t[..last - 1] == r[..last - 1];
      assert t[..|p| + 1] == r[..last - 1][..|p| + 1];
      assert p + [false] <= t;
      BeforeSplits(p, t, e);
    } else {
      assert p == r[..last - 1];
      assert e in Live(D, p + [true]);
      WalkIsLeast(D, r, last, p + [true], e);
    }
  }

  // ---------- ranks ----------

  lemma FirstRank(D: set<Bits>, t: Bits)
    requires forall e :: e in D ==> t == e || Before(t, e)
    ensures Rank(D, t) == 0
  {
    forall e | e in D ensures !Before(e, t) {
      Irreflexive(t);
      if Before(e, t) {
        Transitive(t, e, t);
      }
    }
    assert (set e | e in D && Before(e, t)) == {};
  }

  lemma NextRank(D: set<Bits>, r: Bits, t: Bits)
    requires Roms(D) && r in D && t in D && Before(r, t)
    requires forall e :: e in D && Before(r, e) ==> t == e || Before(t, e)
    ensures Rank(D, t) == Rank(D, r) + 1
  {
    var below, next := set e | e in D && Before(e, r), set e | e in D && Before(e, t);
    forall e | e in D ensures e in next <==> e in below || e == r {
      NextBelow(D, r, t, e);
    }
    Irreflexive(r);
    assert next == below + {r};
  }

  lemma NextBelow(D: set<Bits>, r: Bits, t: Bits, e: Bits)
    requires Roms(D) && r in D && t in D && Before(r, t) && e in D
    requires Before(r, e) ==> t == e || Before(t, e)
    ensures Before(e, t) <==> Before(e, r) || e == r
  {
    Irreflexive(t);
    if Before(e, r) {
      Transitive(e, r, t);
    } else if e != r {
      Total(e, r);
      if Before(e, t) && t != e {
        Transitive(e, t, e);
        Irreflexive(e);
      }
    }
  }

  lemma LastRank(D: set<Bits>, r: Bits)
    requires Roms(D) && r in D && forall e :: e in D ==> !Before(r, e)
    ensures Rank(D, r) == |D| - 1
  {
    var below := set e | e in D && Before(e, r);
    forall e | e in D ensures e in below <==> e != r {
      Irreflexive(r);
      if e != r {
        Total(e, r);
      }
    }
    assert D == below + {r};
  }

  lemma RankSmall(D: set<Bits>, d: Bits)
    requires d in D
    ensures Rank(D, d) < |D|
  {
    var below := set e | e in D && Before(e, d);
    Irreflexive(d);
    SubsetSmaller(below + {d}, D);
  }

  lemma {:induction false} SubsetSmaller<T>(a: set<T>, b: set<T>)
    requires a <= b
    ensures |a| <= |b|
    decreases |a|
  {
    if a != {} {
      var x :| x in a;
      SubsetSmaller(a - {x}, b - {x});
    }
  }

  /** Devices are told apart by their ranks. */
  lemma RankOrders(D: set<Bits>, a: Bits, b: Bits)
    requires a in D && Before(a, b)
    ensures Rank(D, a) < Rank(D, b)
  {
    var below, above := set e | e in D && Before(e, a), set e | e in D && Before(e, b);
    forall e | e in below ensures e in above {
      Transitive(e, a, b);
    }
    Irreflexive(a);
    SubsetSmaller(below + {a}, above);
  }

  // ---------- all searches ----------

  /** What successive searches find, whatever the ROM buffer held first. */
  function Nth(D: set<Bits>, start: Bits, k: nat): (t: Bits)
    requires |start| == ROM_BITS
    ensures |t| == ROM_BITS
    decreases k
  {
    if k == 0 then Walk(D, start, 0, [])
    else
      var r := Nth(D, start, k - 1);
      Walk(D, r, LastZero(D, r), [])
  }

  /** The k-th search finds the device with k devices before it, and its last discrepancy
      says whether it was the last one. */
  lemma {:induction false} SearchesInOrder(D: set<Bits>, start: Bits, k: nat)
    requires Roms(D) && |start| == ROM_BITS && k < |D|
    ensures var t := Nth(D, start, k); t in D && Rank(D, t) == k && (LastZero(D, t) == 0 <==> k == |D| - 1)
    decreases k
  {
    var t := Nth(D, start, k);
    if k == 0 {
      forall e | e in D ensures t in D && (t == e || Before(t, e)) {
        FreshFindsFirst(D, start, e);
      }
      var e :| e in D;
      FirstRank(D, t);
    } else {
      var r := Nth(D, start, k - 1);
      SearchesInOrder(D, start, k - 1);
      ResumedMovesOn(D, r);
      forall e | e in D && Before(r, e) ensures t == e || Before(t, e) {
        ResumedSkipsNothing(D, r, e);
      }
      NextRank(D, r, t);
    }
    LastExactly(D, t);
  }

  lemma LastExactly(D: set<Bits>, t: Bits)
    requires Roms(D) && t in D
    ensures LastZero(D, t) == 0 <==> Rank(D, t) == |D| - 1
  {
    if LastZero(D, t) == 0 {
      forall e | e in D ensures !Before(t, e) {
        if Before(t, e) {
          ResumedSkipsNothing(D, t, e);
        }
      }
      LastRank(D, t);
    } else {
      ResumedMovesOn(D, t);
      var u := Walk(D, t, LastZero(D, t), []);
      RankOrders(D, t, u);
      RankSmall(D, u);
    }
  }

  /** Every device is found: it is the one found by the search of its rank. */
  lemma EveryDeviceFound(D: set<Bits>, start: Bits, d: Bits)
    requires Roms(D) && |start| == ROM_BITS && d in D
    ensures Rank(D, d) < |D| && Nth(D, start, Rank(D, d)) == d
  {
    RankSmall(D, d);
    var k := Rank(D, d);
    SearchesInOrder(D, start, k);
    var t := Nth(D, start, k);
    if t != d {
      Total(t, d);
      if Before(t, d) {
        RankOrders(D, t, d);
      } else {
        RankOrders(D, d, t);
      }
    }
  }

  // ---------- the family byte ----------

  /** The first eight bits are zero. */
  predicate NoFamily(d: Bits)
    requires |d| == ROM_BITS
  {
    forall i :: 0 <= i < 8 ==> !d[i]
  }

  /** A code before one with a zero family byte has a zero family byte too. */
  lemma NoFamilyBefore(t: Bits, d: Bits)
    requires |t| == |d| == ROM_BITS && Before(t, d) && NoFamily(d)
    ensures NoFamily(t)
  {
    var p := FirstDifference(t, d);
    assert d[|p|];
    assert forall i :: 0 <= i < 8 ==> t[i] == p[i] == d[i];
  }

  /** The first device found has a zero family byte exactly when some device has one. */
  lemma NoFamilyComesFirst(D: set<Bits>, start: Bits)
    requires Roms(D) && |start| == ROM_BITS && D != {}
    ensures NoFamily(Nth(D, start, 0)) <==> exists d :: d in D && NoFamily(d)
  {
    SearchesInOrder(D, start, 0);
    var t := Nth(D, start, 0);
    if d :| d in D && NoFamily(d) {
      FreshFindsFirst(D, start, d);
      if t != d {
        NoFamilyBefore(t, d);
      }
    }
  }
}
