/** What whole runs of the ROM search find. */
module OneWireEnumeration {
  import opened OneWireOrder
  import opened OneWireSearch

  /** Every device has a family code. */
  ghost predicate AllFamilies(D: set<Bits>)
    requires Roms(D)
  {
    forall d :: d in D ==> !NoFamily(d)
  }

  predicate Fresh(s: SearchState) {
    |s.rom| == ROM_BITS && s.last == 0 && !s.done
  }

  /** The state after k searches. */
  function After(D: set<Bits>, s: SearchState, k: nat): (t: SearchState)
    requires |s.rom| == ROM_BITS
    ensures |t.rom| == ROM_BITS
    decreases k
  {
    if k == 0 then s else Searched(D, After(D, s, k - 1)).0
  }

  /** Whether the k-th search of a run succeeds, counted from zero. */
  predicate Succeeds(D: set<Bits>, s: SearchState, k: nat)
    requires |s.rom| == ROM_BITS
  {
    Searched(D, After(D, s, k)).1
  }

  /** The search stands at the device of rank k. */
  ghost predicate StandsAt(D: set<Bits>, start: Bits, s: SearchState, k: nat) {
    && |start| == |s.rom| == ROM_BITS && k < |D| && s.rom == Nth(D, start, k)
    && s.last == LastZero(D, s.rom) && s.done == (s.last == 0)
  }

  lemma FirstSearch(D: set<Bits>, s: SearchState)
    requires Roms(D) && Fresh(s)
    ensures D != {} && AllFamilies(D) ==> Searched(D, s).1 && StandsAt(D, s.rom, Searched(D, s).0, 0)
    ensures D == {} || !AllFamilies(D) ==> !Searched(D, s).1 && Fresh(Searched(D, s).0)
  {
    if D != {} {
      NoFamilyComesFirst(D, s.rom);
      SearchesInOrder(D, s.rom, 0);
    }
  }

  lemma NextSearch(D: set<Bits>, start: Bits, s: SearchState, k: nat)
    requires Roms(D) && AllFamilies(D) && StandsAt(D, start, s, k)
    ensures k + 1 < |D| ==> Searched(D, s).1 && StandsAt(D, start, Searched(D, s).0, k + 1)
    ensures k + 1 == |D| ==> Searched(D, s) == (Restarted(s), false)
  {
    hide LastZero, Walk, Nth, Roms, NoFamily, FamilyZero;
    SearchesInOrder(D, start, k);
    if k + 1 < |D| {
      SearchesInOrder(D, start, k + 1);
      var t := NthResumes(D, start, s.rom, k);
      SearchGoesOn(D, s, t);
    }
  }

  lemma NthResumes(D: set<Bits>, start: Bits, r: Bits, k: nat) returns (t: Bits)
    requires |start| == ROM_BITS && r == Nth(D, start, k)
    ensures t == Walk(D, r, LastZero(D, r), []) && t == Nth(D, start, k + 1)
  {
    t := Walk(D, r, LastZero(D, r), []);
  }

  lemma SearchGoesOn(D: set<Bits>, s: SearchState, t: Bits)
    requires Roms(D) && D != {} && |s.rom| == ROM_BITS && !s.done
    requires t == Walk(D, s.rom, s.last, []) && !NoFamily(t)
    ensures Searched(D, s).1
         && Searched(D, s).0 == SearchState(t, LastZero(D, t), FamilyZero(D, t, s.family), LastZero(D, t) == 0)
  {
  }

  lemma {:induction false} StandsInOrder(D: set<Bits>, s: SearchState, k: nat)
    returns (now: SearchState, next: SearchState)
    requires Roms(D) && AllFamilies(D) && Fresh(s) && k < |D|
    ensures now == After(D, s, k) && next == After(D, s, k + 1)
    ensures |now.rom| == ROM_BITS && Searched(D, now).1 && StandsAt(D, s.rom, next, k)
    decreases k
  {
    hide Searched, StandsAt, AllFamilies, Roms;
    if k == 0 {
      now := s;
      FirstSearch(D, s);
    } else {
      var earlier;
      earlier, now := StandsInOrder(D, s, k - 1);
      NextSearch(D, s.rom, now, k - 1);
    }
    next := Searched(D, now).0;
  }

  /** From a fresh state the first |D| searches find the devices in lexicographic order. */
  lemma CompleteEnumeration(D: set<Bits>, s: SearchState, k: nat)
    requires Roms(D) && AllFamilies(D) && Fresh(s) && k < |D|
    ensures Succeeds(D, s, k) && StandsAt(D, s.rom, After(D, s, k + 1), k)
    ensures After(D, s, k + 1).rom in D && Rank(D, After(D, s, k + 1).rom) == k
  {
    var now, next := StandsInOrder(D, s, k);
    RankOfStand(D, s.rom, next, k);
  }

  lemma RankOfStand(D: set<Bits>, start: Bits, s: SearchState, k: nat)
    requires Roms(D) && StandsAt(D, start, s, k)
    ensures s.rom in D && Rank(D, s.rom) == k
  {
    SearchesInOrder(D, start, k);
  }

  /** The search after the last device fails and leaves a fresh state, from which the run repeats. */
  lemma EnumerationEnds(D: set<Bits>, s: SearchState)
    requires Roms(D) && AllFamilies(D) && Fresh(s)
    ensures !Succeeds(D, s, |D|) && Fresh(After(D, s, |D| + 1))
  {
    if D == {} {
      FirstSearch(D, s);
    } else {
      CompleteEnumeration(D, s, |D| - 1);
      NextSearch(D, s.rom, After(D, s, |D|), |D| - 1);
    }
  }

  /** What the buffer held before does not matter. */
  lemma {:induction false} BufferDoesNotMatter(D: set<Bits>, a: Bits, b: Bits, k: nat)
    requires Roms(D) && |a| == |b| == ROM_BITS && k < |D|
    ensures Nth(D, a, k) == Nth(D, b, k)
  {
    SearchesInOrder(D, a, k);
    EveryDeviceFound(D, b, Nth(D, a, k));
  }

  /** A device without a family code hides the whole bus: no search ever succeeds. */
  lemma {:induction false} NothingFound(D: set<Bits>, s: SearchState, k: nat)
    requires Roms(D) && !AllFamilies(D) && Fresh(s)
    ensures !Succeeds(D, s, k) && Fresh(After(D, s, k))
    decreases k
  {
    hide Searched, AllFamilies, Roms, StandsAt;
    if k > 0 {
      NothingFound(D, s, k - 1);
      FirstSearch(D, After(D, s, k - 1));
    }
    FirstSearch(D, After(D, s, k));
  }

  /** Every device of the bus is found by some search of the run. */
  ghost predicate FindsAll(D: set<Bits>, s: SearchState)
    requires |s.rom| == ROM_BITS
  {
    forall d :: d in D ==> exists k: nat :: Succeeds(D, s, k) && After(D, s, k + 1).rom == d
  }

  /** The search is complete exactly when every device has a family code. */
  lemma CompleteExactly(D: set<Bits>, s: SearchState)
    requires Roms(D) && Fresh(s)
    ensures FindsAll(D, s) <==> AllFamilies(D)
  {
    if AllFamilies(D) {
      forall d | d in D ensures exists k: nat :: Succeeds(D, s, k) && After(D, s, k + 1).rom == d {
        EveryDeviceFound(D, s.rom, d);
        CompleteEnumeration(D, s, Rank(D, d));
      }
    } else {
      forall k: nat ensures !Succeeds(D, s, k) {
        NothingFound(D, s, k);
      }
    }
  }
}
