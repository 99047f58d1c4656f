/** The temperature library on top of the search: counting and addressing devices, and the
    alarm search, which keeps its own place in the tree. */
module DallasTemperatures {
  import opened Crc
  import opened OneWireOrder
  import opened OneWireBits
  import opened OneWireSearch
  import opened OneWireEnumeration

  /** What the alarm search remembers: the junction to take differently next time, or -1. */
  datatype AlarmState = AlarmState(rom: Bits, junction: int, exhausted: bool)

  /** The remembered place is one the alarming devices lead to. */
  ghost predicate Synced(A: set<Bits>, s: AlarmState) {
    && |s.rom| == ROM_BITS && s.junction >= -1
    && (s.junction >= 0 ==> s.rom in A && LastZero(A, s.rom) == s.junction + 1)
  }

  /** One alarm search among the alarming devices A. */
  function AlarmSearched(A: set<Bits>, s: AlarmState): (r: (AlarmState, bool))
    requires |s.rom| == ROM_BITS && s.junction >= -1
  {
    if s.exhausted || A == {} then (s, false)
    else
      var t := Walk(A, s.rom, s.junction + 1, []);
      (AlarmState(t, LastZero(A, t) - 1, LastZero(A, t) == 0), true)
  }

  /** The alarm search and the ROM search stand at the same place. */
  predicate InStep(a: AlarmState, s: SearchState) {
    a.rom == s.rom && a.junction + 1 == s.last && a.exhausted == s.done
  }

  /** Synced states stay synced, and an exhausted search stays exhausted until it is reset. */
  lemma SyncKept(A: set<Bits>, s: AlarmState)
    requires Roms(A) && Synced(A, s)
    ensures Synced(A, AlarmSearched(A, s).0)
    ensures s.exhausted ==> AlarmSearched(A, s) == (s, false)
  {
    if !s.exhausted && A != {} {
      assert Live(A, []) == A;
      WalkArrives(A, s.rom, s.junction + 1, []);
    }
  }

  /** The alarm search stands at the alarming device of rank k. */
  ghost predicate AlarmAt(A: set<Bits>, start: Bits, s: AlarmState, k: nat) {
    && |start| == ROM_BITS && k < |A| && s.rom == Nth(A, start, k)
    && s.junction + 1 == LastZero(A, s.rom) && s.exhausted == (s.junction == -1)
  }

  lemma FirstAlarm(A: set<Bits>, s: AlarmState)
    requires Roms(A) && Synced(A, s) && s.junction == -1 && !s.exhausted
    ensures AlarmSearched(A, s).1 <==> A != {}
    ensures A != {} ==> AlarmAt(A, s.rom, AlarmSearched(A, s).0, 0)
  {
  }

  lemma NextAlarm(A: set<Bits>, start: Bits, s: AlarmState, k: nat)
    requires Roms(A) && AlarmAt(A, start, s, k)
    ensures |s.rom| == ROM_BITS && (AlarmSearched(A, s).1 <==> k + 1 < |A|)
    ensures k + 1 < |A| ==> AlarmAt(A, start, AlarmSearched(A, s).0, k + 1)
  {
    SearchesInOrder(A, start, k);
    var t := NthResumes(A, start, s.rom, k);
  }

  predicate FreshAlarm(a: AlarmState) {
    |a.rom| == ROM_BITS && a.junction == -1 && !a.exhausted
  }

  /** The state after k alarm searches. */
  function AlarmAfter(A: set<Bits>, a: AlarmState, k: nat): (t: AlarmState)
    requires |a.rom| == ROM_BITS && a.junction >= -1
    ensures |t.rom| == ROM_BITS && t.junction >= -1
    decreases k
  {
    if k == 0 then a else AlarmSearched(A, AlarmAfter(A, a, k - 1)).0
  }

  predicate AlarmSucceeds(A: set<Bits>, a: AlarmState, k: nat)
    requires |a.rom| == ROM_BITS && a.junction >= -1
  {
    AlarmSearched(A, AlarmAfter(A, a, k)).1
  }

  lemma {:induction false} AlarmsInOrder(A: set<Bits>, a: AlarmState, k: nat)
    requires Roms(A) && FreshAlarm(a) && k < |A|
    ensures AlarmSucceeds(A, a, k) && AlarmAt(A, a.rom, AlarmAfter(A, a, k + 1), k)
    decreases k
  {
    hide AlarmSearched, AlarmAt;
    if k == 0 {
      FreshIsSynced(A, a);
      FirstAlarm(A, a);
    } else {
      AlarmsInOrder(A, a, k - 1);
      NextAlarm(A, a.rom, AlarmAfter(A, a, k), k - 1);
    }
  }

  lemma FreshIsSynced(A: set<Bits>, a: AlarmState)
    requires FreshAlarm(a)
    ensures Synced(A, a)
  {
  }

  /** What the ROM buffers held at the start does not matter. */
  lemma SamePlace(A: set<Bits>, first: Bits, start: Bits, a: AlarmState, s: SearchState, k: nat)
    requires Roms(A) && AlarmAt(A, first, a, k) && StandsAt(A, start, s, k)
    ensures InStep(a, s)
  {
    BufferDoesNotMatter(A, first, start, k);
  }

  /** Both remember the same junction and know alike whether anything is left. */
  predicate SameJunction(a: AlarmState, s: SearchState) {
    a.junction + 1 == s.last && a.exhausted == s.done
  }

  /** The alarm search refines the ROM search over whole runs. From fresh states on the bus
      of the alarming devices, whatever the two buffers hold, and while the devices have
      family codes, the first |A| calls of both succeed and leave them at the same place,
      device after device; the next call of both fails, the ROM search starting afresh and
      the alarm search staying exhausted. */
  lemma AlarmRefinesSearch(A: set<Bits>, a: AlarmState, s: SearchState, k: nat)
    requires Roms(A) && AllFamilies(A) && FreshAlarm(a) && Fresh(s) && k <= |A|
    ensures k > 0 ==> InStep(AlarmAfter(A, a, k), After(A, s, k))
    ensures SameJunction(AlarmAfter(A, a, k), After(A, s, k))
    ensures AlarmSucceeds(A, a, k) == Succeeds(A, s, k) == (k < |A|)
    ensures k == |A| ==> Fresh(After(A, s, k + 1)) && AlarmAfter(A, a, k + 1) == AlarmAfter(A, a, k)
  {
    hide AlarmSearched, Searched, AlarmAt, StandsAt, Roms, AllFamilies;
    if k > 0 {
      AlarmsInOrder(A, a, k - 1);
      CompleteEnumeration(A, s, k - 1);
      SamePlace(A, a.rom, s.rom, AlarmAfter(A, a, k), After(A, s, k), k - 1);
    }
    if k < |A| {
      AlarmsInOrder(A, a, k);
      CompleteEnumeration(A, s, k);
    } else {
      EnumerationEnds(A, s);
      NoAlarmLeft(A, a);
    }
  }

  lemma NoAlarmLeft(A: set<Bits>, a: AlarmState)
    requires Roms(A) && FreshAlarm(a)
    ensures AlarmSearched(A, AlarmAfter(A, a, |A|)) == (AlarmAfter(A, a, |A|), false)
  {
    hide AlarmAt, Roms, LastZero;
    if A != {} {
      hide AlarmSearched;
      AlarmsInOrder(A, a, |A| - 1);
      NextAlarm(A, a.rom, AlarmAfter(A, a, |A|), |A| - 1);
    }
  }

  /** The condition is exact: both searches succeed alike over a whole run if and only if
      every alarming device has a family code, which only the ROM search asks for. */
  lemma AlarmRefinesExactly(A: set<Bits>, a: AlarmState, s: SearchState)
    requires Roms(A) && FreshAlarm(a) && Fresh(s)
    ensures (forall k: nat | k <= |A| :: AlarmSucceeds(A, a, k) == Succeeds(A, s, k)) <==> AllFamilies(A)
  {
    if AllFamilies(A) {
      forall k: nat | k <= |A| ensures AlarmSucceeds(A, a, k) == Succeeds(A, s, k) {
        AlarmRefinesSearch(A, a, s, k);
      }
    } else {
      AlarmsInOrder(A, a, 0);
      NothingFound(A, s, 0);
    }
  }

  /** Every device still ahead has a family code: all of them before the first call, and
      those after the device the search stands at later. */
  ghost predicate FamiliesAhead(A: set<Bits>, a: AlarmState)
    requires Roms(A)
  {
    forall d :: d in A && (a.junction >= 0 ==> Before(a.rom, d)) ==> !NoFamily(d)
  }

  /** One call: from the same place both find the same device and stay in step, or both
      find none, exactly when every device still ahead has a family code. */
  lemma AlarmStepExactly(A: set<Bits>, a: AlarmState, s: SearchState)
    requires Roms(A) && Synced(A, a) && InStep(a, s) && !a.exhausted
    ensures var (a', found), (s', found') := AlarmSearched(A, a), Searched(A, s);
      found == found' && (found ==> InStep(a', s')) <==> FamiliesAhead(A, a)
  {
    hide AlarmSearched, Searched, FamiliesAhead, Walk, NoFamily;
    StepByFamily(A, a, s);
    FirstAheadTells(A, a);
  }

  lemma StepByFamily(A: set<Bits>, a: AlarmState, s: SearchState)
    requires Roms(A) && Synced(A, a) && InStep(a, s) && !a.exhausted
    ensures var (a', found), (s', found') := AlarmSearched(A, a), Searched(A, s);
      found == found' && (found ==> InStep(a', s')) <==> A == {} || !NoFamily(Walk(A, a.rom, a.junction + 1, []))
  {
    hide LastZero, Walk, Roms, NoFamily, FamilyZero;
  }

  /** If the next device has a family code, so has every device ahead. */
  lemma FirstAheadTells(A: set<Bits>, a: AlarmState)
    requires Roms(A) && Synced(A, a)
    ensures FamiliesAhead(A, a) <==> A == {} || !NoFamily(Walk(A, a.rom, a.junction + 1, []))
  {
    hide LastZero, Walk, Before, NoFamily;
    if A != {} {
      var t := Walk(A, a.rom, a.junction + 1, []);
      NextAhead(A, a);
      forall d | d in A && (a.junction >= 0 ==> Before(a.rom, d)) ensures NoFamily(d) ==> NoFamily(t) {
        if t != d && NoFamily(d) {
          NoFamilyBefore(t, d);
        }
      }
    }
  }

  /** The next device is the first of those ahead. */
  lemma NextAhead(A: set<Bits>, a: AlarmState)
    requires Roms(A) && Synced(A, a) && A != {}
    ensures var t := Walk(A, a.rom, a.junction + 1, []);
      && t in A && (a.junction >= 0 ==> Before(a.rom, t))
      && forall d :: d in A && (a.junction >= 0 ==> Before(a.rom, d)) ==> t == d || Before(t, d)
  {
    hide LastZero, Walk, Before;
    if a.junction >= 0 {
      ResumedMovesOn(A, a.rom);
    }
    forall d | d in A && (a.junction >= 0 ==> Before(a.rom, d))
      ensures var t := Walk(A, a.rom, a.junction + 1, []); t in A && (t == d || Before(t, d))
    {
      if a.junction >= 0 {
        ResumedSkipsNothing(A, a.rom, d);
      } else {
        FreshFindsFirst(A, a.rom, d);
      }
    }
  }

  /** How a pass keeps the junction: the old one until it is reached, then the last zero taken. */
  ghost predicate JunctionKept(A: set<Bits>, r: Bits, old': int, p: Bits, junction: int, lastJunction: int,
                               done: bool) {
    && |p| <= |r| && (done <==> LastZero(A, p) == 0)
    && (if |p| <= old' then p == r[..|p|] && junction == old' && lastJunction + 1 == LastZero(A, p)
        else junction + 1 == LastZero(A, p))
  }

  /** The decision at place i, given the two answers. */
  function Decide(i: int, a: bool, nota: bool, oldBit: bool, junction: int, lastJunction: int, done: bool)
    : (bool, int, int, bool)
  {
    if a || nota then (a, junction, lastJunction, done)
    else if i == junction then (true, lastJunction, lastJunction, done)
    else if i < junction then (if oldBit then (true, junction, lastJunction, done) else (false, junction, i, false))
    else (false, i, lastJunction, false)
  }

  /** Before the junction both searches repeat the old code. */
  lemma DecidesBefore(A: set<Bits>, s: AlarmState, p: Bits, lastJunction: int, done: bool)
    requires Roms(A) && Synced(A, s) && |p| < s.junction < ROM_BITS
    requires JunctionKept(A, s.rom, s.junction, p, s.junction, lastJunction, done)
    ensures var b := s.rom[|p|];
      && b == Direction(A, s.rom, s.junction + 1, p) && CanGo(A, p, b) && s.rom[..|p| + 1] == p + [b]
  {
    FollowsOld(A, s.rom, s.junction + 1, |p|);
    LiveHere(A, s.rom, |p|);
  }

  /** At the junction the devices part. */
  lemma PartsAtJunction(A: set<Bits>, s: AlarmState)
    requires Synced(A, s) && 0 <= s.junction < ROM_BITS
    ensures Split(A, s.rom[..s.junction])
  {
    LastZeroIsSplit(A, s.rom);
  }

  /** The alarm search decides as the ROM search does and keeps its junction. */
  lemma DecidesAlike(A: set<Bits>, s: AlarmState, p: Bits, junction: int, lastJunction: int, done: bool)
    requires Roms(A) && Synced(A, s) && |p| < ROM_BITS && Live(A, p) != {}
    requires JunctionKept(A, s.rom, s.junction, p, junction, lastJunction, done)
    ensures var (d, j, l, f) := Decide(|p|, !CanGo(A, p, false), !CanGo(A, p, true), s.rom[|p|],
                                     junction, lastJunction, done);
      && d == Direction(A, s.rom, s.junction + 1, p)
      && JunctionKept(A, s.rom, s.junction, p + [d], j, l, f)
  {
    var (d, j, l, f) := Decide(|p|, !CanGo(A, p, false), !CanGo(A, p, true), s.rom[|p|], junction, lastJunction, done);
    SomeoneGoes(A, p);
    LastZeroExtends(A, p, d);
    if |p| < s.junction {
      DecidesBefore(A, s, p, lastJunction, done);
    } else if |p| == s.junction {
      PartsAtJunction(A, s);
    }
  }

  /** A pass, and the mark that nothing is left, make up a search. */
  lemma PassIsSearch(A: set<Bits>, s: AlarmState, after: AlarmState, found: bool, done: bool)
    requires |s.rom| == ROM_BITS && s.junction >= -1 && !s.exhausted && found == (A != {}) && (!found ==> after == s)
    requires found ==> after.rom == Walk(A, s.rom, s.junction + 1, []) && after.junction + 1 == LastZero(A, after.rom)
                       && done == (LastZero(A, after.rom) == 0) && !after.exhausted
    ensures AlarmSearched(A, s) == (if found && done then after.(exhausted := true) else after, found)
  {
  }

  class DallasTemperature {
    const wire: OneWire
    var devices: nat
    const alarmSearchAddress: array<bv8>
    var alarmSearchJunction: int
    var alarmSearchExhausted: bool

    ghost function Alarm(): AlarmState
      requires alarmSearchAddress.Length == 8
      reads this`alarmSearchJunction, this`alarmSearchExhausted, alarmSearchAddress
    {
      AlarmState(RomBits(alarmSearchAddress[..]), alarmSearchJunction, alarmSearchExhausted)
    }

    ghost predicate AlarmValid()
      reads this`alarmSearchJunction, this`alarmSearchExhausted, alarmSearchAddress
    {
      alarmSearchAddress.Length == 8 && Synced(wire.bus.alarming, Alarm())
    }

    ghost predicate Valid()
      reads this`alarmSearchJunction, this`alarmSearchExhausted, wire, wire.bus, alarmSearchAddress
    {
      alarmSearchAddress != wire.romNo && wire.Valid() && AlarmValid()
    }

    constructor (oneWire: OneWire)
      requires oneWire.Valid()
      ensures Valid() && wire == oneWire && devices == 0 && fresh(alarmSearchAddress)
    {
      wire := oneWire;
      devices := 0;
      alarmSearchAddress := new bv8[8];
      alarmSearchJunction, alarmSearchExhausted := -1, false;
    }

    method ResetAlarmSearch()
      requires alarmSearchAddress.Length == 8 && alarmSearchAddress != wire.romNo && wire.Valid()
      modifies this`alarmSearchJunction, this`alarmSearchExhausted, alarmSearchAddress
      ensures Valid() && FreshAlarm(Alarm())
      ensures alarmSearchAddress[..7] == [0, 0, 0, 0, 0, 0, 0] && alarmSearchAddress[7] == old(alarmSearchAddress[7])
    {
      alarmSearchJunction, alarmSearchExhausted := -1, false;
      for i := 0 to 7
        modifies alarmSearchAddress
        invariant forall k :: 0 <= k < i ==> alarmSearchAddress[k] == 0
        invariant alarmSearchAddress[7] == old(alarmSearchAddress[7])
      {
        alarmSearchAddress[i] := 0;
      }
    }

    /** The answers at one place and what becomes of the remembered junction. */
    method AlarmStep(i: nat, lastJunction: int, done: bool, a: bool, nota: bool)
      returns (direction: bool, lastJunction': int, done': bool)
      requires alarmSearchAddress.Length == 8 && i < ROM_BITS
      modifies this`alarmSearchJunction
      ensures (direction, alarmSearchJunction, lastJunction', done')
           == Decide(i, a, nota, BitAt(alarmSearchAddress[..], i), old(alarmSearchJunction), lastJunction, done)
    {
      direction, lastJunction', done' := a, lastJunction, done;
      if !a && !nota {
        if i == alarmSearchJunction {
          direction := true;
          alarmSearchJunction := lastJunction;
        } else if i < alarmSearchJunction {
          if alarmSearchAddress[i / 8] & Mask(i % 8) != 0 {
            direction := true;
          } else {
            direction, done', lastJunction' := false, false, i;
          }
        } else {
          direction, done' := false, false;
          alarmSearchJunction := i;
        }
      }
    }

    /** The pass over the alarming devices. */
    method AlarmPass(ghost A: set<Bits>, ghost s: AlarmState) returns (answered: bool, done: bool)
      requires alarmSearchAddress.Length == 8 && wire.bus.Valid() && Roms(A) && Synced(A, s) && s == Alarm()
      requires wire.bus.live == A && wire.bus.sent == 0 && !wire.bus.complement
      modifies this`alarmSearchJunction, wire.bus, alarmSearchAddress
      ensures wire.bus.Valid() && answered == (A != {})
      ensures !answered ==> Alarm() == s
      ensures answered ==> Alarm().rom == Walk(A, s.rom, s.junction + 1, [])
                           && Alarm().junction + 1 == LastZero(A, Alarm().rom)
                           && done == (LastZero(A, Alarm().rom) == 0)
    {
      hide AlarmSearched, LastZero, Decide;
      NothingTaken(A, 0);
      var bus := wire.bus;
      var i, lastJunction := 0, -1;
      done := true;
      ghost var p: Bits := [];
      PassStarts(bus, alarmSearchAddress, A);
      assert Live(A, p) == A;
      while i < 64
        invariant |p| == i <= 64
        invariant InPass(bus, alarmSearchAddress, A, s.rom, p)
        invariant if A == {} then p == [] && Alarm() == s else Live(A, p) != {}
        invariant Walk(A, s.rom, s.junction + 1, p) == Walk(A, s.rom, s.junction + 1, [])
        invariant JunctionKept(A, s.rom, s.junction, p, alarmSearchJunction, lastJunction, done)
      {
        var a, nota := ReadPair(bus, alarmSearchAddress, A, s.rom, p);
        if a && nota {
          return false, done;
        }
        var direction;
        DecidesAlike(A, s, p, alarmSearchJunction, lastJunction, done);
        DirectionIsLive(A, s.rom, s.junction + 1, p);
        direction, lastJunction, done := AlarmStep(i, lastJunction, done, a, nota);
        TakeDirection(bus, alarmSearchAddress, A, s.rom, p, i / 8, Mask(i % 8), direction);
        p := p + [direction];
        i := i + 1;
      }
      answered := true;
      PassEnds(bus, alarmSearchAddress, A, s.rom, p);
    }

    /** One alarm search. */
    method AlarmSearch(newAddr: array<bv8>) returns (found: bool)
      requires Valid() && newAddr.Length == 8 && newAddr != wire.romNo && newAddr != alarmSearchAddress
      modifies this`alarmSearchJunction, this`alarmSearchExhausted, wire.bus, alarmSearchAddress, newAddr
      ensures Valid() && (Alarm(), found) == AlarmSearched(wire.bus.alarming, old(Alarm()))
      ensures newAddr[..] == if found then alarmSearchAddress[..] else old(newAddr[..])
    {
      SyncKept(wire.bus.alarming, Alarm());
      if alarmSearchExhausted {
        return false;
      }
      var present := wire.bus.Reset();
      if !present {
        return false;
      }
      found := AlarmWalk(Alarm());
      if found {
        CopyRom(alarmSearchAddress, newAddr);
      }
    }

    /** The command, the pass and its end. */
    method AlarmWalk(ghost s: AlarmState) returns (found: bool)
      requires Valid() && !alarmSearchExhausted && s == Alarm()
      modifies this`alarmSearchJunction, this`alarmSearchExhausted, wire.bus, alarmSearchAddress
      ensures wire.Valid() && (Alarm(), found) == AlarmSearched(wire.bus.alarming, s)
    {
      var done;
      wire.bus.Command(ALARM_SEARCH);
      found, done := AlarmPass(wire.bus.alarming, s);
      PassIsSearch(wire.bus.alarming, s, Alarm(), found, done);
      if found && done {
        alarmSearchExhausted := true;
      }
    }

    /** Whether any device signals an alarm. */
    method HasAlarm() returns (some: bool)
      requires Valid()
      modifies this`alarmSearchJunction, this`alarmSearchExhausted, wire.bus, alarmSearchAddress
      ensures Valid() && some == (wire.bus.alarming != {})
    {
      var deviceAddress := new bv8[8];
      ResetAlarmSearch();
      some := AlarmSearch(deviceAddress);
    }

    /** The alarm search stands at the alarming device of rank k, and those before it were handled. */
    ghost predicate Handling(alarmAddr: array<bv8>, start: Bits, k: nat, handled: seq<Bits>)
      reads this`alarmSearchJunction, this`alarmSearchExhausted, wire, wire.bus, alarmSearchAddress, alarmAddr
    {
      && Valid() && alarmAddr.Length == 8 && alarmAddr != wire.romNo && alarmAddr != alarmSearchAddress
      && HoldsAlarm(alarmAddr, start, k) && handled == ValidOf(wire.bus.alarming, start, k)
    }

    /** No alarming device is left, and all that were found were handled. */
    ghost predicate Handled(start: Bits, k: nat, handled: seq<Bits>)
      reads this`alarmSearchJunction, this`alarmSearchExhausted, wire, wire.bus, alarmSearchAddress
    {
      Valid() && |start| == ROM_BITS && k == |wire.bus.alarming| && handled == ValidOf(wire.bus.alarming, start, k)
    }

    lemma HandledAreExact(start: Bits, k: nat, handled: seq<Bits>)
      requires Handled(start, k, handled)
      ensures Valid() && HandledExactly(wire.bus.alarming, handled)
    {
      AllHandled(wire.bus.alarming, start);
    }

    ghost function AlarmsLeft(k: nat): int {
      |wire.bus.alarming| - k
    }

    method HandleFirst(alarmAddr: array<bv8>) returns (found: bool, ghost start: Bits)
      requires Valid() && alarmAddr.Length == 8 && alarmAddr != wire.romNo && alarmAddr != alarmSearchAddress
      modifies this`alarmSearchJunction, this`alarmSearchExhausted, wire.bus, alarmSearchAddress, alarmAddr
      ensures if found then Handling(alarmAddr, start, 0, []) else Handled(start, 0, [])
    {
      ResetAlarmSearch();
      start := Alarm().rom;
      found := FirstAlarmAddress(alarmAddr, start);
    }

    /** The handler is called for an address that is valid; then the next one is searched. */
    method HandleNext(alarmAddr: array<bv8>, before: seq<Bits>, ghost start: Bits, ghost k: nat)
      returns (handled: seq<Bits>, found: bool)
      requires Handling(alarmAddr, start, k, before)
      modifies this`alarmSearchJunction, this`alarmSearchExhausted, wire.bus, alarmSearchAddress, alarmAddr
      ensures if found then Handling(alarmAddr, start, k + 1, handled) else Handled(start, k + 1, handled)
      ensures AlarmsLeft(k) > 0
    {
      handled := HandleAlarm(alarmAddr, before, wire.bus.alarming, start, k);
      found := NextAlarmAddress(alarmAddr, start, k);
    }

    method HandleAlarm(alarmAddr: array<bv8>, before: seq<Bits>, ghost A: set<Bits>, ghost start: Bits, ghost k: nat)
      returns (handled: seq<Bits>)
      requires alarmAddr.Length == 8 && |start| == ROM_BITS
      requires RomBits(alarmAddr[..]) == Nth(A, start, k) && before == ValidOf(A, start, k)
      ensures handled == ValidOf(A, start, k + 1)
    {
      ValidOfNext(A, start, k);
      handled := before;
      var valid := ValidAddress(alarmAddr);
      if valid {
        handled := handled + [RomBits(alarmAddr[..])];
      }
    }

    /** The alarm handler is called for every alarming device whose code is valid: for each
        once, in the order of the codes. */
    method ProcessAlarms() returns (handled: seq<Bits>)
      requires Valid()
      modifies this`alarmSearchJunction, this`alarmSearchExhausted, wire.bus, alarmSearchAddress
      ensures Valid() && HandledExactly(wire.bus.alarming, handled)
    {
      var alarmAddr := new bv8[8];
      var found;
      ghost var start, k := [], 0;
      handled := [];
      found, start := HandleFirst(alarmAddr);
      while found
        invariant if found then Handling(alarmAddr, start, k, handled) else Handled(start, k, handled)
        decreases found, AlarmsLeft(k)
      {
        handled, found := HandleNext(alarmAddr, handled, start, k);
        k := k + 1;
      }
      HandledAreExact(start, k, handled);
    }

    /** The buffer holds the alarming device of rank k, where the alarm search stands. */
    ghost predicate HoldsAlarm(alarmAddr: array<bv8>, start: Bits, k: nat)
      requires alarmSearchAddress.Length == 8 && alarmAddr.Length == 8
      reads this`alarmSearchJunction, this`alarmSearchExhausted, alarmSearchAddress, alarmAddr
    {
      AlarmAt(wire.bus.alarming, start, Alarm(), k) && alarmAddr[..] == alarmSearchAddress[..]
    }

    method FirstAlarmAddress(alarmAddr: array<bv8>, ghost start: Bits) returns (found: bool)
      requires Valid() && alarmAddr.Length == 8 && alarmAddr != wire.romNo && alarmAddr != alarmSearchAddress
      requires alarmSearchJunction == -1 && !alarmSearchExhausted && start == Alarm().rom
      modifies this`alarmSearchJunction, this`alarmSearchExhausted, wire.bus, alarmSearchAddress, alarmAddr
      ensures Valid() && (found <==> wire.bus.alarming != {})
      ensures found ==> HoldsAlarm(alarmAddr, start, 0)
    {
      FirstAlarm(wire.bus.alarming, Alarm());
      found := AlarmSearch(alarmAddr);
    }

    method NextAlarmAddress(alarmAddr: array<bv8>, ghost start: Bits, ghost k: nat) returns (found: bool)
      requires Valid() && alarmAddr.Length == 8 && alarmAddr != wire.romNo && alarmAddr != alarmSearchAddress
      requires HoldsAlarm(alarmAddr, start, k)
      modifies this`alarmSearchJunction, this`alarmSearchExhausted, wire.bus, alarmSearchAddress, alarmAddr
      ensures Valid() && (found <==> k + 1 < |wire.bus.alarming|)
      ensures found ==> HoldsAlarm(alarmAddr, start, k + 1)
    {
      NextAlarm(wire.bus.alarming, start, Alarm(), k);
      found := AlarmSearch(alarmAddr);
    }

    /** The search stands at the device of rank k, and the devices before it were counted. */
    ghost predicate Counting(deviceAddress: array<bv8>, start: Bits, k: nat)
      reads this, wire, wire.bus, wire.romNo, alarmSearchAddress, deviceAddress
    {
      && Valid() && deviceAddress.Length == 8 && deviceAddress != wire.romNo && deviceAddress != alarmSearchAddress
      && AllFamilies(wire.bus.devices) && HoldsDevice(deviceAddress, start, k)
      && devices == |ValidOf(wire.bus.devices, start, k)| % 256
    }

    /** Every valid device was counted, if the search finds them at all. */
    ghost predicate Counted()
      reads this, wire, wire.bus, alarmSearchAddress
    {
      Valid() && devices == if AllFamilies(wire.bus.devices) then |ValidDevices(wire.bus.devices)| % 256 else 0
    }

    ghost function Left(k: nat): int {
      |wire.bus.devices| - k
    }

    /** No device is left, and all that were found were counted. */
    ghost predicate Finished(start: Bits, k: nat)
      reads this, wire, wire.bus, alarmSearchAddress
    {
      && Valid() && |start| == ROM_BITS
      && (AllFamilies(wire.bus.devices) ==> k == |wire.bus.devices|)
      && devices == if AllFamilies(wire.bus.devices) then |ValidOf(wire.bus.devices, start, k)| % 256 else 0
    }

    lemma FinishedIsCounted(start: Bits, k: nat)
      requires Finished(start, k)
      ensures Counted()
    {
      CountsAll(wire.bus.devices, start);
    }

    method CountFirst(deviceAddress: array<bv8>) returns (found: bool, ghost start: Bits)
      requires Valid() && deviceAddress.Length == 8 && deviceAddress != wire.romNo
           && deviceAddress != alarmSearchAddress
      modifies this`devices, wire, wire.bus, wire.romNo, deviceAddress
      ensures if found then Counting(deviceAddress, start, 0) else Finished(start, 0)
    {
      hide Synced, AllFamilies, ValidOf, HoldsDevice, LastZero;
      wire.ResetSearch();
      devices := 0;
      start := wire.State().rom;
      found := FirstAddress(deviceAddress, start);
      NoneValidYet(wire.bus.devices, start);
    }

    method CountNext(deviceAddress: array<bv8>, ghost start: Bits, ghost k: nat) returns (found: bool)
      requires Counting(deviceAddress, start, k)
      modifies this`devices, wire, wire.bus, wire.romNo, deviceAddress
      ensures if found then Counting(deviceAddress, start, k + 1) else Finished(start, k + 1)
      ensures Left(k) > 0
    {
      CountDevice(deviceAddress, wire.bus.devices, start, k);
      found := NextAddress(deviceAddress, start, k);
    }

    /** Counting the devices on the bus, in a byte. */
    method Begin()
      requires Valid()
      modifies this`devices, wire, wire.bus, wire.romNo
      ensures Counted()
    {
      var deviceAddress := new bv8[8];
      var found;
      ghost var start, k := [], 0;
      found, start := CountFirst(deviceAddress);
      while found
        invariant if found then Counting(deviceAddress, start, k) else Finished(start, k)
        decreases found, Left(k)
      {
        found := CountNext(deviceAddress, start, k);
        k := k + 1;
      }
      FinishedIsCounted(start, k);
    }

    method CountDevice(deviceAddress: array<bv8>, ghost D: set<Bits>, ghost start: Bits, ghost k: nat)
      requires deviceAddress.Length == 8 && |start| == ROM_BITS
      requires RomBits(deviceAddress[..]) == Nth(D, start, k) && devices == |ValidOf(D, start, k)| % 256
      modifies this`devices
      ensures devices == |ValidOf(D, start, k + 1)| % 256
    {
      hide ValidBits, ValidOf, Nth;
      ValidOfNext(D, start, k);
      var valid := ValidAddress(deviceAddress);
      if valid {
        OneMoreCounted(|ValidOf(D, start, k)|);
        devices := (devices + 1) % 256;
      }
    }

    /** The search stands at the device of rank k, none before it was the wanted one. */
    ghost predicate Looking(deviceAddress: array<bv8>, start: Bits, k: nat, depth: nat, index: nat)
      reads this`alarmSearchJunction, this`alarmSearchExhausted, wire, wire.bus, wire.romNo, alarmSearchAddress,
          deviceAddress
    {
      && Valid() && deviceAddress.Length == 8 && deviceAddress != wire.romNo && deviceAddress != alarmSearchAddress
      && AllFamilies(wire.bus.devices) && HoldsDevice(deviceAddress, start, k)
      && depth == k % 256 && index < 256 && (index < 255 ==> k <= index)
      && (k > index ==> NoneAt(wire.bus.devices, index))
    }

    /** The search found the wanted device, or there is none; either way the buffer holds the
        device of that rank. */
    ghost predicate Looked(deviceAddress: array<bv8>, index: nat, ok: bool)
      reads this`alarmSearchJunction, this`alarmSearchExhausted, wire, wire.bus, alarmSearchAddress, deviceAddress
    {
      && Valid() && deviceAddress.Length == 8
      && (ok ==> AllFamilies(wire.bus.devices) && IsAt(wire.bus.devices, RomBits(deviceAddress[..]), index))
      && (!ok && AllFamilies(wire.bus.devices) ==> NoneAt(wire.bus.devices, index))
      && (AllFamilies(wire.bus.devices) && index < |wire.bus.devices| && index < 255
          ==> HasRank(wire.bus.devices, RomBits(deviceAddress[..]), index))
    }

    method LookFirst(deviceAddress: array<bv8>, index: nat) returns (found: bool, ghost start: Bits)
      requires Valid() && deviceAddress.Length == 8 && deviceAddress != wire.romNo
           && deviceAddress != alarmSearchAddress
      requires index < 256
      modifies wire, wire.bus, wire.romNo, deviceAddress
      ensures if found then Looking(deviceAddress, start, 0, 0, index) else Looked(deviceAddress, index, false)
    {
      wire.ResetSearch();
      start := wire.State().rom;
      found := FirstAddress(deviceAddress, start);
      NoneBeyond(wire.bus.devices, index);
    }

    /** The device found is the wanted one, or it is not and the next one is searched. */
    method LookNext(deviceAddress: array<bv8>, depth: nat, index: nat, ghost start: Bits, ghost k: nat)
      returns (ok: bool, found: bool, depth': nat)
      requires Looking(deviceAddress, start, k, depth, index)
      modifies wire, wire.bus, wire.romNo, deviceAddress
      ensures if ok || !found then Looked(deviceAddress, index, ok)
              else Looking(deviceAddress, start, k + 1, depth', index)
      ensures Left(k) > 0
    {
      ok := IsWanted(deviceAddress, depth, index, wire.bus.devices, start, k);
      depth', found := (depth + 1) % 256, true;
      if ok {
        WantedIsLooked(deviceAddress, start, k, depth, index);
      } else if depth' <= index {
        found := LookOn(deviceAddress, depth, index, start, k);
      } else {
        found := false;
        PastIsLooked(deviceAddress, start, k, depth, index);
      }
    }

    lemma WantedIsLooked(deviceAddress: array<bv8>, start: Bits, k: nat, depth: nat, index: nat)
      requires Looking(deviceAddress, start, k, depth, index)
      requires IsAt(wire.bus.devices, RomBits(deviceAddress[..]), index)
      ensures Looked(deviceAddress, index, true)
    {
      hide Rank, Nth, LastZero, ValidBits, RomBits;
    }

    lemma PastIsLooked(deviceAddress: array<bv8>, start: Bits, k: nat, depth: nat, index: nat)
      requires Looking(deviceAddress, start, k, depth, index)
      requires (depth + 1) % 256 > index && (k == index ==> NoneAt(wire.bus.devices, index))
      ensures Looked(deviceAddress, index, false)
    {
      hide Rank, LastZero, ValidBits, RomBits;
      DepthIsPast(k, depth, index);
      SearchesInOrder(wire.bus.devices, start, k);
    }

    method LookOn(deviceAddress: array<bv8>, ghost depth: nat, index: nat, ghost start: Bits, ghost k: nat)
      returns (found: bool)
      requires Looking(deviceAddress, start, k, depth, index)
      requires (depth + 1) % 256 <= index && (k == index ==> NoneAt(wire.bus.devices, index))
      modifies wire, wire.bus, wire.romNo, deviceAddress
      ensures if found then Looking(deviceAddress, start, k + 1, (depth + 1) % 256, index)
              else Looked(deviceAddress, index, false)
    {
      DepthGoesOn(k, depth, index);
      found := NextAddress(deviceAddress, start, k);
      if !found {
        NoneLeft(wire.bus.devices, k, index);
      }
    }

    /** The device at an index, counted along the search; the depth is kept in a byte. */
    method GetAddress(deviceAddress: array<bv8>, index: nat) returns (ok: bool)
      requires Valid() && deviceAddress.Length == 8 && deviceAddress != wire.romNo
           && deviceAddress != alarmSearchAddress
      requires index < 256
      modifies wire, wire.bus, wire.romNo, deviceAddress
      ensures Looked(deviceAddress, index, ok)
    {
      var depth, found := 0, false;
      ghost var start, k := [], 0;
      ok := false;
      found, start := LookFirst(deviceAddress, index);
      while found && !ok
        invariant if ok || !found then Looked(deviceAddress, index, ok)
                  else Looking(deviceAddress, start, k, depth, index)
        decreases found && !ok, Left(k)
      {
        ok, found, depth := LookNext(deviceAddress, depth, index, start, k);
        k := k + 1;
      }
    }

    /** Setting the resolution of all devices: the value is constrained, and each index below the
        count is looked up and its address used, whatever the lookup says. */
    method SetResolution(newResolution: int) returns (bitResolution: int, visited: seq<Bits>)
      requires Valid() && devices <= 255
      modifies wire, wire.bus, wire.romNo
      ensures Valid() && 9 <= bitResolution <= 12 && (9 <= newResolution <= 12 ==> bitResolution == newResolution)
      ensures newResolution < 9 ==> bitResolution == 9
      ensures newResolution > 12 ==> bitResolution == 12
      ensures |visited| == devices
      ensures AllFamilies(wire.bus.devices) && devices <= |wire.bus.devices| ==> InRankOrder(wire.bus.devices, visited)
    {
      hide Rank, Nth, LastZero, ValidBits, NoneAt, IsAt, RomBits;
      bitResolution := if newResolution < 9 then 9 else if newResolution > 12 then 12 else newResolution;
      visited := [];
      var deviceAddress := new bv8[8];
      for i := 0 to devices
        invariant Valid() && deviceAddress != wire.romNo && deviceAddress != alarmSearchAddress && |visited| == i
        invariant AllFamilies(wire.bus.devices) && devices <= |wire.bus.devices|
             ==> InRankOrder(wire.bus.devices, visited)
      {
        var ok := GetAddress(deviceAddress, i);
        visited := visited + [RomBits(deviceAddress[..])];
      }
    }

    /** Counting the devices and then setting the resolution of that many reaches every valid
        device exactly when there are fewer than 256 of them and no invalid one comes before a
        valid one; a device without family code hides the bus, and nothing is reached. */
    method BeginAndSetResolution(newResolution: int) returns (bitResolution: int, visited: seq<Bits>)
      requires Valid()
      modifies this`devices, wire, wire.bus, wire.romNo
      ensures Valid()
      ensures ReachesAll(wire.bus.devices, visited)
         <==> if AllFamilies(wire.bus.devices)
              then |ValidDevices(wire.bus.devices)| < 256 && ValidFirst(wire.bus.devices)
              else ValidDevices(wire.bus.devices) == {}
    {
      hide ValidDevices, AllFamilies, ValidFirst, InRankOrder, ReachesAll;
      Begin();
      bitResolution, visited := SetResolution(newResolution);
      CountedReach(wire.bus.devices, visited);
    }

    method IsWanted(deviceAddress: array<bv8>, depth: nat, index: nat, ghost D: set<Bits>, ghost start: Bits,
                    ghost k: nat) returns (ok: bool)
      requires deviceAddress.Length == 8 && Roms(D) && |start| == ROM_BITS && k < |D|
      requires depth == k % 256 && (index < 255 ==> k <= index) && RomBits(deviceAddress[..]) == Nth(D, start, k)
      ensures ok ==> IsAt(D, RomBits(deviceAddress[..]), index)
      ensures !ok && k == index < 256 ==> NoneAt(D, index)
    {
      hide Rank, ValidBits, Nth, Roms, NoneAt, LastZero;
      SearchesInOrder(D, start, k);
      var valid := ValidAddress(deviceAddress);
      ok := depth == index && valid;
      if k == index < 256 && !valid {
        NotThisOne(D, RomBits(deviceAddress[..]), index);
      }
    }

    /** The buffer holds the device of rank k, where the search stands. */
    ghost predicate HoldsDevice(deviceAddress: array<bv8>, start: Bits, k: nat)
      requires wire.romNo.Length == 8 && deviceAddress.Length == 8
      reads wire, wire.romNo, deviceAddress
    {
      StandsAt(wire.bus.devices, start, wire.State(), k) && deviceAddress[..] == wire.romNo[..]
    }

    method FirstAddress(deviceAddress: array<bv8>, ghost start: Bits) returns (found: bool)
      requires Valid() && deviceAddress.Length == 8 && deviceAddress != wire.romNo
           && deviceAddress != alarmSearchAddress
      requires Fresh(wire.State()) && start == wire.State().rom
      modifies wire, wire.bus, wire.romNo, deviceAddress
      ensures Valid() && (found <==> wire.bus.devices != {} && AllFamilies(wire.bus.devices))
      ensures found ==> HoldsDevice(deviceAddress, start, 0)
    {
      FirstSearch(wire.bus.devices, wire.State());
      found := wire.Search(deviceAddress);
    }

    method NextAddress(deviceAddress: array<bv8>, ghost start: Bits, ghost k: nat) returns (found: bool)
      requires Valid() && deviceAddress.Length == 8 && deviceAddress != wire.romNo
           && deviceAddress != alarmSearchAddress
      requires AllFamilies(wire.bus.devices) && HoldsDevice(deviceAddress, start, k)
      modifies wire, wire.bus, wire.romNo, deviceAddress
      ensures Valid() && (found <==> k + 1 < |wire.bus.devices|)
      ensures found ==> HoldsDevice(deviceAddress, start, k + 1)
    {
      NextSearch(wire.bus.devices, start, wire.State(), k);
      found := wire.Search(deviceAddress);
    }
  }

  // ---------- counting and handling in order ----------

  /** The devices with valid codes among the first k that searches find. */
  ghost function ValidOf(D: set<Bits>, start: Bits, k: nat): (s: seq<Bits>)
    requires |start| == ROM_BITS
  {
    if k == 0 then []
    else if ValidBits(Nth(D, start, k - 1)) then ValidOf(D, start, k - 1) + [Nth(D, start, k - 1)]
    else ValidOf(D, start, k - 1)
  }

  lemma OneMoreCounted(n: nat)
    ensures (n % 256 + 1) % 256 == (n + 1) % 256
  {
  }

  lemma NoneValidYet(D: set<Bits>, start: Bits)
    requires |start| == ROM_BITS
    ensures ValidOf(D, start, 0) == []
  {
  }

  lemma ValidOfNext(D: set<Bits>, start: Bits, k: nat)
    requires |start| == ROM_BITS
    ensures ValidOf(D, start, k + 1)
         == if ValidBits(Nth(D, start, k)) then ValidOf(D, start, k) + [Nth(D, start, k)] else ValidOf(D, start, k)
  {
  }

  ghost function ValidDevices(D: set<Bits>): set<Bits> {
    set d | d in D && ValidBits(d)
  }

  /** The handler has seen each valid alarming device once, in the order of the codes. */
  ghost predicate HandledExactly(A: set<Bits>, handled: seq<Bits>) {
    && (forall d :: d in handled <==> d in A && ValidBits(d))
    && (forall i, j :: 0 <= i < j < |handled| ==> Before(handled[i], handled[j]))
  }

  lemma {:induction false} ValidOfExactly(D: set<Bits>, start: Bits, k: nat)
    requires Roms(D) && |start| == ROM_BITS && k <= |D|
    ensures forall d :: d in ValidOf(D, start, k) <==> d in D && Rank(D, d) < k && ValidBits(d)
    ensures forall i, j ::
      0 <= i < j < |ValidOf(D, start, k)| ==> Before(ValidOf(D, start, k)[i], ValidOf(D, start, k)[j])
    decreases k
  {
    hide Rank, ValidBits, Before, Nth, ValidOf, Roms;
    if k == 0 {
      NoneValidYet(D, start);
    } else {
      ValidOfExactly(D, start, k - 1);
      SearchesInOrder(D, start, k - 1);
      ValidOneMore(D, ValidOf(D, start, k - 1), Nth(D, start, k - 1), k - 1);
      ValidOfNext(D, start, k - 1);
    }
  }

  lemma ValidOneMore(D: set<Bits>, s: seq<Bits>, t: Bits, k: nat)
    requires Roms(D) && t in D && Rank(D, t) == k
    requires forall d :: d in s <==> d in D && Rank(D, d) < k && ValidBits(d)
    requires forall i, j :: 0 <= i < j < |s| ==> Before(s[i], s[j])
    ensures var s' := if ValidBits(t) then s + [t] else s;
      && (forall d :: d in s' <==> d in D && Rank(D, d) < k + 1 && ValidBits(d))
      && (forall i, j :: 0 <= i < j < |s'| ==> Before(s'[i], s'[j]))
  {
    forall d | d in D ensures Rank(D, d) < k + 1 <==> Rank(D, d) < k || d == t {
      if Rank(D, d) == k {
        SameRank(D, d, t);
      }
    }
    forall i | 0 <= i < |s| ensures Before(s[i], t) {
      assert s[i] in s;
      if !Before(s[i], t) {
        Total(s[i], t);
        RankOrders(D, t, s[i]);
      }
    }
  }

  lemma SameRank(D: set<Bits>, a: Bits, b: Bits)
    requires Roms(D) && a in D && b in D && Rank(D, a) == Rank(D, b)
    ensures a == b
  {
    if a != b {
      Total(a, b);
      if Before(a, b) {
        RankOrders(D, a, b);
      } else {
        RankOrders(D, b, a);
      }
    }
  }

  /** A valid device of this rank, or, for the last index, of this rank in a byte. */
  ghost predicate IsAt(D: set<Bits>, d: Bits, index: nat) {
    d in D && ValidBits(d) && (if index < 255 then Rank(D, d) == index else Rank(D, d) % 256 == index)
  }

  ghost predicate HasRank(D: set<Bits>, d: Bits, k: nat) {
    d in D && Rank(D, d) == k
  }

  /** The first devices of the search, in order. */
  ghost predicate InRankOrder(D: set<Bits>, visited: seq<Bits>) {
    forall i: nat :: i < |visited| ==> HasRank(D, visited[i], i)
  }

  /** No device with an invalid code comes before one with a valid code. */
  ghost predicate ValidFirst(D: set<Bits>) {
    forall d, e :: d in D && e in D && ValidBits(d) && Before(e, d) ==> ValidBits(e)
  }

  /** The first k devices of the order. */
  ghost function Lowest(D: set<Bits>, k: nat): set<Bits> {
    set d | d in D && Rank(D, d) < k
  }

  lemma {:induction false} LowestCount(D: set<Bits>, start: Bits, k: nat)
    requires Roms(D) && |start| == ROM_BITS && k <= |D|
    ensures |Lowest(D, k)| == k
    decreases k
  {
    hide Rank, Nth, LastZero;
    if k == 0 {
      assert Lowest(D, 0) == {};
    } else {
      LowestCount(D, start, k - 1);
      SearchesInOrder(D, start, k - 1);
      var t := Nth(D, start, k - 1);
      forall d | d in D ensures Rank(D, d) < k <==> Rank(D, d) < k - 1 || d == t {
        if Rank(D, d) == k - 1 {
          SameRank(D, d, t);
        }
      }
      assert Lowest(D, k) == Lowest(D, k - 1) + {t};
    }
  }

  /** Setting the resolution of as many devices as have valid codes, by index, reaches every one of
      them exactly when no invalid device comes before a valid one: the index counts both kinds. */
  lemma ResolutionReachesExactly(D: set<Bits>, visited: seq<Bits>)
    requires Roms(D) && InRankOrder(D, visited) && |visited| == |ValidDevices(D)|
    ensures (forall d :: d in ValidDevices(D) ==> d in visited) <==> ValidFirst(D)
  {
    hide Rank, ValidBits, Before;
    var n, v := |visited|, ValidDevices(D);
    SubsetSmaller(v, D);
    var start := seq(ROM_BITS, _ => false);
    LowestCount(D, start, n);
    forall d | d in D ensures d in visited <==> d in Lowest(D, n) {
      VisitedAreLowest(D, visited, start, d);
    }
    if forall d :: d in v ==> d in visited {
      assert v <= Lowest(D, n);
      SameSize(v, Lowest(D, n));
      forall d, e | d in D && e in D && ValidBits(d) && Before(e, d) ensures ValidBits(e) {
        RankOrders(D, e, d);
        assert e in Lowest(D, n);
      }
    }
    if ValidFirst(D) {
      forall d | d in v ensures d in visited {
        BelowValid(D, d);
        assert d in Lowest(D, n);
      }
    }
  }

  ghost predicate ReachesAll(D: set<Bits>, visited: seq<Bits>) {
    forall d :: d in ValidDevices(D) ==> d in visited
  }

  lemma CountedReach(D: set<Bits>, visited: seq<Bits>)
    requires Roms(D) && |visited| == if AllFamilies(D) then |ValidDevices(D)| % 256 else 0
    requires AllFamilies(D) && |visited| <= |D| ==> InRankOrder(D, visited)
    ensures ReachesAll(D, visited)
       <==> if AllFamilies(D) then |ValidDevices(D)| < 256 && ValidFirst(D) else ValidDevices(D) == {}
  {
    hide ValidBits, ValidFirst, InRankOrder, AllFamilies;
    var v := ValidDevices(D);
    SubsetSmaller(v, D);
    if AllFamilies(D) && |v| < 256 {
      ResolutionReachesExactly(D, visited);
    } else if ReachesAll(D, visited) {
      Covered(v, visited);
    }
  }

  /** A set whose elements are all in a list is no larger than the list. */
  lemma {:induction false} Covered<T>(a: set<T>, s: seq<T>)
    requires forall x :: x in a ==> x in s
    ensures |a| <= |s|
    decreases |s|
  {
    if s == [] {
      assert a == {};
    } else {
      var last := s[|s| - 1];
      forall x | x in a - {last} ensures x in s[..|s| - 1] {
        var i :| 0 <= i < |s| && s[i] == x;
        assert s[..|s| - 1][i] == x;
      }
      Covered(a - {last}, s[..|s| - 1]);
    }
  }

  const SENSOR: seq<bv8> := [0x28, 0, 0, 0, 0, 0, 0]

  /** A sensor of this family without a serial number, its code ending in a check byte. */
  function Sensor(check: bv8): Bits {
    RomBits(SENSOR + [check])
  }

  lemma SensorCodes()
    ensures Crc8(SENSOR) != 0
  {
    var m: seq<bv8> := [];
    assert Crc8(m) == 0;
    for i := 0 to 7
      invariant |m| == i && Crc8(m) == 0 && forall k :: 0 <= k < |m| ==> m[k] == 0
    {
      SelfChecking(m, 0);
      m := m + [0];
    }
    DamagedByteDetected(m, 0, 0x28);
    assert m[0 := 0x28] == SENSOR;
  }

  lemma SensorValid(check: bv8)
    ensures ValidBits(Sensor(check)) <==> check == Crc8(SENSOR)
    ensures |Sensor(check)| == ROM_BITS && !NoFamily(Sensor(check))
  {
    var rom := SENSOR + [check];
    RomBitsAreStream(rom);
    SelfChecking(SENSOR, check);
    FamilyByte(rom);
  }

  lemma SensorOrder(check: bv8)
    requires Sensor(0) != Sensor(check)
    ensures Before(Sensor(0), Sensor(check))
  {
    forall i | 0 <= i < ROM_BITS && Sensor(0)[i] ensures Sensor(check)[i] {
      assert i / 8 == 7 ==> !Bit(0, i % 8);
    }
    FewerOnesFirst(Sensor(0), Sensor(check));
  }

  /** A bus on which it fails: two sensors, the first with a damaged code. Setting the
      resolution of one device, as many as have valid codes, visits the damaged one only. */
  lemma InvalidDeviceFirst()
    ensures var bad, good := Sensor(0), Sensor(Crc8(SENSOR));
      var D := {bad, good};
      && Roms(D) && AllFamilies(D) && ValidDevices(D) == {good} && !ValidFirst(D)
      && forall visited | InRankOrder(D, visited) && |visited| == |ValidDevices(D)| :: good !in visited
  {
    hide ValidBits, Sensor, Crc8, NoFamily, Before;
    var bad, good := Sensor(0), Sensor(Crc8(SENSOR));
    SensorCodes();
    SensorValid(0);
    SensorValid(Crc8(SENSOR));
    SensorOrder(Crc8(SENSOR));
    OnlySecondValid(bad, good);
  }

  lemma OnlySecondValid(bad: Bits, good: Bits)
    requires |bad| == |good| == ROM_BITS && !ValidBits(bad) && ValidBits(good) && Before(bad, good)
    ensures var D := {bad, good};
      && Roms(D) && ValidDevices(D) == {good} && !ValidFirst(D)
      && forall visited | InRankOrder(D, visited) && |visited| == |ValidDevices(D)| :: good !in visited
  {
    hide ValidBits, Rank, Before;
    var D := {bad, good};
    forall visited | InRankOrder(D, visited) && |visited| == |ValidDevices(D)| ensures good !in visited {
      ResolutionReachesExactly(D, visited);
    }
  }

  lemma VisitedAreLowest(D: set<Bits>, visited: seq<Bits>, start: Bits, d: Bits)
    requires Roms(D) && InRankOrder(D, visited) && d in D
    ensures d in visited <==> d in Lowest(D, |visited|)
  {
    hide Rank;
    if Rank(D, d) < |visited| {
      assert HasRank(D, visited[Rank(D, d)], Rank(D, d));
      SameRank(D, d, visited[Rank(D, d)]);
    }
    if d in visited {
      var i :| 0 <= i < |visited| && visited[i] == d;
      assert HasRank(D, visited[i], i);
    }
  }

  lemma SameSize<T>(a: set<T>, b: set<T>)
    requires a <= b && |a| == |b|
    ensures a == b
  {
    if x :| x in b && x !in a {
      SubsetSmaller(a + {x}, b);
    }
  }

  /** When invalid devices come last, only valid ones are before a valid one. */
  lemma BelowValid(D: set<Bits>, d: Bits)
    requires ValidFirst(D) && d in ValidDevices(D)
    ensures Rank(D, d) < |ValidDevices(D)|
  {
    hide ValidBits;
    var below := set e | e in D && Before(e, d);
    Irreflexive(d);
    assert below + {d} <= ValidDevices(D);
    SubsetSmaller(below + {d}, ValidDevices(D));
  }

  /** No valid device has this rank. */
  ghost predicate NoneAt(D: set<Bits>, index: nat) {
    forall d :: d in D && Rank(D, d) == index ==> !ValidBits(d)
  }

  lemma NotThisOne(D: set<Bits>, t: Bits, index: nat)
    requires Roms(D) && t in D && Rank(D, t) == index && !ValidBits(t)
    ensures NoneAt(D, index)
  {
    forall d | d in D && Rank(D, d) == index ensures d == t {
      SameRank(D, d, t);
    }
  }

  /** The depth in a byte stays the place in the run, or stops there. */
  lemma DepthGoesOn(k: nat, depth: nat, index: nat)
    requires depth == k % 256 && index < 256 && (index < 255 ==> k <= index) && (depth + 1) % 256 <= index
    ensures (depth + 1) % 256 == (k + 1) % 256 && (index < 255 ==> k + 1 <= index)
  {
  }

  lemma DepthIsPast(k: nat, depth: nat, index: nat)
    requires depth == k % 256 && index < 256 && (index < 255 ==> k <= index) && (depth + 1) % 256 > index
    ensures k == index
  {
  }

  lemma NoneLeft(D: set<Bits>, k: nat, index: nat)
    requires k + 1 == |D| && (k >= index ==> NoneAt(D, index))
    ensures NoneAt(D, index)
  {
    NoneBeyond(D, index);
  }

  lemma NoneBeyond(D: set<Bits>, index: nat)
    ensures index >= |D| ==> NoneAt(D, index)
  {
    forall d | d in D ensures Rank(D, d) < |D| {
      RankSmall(D, d);
    }
  }

  lemma AllHandled(A: set<Bits>, start: Bits)
    requires Roms(A) && |start| == ROM_BITS
    ensures HandledExactly(A, ValidOf(A, start, |A|))
  {
    ValidOfExactly(A, start, |A|);
    forall d | d in A ensures Rank(A, d) < |A| {
      RankSmall(A, d);
    }
  }

  lemma CountsAll(D: set<Bits>, start: Bits)
    requires Roms(D) && |start| == ROM_BITS
    ensures |ValidOf(D, start, |D|)| == |ValidDevices(D)|
  {
    AllHandled(D, start);
    CountOrdered(ValidOf(D, start, |D|), ValidDevices(D));
  }

  lemma {:induction false} CountOrdered(s: seq<Bits>, all: set<Bits>)
    requires forall d :: d in s <==> d in all
    requires forall i, j :: 0 <= i < j < |s| ==> Before(s[i], s[j])
    ensures |s| == |all|
    decreases |s|
  {
    if s == [] {
      assert all == {};
    } else {
      var last, rest := s[|s| - 1], s[..|s| - 1];
      Irreflexive(last);
      forall d ensures d in rest <==> d in all - {last} {
        assert d in s <==> d in rest || d == last;
      }
      CountOrdered(rest, all - {last});
    }
  }
}
