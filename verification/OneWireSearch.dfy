/** The 1-Wire bus and the ROM search that enumerates its devices. */
module OneWireSearch {
  import opened Crc
  import opened OneWireOrder
  import opened OneWireBits

  const SEARCH_ROM: bv8 := 0xF0
  const ALARM_SEARCH: bv8 := 0xEC

  /** Devices on one open-drain wire. After a search command every device that takes part
      sends a bit of its code, then the complement, and drops out when the master writes
      the other bit. */
  class Bus {
    const devices: set<Bits>
    const alarming: set<Bits>
    var live: set<Bits>
    var sent: nat
    var complement: bool

    ghost predicate Valid()
      reads this
    {
      Roms(devices) && alarming <= devices && Roms(live)
    }

    /** The devices a command addresses. */
    function Addressed(command: bv8): set<Bits> {
      if command == SEARCH_ROM then devices else if command == ALARM_SEARCH then alarming else {}
    }

    constructor (devices: set<Bits>, alarming: set<Bits>)
      requires Roms(devices) && alarming <= devices
      ensures Valid() && this.devices == devices && this.alarming == alarming
    {
      this.devices, this.alarming := devices, alarming;
      live, sent, complement := {}, 0, false;
    }

    /** Every device answers a reset with a presence pulse. */
    method Reset() returns (present: bool)
      requires Valid()
      modifies this
      ensures Valid() && present == (devices != {})
    {
      live, sent, complement := {}, 0, false;
      present := devices != {};
    }

    method Command(command: bv8)
      requires Valid()
      modifies this
      ensures Valid() && live == Addressed(command) && sent == 0 && !complement
    {
      live, sent, complement := Addressed(command), 0, false;
    }

    /** A read sees the AND of what the devices send; with none it sees the pull-up. */
    method ReadBit() returns (b: bool)
      requires Valid() && sent < ROM_BITS
      modifies this`complement
      ensures b <==> forall d :: d in live ==> d[sent] != old(complement)
      ensures complement == !old(complement)
    {
      var place, other := sent, complement;
      b := forall d :: d in live ==> d[place] != other;
      complement := !other;
    }

    method WriteBit(v: bool)
      requires Valid() && sent < ROM_BITS && !complement
      modifies this
      ensures Valid() && live == set d | d in old(live) && d[old(sent)] == v
      ensures sent == old(sent) + 1 && !complement
    {
      live := set d | d in live && d[sent] == v;
      sent := sent + 1;
    }
  }

  /** What the search remembers between calls. */
  datatype SearchState = SearchState(rom: Bits, last: nat, family: nat, done: bool)

  function ZeroRom(): (z: Bits)
    ensures |z| == ROM_BITS && forall i :: 0 <= i < |z| ==> !z[i]
  {
    seq(ROM_BITS, _ => false)
  }

  function Restarted(s: SearchState): SearchState {
    SearchState(s.rom, 0, 0, false)
  }

  /** The last discrepancy in the family code, kept from before when there is none. */
  function FamilyZero(D: set<Bits>, p: Bits, before: nat): nat {
    var z := LastZero(D, if |p| < 8 then p else p[..8]);
    if z > 0 then z else before
  }

  /** What a pass over the devices D leaves. */
  function Passed(D: set<Bits>, s: SearchState): (after: SearchState)
    requires |s.rom| == ROM_BITS
    ensures |after.rom| == ROM_BITS
  {
    var t := Walk(D, s.rom, s.last, []);
    SearchState(t, LastZero(D, t), FamilyZero(D, t, s.family), LastZero(D, t) == 0)
  }

  /** One search of a bus with devices D: the state after it and whether it succeeds. */
  function Searched(D: set<Bits>, s: SearchState): (r: (SearchState, bool))
    requires |s.rom| == ROM_BITS
    ensures |r.0.rom| == ROM_BITS
  {
    if s.done || D == {} then (Restarted(s), false)
    else if NoFamily(Passed(D, s).rom) then (Restarted(Passed(D, s)), false)
    else (Passed(D, s), true)
  }

  lemma LiveNarrows(D: set<Bits>, p: Bits, v: bool)
    requires Roms(D) && |p| < ROM_BITS
    ensures Live(D, p + [v]) == set d | d in Live(D, p) && d[|p|] == v
  {
    forall d | d in D ensures p + [v] <= d <==> p <= d && d[|p|] == v {
      if p <= d && d[|p|] == v {
        assert d[..|p| + 1] == p + [v];
      }
    }
  }

  /** What the two reads say about the tree. */
  lemma ReadsTell(D: set<Bits>, p: Bits)
    requires Roms(D) && |p| < ROM_BITS
    ensures (forall d :: d in Live(D, p) ==> d[|p|] != false) <==> !CanGo(D, p, false)
    ensures (forall d :: d in Live(D, p) ==> d[|p|] != true) <==> !CanGo(D, p, true)
  {
    LiveNarrows(D, p, false);
    LiveNarrows(D, p, true);
    assert forall d :: d in Live(D, p) && !d[|p|] ==> d in Live(D, p + [false]);
    assert forall d :: d in Live(D, p) && d[|p|] ==> d in Live(D, p + [true]);
  }

  lemma NoMask()
    ensures Mask(0) == 1
  {
  }

  lemma NothingTaken(D: set<Bits>, before: nat)
    ensures LastZero(D, []) == 0 && FamilyZero(D, [], before) == before
  {
  }

  lemma FamilyZeroExtends(D: set<Bits>, p: Bits, b: bool, before: nat)
    ensures FamilyZero(D, p + [b], before)
         == if |p| < 8 && Split(D, p) && !b then |p| + 1 else FamilyZero(D, p, before)
  {
    LastZeroExtends(D, p, b);
    if |p| < 8 {
      assert (if |p + [b]| < 8 then p + [b] else (p + [b])[..8]) == p + [b];
    } else {
      assert (p + [b])[..8] == p[..8] == if |p| < 8 then p else p[..8];
    }
  }

  lemma AllBits(rom: seq<bv8>, t: Bits)
    requires |rom| == 8 && |t| == ROM_BITS
    requires forall j :: 0 <= j < ROM_BITS ==> BitAt(rom, j) == t[j]
    ensures RomBits(rom) == t
  {
    var bits := RomBits(rom);
    assert forall j: nat :: j < ROM_BITS ==> bits[j] == BitAt(rom, j) == t[j];
  }

  /** Bit j of a ROM code is v now and the others are as they were. */
  predicate OneBitSet(was: seq<bv8>, now: seq<bv8>, j: nat, v: bool) {
    |was| == |now| == 8 &&
    forall k :: 0 <= k < ROM_BITS ==> BitAt(now, k) == if k == j then v else BitAt(was, k)
  }

  function WithBit(b: bv8, mask: bv8, v: bool): bv8 {
    if v then b | mask else b & !mask
  }

  lemma WithBitAt(b: bv8, i: nat, k: nat, v: bool)
    requires i < 8 && k < 8
    ensures Bit(WithBit(b, Mask(i), v), k) == if k == i then v else Bit(b, k)
  {
    hide Bit, Mask;
    SetOneBit(b, i, k);
    ClearOneBit(b, i, k);
  }

  lemma ByteOfBit(j: nat)
    requires j < ROM_BITS
    ensures j / 8 < 8
  {
  }

  method WriteMasked(rom: array<bv8>, byteNumber: nat, mask: bv8, v: bool)
    requires byteNumber < rom.Length
    modifies rom
    ensures rom[..] == old(rom[..])[byteNumber := WithBit(old(rom[byteNumber]), mask, v)]
  {
    if v {
      rom[byteNumber] := rom[byteNumber] | mask;
    } else {
      rom[byteNumber] := rom[byteNumber] & !mask;
    }
  }

  /** Writing one bit of a ROM buffer. */
  method SetBit(rom: array<bv8>, byteNumber: nat, mask: bv8, v: bool, ghost j: nat)
    requires rom.Length == 8 && j < ROM_BITS && byteNumber == j / 8 && mask == Mask(j % 8)
    modifies rom
    ensures OneBitSet(old(rom[..]), rom[..], j, v)
  {
    hide *;
    ByteOfBit(j);
    ghost var was := rom[..];
    WriteMasked(rom, byteNumber, mask, v);
    BitWritten(was, rom[..], j, v);
  }

  lemma BitWritten(was: seq<bv8>, now: seq<bv8>, j: nat, v: bool)
    requires |was| == |now| == 8 && j < ROM_BITS
    requires now == was[j / 8 := WithBit(was[j / 8], Mask(j % 8), v)]
    ensures OneBitSet(was, now, j, v)
  {
    hide Mask, Bit, WithBit;
    forall k: nat | k < ROM_BITS ensures BitAt(now, k) == if k == j then v else BitAt(was, k) {
      if k / 8 == j / 8 {
        WithBitAt(was[j / 8], j % 8, k % 8, v);
        assert k % 8 == j % 8 ==> k == j;
      }
    }
  }

  /** In the middle of a pass: the directions p were taken, and the buffer holds them and
      then what it held before. */
  ghost predicate InPass(bus: Bus, rom: array<bv8>, D: set<Bits>, r: Bits, p: Bits)
    reads bus, rom
  {
    && bus.Valid() && Roms(D) && rom.Length == 8 && |r| == ROM_BITS && |p| <= ROM_BITS
    && (forall j: nat :: j < ROM_BITS ==> BitAt(rom[..], j) == if j < |p| then p[j] else r[j])
    && bus.live == Live(D, p) && bus.sent == |p| && !bus.complement
  }

  lemma PassStarts(bus: Bus, rom: array<bv8>, D: set<Bits>)
    requires bus.Valid() && Roms(D) && rom.Length == 8
    requires bus.live == D && bus.sent == 0 && !bus.complement
    ensures InPass(bus, rom, D, RomBits(rom[..]), []) && Live(D, []) == D
  {
    assert Live(D, []) == D;
  }

  lemma PassEnds(bus: Bus, rom: array<bv8>, D: set<Bits>, r: Bits, p: Bits)
    requires |p| == ROM_BITS && InPass(bus, rom, D, r, p)
    ensures RomBits(rom[..]) == p && bus.Valid() && rom.Length == 8
  {
    AllBits(rom[..], p);
  }

  /** The two answers: each says whether no device wants to go the other way. */
  method ReadPair(bus: Bus, rom: array<bv8>, ghost D: set<Bits>, ghost r: Bits, ghost p: Bits)
    returns (idBit: bool, cmpIdBit: bool)
    requires InPass(bus, rom, D, r, p) && |p| < ROM_BITS
    modifies bus`complement
    ensures InPass(bus, rom, D, r, p)
    ensures idBit == !CanGo(D, p, false) && cmpIdBit == !CanGo(D, p, true)
    ensures idBit && cmpIdBit <==> Live(D, p) == {}
  {
    ReadsTell(D, p);
    if Live(D, p) != {} {
      SomeoneGoes(D, p);
    }
    idBit := bus.ReadBit();
    cmpIdBit := bus.ReadBit();
  }

  /** Recording the direction and writing it to the bus. */
  method TakeDirection(bus: Bus, rom: array<bv8>, ghost D: set<Bits>, ghost r: Bits, ghost p: Bits, byteNumber: nat,
                       mask: bv8, direction: bool)
    requires InPass(bus, rom, D, r, p) && |p| < ROM_BITS && CanGo(D, p, direction)
    requires byteNumber == |p| / 8 && mask == Mask(|p| % 8)
    modifies bus, rom
    ensures InPass(bus, rom, D, r, p + [direction])
  {
    LiveNarrows(D, p, direction);
    SetBit(rom, byteNumber, mask, direction, |p|);
    bus.WriteBit(direction);
  }

  class OneWire {
    const bus: Bus
    const romNo: array<bv8>
    var lastDiscrepancy: nat
    var lastFamilyDiscrepancy: nat
    var lastDeviceFlag: bool

    ghost predicate Valid()
      reads this, bus
    {
      romNo.Length == 8 && bus.Valid()
    }

    ghost function State(): (s: SearchState)
      requires romNo.Length == 8
      reads this, romNo
      ensures |s.rom| == ROM_BITS
    {
      SearchState(RomBits(romNo[..]), lastDiscrepancy, lastFamilyDiscrepancy, lastDeviceFlag)
    }

    constructor (bus: Bus)
      requires bus.Valid()
      ensures Valid() && this.bus == bus && State() == Restarted(State())
      ensures fresh(romNo)
    {
      this.bus := bus;
      romNo := new bv8[8];
      lastDiscrepancy, lastFamilyDiscrepancy, lastDeviceFlag := 0, 0, false;
      new;
      ResetSearch();
    }

    method ResetSearch()
      requires Valid()
      modifies this, romNo
      ensures Valid() && State() == SearchState(ZeroRom(), 0, 0, false)
    {
      lastDiscrepancy, lastFamilyDiscrepancy, lastDeviceFlag := 0, 0, false;
      var i := 7;
      while true
        invariant 0 <= i < 8
        invariant forall k :: i < k < 8 ==> romNo[k] == 0
        modifies romNo
        decreases i
      {
        romNo[i] := 0;
        if i == 0 {
          break;
        }
        i := i - 1;
      }
      forall j: nat | j < ROM_BITS ensures !BitAt(romNo[..], j) {
      }
      AllBits(romNo[..], ZeroRom());
    }

    /** The direction at a place where devices with both bits answered. */
    method ChooseDirection(idBitNumber: nat, byteNumber: nat, mask: bv8) returns (direction: bool)
      requires Valid() && 1 <= idBitNumber <= ROM_BITS
      requires byteNumber == (idBitNumber - 1) / 8 && mask == Mask((idBitNumber - 1) % 8)
      ensures direction == if idBitNumber < lastDiscrepancy then BitAt(romNo[..], idBitNumber - 1)
           else idBitNumber == lastDiscrepancy
    {
      if idBitNumber < lastDiscrepancy {
        direction := romNo[byteNumber] & mask > 0;
      } else {
        direction := idBitNumber == lastDiscrepancy;
      }
    }

    /** The two answers and the direction they lead to; nobody answers with both lines high. */
    method ReadDirection(ghost D: set<Bits>, ghost r: Bits, ghost p: Bits, idBitNumber: nat, byteNumber: nat, mask: bv8)
      returns (answered: bool, direction: bool, tookZero: bool)
      requires InPass(bus, romNo, D, r, p) && |p| < ROM_BITS && Live(D, p) != {}
      requires idBitNumber == |p| + 1 && byteNumber == |p| / 8 && mask == Mask(|p| % 8)
      modifies bus`complement
      ensures InPass(bus, romNo, D, r, p) && answered
      ensures direction == Direction(D, r, lastDiscrepancy, p) && CanGo(D, p, direction)
           && tookZero == (Split(D, p) && !direction)
    {
      var idBit, cmpIdBit := ReadPair(bus, romNo, D, r, p);
      answered := !(idBit && cmpIdBit);
      if idBit != cmpIdBit {
        direction, tookZero := idBit, false;
      } else {
        direction := ChooseDirection(idBitNumber, byteNumber, mask);
        tookZero := !direction;
      }
    }

    /** Down the tree of the devices that answered the search command. */
    method SearchPass(ghost D: set<Bits>, ghost r: Bits) returns (idBitNumber: nat, lastZero: nat)
      requires Valid() && Roms(D) && bus.live == D && bus.sent == 0 && !bus.complement && D != {} && r == State().rom
      modifies this`lastFamilyDiscrepancy, bus, romNo
      ensures Valid() && idBitNumber == ROM_BITS + 1
      ensures State().rom == Walk(D, r, lastDiscrepancy, []) && lastZero == LastZero(D, State().rom)
      ensures lastFamilyDiscrepancy == FamilyZero(D, State().rom, old(lastFamilyDiscrepancy))
    {
      hide LastZero, FamilyZero, Searched, Passed, Split, Direction, Live, InPass, BitAt, RomBits, Mask;
      ghost var last, family := lastDiscrepancy, lastFamilyDiscrepancy;
      ghost var p: Bits := [];
      NothingTaken(D, family);
      idBitNumber, lastZero := 1, 0;
      var byteNumber, mask := 0, 1;
      PassStarts(bus, romNo, D);
      NoMask();
      while byteNumber < 8
        invariant InPass(bus, romNo, D, r, p) && |p| <= ROM_BITS && Live(D, p) != {}
        invariant idBitNumber == |p| + 1 && byteNumber == |p| / 8 && mask == Mask(|p| % 8)
        invariant Walk(D, r, last, p) == Walk(D, r, last, [])
        invariant lastZero == LastZero(D, p) && lastFamilyDiscrepancy == FamilyZero(D, p, family)
        decreases ROM_BITS - |p|
      {
        var answered, direction, tookZero := ReadDirection(D, r, p, idBitNumber, byteNumber, mask);
        if !answered {
          break;
        }
        if tookZero {
          lastZero := idBitNumber;
          if lastZero < 9 {
            lastFamilyDiscrepancy := lastZero;
          }
        }
        LastZeroExtends(D, p, direction);
        FamilyZeroExtends(D, p, direction, family);
        TakeDirection(bus, romNo, D, r, p, byteNumber, mask, direction);
        idBitNumber := idBitNumber + 1;
        mask, byteNumber := MoveMask(mask, byteNumber, |p|);
        p := p + [direction];
      }
      PassEnds(bus, romNo, D, r, p);
    }

    method MoveMask(mask: bv8, byteNumber: nat, ghost j: nat) returns (mask': bv8, byteNumber': nat)
      requires byteNumber == j / 8 && mask == Mask(j % 8)
      ensures byteNumber' == (j + 1) / 8 && mask' == Mask((j + 1) % 8)
    {
      MaskMoves(j % 8);
      mask', byteNumber' := mask << 1, byteNumber;
      if mask' == 0 {
        byteNumber', mask' := byteNumber + 1, 1;
      }
    }

    /** The pass of one call: reset, command and walk. */
    method FindDevice() returns (present: bool, found: bool)
      requires Valid()
      modifies this, bus, romNo
      ensures Valid() && (present <==> old(lastDeviceFlag) || bus.devices != {})
           && (found <==> !old(lastDeviceFlag) && present)
      ensures State() == if found then Passed(bus.devices, old(State())) else if present then old(State())
                         else Restarted(old(State()))
    {
      if lastDeviceFlag {
        return true, false;
      }
      present := bus.Reset();
      if !present {
        Restart();
        return present, false;
      }
      bus.Command(SEARCH_ROM);
      var idBitNumber, lastZero := SearchPass(bus.devices, State().rom);
      found := !(idBitNumber < 65);
      if found {
        lastDiscrepancy := lastZero;
        if lastDiscrepancy == 0 {
          lastDeviceFlag := true;
        }
      }
    }

    /** The next search will be like a first one. */
    method Restart()
      requires Valid()
      modifies this
      ensures Valid() && State() == Restarted(old(State()))
    {
      lastDiscrepancy, lastDeviceFlag, lastFamilyDiscrepancy := 0, false, 0;
    }

    method FamilyIsZero() returns (zero: bool)
      requires Valid()
      ensures zero <==> NoFamily(State().rom)
    {
      FamilyByte(romNo[..]);
      zero := romNo[0] == 0;
    }

    /** One call of the search. */
    method Search(newAddr: array<bv8>) returns (searchResult: bool)
      requires Valid() && newAddr.Length == 8 && newAddr != romNo
      modifies this, bus, romNo, newAddr
      ensures Valid() && (State(), searchResult) == Searched(bus.devices, old(State()))
      ensures newAddr[..] == if !old(lastDeviceFlag) && bus.devices == {} then old(newAddr[..]) else romNo[..]
    {
      var present;
      present, searchResult := FindDevice();
      if !present {
        return;
      }
      var noFamily := FamilyIsZero();
      if !searchResult || noFamily {
        Restart();
        searchResult := false;
      }
      CopyRom(romNo, newAddr);
    }
  }

  method CopyRom(rom: array<bv8>, newAddr: array<bv8>)
    requires rom.Length == newAddr.Length == 8 && rom != newAddr
    modifies newAddr
    ensures newAddr[..] == rom[..]
  {
    for i := 0 to 8
      invariant newAddr[..i] == rom[..i]
    {
      newAddr[i] := rom[i];
    }
  }

  lemma SomeoneGoes(D: set<Bits>, p: Bits)
    requires Roms(D) && |p| < ROM_BITS && Live(D, p) != {}
    ensures CanGo(D, p, false) || CanGo(D, p, true)
  {
    var d :| d in Live(D, p);
    SomeoneLeft(D, p, d);
    assert CanGo(D, p, d[|p|]);
  }
}
