/** ROM codes as bytes and as the bits they are transmitted as. */
module OneWireBits {
  import opened ShiftRegister
  import opened Crc
  import opened OneWireOrder

  predicate Bit(b: bv8, k: nat)
    requires k < 8
  {
    b & Mask(k) != 0
  }

  /** Bit j of a ROM code. */
  predicate BitAt(rom: seq<bv8>, j: nat)
    requires j < 8 * |rom|
  {
    Bit(rom[j / 8], j % 8)
  }

  /** The bits of a ROM code in transmission order. */
  function RomBits(rom: seq<bv8>): (bits: Bits)
    requires |rom| == 8
    ensures |bits| == ROM_BITS
  {
    seq(ROM_BITS, (j: nat) requires |rom| == 8 && j < ROM_BITS => BitAt(rom, j))
  }

  lemma {:induction false} BitsOfAt<T, B>(low: T -> B, down: T -> T, w: T, n: nat, k: nat)
    requires k < n
    ensures BitsOf(low, down, w, n)[k] == low(Times(down, w, k))
    decreases n
  {
    if k > 0 {
      BitsOfAt(low, down, down(w), n - 1, k - 1);
    }
  }

  lemma LowOfTimes(b: bv8, k: nat)
    requires k < 8
    ensures Low8(Times(Down8, b, k)) == Bit(b, k)
  {
    if k < 4 {
      SmallTimes(b);
    } else {
      TimesFour(Down8, b, k - 4);
      SmallTimes(Down8(Down8(Down8(Down8(b)))));
      FourDown(b);
    }
  }

  lemma FourDown(b: bv8)
    ensures Down8(Down8(Down8(Down8(b)))) == b >> 4
    ensures Bit(b >> 4, 0) == Bit(b, 4) && Bit(b >> 4, 1) == Bit(b, 5) && Bit(b >> 4, 2) == Bit(b, 6)
         && Bit(b >> 4, 3) == Bit(b, 7)
  {
  }

  lemma SmallTimes(b: bv8)
    ensures Low8(Times(Down8, b, 0)) == Bit(b, 0)
    ensures Low8(Times(Down8, b, 1)) == Bit(b, 1)
    ensures Low8(Times(Down8, b, 2)) == Bit(b, 2)
    ensures Low8(Times(Down8, b, 3)) == Bit(b, 3)
  {
    assert Times(Down8, b, 0) == b;
    assert Times(Down8, b, 1) == Times(Down8, Down8(b), 0);
    assert Times(Down8, b, 2) == Times(Down8, Down8(b), 1) == Times(Down8, Down8(Down8(b)), 0);
    assert Times(Down8, b, 3) == Times(Down8, Down8(b), 2) == Times(Down8, Down8(Down8(b)), 1)
        == Times(Down8, Down8(Down8(Down8(b))), 0);
  }

  lemma ByteBitAt(b: bv8, k: nat)
    requires k < 8
    ensures ByteBits(b)[k] == Bit(b, k)
  {
    BitsOfAt(Low8, Down8, b, 8, k);
    LowOfTimes(b, k);
  }

  lemma {:induction false} StreamAt(rom: seq<bv8>, j: nat)
    requires j < 8 * |rom|
    ensures BitStream(rom)[j] == BitAt(rom, j)
    decreases |rom|
  {
    hide BitAt, ByteBits, Bit;
    if j < 8 {
      ByteBitAt(rom[0], j);
      FirstByteAt(rom, ByteBits(rom[0]), BitStream(rom[1..]), j);
    } else {
      StreamAt(rom[1..], j - 8);
      NextByteAt(rom, j);
      LaterByteAt(ByteBits(rom[0]), BitStream(rom[1..]), j);
    }
  }

  lemma FirstByteAt(rom: seq<bv8>, first: Bits, rest: Bits, j: nat)
    requires j < 8 == |first| && rom != [] && first[j] == Bit(rom[0], j)
    ensures (first + rest)[j] == BitAt(rom, j)
  {
    assert j / 8 == 0 && j % 8 == j;
  }

  lemma LaterByteAt(first: Bits, rest: Bits, j: nat)
    requires |first| == 8 <= j < 8 + |rest|
    ensures (first + rest)[j] == rest[j - 8]
  {
  }

  lemma NextByteAt(rom: seq<bv8>, j: nat)
    requires 8 <= j < 8 * |rom|
    ensures BitAt(rom[1..], j - 8) == BitAt(rom, j)
  {
    assert (j - 8) / 8 == j / 8 - 1 && (j - 8) % 8 == j % 8;
  }

  lemma SetOneBit(b: bv8, i: nat, k: nat)
    requires i < 8 && k < 8
    ensures Bit(b | Mask(i), k) == (k == i || Bit(b, k))
  {
  }

  lemma ClearOneBit(b: bv8, i: nat, k: nat)
    requires i < 8 && k < 8
    ensures Bit(b & !Mask(i), k) == (k != i && Bit(b, k))
  {
  }

  lemma MaskMoves(k: nat)
    requires k < 8
    ensures Mask(k) << 1 == Mask(k + 1) && (Mask(k) << 1 == 0 <==> k == 7)
  {
  }

  lemma ZeroByte(b: bv8)
    ensures b == 0 <==> forall k :: 0 <= k < 8 ==> !Bit(b, k)
  {
    if forall k :: 0 <= k < 8 ==> !Bit(b, k) {
      assert !Bit(b, 0) && !Bit(b, 1) && !Bit(b, 2) && !Bit(b, 3) && !Bit(b, 4) && !Bit(b, 5) && !Bit(b, 6)
          && !Bit(b, 7);
      EightZeros(b);
    }
  }

  lemma EightZeros(b: bv8)
    requires b & 1 == 0 && b & 2 == 0 && b & 4 == 0 && b & 8 == 0 && b & 16 == 0 && b & 32 == 0 && b & 64 == 0
         && b & 128 == 0
    ensures b == 0
  {
  }

  /** The family byte is zero exactly when the first eight bits are. */
  lemma FamilyByte(rom: seq<bv8>)
    requires |rom| == 8
    ensures rom[0] == 0 <==> NoFamily(RomBits(rom))
  {
    ZeroByte(rom[0]);
    assert forall j: nat :: j < 8 ==> RomBits(rom)[j] == Bit(rom[0], j);
  }

  /** A code is valid when its last byte checks the first seven: its 64 bits then fold to zero. */
  predicate ValidBits(d: Bits) {
    Fold(Step8, 0, d) == 0
  }

  /** The bits of a code are the bits its check is computed over. */
  lemma RomBitsAreStream(rom: seq<bv8>)
    requires |rom| == 8
    ensures RomBits(rom) == BitStream(rom)
  {
    var bits, stream := RomBits(rom), BitStream(rom);
    forall j: nat | j < ROM_BITS ensures bits[j] == stream[j] {
      StreamAt(rom, j);
    }
  }

  method ValidAddress(deviceAddress: array<bv8>) returns (ok: bool)
    requires deviceAddress.Length == 8
    ensures ok <==> ValidBits(RomBits(deviceAddress[..]))
  {
    var crc := Crc8Fast(deviceAddress, 7);
    SelfChecking(deviceAddress[..7], deviceAddress[7]);
    assert deviceAddress[..7] + [deviceAddress[7]] == deviceAddress[..];
    RomBitsAreStream(deviceAddress[..]);
    ok := crc == deviceAddress[7];
  }
}
