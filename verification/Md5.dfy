/** Streaming MD5: a partial block, a two-word bit count and padding (RFC 1321, sections 3.1 to 3.5). */
module Md5 {
  import opened Md5Block

  const WORD: int := 0x1_0000_0000

  /** The registers before any block. */
  function Init(): Regs {
    Regs(0x67452301, 0xefcdab89, 0x98badcfe, 0x10325476)
  }

  /** The fold of the compression function over the whole blocks of a message. */
  function Fold(h: Regs, m: seq<bv8>): Regs
    decreases |m|
  {
    if |m| < 64 then h else Fold(Compress(h, m[..64]), m[64..])
  }

  /** The bytes of the last, incomplete block. */
  function Tail(m: seq<bv8>): (t: seq<bv8>)
    ensures |t| == |m| % 64
  {
    m[|m| - |m| % 64..]
  }

  /** How many zero bytes the padding has. */
  function ZeroBytes(n: nat): (z: nat)
    ensures z < 64 && (n + 1 + z) % 64 == 56
  {
    (55 - n) % 64
  }

  /** Byte k of a word. */
  function ByteOf(w: int, k: nat): bv8
    requires 0 <= w < WORD && k < 4
  {
    (if k == 0 then w % 0x100 else if k == 1 then w / 0x100 % 0x100 else if k == 2 then w / 0x1_0000 % 0x100
        else w / 0x100_0000 % 0x100) as bv8
  }

  /** The length in bits, modulo 2 to the 64th: the low word first, each word low byte first. */
  function LengthBytes(n: nat): (b: seq<bv8>)
    ensures |b| == 8
  {
    var bits := 8 * n % (WORD * WORD);
    var (low, high) := (bits % WORD, bits / WORD);
    [ByteOf(low, 0), ByteOf(low, 1), ByteOf(low, 2), ByteOf(low, 3), ByteOf(high, 0), ByteOf(high, 1), ByteOf(high, 2),
        ByteOf(high, 3)]
  }

  /** A one bit, the zero bits up to 56 bytes in a block, and the length. */
  function Padding(n: nat): (p: seq<bv8>)
    ensures |p| == 1 + ZeroBytes(n) + 8
  {
    [0x80] + seq(ZeroBytes(n), _ => 0 as bv8) + LengthBytes(n)
  }

  /** Padding ends on a block boundary, and no shorter run of zeros would. */
  lemma PaddingEndsBlock(n: nat, z: nat)
    ensures (n + |Padding(n)|) % 64 == 0
    ensures (n + 1 + z + 8) % 64 == 0 ==> ZeroBytes(n) <= z
  {
    hide Padding;
    LengthOfPadding(n);
  }

  lemma LengthOfPadding(n: nat)
    ensures |Padding(n)| == 1 + ZeroBytes(n) + 8
  {
  }

  function RegBytes(w: bv32): (b: seq<bv8>)
    ensures |b| == 4
  {
    [(w & 0xFF) as bv8, ((w >> 8) & 0xFF) as bv8, ((w >> 16) & 0xFF) as bv8, ((w >> 24) & 0xFF) as bv8]
  }

  function Power256(k: nat): nat {
    if k == 0 then 1 else 0x100 * Power256(k - 1)
  }

  /** The last eight bytes of the padding are the digits of the length in bits to the base 256,
      modulo 2 to the 64th, the lowest first. */
  lemma LengthDigits(n: nat, k: nat)
    requires k < 8
    ensures Power256(k) > 0
    ensures LengthBytes(n)[k] == (8 * n % (WORD * WORD) / Power256(k) % 0x100) as bv8
  {
    hide LengthBytes;
    Powers();
    if k < 4 {
      LowLengthDigits(n, k);
    } else {
      HighLengthDigits(n, k);
    }
  }

  lemma LowLengthDigits(n: nat, k: nat)
    requires k < 4 && Power256(k) > 0
    ensures LengthBytes(n)[k] == (8 * n % (WORD * WORD) / Power256(k) % 0x100) as bv8
  {
    hide ByteOf, Power256;
    LowDigits(8 * n % (WORD * WORD), k);
    match k case 0 => case 1 => case 2 => case 3 =>
  }

  lemma LowDigits(bits: nat, k: nat)
    requires k < 4 && Power256(k) > 0
    ensures ByteOf(bits % WORD, k) == (bits / Power256(k) % 0x100) as bv8
  {
    hide Power256;
    Powers();
    DigitsOfWord(bits);
  }

  lemma HighLengthDigits(n: nat, k: nat)
    requires 4 <= k < 8 && Power256(k) > 0
    ensures LengthBytes(n)[k] == (8 * n % (WORD * WORD) / Power256(k) % 0x100) as bv8
  {
    var bits := 8 * n % (WORD * WORD);
    Powers();
    DigitsOfWord(bits);
    match k case 4 => case 5 => case 6 => case 7 =>
  }

  lemma Powers()
    ensures Power256(0) == 1 && Power256(1) == 0x100 && Power256(2) == 0x1_0000 && Power256(3) == 0x100_0000
    ensures Power256(4) == WORD && Power256(5) == WORD * 0x100 && Power256(6) == WORD * 0x1_0000
    ensures Power256(7) == WORD * 0x100_0000
  {
    assert Power256(2) == 0x100 * Power256(1) && Power256(4) == 0x100 * Power256(3);
    assert Power256(6) == 0x100 * Power256(5) && Power256(7) == 0x100 * Power256(6);
  }

  /** The low word has the low digits of the number, and the high word the others. */
  lemma DigitsOfWord(w: int)
    requires 0 <= w
    ensures w % WORD % 0x100 == w % 0x100 && w % WORD / 0x100 % 0x100 == w / 0x100 % 0x100
    ensures w % WORD / 0x1_0000 % 0x100 == w / 0x1_0000 % 0x100
    ensures w % WORD / 0x100_0000 % 0x100 == w / 0x100_0000 % 0x100
    ensures w / WORD / 0x100 == w / (WORD * 0x100) && w / WORD / 0x1_0000 == w / (WORD * 0x1_0000)
    ensures w / WORD / 0x100_0000 == w / (WORD * 0x100_0000)
  {
    var q, r := w / WORD, w % WORD;
    LowDigit(w, q, r, 1, WORD);
    LowDigit(w, q, r, 0x100, 0x100_0000);
    LowDigit(w, q, r, 0x1_0000, 0x1_0000);
    LowDigit(w, q, r, 0x100_0000, 0x100);
    HighDigits(w);
  }

  lemma LowDigit(w: int, q: int, r: int, a: int, b: int)
    requires 0 <= r < WORD && w == q * WORD + r && a > 0 && b > 0 && a * b == WORD && b % 0x100 == 0
    ensures w / a % 0x100 == r / a % 0x100
  {
    assert w == (q * b) * a + r by {
      assert q * WORD == q * (b * a) == (q * b) * a;
    }
    Shifted(q * b, r, a);
    assert q * b == (q * (b / 0x100)) * 0x100;
    SameDigit(q * (b / 0x100), r / a);
  }

  lemma Shifted(k: int, r: int, a: int)
    requires a > 0
    ensures (k * a + r) / a == k + r / a
  {
    var q, m := r / a, r % a;
    assert k * a + r == (k + q) * a + m;
    QuotientIs(k * a + r, a, k + q, m);
  }

  lemma QuotientIs(x: int, a: int, q: int, m: int)
    requires a > 0 && x == q * a + m && 0 <= m < a
    ensures x / a == q
  {
    var d := x / a - q;
    assert d * a == m - x % a;
    assert d >= 1 ==> d * a >= a;
    assert d <= -1 ==> d * a <= -a;
  }

  lemma SameDigit(k: int, x: int)
    ensures (k * 0x100 + x) % 0x100 == x % 0x100
  {
  }

  lemma HighDigits(w: int)
    requires 0 <= w
    ensures w / WORD / 0x100 == w / (WORD * 0x100) && w / WORD / 0x1_0000 == w / (WORD * 0x1_0000)
    ensures w / WORD / 0x100_0000 == w / (WORD * 0x100_0000)
  {
  }

  /** A word is read and written low byte first alike. */
  lemma WordBytes(b0: bv8, b1: bv8, b2: bv8, b3: bv8)
    ensures RegBytes(Word(b0, b1, b2, b3)) == [b0, b1, b2, b3]
  {
  }

  /** MD5: the registers after the padded message, low bytes first. */
  function Digest(m: seq<bv8>): (d: seq<bv8>)
    ensures |d| == 16
  {
    var r := Fold(Init(), m + Padding(|m|));
    RegBytes(r.a) + RegBytes(r.b) + RegBytes(r.c) + RegBytes(r.d)
  }

  // ---------- folding ----------

  lemma {:induction false} FoldConcat(h: Regs, a: seq<bv8>, b: seq<bv8>)
    requires |a| % 64 == 0
    ensures Fold(h, a + b) == Fold(Fold(h, a), b)
    decreases |a|
  {
    hide Compress;
    if |a| == 0 {
      assert a + b == b;
    } else {
      assert (a + b)[..64] == a[..64] && (a + b)[64..] == a[64..] + b;
      FoldConcat(Compress(h, a[..64]), a[64..], b);
    }
  }

  lemma FoldBlock(h: Regs, block: seq<bv8>)
    requires |block| == 64
    ensures Fold(h, block) == Compress(h, block)
  {
    hide Compress;
    assert block[..64] == block && block[64..] == [];
  }

  /** The incomplete block does not matter. */
  lemma {:induction false} FoldIgnoresTail(h: Regs, m: seq<bv8>)
    ensures Fold(h, m) == Fold(h, m[..|m| - |m| % 64])
    decreases |m|
  {
    hide Compress;
    if |m| >= 64 {
      FoldIgnoresTail(Compress(h, m[..64]), m[64..]);
      var a, rest := m[..|m| - |m| % 64], m[64..];
      assert a[..64] == m[..64] && a[64..] == rest[..|rest| - |rest| % 64];
    }
  }

  /** A message filled up by the start of the next data: one more block. */
  lemma FoldFilled(h: Regs, m: seq<bv8>, part: seq<bv8>)
    requires |m| % 64 + |part| == 64
    ensures Fold(h, m + part) == Compress(Fold(h, m), Tail(m) + part)
  {
    hide Compress;
    var whole := m[..|m| - |m| % 64];
    assert m + part == whole + (Tail(m) + part);
    FoldConcat(h, whole, Tail(m) + part);
    FoldBlock(Fold(h, whole), Tail(m) + part);
    FoldIgnoresTail(h, m);
  }

  /** Less than a block more: only the tail grows. */
  lemma FoldShort(h: Regs, m: seq<bv8>, part: seq<bv8>)
    requires |m| % 64 + |part| < 64
    ensures Fold(h, m + part) == Fold(h, m) && Tail(m + part) == Tail(m) + part
  {
    hide Compress, Fold;
    var n := m + part;
    assert |n| % 64 == |m| % 64 + |part| by {
      TailGrows(|m|, |part|);
    }
    FoldIgnoresTail(h, n);
    FoldIgnoresTail(h, m);
    assert n[..|n| - |n| % 64] == m[..|m| - |m| % 64];
  }

  lemma EmptyTail(m: seq<bv8>)
    requires |m| % 64 == 0
    ensures Tail(m) == []
  {
  }

  /** What is left after whole blocks is the tail. */
  lemma RestIsTail(h: Regs, m: seq<bv8>, all: seq<bv8>, p: nat)
    requires p <= |all| < p + 64 && (|m| + p) % 64 == 0
    ensures Fold(h, m + all) == Fold(h, m + all[..p]) && Tail(m + all) == all[p..] && (|m| + |all|) % 64 == |all| - p
  {
    hide Fold, Tail;
    var done, rest := m + all[..p], all[p..];
    EmptyTail(done);
    TailGrows(|m| + p, |rest|);
    FoldShort(h, done, rest);
    assert m + all == done + rest;
    assert Tail(done) + rest == rest;
  }

  lemma OneMoreBlock(h: Regs, m: seq<bv8>, data: seq<bv8>, p: nat)
    requires p + 64 <= |data| && (|m| + p) % 64 == 0
    ensures Fold(h, m + data[..p + 64]) == Compress(Fold(h, m + data[..p]), data[p..p + 64])
  {
    hide Fold, Compress;
    var done, block := m + data[..p], data[p..p + 64];
    FoldFilled(h, done, block);
    assert Tail(done) == [];
    assert Tail(done) + block == block;
    assert done + block == m + data[..p + 64];
  }

  lemma TailGrows(n: nat, k: nat)
    requires n % 64 + k < 64
    ensures (n + k) % 64 == n % 64 + k
  {
  }

  lemma BlockFull(n: nat, k: nat)
    requires n % 64 + k == 64
    ensures (n + k) % 64 == 0
  {
  }

  lemma Joined(buf: seq<bv8>, tail: seq<bv8>, part: seq<bv8>, offset: nat)
    requires offset == |tail| && offset + |part| <= |buf| && buf[..offset] == tail
         && buf[offset..offset + |part|] == part
    ensures buf[..offset + |part|] == buf[0..offset + |part|] == tail + part
  {
    assert buf[..offset + |part|] == buf[..offset] + buf[offset..offset + |part|];
  }

  // ---------- the state ----------

  method Copy(dst: array<bv8>, at: nat, src: array<bv8>, from: nat, n: nat)
    requires at + n <= dst.Length && from + n <= src.Length && dst != src
    modifies dst
    ensures dst[..at] == old(dst[..at]) && dst[at..at + n] == src[from..from + n] && dst[at + n..] == old(dst[at + n..])
  {
    for i := 0 to n
      invariant dst[..at] == old(dst[..at]) && dst[at..at + i] == src[from..from + i]
           && dst[at + n..] == old(dst[at + n..])
    {
      dst[at + i] := src[from + i];
    }
  }

  class Md5State {
    var count0: int
    var count1: int
    var abcd: Regs
    const buf: array<bv8>
    ghost var message: seq<bv8>

    /** The registers are the fold, the buffer starts with the tail, and the two words hold the
        length in bits modulo 2 to the 64th. */
    ghost predicate Valid()
      reads this, buf
    {
      && buf.Length == 64 && 0 <= count0 < WORD && 0 <= count1 < WORD
      && count0 + WORD * count1 == 8 * |message| % (WORD * WORD)
      && abcd == Fold(Init(), message) && buf[..|message| % 64] == Tail(message)
    }

    constructor ()
      ensures Valid() && message == [] && fresh(buf)
    {
      count0, count1 := 0, 0;
      abcd := Regs(0x67452301, 0xffffffff ^ 0x10325476, 0xffffffff ^ 0x67452301, 0x10325476);
      buf := new bv8[64];
      message := [];
    }

    /** The two-word count, with the carry into the second word. */
    method AddCount(nbytes: nat, ghost n: nat)
      requires 0 <= count0 < WORD && 0 <= count1 < WORD && count0 + WORD * count1 == 8 * n % (WORD * WORD)
      requires nbytes < 0x8000_0000
      modifies this`count0, this`count1
      ensures 0 <= count0 < WORD && 0 <= count1 < WORD && count0 + WORD * count1 == 8 * (n + nbytes) % (WORD * WORD)
    {
      ghost var c0, c1 := count0, count1;
      var nbits := 8 * nbytes % WORD;
      count1 := (count1 + nbytes / 0x2000_0000) % WORD;
      count0 := (count0 + nbits) % WORD;
      if count0 < nbits {
        count1 := (count1 + 1) % WORD;
      }
      CarryLate(c1 + nbytes / 0x2000_0000);
      CountAdds(c0, c1, n, nbytes, count0, count1);
    }

    /** The start of the data fills up a partial block, if there is one. */
    method FillBlock(data: array<bv8>, nbytes: nat, offset: nat, ghost m: seq<bv8>) returns (p: nat, short: bool)
      requires buf.Length == 64 && 0 < nbytes <= data.Length && data != buf && offset == |m| % 64
      requires abcd == Fold(Init(), m) && buf[..offset] == Tail(m)
      modifies this`abcd, buf
      ensures p <= nbytes && !short ==> (|m| + p) % 64 == 0 && abcd == Fold(Init(), m + data[..p])
      ensures p <= nbytes
      ensures short
        ==> abcd == Fold(Init(), m + data[..nbytes]) && buf[..(|m| + nbytes) % 64] == Tail(m + data[..nbytes])
    {
      hide Fold, Compress, Init, Tail;
      p, short := 0, false;
      assert m + data[..0] == m;
      if offset != 0 {
        var copy := if offset + nbytes > 64 then 64 - offset else nbytes;
        Copy(buf, offset, data, 0, copy);
        Joined(buf[..], Tail(m), data[..copy], offset);
        if offset + copy < 64 {
          TailGrows(|m|, nbytes);
          FoldShort(Init(), m, data[..nbytes]);
          return 0, true;
        }
        p := copy;
        FoldFilled(Init(), m, data[..copy]);
        BlockFull(|m|, copy);
        abcd := Process(abcd, buf, 0);
      }
    }

    /** What is left over starts the next block. */
    method KeepRest(data: array<bv8>, p: nat, nbytes: nat, ghost m: seq<bv8>)
      requires buf.Length == 64 && p <= nbytes < p + 64 && nbytes <= data.Length && data != buf
      requires (|m| + p) % 64 == 0 && abcd == Fold(Init(), m + data[..p])
      modifies buf
      ensures abcd == Fold(Init(), m + data[..nbytes]) && buf[..(|m| + nbytes) % 64] == Tail(m + data[..nbytes])
    {
      hide *;
      RestIsTail(Init(), m, data[..nbytes], p);
      assert data[..nbytes][..p] == data[..p] && data[..nbytes][p..] == data[p..nbytes];
      if p < nbytes {
        Copy(buf, 0, data, p, nbytes - p);
      }
      assert buf[0..nbytes - p] == buf[..nbytes - p] == data[p..nbytes];
    }

    /** Appending bytes; a count that is not positive changes nothing. */
    method Append(data: array<bv8>, nbytes: int)
      requires Valid() && nbytes <= data.Length && nbytes < 0x8000_0000 && data != buf
      modifies this, buf
      ensures Valid() && message == old(message) + if nbytes <= 0 then [] else data[..nbytes]
    {
      hide Fold, Compress, Init, Tail;
      if nbytes <= 0 {
        return;
      }
      ghost var m := message;
      OffsetIsTail(count0, count1, |m|);
      var offset := count0 / 8 % 64;
      AddCount(nbytes, |m|);
      message := m + data[..nbytes];
      var p, short := FillBlock(data, nbytes, offset, m);
      if !short {
        p := AppendBlocks(data, p, nbytes, m);
        KeepRest(data, p, nbytes, m);
      }
    }

    /** The whole blocks of the data. */
    method AppendBlocks(data: array<bv8>, start: nat, nbytes: nat, ghost m: seq<bv8>) returns (p: nat)
      requires start <= nbytes <= data.Length && (|m| + start) % 64 == 0 && abcd == Fold(Init(), m + data[..start])
      modifies this`abcd
      ensures start <= p <= nbytes < p + 64 && (|m| + p) % 64 == 0 && abcd == Fold(Init(), m + data[..p])
    {
      hide Fold, Compress, Init, Tail;
      p := start;
      var left := nbytes - start;
      while left >= 64
        invariant start <= p <= nbytes && left == nbytes - p && (|m| + p) % 64 == 0
        invariant abcd == Fold(Init(), m + data[..p])
      {
        OneMoreBlock(Init(), m, data[..], p);
        SameRest(|m| + p + 64, 1);
        abcd := Process(abcd, data, p);
        p := p + 64;
        left := left - 64;
      }
    }

    /** The digest of everything appended: padding, the length as it was before it, and the
        registers, low bytes first. */
    method Finish() returns (digest: seq<bv8>)
      requires Valid()
      modifies this, buf
      ensures digest == Digest(old(message))
    {
      hide Fold, Compress, Init, Tail, LengthBytes, RegBytes;
      ghost var m := message;
      OffsetIsTail(count0, count1, |m|);
      var data := SaveLength(|m|);
      var n := (55 - count0 / 8) % 64 + 1;
      PadAmount(count0 / 8, |m|);
      var pad := new bv8[64](i => if i == 0 then 0x80 else 0);
      Append(pad, n);
      Append(data, 8);
      PaddedTo(m, pad[..n], data[..8]);
      RestIsTail(Init(), [], message, |message|);
      digest := RegBytes(abcd.a) + RegBytes(abcd.b) + RegBytes(abcd.c) + RegBytes(abcd.d);
    }

    /** The two words of the count as eight bytes. */
    method SaveLength(ghost n: nat) returns (data: array<bv8>)
      requires 0 <= count0 < WORD && 0 <= count1 < WORD && count0 + WORD * count1 == 8 * n % (WORD * WORD)
      ensures fresh(data) && data.Length == 8 && data[..] == LengthBytes(n)
    {
      hide ByteOf;
      WordsOfLength(n, count0, count1);
      data := new bv8[8];
      var words := [count0, count1];
      for i := 0 to 8
        invariant words == [count0, count1]
        invariant forall j: nat :: j < i ==> data[j] == ByteOf(words[j / 4], j % 4)
      {
        data[i] := ByteOf(words[i / 4], i % 4);
      }
    }
  }

  lemma WordsOfLength(n: nat, count0: int, count1: int)
    requires 0 <= count0 < WORD && 0 <= count1 < WORD && count0 + WORD * count1 == 8 * n % (WORD * WORD)
    ensures 8 * n % (WORD * WORD) % WORD == count0 && 8 * n % (WORD * WORD) / WORD == count1
  {
  }

  lemma PadAmount(whole: int, n: nat)
    requires whole % 64 == n % 64
    ensures (55 - whole) % 64 == ZeroBytes(n)
  {
  }

  lemma PaddedTo(m: seq<bv8>, pad: seq<bv8>, length: seq<bv8>)
    requires |pad| == ZeroBytes(|m|) + 1 && pad[0] == 0x80 && forall i :: 0 < i < |pad| ==> pad[i] == 0
    requires length == LengthBytes(|m|)
    ensures m + pad + length == m + Padding(|m|) && |m + Padding(|m|)| % 64 == 0
  {
    hide LengthBytes;
    PaddingEndsBlock(|m|, 0);
    assert pad == [0x80] + seq(ZeroBytes(|m|), _ => 0 as bv8);
    assert m + pad + length == m + (pad + length);
  }

  /** The low words add up with a carry. */
  lemma CarryTells(count0: int, k: nat, low: int)
    requires 0 <= count0 < WORD && low == (count0 + 8 * k % WORD) % WORD
    ensures count0 + 8 * k % WORD == low + if low < 8 * k % WORD then WORD else 0
  {
  }

  lemma HighPart(k: nat)
    ensures 8 * k == WORD * (k / 0x2000_0000) + 8 * k % WORD
  {
  }

  /** A carry may be added before or after the sum wraps. */
  lemma CarryLate(sum: nat)
    ensures (sum % WORD + 1) % WORD == (sum + 1) % WORD
  {
  }

  /** Adding to the two-word count with a carry adds to the length. */
  lemma CountAdds(count0: int, count1: int, n: nat, k: nat, low: int, high: int)
    requires 0 <= count0 < WORD && 0 <= count1 < WORD && count0 + WORD * count1 == 8 * n % (WORD * WORD)
    requires low == (count0 + 8 * k % WORD) % WORD
    requires high == (count1 + k / 0x2000_0000 + (if low < 8 * k % WORD then 1 else 0)) % WORD
    ensures low + WORD * high == 8 * (n + k) % (WORD * WORD)
  {
    CarryTells(count0, k, low);
    HighPart(k);
    var sum := count1 + k / 0x2000_0000 + if low < 8 * k % WORD then 1 else 0;
    assert low + WORD * sum == (8 * n) % (WORD * WORD) + 8 * k;
    TwoWords(low, sum, 8 * n, 8 * k);
  }

  lemma TwoWords(low: int, sum: int, n: nat, k: nat)
    requires 0 <= low < WORD && 0 <= sum && low + WORD * sum == n % (WORD * WORD) + k
    ensures low + WORD * (sum % WORD) == (n + k) % (WORD * WORD)
  {
    var q, s, high := n / (WORD * WORD), sum / WORD, sum % WORD;
    assert n == WORD * WORD * q + n % (WORD * WORD);
    assert sum == WORD * s + high;
    assert n + k == WORD * WORD * (q + s) + (low + WORD * high);
    RemainderIs(n + k, q + s, low + WORD * high);
  }

  lemma RemainderIs(x: int, q: int, r: int)
    requires x == WORD * WORD * q + r && 0 <= r < WORD * WORD
    ensures x % (WORD * WORD) == r
  {
  }

  lemma OffsetIsTail(count0: int, count1: int, n: nat)
    requires 0 <= count0 < WORD && 0 <= count1 && count0 + WORD * count1 == 8 * n % (WORD * WORD)
    ensures count0 / 8 % 64 == n % 64
  {
    var q := 8 * n / (WORD * WORD);
    assert 8 * n == WORD * WORD * q + 8 * n % (WORD * WORD);
    LowWord(count0, count1 + WORD * q, n);
  }

  lemma LowWord(count0: int, high: int, n: nat)
    requires 8 * n == count0 + WORD * high
    ensures count0 / 8 % 64 == n % 64
  {
    var c := n - 64 * (0x80_0000 * high);
    assert count0 == 8 * c;
    SameRest(n, 0x80_0000 * high);
  }

  lemma SameRest(n: int, m: int)
    ensures (n - 64 * m) % 64 == n % 64
  {
  }

  function Concat(parts: seq<seq<bv8>>): seq<bv8> {
    if parts == [] then [] else Concat(parts[..|parts| - 1]) + parts[|parts| - 1]
  }

  /** However a message is cut into calls, the digest is that of the whole message. */
  method DigestOfParts(parts: seq<array<bv8>>, ghost contents: seq<seq<bv8>>) returns (digest: seq<bv8>)
    requires |contents| == |parts|
    requires forall i :: 0 <= i < |parts| ==> parts[i].Length < 0x8000_0000 && parts[i][..] == contents[i]
    ensures digest == Digest(Concat(contents))
  {
    hide Digest, Tail, Fold;
    var pms := new Md5State();
    for k := 0 to |parts|
      invariant pms.Valid() && fresh(pms) && fresh(pms.buf) && pms.message == Concat(contents[..k])
      invariant forall i :: 0 <= i < |parts| ==> parts[i][..] == contents[i] && parts[i] != pms.buf
    {
      pms.Append(parts[k], parts[k].Length);
      ConcatOneMore(contents, k);
      assert parts[k][..parts[k].Length] == contents[k];
    }
    assert contents[..|parts|] == contents;
    digest := pms.Finish();
  }

  lemma ConcatOneMore(contents: seq<seq<bv8>>, k: nat)
    requires k < |contents|
    ensures Concat(contents[..k + 1]) == Concat(contents[..k]) + contents[k]
  {
    var next := contents[..k + 1];
    assert next[..|next| - 1] == contents[..k];
  }
}
