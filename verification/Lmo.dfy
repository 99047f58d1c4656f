/** Translation archives: values, then an index written last entry first, then the index offset;
    the reader prepends too, so that a lookup meets the entries in their first order again. */
module Lmo {
  import opened ByteStrings

  type Word = w: int | 0 <= w < 0x1_0000_0000

  datatype Pair = Pair(key: Bytes, val: Bytes)
  datatype Entry = Entry(keyId: Word, valId: Word, offset: Word, length: Word)

  // ---------- words in files ----------

  function Encode32(w: Word): (b: Bytes)
    ensures |b| == 4
  {
    [w / 0x100_0000, w / 0x1_0000 % 0x100, w / 0x100 % 0x100, w % 0x100]
  }

  function Decode32(file: Bytes, at: nat): Word
    requires at + 4 <= |file|
  {
    file[at] as int * 0x100_0000 + file[at + 1] as int * 0x1_0000 + file[at + 2] as int * 0x100 + file[at + 3] as int
  }

  lemma DecodeEncode(before: Bytes, w: Word, after: Bytes)
    ensures Decode32(before + Encode32(w) + after, |before|) == w
  {
    var file, at, b := before + Encode32(w) + after, |before|, Encode32(w);
    assert file[at] == b[0] && file[at + 1] == b[1] && file[at + 2] == b[2] && file[at + 3] == b[3];
    BytesOfWord(w);
  }

  lemma BytesOfWord(w: Word)
    ensures w / 0x100_0000 * 0x100_0000 + w / 0x1_0000 % 0x100 * 0x1_0000 + w / 0x100 % 0x100 * 0x100 + w % 0x100 == w
  {
    var q := w / 0x100;
    var r := q / 0x100;
    TwiceDivided(w, 0x100);
    TwiceDivided(w, 0x1_0000);
    assert w == q * 0x100 + w % 0x100;
    assert q == r * 0x100 + q % 0x100;
    assert r == r / 0x100 * 0x100 + r % 0x100;
  }

  lemma TwiceDivided(w: nat, d: nat)
    requires d == 0x100 || d == 0x1_0000
    ensures w / d / 0x100 == w / (d * 0x100)
  {
    if d == 0x100 {
      assert w / 0x100 / 0x100 == w / 0x1_0000;
    } else {
      assert w / 0x1_0000 / 0x100 == w / 0x100_0000;
    }
  }

  function EncodeEntry(e: Entry): (b: Bytes)
    ensures |b| == 16
  {
    Encode32(e.keyId) + Encode32(e.valId) + Encode32(e.offset) + Encode32(e.length)
  }

  function DecodeEntry(file: Bytes, at: nat): Entry
    requires at + 16 <= |file|
  {
    Entry(Decode32(file, at), Decode32(file, at + 4), Decode32(file, at + 8), Decode32(file, at + 12))
  }

  lemma EntryRoundTrip(before: Bytes, e: Entry, after: Bytes)
    ensures DecodeEntry(before + EncodeEntry(e) + after, |before|) == e
  {
    hide Encode32, Decode32;
    var k, v, o, l := Encode32(e.keyId), Encode32(e.valId), Encode32(e.offset), Encode32(e.length);
    var file := before + EncodeEntry(e) + after;
    DecodeEncode(before, e.keyId, v + o + l + after);
    assert file == before + k + (v + o + l + after);
    DecodeEncode(before + k, e.valId, o + l + after);
    assert file == before + k + v + (o + l + after);
    DecodeEncode(before + k + v, e.offset, l + after);
    assert file == before + k + v + o + (l + after);
    DecodeEncode(before + k + v + o, e.length, after);
    assert file == before + k + v + o + l + after;
  }

  /** A number written high byte first. */
  function BigEndian(b: Bytes): nat {
    if b == [] then 0 else 0x100 * BigEndian(b[..|b| - 1]) + b[|b| - 1]
  }

  lemma BigEndianOfFour(b: Bytes)
    requires |b| == 4
    ensures BigEndian(b) == b[0] as int * 0x100_0000 + b[1] as int * 0x1_0000 + b[2] as int * 0x100 + b[3] as int
  {
    assert b[..3][..2] == b[..2] && b[..2][..1] == b[..1] && b[..1][..0] == [];
    assert BigEndian(b[..1]) == b[0];
    assert BigEndian(b[..2]) == 0x100 * BigEndian(b[..1]) + b[1];
    assert BigEndian(b[..3]) == 0x100 * BigEndian(b[..2]) + b[2];
  }

  /** Words stand in the file in network byte order. */
  lemma WordsBigEndian(w: Word, file: Bytes, at: nat)
    requires at + 4 <= |file|
    ensures BigEndian(Encode32(w)) == w && Decode32(file, at) == BigEndian(file[at..at + 4])
  {
    BytesOfWord(w);
    BigEndianOfFour(Encode32(w));
    BigEndianOfFour(file[at..at + 4]);
  }

  /** The four words of an entry: key, value, offset, length. */
  lemma EntryLayout(e: Entry)
    ensures var b := EncodeEntry(e);
      && BigEndian(b[..4]) == e.keyId && BigEndian(b[4..8]) == e.valId
      && BigEndian(b[8..12]) == e.offset && BigEndian(b[12..]) == e.length
  {
    hide Encode32, BigEndian;
    var b := EncodeEntry(e);
    assert b[..4] == Encode32(e.keyId) && b[4..8] == Encode32(e.valId);
    assert b[8..12] == Encode32(e.offset) && b[12..] == Encode32(e.length);
    WordsBigEndian(e.keyId, b, 0);
    WordsBigEndian(e.valId, b, 0);
    WordsBigEndian(e.offset, b, 0);
    WordsBigEndian(e.length, b, 0);
  }

  function EncodeIndex(entries: seq<Entry>): (b: Bytes)
    ensures |b| == 16 * |entries|
  {
    if entries == [] then [] else EncodeEntry(entries[0]) + EncodeIndex(entries[1..])
  }

  function Reverse<T>(s: seq<T>): (r: seq<T>)
    ensures |r| == |s|
  {
    if s == [] then [] else Reverse(s[1..]) + [s[0]]
  }

  // ---------- what is written ----------

  /** Pairs with an empty half are not written. */
  function Kept(pairs: seq<Pair>): (k: seq<Pair>)
    ensures |k| <= |pairs|
  {
    if pairs == [] then []
    else
      var rest := Kept(pairs[..|pairs| - 1]);
      var p := pairs[|pairs| - 1];
      if p.key != [] && p.val != [] then rest + [p] else rest
  }

  function PadLength(n: nat): (p: nat)
    ensures p < 4 && (n + p) % 4 == 0
  {
    UpToFour(n);
    (4 - n % 4) % 4
  }

  lemma UpToFour(n: nat)
    ensures (4 - n % 4) % 4 == (if n % 4 == 0 then 0 else 4 - n % 4)
    ensures (n + (4 - n % 4) % 4) % 4 == 0
  {
    var k := n / 4;
    assert n == 4 * k + n % 4;
    if n % 4 != 0 {
      assert n + (4 - n % 4) == 4 * (k + 1);
    }
  }

  /** A value filled up with zero bytes. */
  function Padded(val: Bytes): (b: Bytes)
    ensures |b| % 4 == 0 && |val| <= |b| && b[..|val|] == val
  {
    val + seq(PadLength(|val|), _ => 0)
  }

  /** The values one after the other. */
  function Values(kept: seq<Pair>): (b: Bytes)
    ensures |b| % 4 == 0
  {
    if kept == [] then [] else Values(kept[..|kept| - 1]) + Padded(kept[|kept| - 1].val)
  }

  function EntryOf(hash: Bytes -> Word, kept: seq<Pair>, i: nat): Entry
    requires i < |kept| && |Values(kept[..i])| < 0x1_0000_0000 && |kept[i].val| < 0x1_0000_0000
  {
    Entry(hash(kept[i].key), hash(kept[i].val), |Values(kept[..i])|, |kept[i].val|)
  }

  /** The values fit in a file the offsets of which are positive numbers of 32 bits. */
  ghost predicate Fits(kept: seq<Pair>) {
    |Values(kept)| + 16 * |kept| + 4 < 0x8000_0000
  }

  lemma {:induction false} PrefixFits(kept: seq<Pair>, i: nat)
    requires i <= |kept|
    ensures |Values(kept[..i])| <= |Values(kept)|
    ensures i < |kept| ==> |Values(kept[..i])| + |kept[i].val| <= |Values(kept[..i + 1])| <= |Values(kept)|
    decreases |kept| - i
  {
    if i == |kept| {
      assert kept[..i] == kept;
    } else {
      PrefixFits(kept, i + 1);
      assert kept[..i + 1][..i] == kept[..i];
    }
  }

  /** The entries of the pairs, in their order. */
  function Entries(hash: Bytes -> Word, kept: seq<Pair>): (e: seq<Entry>)
    requires Fits(kept)
    ensures |e| == |kept|
  {
    seq(|kept|, i requires 0 <= i < |kept| && Fits(kept) => PrefixFits(kept, i); EntryOf(hash, kept, i))
  }

  /** The whole file, if anything is written. */
  ghost function Archive(hash: Bytes -> Word, pairs: seq<Pair>): Bytes
    requires Fits(Kept(pairs))
  {
    var kept := Kept(pairs);
    Values(kept) + EncodeIndex(Reverse(Entries(hash, kept))) + Encode32(|Values(kept)|)
  }

  lemma ReversePrepends<T>(s: seq<T>, x: T)
    ensures Reverse(s + [x]) == [x] + Reverse(s)
    decreases |s|
  {
    if s == [] {
      assert s + [x] == [x];
    } else {
      assert (s + [x])[1..] == s[1..] + [x];
      ReversePrepends(s[1..], x);
    }
  }

  lemma {:induction false} ReverseTwice<T>(s: seq<T>)
    ensures Reverse(Reverse(s)) == s
    decreases |s|
  {
    if s != [] {
      ReversePrepends(Reverse(s[1..]), s[0]);
      ReverseTwice(s[1..]);
    }
  }

  lemma EntriesOneMore(hash: Bytes -> Word, kept: seq<Pair>, p: Pair)
    requires Fits(kept + [p])
    ensures Fits(kept) && |Values(kept)| + |p.val| < 0x8000_0000
    ensures Entries(hash, kept + [p])
         == Entries(hash, kept) + [Entry(hash(p.key), hash(p.val), |Values(kept)|, |p.val|)]
  {
    hide Values;
    var more := kept + [p];
    PrefixFits(more, |kept|);
    assert more[..|kept|] == kept && more[|kept|] == p;
    forall i | 0 <= i < |kept| ensures more[..i] == kept[..i] && more[i] == kept[i] {
    }
    assert Entries(hash, more)[|kept|] == EntryOf(hash, more, |kept|);
  }

  // ---------- the writer ----------

  lemma KeptStep(pairs: seq<Pair>, n: nat)
    requires n < |pairs|
    ensures Kept(pairs[..n + 1])
         == if pairs[n].key != [] && pairs[n].val != [] then Kept(pairs[..n]) + [pairs[n]] else Kept(pairs[..n])
  {
    assert pairs[..n + 1][..n] == pairs[..n];
  }

  lemma {:induction false} KeptPrefix(pairs: seq<Pair>, n: nat)
    requires n <= |pairs|
    ensures Kept(pairs[..n]) <= Kept(pairs)
    decreases |pairs| - n
  {
    if n == |pairs| {
      assert pairs[..n] == pairs;
    } else {
      KeptStep(pairs, n);
      KeptPrefix(pairs, n + 1);
    }
  }

  lemma KeptFits(pairs: seq<Pair>, n: nat)
    requires n <= |pairs| && Fits(Kept(pairs))
    ensures Fits(Kept(pairs[..n]))
  {
    hide Kept, Values;
    KeptPrefix(pairs, n);
    var part := Kept(pairs[..n]);
    assert Kept(pairs)[..|part|] == part;
    PrefixFits(Kept(pairs), |part|);
  }

  lemma {:induction false} KeptNonempty(pairs: seq<Pair>)
    ensures forall p :: p in Kept(pairs) ==> p.val != []
    decreases |pairs|
  {
    if pairs != [] {
      KeptNonempty(pairs[..|pairs| - 1]);
    }
  }

  lemma SomethingWritten(pairs: seq<Pair>)
    ensures |Values(Kept(pairs))| > 0 <==> Kept(pairs) != []
  {
    hide Kept;
    KeptNonempty(pairs);
    var kept := Kept(pairs);
    if kept != [] {
      assert kept[|kept| - 1] in kept;
    }
  }

  lemma ValuesOneMore(kept: seq<Pair>, p: Pair)
    ensures Values(kept + [p]) == Values(kept) + Padded(p.val)
  {
    hide Padded;
    assert (kept + [p])[..|kept|] == kept;
  }

  /** One pair: its value goes to the file, its entry to the front of the list. */
  method WritePair(hash: Bytes -> Word, p: Pair, ghost kept: seq<Pair>, out: Bytes, head: seq<Entry>, offset: nat)
    returns (out': Bytes, head': seq<Entry>, offset': nat)
    requires Fits(kept + [p]) && Fits(kept)
    requires out == Values(kept) && offset == |out| && head == Reverse(Entries(hash, kept))
    ensures out' == Values(kept + [p]) && offset' == |out'| && head' == Reverse(Entries(hash, kept + [p]))
  {
    hide Values, Reverse, Entries;
    EntriesOneMore(hash, kept, p);
    ValuesOneMore(kept, p);
    ReversePrepends(Entries(hash, kept), Entry(hash(p.key), hash(p.val), offset, |p.val|));
    head' := [Entry(hash(p.key), hash(p.val), offset, |p.val|)] + head;
    out' := out + Padded(p.val);
    offset' := offset + |p.val| + PadLength(|p.val|);
  }

  method WriteValues(hash: Bytes -> Word, pairs: seq<Pair>) returns (out: Bytes, head: seq<Entry>, offset: nat)
    requires Fits(Kept(pairs))
    ensures out == Values(Kept(pairs)) && offset == |out| && head == Reverse(Entries(hash, Kept(pairs)))
  {
    hide Values, Reverse, Entries, Fits;
    NothingKept(hash);
    out, head, offset := [], [], 0;
    assert pairs[..0] == [];
    for n := 0 to |pairs|
      invariant Fits(Kept(pairs[..n]))
      invariant out == Values(Kept(pairs[..n])) && offset == |out|
      invariant head == Reverse(Entries(hash, Kept(pairs[..n])))
    {
      KeptStep(pairs, n);
      KeptFits(pairs, n + 1);
      if |pairs[n].key| > 0 && |pairs[n].val| > 0 {
        out, head, offset := WritePair(hash, pairs[n], Kept(pairs[..n]), out, head, offset);
      }
    }
    assert pairs[..|pairs|] == pairs;
  }

  lemma NothingKept(hash: Bytes -> Word)
    ensures Kept([]) == [] && Fits(Kept([])) && Values(Kept([])) == [] && Reverse(Entries(hash, Kept([]))) == []
  {
  }

  method WriteIndex(data: Bytes, all: seq<Entry>) returns (out: Bytes)
    ensures out == data + EncodeIndex(all)
  {
    hide EncodeEntry;
    var head := all;
    out := data;
    while head != []
      invariant out + EncodeIndex(head) == data + EncodeIndex(all)
      decreases |head|
    {
      assert out + EncodeIndex(head) == (out + EncodeEntry(head[0])) + EncodeIndex(head[1..]);
      out := out + EncodeEntry(head[0]);
      head := head[1..];
    }
    assert EncodeIndex(head) == [];
  }

  /** Writing an archive; nothing to write leaves no file. */
  method WriteArchive(hash: Bytes -> Word, pairs: seq<Pair>) returns (file: Option<Bytes>)
    requires Fits(Kept(pairs))
    ensures file == if Kept(pairs) == [] then None else Some(Archive(hash, pairs))
  {
    hide Kept, Values, Reverse, Entries, EncodeIndex;
    var out, head, offset := WriteValues(hash, pairs);
    out := WriteIndex(out, head);
    SomethingWritten(pairs);
    file := if offset > 0 then Some(out + Encode32(offset)) else None;
  }

  // ---------- the reader ----------

  /** The index entries from a place in the file up to the last word, if they can be read. */
  function IndexFrom(file: Bytes, at: nat): Option<seq<Entry>>
    requires |file| >= 4
    decreases |file| - at
  {
    if at >= |file| - 4 then Some([])
    else if at + 16 > |file| then None
    else
      match IndexFrom(file, at + 16)
      case None => None
      case Some(rest) => Some([DecodeEntry(file, at)] + rest)
  }

  /** An open archive: the values, and the entries in the order lookups meet them. */
  datatype Open = Open(index: seq<Entry>, data: Bytes)

  /** What opening a file gives. */
  function Opened(file: Bytes): Option<Open> {
    if |file| < 4 then None
    else
      var offset := Decode32(file, |file| - 4);
      match IndexFrom(file, offset)
      case None => None
      case Some(entries) =>
        if offset == 0 then None
        else Some(Open(Reverse(entries), file[..if offset <= |file| then offset else |file|]))
  }

  /** Opening: the entries are prepended as they are read. */
  method OpenArchive(file: Bytes) returns (ar: Option<Open>)
    ensures ar == Opened(file)
  {
    hide Decode32, DecodeEntry, Reverse;
    if |file| < 4 {
      return None;
    }
    var idxOffset := Decode32(file, |file| - 4);
    var head, ok := ReadIndex(file, idxOffset);
    if !ok || idxOffset == 0 {
      return None;
    }
    ar := Some(Open(head, file[..if idxOffset <= |file| then idxOffset else |file|]));
  }

  method ReadIndex(file: Bytes, idxOffset: nat) returns (head: seq<Entry>, ok: bool)
    requires |file| >= 4
    ensures ok <==> IndexFrom(file, idxOffset).Some?
    ensures ok ==> head == Reverse(IndexFrom(file, idxOffset).value)
  {
    hide DecodeEntry, Reverse;
    ReverseEmpty<Entry>();
    var i := idxOffset;
    head, ok := [], true;
    ghost var read: seq<Entry> := [];
    while i < |file| - 4
      invariant head == Reverse(read)
      invariant IndexFrom(file, idxOffset).Some? == IndexFrom(file, i).Some?
      invariant IndexFrom(file, i).Some? ==> IndexFrom(file, idxOffset).value == read + IndexFrom(file, i).value
    {
      if i + 16 > |file| {
        return head, false;
      }
      var entry := DecodeEntry(file, i);
      ReversePrepends(read, entry);
      head := [entry] + head;
      if IndexFrom(file, i).Some? {
        assert read + ([entry] + IndexFrom(file, i + 16).value) == (read + [entry]) + IndexFrom(file, i + 16).value;
      }
      read := read + [entry];
      i := i + 16;
    }
    assert IndexFrom(file, i) == Some([]);
    assert read + [] == read;
  }

  lemma ReverseEmpty<T>()
    ensures Reverse<T>([]) == []
  {
  }

  /** Reading back an index that was written. */
  lemma {:induction false} IndexRoundTrip(before: Bytes, entries: seq<Entry>, last: Bytes)
    requires |last| == 4
    ensures IndexFrom(before + EncodeIndex(entries) + last, |before|) == Some(entries)
    decreases |entries|
  {
    hide EncodeEntry, DecodeEntry;
    var file := before + EncodeIndex(entries) + last;
    if entries == [] {
      assert |file| == |before| + 4;
    } else {
      var first, rest := EncodeEntry(entries[0]), entries[1..];
      assert file == before + first + (EncodeIndex(rest) + last);
      EntryRoundTrip(before, entries[0], EncodeIndex(rest) + last);
      assert file == (before + first) + EncodeIndex(rest) + last;
      IndexRoundTrip(before + first, rest, last);
      assert entries == [entries[0]] + rest;
    }
  }

  // ---------- lookups ----------

  /** The first entry with a key. */
  function FirstWith(entries: seq<Entry>, keyId: Word): (i: nat)
    ensures i <= |entries|
    ensures i < |entries| ==> entries[i].keyId == keyId
    ensures forall j :: 0 <= j < i ==> entries[j].keyId != keyId
  {
    if entries == [] || entries[0].keyId == keyId then 0 else 1 + FirstWith(entries[1..], keyId)
  }

  /** How much is copied: the requested length is compared as an unsigned number, so that a
      negative one copies the whole value. */
  function CopyLength(len: int, length: nat): (n: nat)
    requires -0x8000_0000 <= len < 0x8000_0000 && length < 0x8000_0000
    ensures n == if len < 0 || len > length then length else len
  {
    var unsigned := if len < 0 then len + 0x1_0000_0000 else len;
    if unsigned > length then length else unsigned
  }

  /** Every entry lies within the values. */
  ghost predicate InRange(ar: Open) {
    |ar.data| < 0x8000_0000 && forall e :: e in ar.index ==> e.offset + e.length <= |ar.data|
  }

  /** Copying the value of the first entry with the key's hash. */
  method Lookup(hash: Bytes -> Word, ar: Open, key: Bytes, dest: array<Byte>, len: int) returns (copied: int)
    requires InRange(ar) && -0x8000_0000 <= len < 0x8000_0000
    requires forall e :: e in ar.index ==> CopyLength(len, e.length) <= dest.Length
    modifies dest
    ensures var i := FirstWith(ar.index, hash(key));
      if i == |ar.index| then copied == -1 && dest[..] == old(dest[..])
      else copied == CopyLength(len, ar.index[i].length)
           && dest[..copied] == ar.data[ar.index[i].offset..ar.index[i].offset + copied]
           && dest[copied..] == old(dest[copied..])
  {
    var lookKey := hash(key);
    copied := -1;
    var n := 0;
    while n < |ar.index|
      invariant n <= |ar.index| && copied == -1 && dest[..] == old(dest[..])
      invariant forall j :: 0 <= j < n ==> ar.index[j].keyId != lookKey
    {
      if ar.index[n].keyId == lookKey {
        copied := CopyLength(len, ar.index[n].length);
        CopyOut(dest, ar.data, ar.index[n].offset, copied);
        return;
      }
      n := n + 1;
    }
  }

  method CopyOut(dest: array<Byte>, data: Bytes, offset: nat, n: nat)
    requires offset + n <= |data| && n <= dest.Length
    modifies dest
    ensures dest[..n] == data[offset..offset + n] && dest[n..] == old(dest[n..])
  {
    for i := 0 to n
      invariant dest[..i] == data[offset..offset + i] && dest[n..] == old(dest[n..])
    {
      dest[i] := data[offset + i];
    }
  }

  // ---------- writer and reader together ----------

  /** Opening what was written gives the values and the entries in the order of the pairs. */
  lemma OpenedArchive(hash: Bytes -> Word, pairs: seq<Pair>)
    requires Fits(Kept(pairs)) && Kept(pairs) != []
    ensures Opened(Archive(hash, pairs)) == Some(Open(Entries(hash, Kept(pairs)), Values(Kept(pairs))))
  {
    hide Kept, Values, Entries, EncodeIndex, Reverse, IndexFrom, Encode32, Decode32;
    var data, entries := Values(Kept(pairs)), Entries(hash, Kept(pairs));
    var index, last := EncodeIndex(Reverse(entries)), Encode32(|data|);
    var file := Archive(hash, pairs);
    assert file == (data + index) + last + [];
    DecodeEncode(data + index, |data|, []);
    IndexRoundTrip(data, Reverse(entries), last);
    ReverseTwice(entries);
    SomethingWritten(pairs);
    assert file[..|data|] == data;
  }

  /** The value of a pair is where its entry says. */
  lemma ValueInPlace(kept: seq<Pair>, i: nat)
    requires i < |kept|
    ensures var offset := |Values(kept[..i])|;
      offset + |kept[i].val| <= |Values(kept)| && Values(kept)[offset..offset + |kept[i].val|] == kept[i].val
    decreases |kept|
  {
    hide Padded;
    var front, last := kept[..|kept| - 1], kept[|kept| - 1];
    PrefixFits(kept, i);
    PaddedStarts(last.val);
    if i < |kept| - 1 {
      assert front[..i] == kept[..i];
      ValueInPlace(front, i);
    }
  }

  lemma PaddedStarts(val: Bytes)
    ensures |val| <= |Padded(val)| && Padded(val)[..|val|] == val
  {
  }

  /** The values start on multiples of four, do not overlap and end before the index. */
  lemma ValuesApart(hash: Bytes -> Word, kept: seq<Pair>, i: nat, j: nat)
    requires Fits(kept) && i < j < |kept|
    ensures var e, f := Entries(hash, kept)[i], Entries(hash, kept)[j];
      e.offset % 4 == 0 && f.offset % 4 == 0 && e.offset + e.length <= f.offset && f.offset + f.length <= |Values(kept)|
  {
    hide Values;
    PrefixFits(kept, i);
    PrefixFits(kept, j);
    assert kept[..j][..i + 1] == kept[..i + 1];
    PrefixFits(kept[..j], i + 1);
    Aligned(kept[..i]);
    Aligned(kept[..j]);
  }

  lemma Aligned(kept: seq<Pair>)
    ensures |Values(kept)| % 4 == 0
  {
  }

  /** The earliest pair whose key has a hash. */
  function EarliestPair(hash: Bytes -> Word, kept: seq<Pair>, keyId: Word): (i: nat)
    ensures i <= |kept|
    ensures i < |kept| ==> hash(kept[i].key) == keyId
    ensures forall j :: 0 <= j < i ==> hash(kept[j].key) != keyId
  {
    if kept == [] || hash(kept[0].key) == keyId then 0 else 1 + EarliestPair(hash, kept[1..], keyId)
  }

  /** A lookup in an archive that was written and opened finds the value of the earliest pair
      whose key has the hash of the key, and nothing if there is none. */
  lemma ArchiveIsMap(hash: Bytes -> Word, pairs: seq<Pair>, key: Bytes)
    requires Fits(Kept(pairs)) && Kept(pairs) != []
    ensures Opened(Archive(hash, pairs)).Some?
    ensures var (kept, ar) := (Kept(pairs), Opened(Archive(hash, pairs)).value);
      var i := FirstWith(ar.index, hash(key));
      && InRange(ar) && |ar.index| == |kept| && i == EarliestPair(hash, kept, hash(key))
      && (i < |kept| ==> ar.data[ar.index[i].offset..ar.index[i].offset + ar.index[i].length] == kept[i].val)
  {
    hide Values, Archive, Opened, Kept;
    OpenedArchive(hash, pairs);
    var kept, ar := Kept(pairs), Opened(Archive(hash, pairs)).value;
    forall i: nat | i < |kept| ensures ar.index[i].keyId == hash(kept[i].key)
                                       && ar.index[i].offset + ar.index[i].length <= |ar.data|
                                       && ar.data[ar.index[i].offset..ar.index[i].offset + ar.index[i].length]
                                          == kept[i].val {
      PrefixFits(kept, i);
      ValueInPlace(kept, i);
    }
  }

  /** The whole way: what a caller gets for a key. */
  method LookupWritten(hash: Bytes -> Word, pairs: seq<Pair>, key: Bytes, dest: array<Byte>, len: nat)
    returns (copied: int)
    requires Fits(Kept(pairs)) && len <= dest.Length && len < 0x8000_0000
    modifies dest
    ensures var kept := Kept(pairs); var i := EarliestPair(hash, kept, hash(key));
      if i == |kept| then copied == -1 && dest[..] == old(dest[..])
      else copied == (if len < |kept[i].val| then len else |kept[i].val|) && dest[..copied] == kept[i].val[..copied]
  {
    hide Values, Archive, Opened, Kept, FirstWith, EarliestPair;
    var file := WriteArchive(hash, pairs);
    if file.None? {
      return -1;
    }
    ArchiveIsMap(hash, pairs, key);
    EntryLengths(hash, pairs);
    var ar := OpenArchive(file.value);
    copied := Lookup(hash, ar.value, key, dest, len);
  }

  lemma EntryLengths(hash: Bytes -> Word, pairs: seq<Pair>)
    requires Fits(Kept(pairs)) && Kept(pairs) != []
    ensures Opened(Archive(hash, pairs)) == Some(Open(Entries(hash, Kept(pairs)), Values(Kept(pairs))))
    ensures forall i: nat :: i < |Kept(pairs)| ==> Entries(hash, Kept(pairs))[i].length == |Kept(pairs)[i].val|
  {
    hide Values, Archive, Opened, Kept;
    OpenedArchive(hash, pairs);
  }
}
