/** A whole exchange: byte strings encrypted in several calls by one context and decrypted in
    other calls by another context with the same key. */
module AesSession {
  import opened AesRounds
  import opened AesBlocks
  import opened AesBytes
  import opened AesWords
  import opened Aes
  import opened AesCbc

  predicate Whole(b: seq<bv8>) {
    |b| % 16 == 0
  }

  function BlocksOf(b: seq<bv8>): (s: seq<State>)
    requires Whole(b)
    ensures 16 * |s| == |b|
  {
    Blocks(b, |b| / 16)
  }

  lemma BlockOfSlice(a: seq<bv8>, i: nat)
    requires i + 16 <= |a|
    ensures BlockAt(a, i) == BlockAt(a[i..i + 16], 0)
  {
  }

  lemma SixteenBytes(x: seq<bv8>, y: seq<bv8>)
    requires |x| == |y| == 16 && BlockAt(x, 0) == BlockAt(y, 0)
    ensures x == y
  {
    assert x[..8] == y[..8];
    assert x[8..] == y[8..];
    assert x == x[..8] + x[8..] && y == y[..8] + y[8..];
  }

  lemma BlockAtSame(a: seq<bv8>, i: nat, b: seq<bv8>, j: nat)
    requires i + 16 <= |a| && j + 16 <= |b|
    ensures a[i..i + 16] == b[j..j + 16] <==> BlockAt(a, i) == BlockAt(b, j)
  {
    hide BlockAt;
    BlockOfSlice(a, i);
    BlockOfSlice(b, j);
    if BlockAt(a, i) == BlockAt(b, j) {
      SixteenBytes(a[i..i + 16], b[j..j + 16]);
    }
  }

  lemma BlocksConcat(a: seq<bv8>, b: seq<bv8>)
    requires Whole(a) && Whole(b)
    ensures Whole(a + b) && BlocksOf(a + b) == BlocksOf(a) + BlocksOf(b)
  {
    hide BlockAt;
    var m, n := |a| / 16, |b| / 16;
    forall i: nat | i < m + n ensures BlocksOf(a + b)[i] == (BlocksOf(a) + BlocksOf(b))[i] {
      BlockOfConcat(a, b, i);
    }
  }

  lemma BlockOfConcat(a: seq<bv8>, b: seq<bv8>, i: nat)
    requires Whole(a) && Whole(b) && 16 * i + 16 <= |a + b|
    ensures var m := |a| / 16;
      BlockAt(a + b, 16 * i) == if i < m then BlockAt(a, 16 * i) else BlockAt(b, 16 * (i - m))
  {
    hide BlockAt;
    var m := |a| / 16;
    assert |a| == 16 * m;
    if i < m {
      assert (a + b)[16 * i..16 * i + 16] == a[16 * i..16 * i + 16];
      BlockAtSame(a + b, 16 * i, a, 16 * i);
    } else {
      var k := 16 * (i - m);
      assert 16 * i == |a| + k;
      SecondSlice(a, b, k, 16);
      BlockAtSame(a + b, |a| + k, b, k);
    }
  }

  lemma SecondSlice(a: seq<bv8>, b: seq<bv8>, k: nat, n: nat)
    requires k + n <= |b|
    ensures (a + b)[|a| + k..|a| + k + n] == b[k..k + n]
  {
  }

  /** The blocks of a byte string determine it. */
  lemma BlocksInjective(a: seq<bv8>, b: seq<bv8>)
    requires Whole(a) && Whole(b) && BlocksOf(a) == BlocksOf(b)
    ensures a == b
  {
    hide BlockAt;
    forall i | 0 <= i < |a| ensures a[i] == b[i] {
      var k := i / 16;
      assert BlocksOf(a)[k] == BlocksOf(b)[k];
      BlockAtSame(a, 16 * k, b, 16 * k);
      assert a[16 * k..16 * k + 16][i - 16 * k] == b[16 * k..16 * k + 16][i - 16 * k];
    }
  }

  predicate AllWhole(parts: seq<seq<bv8>>) {
    forall p | p in parts :: Whole(p)
  }

  lemma WholeConcat(a: seq<bv8>, b: seq<bv8>)
    requires Whole(a) && Whole(b)
    ensures Whole(a + b)
  {
  }

  lemma {:induction false} FlattenWhole(parts: seq<seq<bv8>>)
    requires AllWhole(parts)
    ensures Whole(Flatten(parts))
  {
    if parts != [] {
      FlattenWhole(parts[1..]);
      WholeConcat(parts[0], Flatten(parts[1..]));
    }
  }

  lemma {:induction false} FlattenMore(parts: seq<seq<bv8>>, k: nat)
    requires k < |parts|
    ensures Flatten(parts[..k + 1]) == Flatten(parts[..k]) + parts[k]
  {
    if k == 0 {
      assert parts[..1] == [parts[0]] && parts[..0] == [];
      assert [parts[0]][1..] == [];
      assert Flatten(parts[..1]) == parts[0] + Flatten([]);
    } else {
      var rest := parts[1..];
      FlattenMore(rest, k - 1);
      assert parts[..k + 1][1..] == rest[..k] && parts[..k][1..] == rest[..k - 1];
      assert parts[0] + (Flatten(rest[..k - 1]) + rest[k - 1]) == (parts[0] + Flatten(rest[..k - 1])) + rest[k - 1];
    }
  }

  /** The string cut after so many blocks each time, the rest in one piece. */
  function Cut(s: seq<bv8>, cuts: seq<nat>): seq<seq<bv8>>
    decreases |cuts|
  {
    if cuts == [] || 16 * cuts[0] >= |s| then [s]
    else [s[..16 * cuts[0]]] + Cut(s[16 * cuts[0]..], cuts[1..])
  }

  lemma FlattenFirst(first: seq<bv8>, rest: seq<seq<bv8>>)
    ensures Flatten([first] + rest) == first + Flatten(rest)
    ensures rest == [] ==> [first] + rest == [first] && Flatten(rest) == [] && first + [] == first
  {
    assert ([first] + rest)[1..] == rest;
  }

  lemma CutWhole(s: seq<bv8>, blocks: nat)
    requires Whole(s) && 16 * blocks <= |s|
    ensures Whole(s[..16 * blocks]) && Whole(s[16 * blocks..])
  {
  }

  lemma {:induction false} CutIsWhole(s: seq<bv8>, cuts: seq<nat>)
    requires Whole(s)
    ensures AllWhole(Cut(s, cuts)) && Flatten(Cut(s, cuts)) == s
    decreases |cuts|
  {
    if cuts == [] || 16 * cuts[0] >= |s| {
      FlattenFirst(s, []);
    } else {
      hide Flatten, Whole;
      var k := 16 * cuts[0];
      var first, rest := s[..k], Cut(s[k..], cuts[1..]);
      CutWhole(s, cuts[0]);
      CutIsWhole(s[k..], cuts[1..]);
      FlattenFirst(first, rest);
      assert first + s[k..] == s;
    }
  }

  // ---------- calls one after another ----------

  lemma EncryptedPart(e: State -> State, iv: State, message: seq<bv8>, cipher: seq<bv8>, part: seq<bv8>, more: seq<bv8>)
    requires Whole(message) && Whole(cipher) && Whole(part) && Whole(more)
    requires BlocksOf(cipher) == CbcEncrypt(e, AddKey, iv, BlocksOf(message))
    requires BlocksOf(more) == CbcEncrypt(e, AddKey, NextIv(iv, BlocksOf(cipher)), BlocksOf(part))
    ensures Whole(message + part) && Whole(cipher + more)
    ensures BlocksOf(cipher + more) == CbcEncrypt(e, AddKey, iv, BlocksOf(message + part))
    ensures NextIv(iv, BlocksOf(cipher + more)) == NextIv(NextIv(iv, BlocksOf(cipher)), BlocksOf(more))
  {
    hide BlocksOf, CbcEncrypt, AddKey;
    BlocksConcat(message, part);
    BlocksConcat(cipher, more);
    CbcEncryptParts(e, AddKey, iv, BlocksOf(message), BlocksOf(part));
  }

  lemma DecryptedPart(d: State -> State, iv: State, cipher: seq<bv8>, message: seq<bv8>, part: seq<bv8>, more: seq<bv8>)
    requires Whole(message) && Whole(cipher) && Whole(part) && Whole(more)
    requires BlocksOf(message) == CbcDecrypt(d, AddKey, iv, BlocksOf(cipher))
    requires BlocksOf(more) == CbcDecrypt(d, AddKey, NextIv(iv, BlocksOf(cipher)), BlocksOf(part))
    ensures Whole(message + more) && Whole(cipher + part)
    ensures BlocksOf(message + more) == CbcDecrypt(d, AddKey, iv, BlocksOf(cipher + part))
    ensures NextIv(iv, BlocksOf(cipher + part)) == NextIv(NextIv(iv, BlocksOf(cipher)), BlocksOf(part))
  {
    hide BlocksOf, CbcDecrypt, AddKey;
    BlocksConcat(cipher, part);
    BlocksConcat(message, more);
    CbcDecryptParts(d, AddKey, iv, BlocksOf(cipher), BlocksOf(part));
  }

  lemma NothingYet(f: State -> State, iv: State)
    ensures BlocksOf([]) == [] && CbcEncrypt(f, AddKey, iv, []) == [] && CbcDecrypt(f, AddKey, iv, []) == []
    ensures NextIv(iv, []) == iv
  {
  }

  /** A buffer that holds a byte string. */
  method BufferOf(part: seq<bv8>) returns (buffer: array<bv8>)
    ensures fresh(buffer) && buffer[..] == part
  {
    buffer := new bv8[|part|](i requires 0 <= i < |part| => part[i]);
  }

  method EncryptPart(ctx: AesCtx, part: seq<bv8>) returns (more: seq<bv8>)
    requires ctx.Valid() && Whole(part)
    modifies ctx.iv
    ensures Whole(more) && |more| == |part|
    ensures var iv := old(BlockAt(ctx.iv[..], 0));
      && BlocksOf(more) == CbcEncrypt(EncryptWith(ctx.Keys()), AddKey, iv, BlocksOf(part))
      && BlockAt(ctx.iv[..], 0) == NextIv(iv, BlocksOf(more))
  {
    hide BlockAt, CbcEncrypt, NextIv, AddKey, EncryptWith, Blocks;
    var buffer := BufferOf(part);
    CbcEncryptCall(ctx, buffer, buffer, buffer.Length);
    more := buffer[..];
  }

  method DecryptPart(ctx: AesCtx, part: seq<bv8>) returns (more: seq<bv8>)
    requires ctx.Valid() && Whole(part)
    modifies ctx.iv
    ensures Whole(more) && |more| == |part|
    ensures var iv := old(BlockAt(ctx.iv[..], 0));
      && BlocksOf(more) == CbcDecrypt(DecryptWith(ctx.Keys()), AddKey, iv, BlocksOf(part))
      && BlockAt(ctx.iv[..], 0) == NextIv(iv, BlocksOf(part))
  {
    hide BlockAt, CbcDecrypt, NextIv, AddKey, DecryptWith, Blocks;
    var buffer := BufferOf(part);
    CbcDecryptCall(ctx, buffer, buffer, buffer.Length);
    more := buffer[..];
  }

  method EncryptInCalls(ctx: AesCtx, parts: seq<seq<bv8>>) returns (cipher: seq<bv8>)
    requires ctx.Valid() && AllWhole(parts)
    modifies ctx.iv
    ensures Whole(cipher) && Whole(Flatten(parts))
    ensures BlocksOf(cipher)
         == CbcEncrypt(EncryptWith(ctx.Keys()), AddKey, old(BlockAt(ctx.iv[..], 0)), BlocksOf(Flatten(parts)))
  {
    hide BlockAt, CbcEncrypt, NextIv, AddKey, EncryptWith, BlocksOf;
    ghost var e, iv := EncryptWith(ctx.Keys()), BlockAt(ctx.iv[..], 0);
    cipher := [];
    ghost var message: seq<bv8> := [];
    NothingYet(e, iv);
    for k := 0 to |parts|
      invariant ctx.Valid() && EncryptWith(ctx.Keys()) == e
      invariant message == Flatten(parts[..k]) && Whole(message) && Whole(cipher)
      invariant BlocksOf(cipher) == CbcEncrypt(e, AddKey, iv, BlocksOf(message))
      invariant BlockAt(ctx.iv[..], 0) == NextIv(iv, BlocksOf(cipher))
    {
      FlattenMore(parts, k);
      var more := EncryptPart(ctx, parts[k]);
      EncryptedPart(e, iv, message, cipher, parts[k], more);
      cipher := cipher + more;
      message := message + parts[k];
    }
    assert parts[..|parts|] == parts;
  }

  method DecryptInCalls(ctx: AesCtx, parts: seq<seq<bv8>>) returns (message: seq<bv8>)
    requires ctx.Valid() && AllWhole(parts)
    modifies ctx.iv
    ensures Whole(message) && Whole(Flatten(parts))
    ensures BlocksOf(message)
         == CbcDecrypt(DecryptWith(ctx.Keys()), AddKey, old(BlockAt(ctx.iv[..], 0)), BlocksOf(Flatten(parts)))
  {
    hide BlockAt, CbcDecrypt, NextIv, AddKey, DecryptWith, BlocksOf;
    ghost var d, iv := DecryptWith(ctx.Keys()), BlockAt(ctx.iv[..], 0);
    message := [];
    ghost var cipher: seq<bv8> := [];
    NothingYet(d, iv);
    for k := 0 to |parts|
      invariant ctx.Valid() && DecryptWith(ctx.Keys()) == d
      invariant cipher == Flatten(parts[..k]) && Whole(message) && Whole(cipher)
      invariant BlocksOf(message) == CbcDecrypt(d, AddKey, iv, BlocksOf(cipher))
      invariant BlockAt(ctx.iv[..], 0) == NextIv(iv, BlocksOf(cipher))
    {
      FlattenMore(parts, k);
      var more := DecryptPart(ctx, parts[k]);
      DecryptedPart(d, iv, cipher, message, parts[k], more);
      message := message + more;
      cipher := cipher + parts[k];
    }
    assert parts[..|parts|] == parts;
  }

  // ---------- the exchange ----------

  function KeyWords(mode: Mode): nat {
    if mode == Mode128 then 4 else 8
  }

  function Rounds(mode: Mode): nat {
    if mode == Mode128 then 10 else 14
  }

  /** The round keys of a key by the recursion of the standard. */
  function Schedule(key: seq<bv8>, mode: Mode): (keys: seq<State>)
    requires 4 * KeyWords(mode) <= |key|
    ensures |keys| == Rounds(mode) + 1
  {
    var nk := KeyWords(mode);
    seq(Rounds(mode) + 1, r requires 0 <= r <= Rounds(mode) && 4 * KeyWords(mode) <= |key| =>
      Block(KeyWord(key, nk, 4 * r), KeyWord(key, nk, 4 * r + 1), KeyWord(key, nk, 4 * r + 2),
            KeyWord(key, nk, 4 * r + 3)))
  }

  /** An expanded key holds the schedule of the key, whatever the words held before. */
  lemma ExpandedIsSchedule(ks: seq<bv32>, key: seq<bv8>, mode: Mode)
    requires 4 * KeyWords(mode) <= |key| && 4 * Rounds(mode) + 4 <= |ks|
    requires Expanded(ks, key, KeyWords(mode), 4 * Rounds(mode) + 4)
    ensures RoundKeys(ks, Rounds(mode)) == Schedule(key, mode)
  {
    hide StateOf, KeyWord;
    forall r: nat | r <= Rounds(mode) ensures RoundKeys(ks, Rounds(mode))[r] == Schedule(key, mode)[r] {
      FourWords(ks, key, KeyWords(mode), 4 * Rounds(mode) + 4, 4 * r);
    }
  }

  lemma FourWords(ks: seq<bv32>, key: seq<bv8>, nk: nat, n: nat, k: nat)
    requires 0 < nk && 4 * nk <= |key| && n <= |ks| && k + 4 <= n && Expanded(ks, key, nk, n)
    ensures StateOf(ks[k..k + 4])
         == Block(KeyWord(key, nk, k), KeyWord(key, nk, k + 1), KeyWord(key, nk, k + 2), KeyWord(key, nk, k + 3))
  {
    hide Unpack, KeyWord;
    var x := ks[k..k + 4];
    assert x[0] == ks[k] && x[1] == ks[k + 1] && x[2] == ks[k + 2] && x[3] == ks[k + 3];
  }

  lemma SameBlocks(a: seq<bv8>, b: seq<bv8>)
    requires |a| >= 16 && |b| >= 16 && a[..16] == b[..16]
    ensures BlockAt(a, 0) == BlockAt(b, 0)
  {
    BlockAtSame(a, 0, b, 0);
  }

  lemma BytesReturn(keys: seq<State>, iv: State, sent: seq<bv8>, cipher: seq<bv8>, received: seq<bv8>)
    requires |keys| >= 2 && Whole(sent) && Whole(cipher) && Whole(received)
    requires BlocksOf(cipher) == CbcEncrypt(EncryptWith(keys), AddKey, iv, BlocksOf(sent))
    requires BlocksOf(received) == CbcDecrypt(DecryptWith(Converted(InvMixColumns, keys)), AddKey, iv, BlocksOf(cipher))
    ensures received == sent
  {
    hide *;
    DecryptionUndoes(keys);
    KeyAdditionCancels();
    CbcRoundTrip(EncryptWith(keys), DecryptWith(Converted(InvMixColumns, keys)), AddKey, iv, BlocksOf(sent));
    BlocksInjective(received, sent);
  }

  /** A context with a key and an initial block. */
  method ContextFor(key: array<bv8>, iv: array<bv8>, mode: Mode) returns (ctx: AesCtx)
    requires iv.Length >= 16 && mode != OtherMode && key.Length >= 4 * KeyWords(mode)
    ensures ctx.Valid() && fresh(ctx) && fresh(ctx.ks) && fresh(ctx.iv)
    ensures ctx.Keys() == Schedule(key[..], mode) && BlockAt(ctx.iv[..], 0) == BlockAt(iv[..], 0)
  {
    hide RoundKeys, Expanded, BlockAt, Schedule;
    ctx := new AesCtx();
    ctx.SetKey(key, iv, mode);
    ExpandedIsSchedule(ctx.ks[..], key[..], mode);
    SameBlocks(ctx.iv[..], iv[..]);
  }

  /** Both sides set the same key and initial block, and the receiver converts its key. The
      sender encrypts the parts call by call: what is sent is one chained encryption of all of
      them with the schedule of the key. The receiver decrypts it cut in any other way between
      blocks, and the bytes that arrive are the bytes that were sent. */
  method Exchange(key: array<bv8>, iv: array<bv8>, mode: Mode, sent: seq<seq<bv8>>, cuts: seq<nat>)
    returns (cipher: seq<bv8>, received: seq<bv8>)
    requires iv.Length >= 16 && AllWhole(sent) && mode != OtherMode && key.Length >= 4 * KeyWords(mode)
    ensures Whole(cipher) && Whole(Flatten(sent))
    ensures BlocksOf(cipher)
         == CbcEncrypt(EncryptWith(Schedule(key[..], mode)), AddKey, BlockAt(iv[..], 0), BlocksOf(Flatten(sent)))
    ensures received == Flatten(sent)
  {
    hide *;
    var sender := ContextFor(key, iv, mode);
    var receiver := ContextFor(key, iv, mode);
    KeysEnough(sender);
    KeysEnough(receiver);
    ghost var keys, start := sender.Keys(), BlockAt(sender.iv[..], 0);
    receiver.ConvertKey();
    cipher := EncryptInCalls(sender, sent);
    CutIsWhole(cipher, cuts);
    received := DecryptInCalls(receiver, Cut(cipher, cuts));
    BytesReturn(keys, start, Flatten(sent), cipher, received);
  }

  lemma KeysEnough(ctx: AesCtx)
    requires ctx.Valid()
    ensures |ctx.Keys()| >= 2 && ctx.iv.Length == 16
  {
  }
}
