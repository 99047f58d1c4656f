/** Cipher block chaining over byte buffers: the calls of the cipher context. */
module AesCbc {
  import opened AesRounds
  import opened AesBlocks
  import opened AesBytes
  import opened AesWords
  import opened Aes

  /** Sixteen bytes as a block: four big-endian words. */
  function BlockAt(b: seq<bv8>, at: nat): State
    requires at + 16 <= |b|
  {
    Block(Col(b[at], b[at + 1], b[at + 2], b[at + 3]), Col(b[at + 4], b[at + 5], b[at + 6], b[at + 7]),
          Col(b[at + 8], b[at + 9], b[at + 10], b[at + 11]), Col(b[at + 12], b[at + 13], b[at + 14], b[at + 15]))
  }

  /** The first n blocks of a buffer. */
  function Blocks(b: seq<bv8>, n: nat): (s: seq<State>)
    requires 16 * n <= |b|
    ensures |s| == n
  {
    seq(n, i requires 0 <= i < n && 16 * n <= |b| => BlockAt(b, 16 * i))
  }

  /** Only whole blocks are processed. */
  function WholeBlocks(length: int): (n: nat)
    ensures length >= 16 ==> 16 * n <= length < 16 * n + 16
    ensures length < 16 ==> n == 0
  {
    if length < 16 then 0 else length / 16
  }

  function EncryptWith(keys: seq<State>): State -> State {
    s => if keys == [] then s else Cipher(SubShift, MixColumns, AddKey, keys, s)
  }

  function DecryptWith(keys: seq<State>): State -> State {
    c => if keys == [] then c else InvCipher(InvSubShift, InvMixColumns, AddKey, keys, c)
  }

  // ---------- blocks in buffers ----------

  method LoadBlock(words: array<bv32>, src: array<bv8>, at: nat)
    requires words.Length == 4 && at + 16 <= src.Length
    modifies words
    ensures StateOf(words[..]) == BlockAt(src[..], at)
  {
    hide Unpack;
    words[0] := LoadWord(src, at);
    words[1] := LoadWord(src, at + 4);
    words[2] := LoadWord(src, at + 8);
    words[3] := LoadWord(src, at + 12);
  }

  method StoreWord(dst: array<bv8>, at: nat, w: bv32)
    requires at + 4 <= dst.Length
    modifies dst
    ensures dst[..at] == old(dst[..at]) && dst[at + 4..] == old(dst[at + 4..])
    ensures Col(dst[at], dst[at + 1], dst[at + 2], dst[at + 3]) == Unpack(w)
  {
    hide *;
    dst[at] := Unpack(w).b0;
    dst[at + 1] := Unpack(w).b1;
    dst[at + 2] := Unpack(w).b2;
    dst[at + 3] := Unpack(w).b3;
  }

  method StoreBlock(dst: array<bv8>, at: nat, words: array<bv32>)
    requires words.Length == 4 && at + 16 <= dst.Length
    modifies dst
    ensures dst[..at] == old(dst[..at]) && dst[at + 16..] == old(dst[at + 16..])
    ensures BlockAt(dst[..], at) == StateOf(words[..])
  {
    hide Unpack;
    ghost var was := dst[..];
    StoreWord(dst, at, words[0]);
    ghost var one := dst[..];
    StoreWord(dst, at + 4, words[1]);
    ghost var two := dst[..];
    StoreWord(dst, at + 8, words[2]);
    ghost var three := dst[..];
    StoreWord(dst, at + 12, words[3]);
    StoredWords(was, one, two, three, dst[..], at, words[..]);
  }

  lemma StoredWords(was: seq<bv8>, one: seq<bv8>, two: seq<bv8>, three: seq<bv8>, now: seq<bv8>, at: nat,
                    words: seq<bv32>)
    requires |was| == |one| == |two| == |three| == |now| && at + 16 <= |now| && |words| == 4
    requires one[..at] == was[..at] && one[at + 4..] == was[at + 4..]
    requires two[..at + 4] == one[..at + 4] && two[at + 8..] == one[at + 8..]
    requires three[..at + 8] == two[..at + 8] && three[at + 12..] == two[at + 12..]
    requires now[..at + 12] == three[..at + 12] && now[at + 16..] == three[at + 16..]
    requires Col(one[at], one[at + 1], one[at + 2], one[at + 3]) == Unpack(words[0])
    requires Col(two[at + 4], two[at + 5], two[at + 6], two[at + 7]) == Unpack(words[1])
    requires Col(three[at + 8], three[at + 9], three[at + 10], three[at + 11]) == Unpack(words[2])
    requires Col(now[at + 12], now[at + 13], now[at + 14], now[at + 15]) == Unpack(words[3])
    ensures now[..at] == was[..at] && now[at + 16..] == was[at + 16..] && BlockAt(now, at) == StateOf(words)
  {
    hide Unpack;
    forall i | 0 <= i < at + 12 ensures now[i] == three[i] {
      assert now[..at + 12][i] == three[..at + 12][i];
    }
    forall i | 0 <= i < at + 8 ensures three[i] == two[i] {
      assert three[..at + 8][i] == two[..at + 8][i];
    }
    forall i | 0 <= i < at + 4 ensures two[i] == one[i] {
      assert two[..at + 4][i] == one[..at + 4][i];
    }
    forall i | 0 <= i < at ensures one[i] == was[i] {
      assert one[..at][i] == was[..at][i];
    }
    forall i | at + 16 <= i < |now| ensures now[i] == was[i] {
      assert now[at + 16..][i - at - 16] == three[at + 16..][i - at - 16];
      assert three[at + 12..][i - at - 12] == two[at + 12..][i - at - 12];
      assert two[at + 8..][i - at - 8] == one[at + 8..][i - at - 8];
      assert one[at + 4..][i - at - 4] == was[at + 4..][i - at - 4];
    }
  }

  method XorBlock(data: array<bv32>, other: array<bv32>)
    requires data.Length == 4 && other.Length == 4 && data != other
    modifies data
    ensures StateOf(data[..]) == AddKey(old(StateOf(data[..])), StateOf(other[..]))
  {
    hide *;
    ghost var was := data[..];
    for i := 0 to 4
      invariant data[i..] == was[i..] && other[..] == old(other[..])
      invariant forall j: nat :: j < i ==> data[j] == XorWord(was[j], other[j])
    {
      assert data[i..][0] == was[i..][0];
      data[i] := XorWord(data[i], other[i]);
    }
    AddedKey(data[..], was, other[..]);
  }

  method CopyBlock(dst: array<bv32>, src: array<bv32>)
    requires dst.Length == 4 && src.Length == 4 && dst != src
    modifies dst
    ensures dst[..] == src[..]
  {
    for i := 0 to 4
      invariant dst[..i] == src[..i]
    {
      dst[i] := src[i];
    }
  }

  lemma BlocksMore(was: seq<bv8>, now: seq<bv8>, b: nat)
    requires 16 * b + 16 <= |was| == |now| && now[..16 * b] == was[..16 * b]
    ensures Blocks(now, b + 1) == Blocks(was, b) + [BlockAt(now, 16 * b)]
  {
    forall i | 0 <= i < 16 * b ensures now[i] == was[i] {
      assert now[..16 * b][i] == was[..16 * b][i];
    }
  }

  lemma BlockUnread(was: seq<bv8>, now: seq<bv8>, b: nat, n: nat)
    requires b < n && 16 * n <= |was| == |now| && now[16 * b..] == was[16 * b..]
    ensures BlockAt(now, 16 * b) == Blocks(was, n)[b]
  {
    forall i | 16 * b <= i < |was| ensures now[i] == was[i] {
      assert now[16 * b..][i - 16 * b] == was[16 * b..][i - 16 * b];
    }
  }

  /** One more block of a chained encryption. */
  lemma EncryptedMore(e: State -> State, iv: State, m: seq<State>, b: nat)
    requires b < |m|
    ensures var c := CbcEncrypt(e, AddKey, iv, m[..b]);
      var block := e(AddKey(m[b], NextIv(iv, c)));
      CbcEncrypt(e, AddKey, iv, m[..b + 1]) == c + [block] && NextIv(iv, c + [block]) == block
  {
    hide AddKey;
    var c := CbcEncrypt(e, AddKey, iv, m[..b]);
    var block := e(AddKey(m[b], NextIv(iv, c)));
    assert m[..b + 1] == m[..b] + [m[b]];
    CbcEncryptParts(e, AddKey, iv, m[..b], [m[b]]);
    assert [m[b]][1..] == [];
    assert CbcEncrypt(e, AddKey, NextIv(iv, c), [m[b]]) == [block];
  }

  lemma DecryptedMore(d: State -> State, iv: State, c: seq<State>, b: nat)
    requires b < |c|
    ensures CbcDecrypt(d, AddKey, iv, c[..b + 1])
         == CbcDecrypt(d, AddKey, iv, c[..b]) + [AddKey(d(c[b]), NextIv(iv, c[..b]))]
    ensures NextIv(iv, c[..b + 1]) == c[b]
  {
    hide AddKey;
    assert c[..b + 1] == c[..b] + [c[b]];
    CbcDecryptParts(d, AddKey, iv, c[..b], [c[b]]);
    assert [c[b]][1..] == [];
    assert CbcDecrypt(d, AddKey, NextIv(iv, c[..b]), [c[b]]) == [AddKey(d(c[b]), NextIv(iv, c[..b]))];
  }

  // ---------- the calls ----------

  /** After b blocks: what was written, the chaining block, and the rest of the input unread. */
  ghost predicate Encrypted(tout: array<bv32>, msg: array<bv8>, out: array<bv8>, input: seq<bv8>, output: seq<bv8>,
                            e: State -> State, iv: State, n: nat, b: nat)
    reads msg, out, tout
  {
    && tout.Length == 4 && b <= n && 16 * n <= |input| == msg.Length && 16 * n <= |output| == out.Length
    && msg[16 * b..] == input[16 * b..] && out[16 * b..] == output[16 * b..]
    && var c := CbcEncrypt(e, AddKey, iv, Blocks(input, n)[..b]);
       Blocks(out[..], b) == c && StateOf(tout[..]) == NextIv(iv, c)
  }

  method EncryptBlock(ctx: AesCtx, tin: array<bv32>, tout: array<bv32>, msg: array<bv8>, out: array<bv8>,
                      ghost input: seq<bv8>, ghost output: seq<bv8>,
                      ghost e: State -> State, ghost iv: State, ghost n: nat, b: nat)
    requires ctx.Valid() && tin.Length == 4 && tin != tout && tin != ctx.ks && tout != ctx.ks
    requires b < n && Encrypted(tout, msg, out, input, output, e, iv, n, b) && (msg == out ==> input == output)
    requires e == EncryptWith(ctx.Keys())
    modifies tin, tout, out
    ensures Encrypted(tout, msg, out, input, output, e, iv, n, b + 1)
  {
    hide StateOf, BlockAt, Cipher, CbcEncrypt, NextIv, AddKey;
    ghost var m, was := Blocks(input, n), out[..];
    EncryptedMore(e, iv, m, b);
    BlockUnread(input, msg[..], b, n);
    LoadBlock(tin, msg, 16 * b);
    XorBlock(tin, tout);
    ctx.Encrypt(tin);
    CopyBlock(tout, tin);
    StoreBlock(out, 16 * b, tout);
    BlocksMore(was, out[..], b);
    Later(msg[..], input, was, out[..], output, msg == out, b);
  }

  lemma Later(msg: seq<bv8>, input: seq<bv8>, was: seq<bv8>, out: seq<bv8>, output: seq<bv8>, same: bool, b: nat)
    requires 16 * b + 16 <= |msg| == |input| && 16 * b + 16 <= |out| == |output| == |was|
    requires if same then msg == out && input == output else msg[16 * b..] == input[16 * b..]
    requires out[16 * b + 16..] == was[16 * b + 16..] && was[16 * b..] == output[16 * b..]
    ensures msg[16 * (b + 1)..] == input[16 * (b + 1)..] && out[16 * (b + 1)..] == output[16 * (b + 1)..]
  {
    assert was[16 * b..][16..] == was[16 * (b + 1)..] && output[16 * b..][16..] == output[16 * (b + 1)..];
    if !same {
      assert msg[16 * b..][16..] == msg[16 * (b + 1)..] && input[16 * b..][16..] == input[16 * (b + 1)..];
    }
  }

  /** Encrypting whole blocks; the context keeps the last ciphertext block for the next call. */
  method CbcEncryptCall(ctx: AesCtx, msg: array<bv8>, out: array<bv8>, length: int)
    requires ctx.Valid() && length <= msg.Length && length <= out.Length && out != ctx.iv
    modifies out, ctx.iv
    ensures var n := WholeBlocks(length); var iv := old(BlockAt(ctx.iv[..], 0));
      var c := CbcEncrypt(EncryptWith(ctx.Keys()), AddKey, iv, old(Blocks(msg[..], n)));
      Blocks(out[..], n) == c && BlockAt(ctx.iv[..], 0) == NextIv(iv, c) && out[16 * n..] == old(out[16 * n..])
  {
    hide StateOf, BlockAt, Cipher, CbcEncrypt, NextIv, AddKey;
    ghost var e, iv, n := EncryptWith(ctx.Keys()), BlockAt(ctx.iv[..], 0), WholeBlocks(length);
    ghost var input, output := msg[..], out[..];
    var tin, tout := new bv32[4], new bv32[4];
    LoadBlock(tout, ctx.iv, 0);
    EncryptedNone(tout, msg, out, e, iv, n);
    var left, b := length - 16, 0;
    while left >= 0
      invariant left == length - 16 - 16 * b && b <= n
      invariant ctx.iv[..] == old(ctx.iv[..])
      invariant Encrypted(tout, msg, out, input, output, e, iv, n, b)
      modifies tin, tout, out
    {
      EncryptBlock(ctx, tin, tout, msg, out, input, output, e, iv, n, b);
      b := b + 1;
      left := left - 16;
    }
    assert Blocks(input, n)[..n] == Blocks(input, n);
    StoreBlock(ctx.iv, 0, tout);
  }

  lemma EncryptedNone(tout: array<bv32>, msg: array<bv8>, out: array<bv8>, e: State -> State, iv: State, n: nat)
    requires tout.Length == 4 && StateOf(tout[..]) == iv && 16 * n <= msg.Length && 16 * n <= out.Length
    ensures Encrypted(tout, msg, out, msg[..], out[..], e, iv, n, 0)
  {
    hide StateOf, BlockAt;
    assert Blocks(msg[..], n)[..0] == [];
    assert msg[0..] == msg[..] && out[0..] == out[..];
  }

  /** After b blocks of a decryption. */
  ghost predicate Decrypted(xor: array<bv32>, msg: array<bv8>, out: array<bv8>, input: seq<bv8>, output: seq<bv8>,
                            d: State -> State, iv: State, n: nat, b: nat)
    reads msg, out, xor
  {
    && xor.Length == 4 && b <= n && 16 * n <= |input| == msg.Length && 16 * n <= |output| == out.Length
    && msg[16 * b..] == input[16 * b..] && out[16 * b..] == output[16 * b..]
    && Blocks(out[..], b) == CbcDecrypt(d, AddKey, iv, Blocks(input, n)[..b])
    && StateOf(xor[..]) == NextIv(iv, Blocks(input, n)[..b])
  }

  method DecryptBlock(ctx: AesCtx, tin: array<bv32>, data: array<bv32>, xor: array<bv32>, msg: array<bv8>,
                      out: array<bv8>,
                      ghost input: seq<bv8>, ghost output: seq<bv8>,
                      ghost d: State -> State, ghost iv: State, ghost n: nat, b: nat)
    requires ctx.Valid() && tin.Length == 4 && data.Length == 4 && tin != xor && tin != data && data != xor
    requires tin != ctx.ks && xor != ctx.ks && data != ctx.ks
    requires b < n && Decrypted(xor, msg, out, input, output, d, iv, n, b) && (msg == out ==> input == output)
    requires d == DecryptWith(ctx.Keys())
    modifies tin, data, xor, out
    ensures Decrypted(xor, msg, out, input, output, d, iv, n, b + 1)
  {
    hide StateOf, BlockAt, InvCipher, CbcDecrypt, NextIv, AddKey;
    ghost var c, was := Blocks(input, n), out[..];
    DecryptedMore(d, iv, c, b);
    BlockUnread(input, msg[..], b, n);
    LoadBlock(tin, msg, 16 * b);
    CopyBlock(data, tin);
    ctx.Decrypt(data);
    XorBlock(data, xor);
    CopyBlock(xor, tin);
    StoreBlock(out, 16 * b, data);
    BlocksMore(was, out[..], b);
    Later(msg[..], input, was, out[..], output, msg == out, b);
  }

  lemma DecryptedNone(xor: array<bv32>, msg: array<bv8>, out: array<bv8>, d: State -> State, iv: State, n: nat)
    requires xor.Length == 4 && StateOf(xor[..]) == iv && 16 * n <= msg.Length && 16 * n <= out.Length
    ensures Decrypted(xor, msg, out, msg[..], out[..], d, iv, n, 0)
  {
    hide StateOf, BlockAt;
    assert Blocks(msg[..], n)[..0] == [];
    assert msg[0..] == msg[..] && out[0..] == out[..];
  }

  /** Decrypting whole blocks, possibly in place. */
  method CbcDecryptCall(ctx: AesCtx, msg: array<bv8>, out: array<bv8>, length: int)
    requires ctx.Valid() && length <= msg.Length && length <= out.Length && out != ctx.iv
    modifies out, ctx.iv
    ensures var n := WholeBlocks(length); var iv := old(BlockAt(ctx.iv[..], 0)); var c := old(Blocks(msg[..], n));
      Blocks(out[..], n) == CbcDecrypt(DecryptWith(ctx.Keys()), AddKey, iv, c)
      && BlockAt(ctx.iv[..], 0) == NextIv(iv, c) && out[16 * n..] == old(out[16 * n..])
  {
    hide StateOf, BlockAt, InvCipher, CbcDecrypt, NextIv, AddKey;
    ghost var d, iv, n := DecryptWith(ctx.Keys()), BlockAt(ctx.iv[..], 0), WholeBlocks(length);
    ghost var input, output := msg[..], out[..];
    var tin, data, xor := new bv32[4], new bv32[4], new bv32[4];
    LoadBlock(xor, ctx.iv, 0);
    DecryptedNone(xor, msg, out, d, iv, n);
    var left, b := length - 16, 0;
    while left >= 0
      invariant left == length - 16 - 16 * b && b <= n
      invariant ctx.iv[..] == old(ctx.iv[..])
      invariant Decrypted(xor, msg, out, input, output, d, iv, n, b)
      modifies tin, data, xor, out
    {
      DecryptBlock(ctx, tin, data, xor, msg, out, input, output, d, iv, n, b);
      b := b + 1;
      left := left - 16;
    }
    assert Blocks(input, n)[..n] == Blocks(input, n);
    StoreBlock(ctx.iv, 0, xor);
  }

  // ---------- whole messages ----------

  lemma DecryptionUndoes(keys: seq<State>)
    requires |keys| >= 2
    ensures Undoes(DecryptWith(Converted(InvMixColumns, keys)), EncryptWith(keys))
  {
    hide Cipher, InvCipher;
    var e, d := EncryptWith(keys), DecryptWith(Converted(InvMixColumns, keys));
    forall s: State ensures d(e(s)) == s {
      BlockRoundTrip(keys, s);
    }
  }

  /** With any expanded key, a message encrypted in any number of calls and decrypted with the
      converted key, cut differently, comes back; and the ciphertext does not depend on the cuts. */
  lemma MessageRoundTrip(keys: seq<State>, iv: State, sent: seq<seq<State>>, received: seq<seq<State>>)
    requires |keys| >= 2
    requires Flatten(received) == EncryptCalls(EncryptWith(keys), AddKey, iv, sent)
    ensures Flatten(received) == CbcEncrypt(EncryptWith(keys), AddKey, iv, Flatten(sent))
    ensures DecryptCalls(DecryptWith(Converted(InvMixColumns, keys)), AddKey, iv, received) == Flatten(sent)
  {
    hide *;
    DecryptionUndoes(keys);
    KeyAdditionCancels();
    EncryptCallsAreOne(EncryptWith(keys), AddKey, iv, sent);
    CallsRoundTrip(EncryptWith(keys), DecryptWith(Converted(InvMixColumns, keys)), AddKey, iv, sent, received);
  }
}
