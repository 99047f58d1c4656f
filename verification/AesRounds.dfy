/** The round structure of a block cipher and its equivalent inverse cipher, and cipher block
    chaining, for blocks of any type. */
module AesRounds {
  ghost predicate Undoes<T(!new)>(g: T -> T, f: T -> T) {
    forall x :: g(f(x)) == x
  }

  ghost predicate Linear<T(!new)>(f: T -> T, xor: (T, T) -> T) {
    forall x, y :: f(xor(x, y)) == xor(f(x), f(y))
  }

  ghost predicate Cancels<T(!new)>(xor: (T, T) -> T) {
    forall x, y :: xor(xor(x, y), y) == x
  }

  lemma UndoesAt<T(!new)>(g: T -> T, f: T -> T, x: T)
    requires Undoes(g, f)
    ensures g(f(x)) == x
  {
  }

  lemma LinearAt<T(!new)>(f: T -> T, xor: (T, T) -> T, x: T, y: T)
    requires Linear(f, xor)
    ensures f(xor(x, y)) == xor(f(x), f(y))
  {
  }

  lemma CancelsAt<T(!new)>(xor: (T, T) -> T, x: T, y: T)
    requires Cancels(xor)
    ensures xor(xor(x, y), y) == x
  {
  }

  // ---------- rounds ----------

  /** The state after n rounds of encryption; the last of the |keys| - 1 rounds does not mix. */
  function Forward<T>(sub: T -> T, mix: T -> T, xor: (T, T) -> T, keys: seq<T>, s: T, n: nat): T
    requires n < |keys|
    decreases n
  {
    if n == 0 then xor(s, keys[0])
    else
      var t := sub(Forward(sub, mix, xor, keys, s, n - 1));
      xor(if n < |keys| - 1 then mix(t) else t, keys[n])
  }

  /** The state after n rounds of decryption, going through the keys from the last one. */
  function Backward<T>(invSub: T -> T, invMix: T -> T, xor: (T, T) -> T, keys: seq<T>, c: T, n: nat): T
    requires n < |keys|
    decreases n
  {
    if n == 0 then xor(c, keys[|keys| - 1])
    else
      var t := invSub(Backward(invSub, invMix, xor, keys, c, n - 1));
      xor(if n < |keys| - 1 then invMix(t) else t, keys[|keys| - 1 - n])
  }

  function Cipher<T>(sub: T -> T, mix: T -> T, xor: (T, T) -> T, keys: seq<T>, s: T): T
    requires keys != []
  {
    Forward(sub, mix, xor, keys, s, |keys| - 1)
  }

  function InvCipher<T>(invSub: T -> T, invMix: T -> T, xor: (T, T) -> T, keys: seq<T>, c: T): T
    requires keys != []
  {
    Backward(invSub, invMix, xor, keys, c, |keys| - 1)
  }

  /** The keys in between are unmixed, so that unmixing can come before the key addition. */
  function Converted<T>(invMix: T -> T, keys: seq<T>): (r: seq<T>)
    ensures |r| == |keys|
  {
    seq(|keys|, i requires 0 <= i < |keys| => if 0 < i < |keys| - 1 then invMix(keys[i]) else keys[i])
  }

  /** Each state of the decryption is an encryption state after its substitution. */
  lemma {:induction false} BackwardMeetsForward<T(!new)>(sub: T -> T, mix: T -> T, invSub: T -> T, invMix: T -> T,
                                                         xor: (T, T) -> T,
                                                         keys: seq<T>, s: T, n: nat)
    requires Undoes(invSub, sub) && Undoes(invMix, mix) && Linear(invMix, xor) && Cancels(xor)
    requires n + 1 < |keys|
    ensures Backward(invSub, invMix, xor, Converted(invMix, keys), Cipher(sub, mix, xor, keys, s), n)
         == sub(Forward(sub, mix, xor, keys, s, |keys| - 2 - n))
    decreases n
  {
    hide Undoes, Linear, Cancels;
    var R := |keys| - 1;
    var c, ik := Cipher(sub, mix, xor, keys, s), Converted(invMix, keys);
    var y := sub(Forward(sub, mix, xor, keys, s, R - n - 1));
    if n == 0 {
      CancelsAt(xor, y, keys[R]);
    } else {
      BackwardMeetsForward(sub, mix, invSub, invMix, xor, keys, s, n - 1);
      var x := Forward(sub, mix, xor, keys, s, R - n);
      assert x == xor(mix(y), keys[R - n]);
      UndoesAt(invSub, sub, x);
      LinearAt(invMix, xor, mix(y), keys[R - n]);
      UndoesAt(invMix, mix, y);
      CancelsAt(xor, y, ik[R - n]);
    }
  }

  /** Decryption with the converted keys undoes encryption. */
  lemma DecryptionUndoesEncryption<T(!new)>(sub: T -> T, mix: T -> T, invSub: T -> T, invMix: T -> T,
                                            xor: (T, T) -> T, keys: seq<T>, s: T)
    requires Undoes(invSub, sub) && Undoes(invMix, mix) && Linear(invMix, xor) && Cancels(xor) && |keys| >= 2
    ensures InvCipher(invSub, invMix, xor, Converted(invMix, keys), Cipher(sub, mix, xor, keys, s)) == s
  {
    var R := |keys| - 1;
    BackwardMeetsForward(sub, mix, invSub, invMix, xor, keys, s, R - 1);
    assert Forward(sub, mix, xor, keys, s, 0) == xor(s, keys[0]);
  }

  // ---------- cipher block chaining ----------

  function CbcEncrypt<T>(encrypt: T -> T, xor: (T, T) -> T, iv: T, message: seq<T>): (c: seq<T>)
    ensures |c| == |message|
  {
    if message == [] then []
    else
      var c := encrypt(xor(message[0], iv));
      [c] + CbcEncrypt(encrypt, xor, c, message[1..])
  }

  function CbcDecrypt<T>(decrypt: T -> T, xor: (T, T) -> T, iv: T, cipher: seq<T>): (m: seq<T>)
    ensures |m| == |cipher|
  {
    if cipher == [] then []
    else [xor(decrypt(cipher[0]), iv)] + CbcDecrypt(decrypt, xor, cipher[0], cipher[1..])
  }

  /** Every ciphertext block is the encryption of its message block and the ciphertext block
      before it, the first one of the initial block. */
  lemma {:induction false} CbcEncryptAt<T>(encrypt: T -> T, xor: (T, T) -> T, iv: T, message: seq<T>, i: nat)
    requires i < |message|
    ensures var c := CbcEncrypt(encrypt, xor, iv, message);
      c[i] == encrypt(xor(message[i], if i == 0 then iv else c[i - 1]))
    decreases i
  {
    if i > 0 {
      CbcEncryptAt(encrypt, xor, encrypt(xor(message[0], iv)), message[1..], i - 1);
    }
  }

  lemma {:induction false} CbcDecryptAt<T>(decrypt: T -> T, xor: (T, T) -> T, iv: T, cipher: seq<T>, i: nat)
    requires i < |cipher|
    ensures CbcDecrypt(decrypt, xor, iv, cipher)[i] == xor(decrypt(cipher[i]), if i == 0 then iv else cipher[i - 1])
    decreases i
  {
    if i > 0 {
      CbcDecryptAt(decrypt, xor, cipher[0], cipher[1..], i - 1);
    }
  }

  /** The block the next call starts from: the last ciphertext block. */
  function NextIv<T>(iv: T, cipher: seq<T>): T {
    if cipher == [] then iv else cipher[|cipher| - 1]
  }

  lemma {:induction false} CbcRoundTrip<T(!new)>(encrypt: T -> T, decrypt: T -> T, xor: (T, T) -> T, iv: T,
                                                 message: seq<T>)
    requires Undoes(decrypt, encrypt) && Cancels(xor)
    ensures CbcDecrypt(decrypt, xor, iv, CbcEncrypt(encrypt, xor, iv, message)) == message
    decreases |message|
  {
    if message != [] {
      var c := encrypt(xor(message[0], iv));
      var rest := CbcEncrypt(encrypt, xor, c, message[1..]);
      assert ([c] + rest)[1..] == rest;
      CbcRoundTrip(encrypt, decrypt, xor, c, message[1..]);
      assert message == [message[0]] + message[1..];
    }
  }

  /** Encrypting in two calls: the second goes on from the block the first left. */
  lemma {:induction false} CbcEncryptParts<T>(encrypt: T -> T, xor: (T, T) -> T, iv: T, a: seq<T>, b: seq<T>)
    ensures var c := CbcEncrypt(encrypt, xor, iv, a);
      CbcEncrypt(encrypt, xor, iv, a + b) == c + CbcEncrypt(encrypt, xor, NextIv(iv, c), b)
    decreases |a|
  {
    if a == [] {
      assert a + b == b;
    } else {
      var c := encrypt(xor(a[0], iv));
      assert (a + b)[0] == a[0] && (a + b)[1..] == a[1..] + b;
      CbcEncryptParts(encrypt, xor, c, a[1..], b);
      var rest := CbcEncrypt(encrypt, xor, c, a[1..]);
      assert NextIv(iv, [c] + rest) == NextIv(c, rest);
      assert [c] + (rest + CbcEncrypt(encrypt, xor, NextIv(c, rest), b))
          == ([c] + rest) + CbcEncrypt(encrypt, xor, NextIv(c, rest), b);
    }
  }

  lemma {:induction false} CbcDecryptParts<T>(decrypt: T -> T, xor: (T, T) -> T, iv: T, a: seq<T>, b: seq<T>)
    ensures CbcDecrypt(decrypt, xor, iv, a + b)
         == CbcDecrypt(decrypt, xor, iv, a) + CbcDecrypt(decrypt, xor, NextIv(iv, a), b)
    decreases |a|
  {
    if a == [] {
      assert a + b == b;
    } else {
      assert (a + b)[0] == a[0] && (a + b)[1..] == a[1..] + b;
      CbcDecryptParts(decrypt, xor, a[0], a[1..], b);
      assert NextIv(iv, a) == NextIv(a[0], a[1..]);
      var first, rest := [xor(decrypt(a[0]), iv)], CbcDecrypt(decrypt, xor, a[0], a[1..]);
      assert first + (rest + CbcDecrypt(decrypt, xor, NextIv(iv, a), b))
          == (first + rest) + CbcDecrypt(decrypt, xor, NextIv(iv, a), b);
    }
  }

  function Flatten<T>(parts: seq<seq<T>>): seq<T> {
    if parts == [] then [] else parts[0] + Flatten(parts[1..])
  }

  /** Encryption calls on successive parts, each from the block the one before it left. */
  function EncryptCalls<T>(encrypt: T -> T, xor: (T, T) -> T, iv: T, parts: seq<seq<T>>): seq<T> {
    if parts == [] then []
    else
      var c := CbcEncrypt(encrypt, xor, iv, parts[0]);
      c + EncryptCalls(encrypt, xor, NextIv(iv, c), parts[1..])
  }

  function DecryptCalls<T>(decrypt: T -> T, xor: (T, T) -> T, iv: T, parts: seq<seq<T>>): seq<T> {
    if parts == [] then []
    else CbcDecrypt(decrypt, xor, iv, parts[0]) + DecryptCalls(decrypt, xor, NextIv(iv, parts[0]), parts[1..])
  }

  lemma {:induction false} EncryptCallsAreOne<T>(encrypt: T -> T, xor: (T, T) -> T, iv: T, parts: seq<seq<T>>)
    ensures EncryptCalls(encrypt, xor, iv, parts) == CbcEncrypt(encrypt, xor, iv, Flatten(parts))
    decreases |parts|
  {
    if parts != [] {
      var c := CbcEncrypt(encrypt, xor, iv, parts[0]);
      EncryptCallsAreOne(encrypt, xor, NextIv(iv, c), parts[1..]);
      CbcEncryptParts(encrypt, xor, iv, parts[0], Flatten(parts[1..]));
    }
  }

  lemma {:induction false} DecryptCallsAreOne<T>(decrypt: T -> T, xor: (T, T) -> T, iv: T, parts: seq<seq<T>>)
    ensures DecryptCalls(decrypt, xor, iv, parts) == CbcDecrypt(decrypt, xor, iv, Flatten(parts))
    decreases |parts|
  {
    if parts != [] {
      DecryptCallsAreOne(decrypt, xor, NextIv(iv, parts[0]), parts[1..]);
      CbcDecryptParts(decrypt, xor, iv, parts[0], Flatten(parts[1..]));
    }
  }

  /** However a message is cut for encryption, and its ciphertext for decryption, the calls
      return the message. */
  lemma CallsRoundTrip<T(!new)>(encrypt: T -> T, decrypt: T -> T, xor: (T, T) -> T, iv: T, sent: seq<seq<T>>,
                                received: seq<seq<T>>)
    requires Undoes(decrypt, encrypt) && Cancels(xor)
    requires Flatten(received) == EncryptCalls(encrypt, xor, iv, sent)
    ensures DecryptCalls(decrypt, xor, iv, received) == Flatten(sent)
  {
    EncryptCallsAreOne(encrypt, xor, iv, sent);
    DecryptCallsAreOne(decrypt, xor, iv, received);
    CbcRoundTrip(encrypt, decrypt, xor, iv, Flatten(sent));
  }
}
