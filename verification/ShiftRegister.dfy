/** Folding bits through a shift register, for registers of any type. */
module ShiftRegister {

  /** The register after a stream of bits. */
  function Fold<T, B>(step: (T, B) -> T, crc: T, bits: seq<B>): T
    decreases |bits|
  {
    if bits == [] then crc else Fold(step, step(crc, bits[0]), bits[1..])
  }

  /** The bits of a word taken off one by one: the low bit, then the word shifted down. */
  function BitsOf<T, B>(low: T -> B, down: T -> T, w: T, n: nat): (s: seq<B>)
    ensures |s| == n
    decreases n
  {
    if n == 0 then [] else [low(w)] + BitsOf(low, down, down(w), n - 1)
  }

  lemma {:induction false} BitsOfPrefix<T, B>(low: T -> B, down: T -> T, w: T, n: nat, k: nat)
    requires k <= n
    ensures BitsOf(low, down, w, n)[..k] == BitsOf(low, down, w, k)
    decreases k
  {
    if k > 0 {
      BitsOfPrefix(low, down, down(w), n - 1, k - 1);
      var s, t := BitsOf(low, down, w, n), BitsOf(low, down, w, k);
      assert s == [low(w)] + BitsOf(low, down, down(w), n - 1);
      assert t == [low(w)] + BitsOf(low, down, down(w), k - 1);
      assert s[..k] == [low(w)] + BitsOf(low, down, down(w), n - 1)[..k - 1];
    }
  }

  function Times<T>(f: T -> T, x: T, n: nat): T
    decreases n
  {
    if n == 0 then x else Times(f, f(x), n - 1)
  }

  /** A step combined with the rest of a word shifts their combination. */
  ghost predicate Commutes<T(!new), B>(step: (T, B) -> T, low: T -> B, down: T -> T, shift: T -> T, xor: (T, T) -> T) {
    forall c, b :: xor(step(c, low(b)), down(b)) == shift(xor(c, b))
  }

  /** Widening keeps the low bit and goes past shifting down. */
  ghost predicate Widens<S(!new), T, B>(low: S -> B, down: S -> S, low': T -> B, down': T -> T, widen: S -> T) {
    forall b :: low'(widen(b)) == low(b) && widen(down(b)) == down'(widen(b))
  }

  ghost predicate Neutral<T(!new)>(xor: (T, T) -> T, none: T) {
    forall c :: xor(c, none) == c
  }

  ghost predicate IsLinear<T(!new)>(f: T -> T, xor: (T, T) -> T) {
    forall a, b :: f(xor(a, b)) == xor(f(a), f(b))
  }

  ghost predicate IsInjective<T(!new)>(f: T -> T) {
    forall a, b :: f(a) == f(b) ==> a == b
  }

  ghost predicate Agree<T(!new)>(f: T -> T, g: T -> T) {
    forall x :: f(x) == g(x)
  }

  lemma {:induction false} FoldConcat<T, B>(step: (T, B) -> T, crc: T, a: seq<B>, b: seq<B>)
    ensures Fold(step, crc, a + b) == Fold(step, Fold(step, crc, a), b)
    decreases |a|
  {
    if a == [] {
      assert a + b == b;
    } else {
      assert (a + b)[1..] == a[1..] + b;
      FoldConcat(step, step(crc, a[0]), a[1..], b);
    }
  }

  lemma TimesFour<T>(f: T -> T, x: T, n: nat)
    ensures Times(f, x, n + 4) == Times(f, f(f(f(f(x)))), n)
  {
    calc {
      Times(f, x, n + 4);
      Times(f, f(x), n + 3);
      Times(f, f(f(x)), n + 2);
      Times(f, f(f(f(x))), n + 1);
    }
  }

  lemma TimesEight<T>(f: T -> T, x: T)
    ensures Times(f, x, 8) == f(f(f(f(f(f(f(f(x))))))))
  {
    TimesFour(f, x, 4);
    TimesFour(f, f(f(f(f(x)))), 0);
  }

  /** If a step combined with the rest of the word shifts their combination, a whole word
      can be combined with the register at once and shifted through afterwards. */
  lemma {:induction false} AtOnce<T(!new), B>(step: (T, B) -> T, low: T -> B, down: T -> T, shift: T -> T,
                                              xor: (T, T) -> T,
                                              crc: T, w: T, n: nat)
    requires Commutes(step, low, down, shift, xor)
    ensures xor(Fold(step, crc, BitsOf(low, down, w, n)), Times(down, w, n)) == Times(shift, xor(crc, w), n)
    decreases n
  {
    if n > 0 {
      var bits := BitsOf(low, down, w, n);
      assert bits[1..] == BitsOf(low, down, down(w), n - 1);
      AtOnce(step, low, down, shift, xor, step(crc, low(w)), down(w), n - 1);
    }
  }

  /** Widening a word before taking off its bits gives the same bits. */
  lemma {:induction false} BitsOfWider<S(!new), T, B>(low: S -> B, down: S -> S, low': T -> B, down': T -> T,
                                                      widen: S -> T, w: S, n: nat)
    requires Widens(low, down, low', down', widen)
    ensures BitsOf(low', down', widen(w), n) == BitsOf(low, down, w, n)
    decreases n
  {
    if n > 0 {
      BitsOfWider(low, down, low', down', widen, down(w), n - 1);
    }
  }

  lemma {:induction false} TimesLinear<T(!new)>(f: T -> T, xor: (T, T) -> T, x: T, y: T, n: nat)
    requires IsLinear(f, xor)
    ensures Times(f, xor(x, y), n) == xor(Times(f, x, n), Times(f, y, n))
    decreases n
  {
    if n > 0 {
      TimesLinear(f, xor, f(x), f(y), n - 1);
    }
  }

  lemma {:induction false} TimesSame<T(!new)>(f: T -> T, g: T -> T, x: T, n: nat)
    requires Agree(f, g)
    ensures Times(f, x, n) == Times(g, x, n)
    decreases n
  {
    if n > 0 {
      TimesSame(f, g, f(x), n - 1);
    }
  }

  lemma {:induction false} TimesInjective<T(!new)>(f: T -> T, x: T, y: T, n: nat)
    requires IsInjective(f)
    requires Times(f, x, n) == Times(f, y, n)
    ensures x == y
    decreases n
  {
    if n > 0 {
      TimesInjective(f, f(x), f(y), n - 1);
    }
  }

  /** Equal bits keep different registers different, if each step does. */
  lemma {:induction false} FoldInjective<T(!new), B(!new)>(step: (T, B) -> T, x: T, y: T, bits: seq<B>)
    requires forall a, b, bit :: step(a, bit) == step(b, bit) ==> a == b
    requires Fold(step, x, bits) == Fold(step, y, bits)
    ensures x == y
    decreases |bits|
  {
    if bits != [] {
      FoldInjective(step, step(x, bits[0]), step(y, bits[0]), bits[1..]);
    }
  }

  lemma {:induction false} BitsOfInjective<T(!new), B>(low: T -> B, down: T -> T, x: T, y: T, n: nat)
    requires forall a, b :: low(a) == low(b) && down(a) == down(b) ==> a == b
    requires BitsOf(low, down, x, n) == BitsOf(low, down, y, n) && Times(down, x, n) == Times(down, y, n)
    ensures x == y
    decreases n
  {
    if n > 0 {
      var s, t := BitsOf(low, down, x, n), BitsOf(low, down, y, n);
      assert s[1..] == BitsOf(low, down, down(x), n - 1) && t[1..] == BitsOf(low, down, down(y), n - 1);
      assert s[0] == low(x) && t[0] == low(y);
      BitsOfInjective(low, down, down(x), down(y), n - 1);
    }
  }

  lemma CutOut<B>(s: seq<B>, k: nat, n: nat)
    requires k + n <= |s|
    ensures s == s[..k] + (s[k..k + n] + s[k + n..])
  {
  }

  /** Windows of bits between equal bits: they matter exactly as they do on their own. */
  lemma FoldWindow<T, B>(step: (T, B) -> T, c: T, a: seq<B>, w: seq<B>, z: seq<B>)
    ensures Fold(step, c, a + (w + z)) == Fold(step, Fold(step, Fold(step, c, a), w), z)
  {
    FoldConcat(step, c, a, w + z);
    FoldConcat(step, Fold(step, c, a), w, z);
  }

  /** A word combined with the register at once: when none of its bits are left after n
      shifts, feeding them one by one is shifting the combination n times. */
  lemma WordAtOnce<S(!new), T(!new), B>(step: (T, B) -> T, low: S -> B, down: S -> S, widen: S -> T, low': T -> B,
                                        down': T -> T,
                                        shift: T -> T, xor: (T, T) -> T, none: T, crc: T, w: S, n: nat)
    requires Commutes(step, low', down', shift, xor)
    requires Widens(low, down, low', down', widen)
    requires Times(down', widen(w), n) == none && Neutral(xor, none)
    ensures Fold(step, crc, BitsOf(low, down, w, n)) == Times(shift, xor(crc, widen(w)), n)
  {
    BitsOfWider(low, down, low', down', widen, w, n);
    AtOnce(step, low', down', shift, xor, crc, widen(w), n);
  }

  /** An inverted register, inverted back when it is used as a seed, goes on where it was. */
  lemma InvertedSeed<T(!new), B>(step: (T, B) -> T, invert: T -> T, seed: T, a: seq<B>, b: seq<B>)
    requires forall x :: invert(invert(x)) == x
    ensures invert(Fold(step, invert(seed), a + b))
         == invert(Fold(step, invert(invert(Fold(step, invert(seed), a))), b))
  {
    FoldConcat(step, invert(seed), a, b);
  }
}
