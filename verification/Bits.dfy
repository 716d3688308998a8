/**
 Bit strings, most significant bit first, and the 32-bit words that the bit readers keep
 them in.  The lemmas translate each shift of a word into an operation on its bits.
 */
module Bits {
  import opened Powers

  type u32 = x: int | 0 <= x < 0x1_0000_0000

  type byte = b: int | 0 <= b < 256

  /** The number a bit string denotes. */
  function Val(s: seq<bool>): (v: nat)
    decreases |s|
  {
    if s == [] then 0 else 2 * Val(s[..|s| - 1]) + (if s[|s| - 1] then 1 else 0)
  }

  /** The n low bits of a number. */
  function BitsOf(x: nat, n: nat): (s: seq<bool>)
    ensures |s| == n
    decreases n
  {
    if n == 0 then [] else BitsOf(x / 2, n - 1) + [x % 2 == 1]
  }

  function Zeros(n: nat): (s: seq<bool>)
    ensures |s| == n
  {
    seq(n, _ => false)
  }

  lemma EmptyVal()
    ensures Val([]) == 0
  {
  }

  lemma {:induction false} ValBound(s: seq<bool>)
    ensures Val(s) < Pow2(|s|)
    decreases |s|
  {
    if s != [] {
      ValBound(s[..|s| - 1]);
    }
  }

  lemma {:induction false} ValJoin(a: seq<bool>, b: seq<bool>)
    ensures Val(a + b) == Val(a) * Pow2(|b|) + Val(b)
    decreases |b|
  {
    if b == [] {
      assert a + b == a;
    } else {
      var front := b[..|b| - 1];
      ValJoin(a, front);
      assert (a + b)[..|a + b| - 1] == a + front;
      DoubleProduct(Val(a), Pow2(|b| - 1));
    }
  }

  lemma {:induction false} ValZeros(n: nat)
    ensures Val(Zeros(n)) == 0
  {
    if n > 0 {
      ValZeros(n - 1);
      assert Zeros(n)[..n - 1] == Zeros(n - 1);
    }
  }

  lemma LeadingZeros(n: nat, s: seq<bool>)
    ensures Val(Zeros(n) + s) == Val(s)
  {
    ValJoin(Zeros(n), s);
    ValZeros(n);
  }

  /** Dropping the last k bits divides, keeping them takes the remainder. */
  lemma ValSplit(s: seq<bool>, k: nat)
    requires k <= |s|
    ensures Val(s) / Pow2(k) == Val(s[..|s| - k]) && Val(s) % Pow2(k) == Val(s[|s| - k..])
  {
    hide Val, Pow2;
    var a, b := s[..|s| - k], s[|s| - k..];
    assert s == a + b;
    ValJoin(a, b);
    ValBound(b);
    DivUnique(Val(s), Pow2(k), Val(a), Val(b));
  }

  lemma {:induction false} ValOfBits(x: nat, n: nat)
    ensures Val(BitsOf(x, n)) == x % Pow2(n)
    decreases n
  {
    if n > 0 {
      ValOfBits(x / 2, n - 1);
      var s := BitsOf(x, n);
      assert s[..n - 1] == BitsOf(x / 2, n - 1);
      ModDouble(x, Pow2(n - 1));
    }
  }

  lemma ModDouble(x: nat, p: nat)
    requires p >= 1
    ensures x % (2 * p) == 2 * (x / 2 % p) + x % 2
  {
    var h := x / 2;
    assert h == (h / p) * p + h % p;
    var q := h / p;
    assert x == q * (2 * p) + (2 * (h % p) + x % 2);
    DivUnique(x, 2 * p, q, 2 * (h % p) + x % 2);
  }

  lemma {:induction false} BitsOfVal(s: seq<bool>)
    ensures BitsOf(Val(s), |s|) == s
    decreases |s|
  {
    if s != [] {
      BitsOfVal(s[..|s| - 1]);
    }
  }

  lemma {:induction false} JoinBits(hi: nat, lo: nat, m: nat, n: nat)
    requires lo < Pow2(n)
    ensures BitsOf(hi * Pow2(n) + lo, m + n) == BitsOf(hi, m) + BitsOf(lo, n)
  {
    if n > 0 {
      JoinBits(hi, lo / 2, m, n - 1);
      DoubleProduct(hi, Pow2(n - 1));
      assert (hi * Pow2(n) + lo) / 2 == hi * Pow2(n - 1) + lo / 2;
    }
  }

  // ------------------------------------------------------------------ words

  /** x << k in 32 bits. */
  function Shl(x: u32, k: nat): u32
    requires k <= 31
  {
    x * Pow2(k) % 0x1_0000_0000
  }

  /** x >> k. */
  function Shr(x: u32, k: nat): (r: u32)
    requires k <= 31
    ensures r == x / Pow2(k)
  {
    DivStaysInside(x, Pow2(k));
    x / Pow2(k)
  }

  /** hi | lo, where the two have no bit in common: the n low bits of hi are zero. */
  function Or(hi: u32, lo: u32, ghost n: nat): (r: u32)
    requires n <= 32 && hi % Pow2(n) == 0 && lo < Pow2(n)
    ensures r == hi + lo
  {
    NoCarry(hi, lo, n);
    hi + lo
  }

  lemma NoCarry(hi: u32, lo: u32, n: nat)
    requires n <= 32 && hi % Pow2(n) == 0 && lo < Pow2(n)
    ensures hi + lo < 0x1_0000_0000
  {
    hide Pow2;
    Pow2Values();
    Pow2Add(32 - n, n);
    NoCarryArith(hi, lo, hi / Pow2(n), Pow2(n), Pow2(32 - n));
  }

  lemma NoCarryArith(hi: int, lo: int, h: int, p: int, q: int)
    requires p >= 1 && hi == h * p && hi < q * p && lo < p
    ensures hi + lo < q * p
  {
    LessFromProduct(h, q, p);
    MulMonotonic(h + 1, q, p);
    assert (h + 1) * p == h * p + p;
  }

  /** The 32 bits of a word. */
  function Word(s: seq<bool>): (w: u32)
    requires |s| <= 32
    ensures w == Val(s)
  {
    ValBound(s);
    Pow2Monotonic(|s|, 32);
    Pow2Values();
    Val(s)
  }

  lemma ShrBits(s: seq<bool>, k: nat)
    requires |s| == 32 && k <= 31
    ensures Shr(Word(s), k) == Val(s[..32 - k])
  {
    ValSplit(s, k);
  }

  lemma ShlBits(s: seq<bool>, k: nat)
    requires |s| == 32 && k <= 31
    ensures Shl(Word(s), k) == Val(s[k..] + Zeros(k))
  {
    hide Val, Pow2;
    var t := s + Zeros(k);
    ValJoin(s, Zeros(k));
    ValZeros(k);
    ValSplit(t, 32);
    Pow2Values();
    assert t[|t| - 32..] == s[k..] + Zeros(k);
  }

  /** A field of n bits at the top of the bl low bits of a word, cut out by two shifts. */
  lemma FieldOfWord(s: seq<bool>, bl: nat, n: nat)
    requires |s| == 32 && 1 <= n <= bl <= 32
    ensures Shr(Shl(Word(s), 32 - bl), 32 - n) == Val(s[32 - bl..32 - bl + n])
  {
    ShlBits(s, 32 - bl);
    var t := s[32 - bl..] + Zeros(32 - bl);
    assert Shl(Word(s), 32 - bl) == Word(t);
    ShrBits(t, 32 - n);
    assert t[..n] == s[32 - bl..32 - bl + n];
  }

  /** (a << n) | b joins two bit strings. */
  lemma JoinFields(a: seq<bool>, b: seq<bool>)
    requires |a| + |b| <= 32 && |b| <= 31
    ensures Shl(Word(a), |b|) == Val(a) * Pow2(|b|)
    ensures Shl(Word(a), |b|) % Pow2(|b|) == 0 && Word(b) < Pow2(|b|)
    ensures Or(Shl(Word(a), |b|), Word(b), |b|) == Val(a + b)
  {
    hide Val, Pow2;
    ValJoin(a, b);
    ValBound(b);
    ShlExact(a, |b|);
    MultipleMod(Val(a), Pow2(|b|));
  }

  lemma ShlExact(a: seq<bool>, k: nat)
    requires |a| + k <= 32 && k <= 31
    ensures Shl(Word(a), k) == Val(a) * Pow2(k)
  {
    hide Val, Pow2;
    ValJoin(a, Zeros(k));
    ValZeros(k);
    var w := Word(a + Zeros(k));
  }

  lemma MultipleMod(a: nat, p: nat)
    requires p >= 1
    ensures a * p % p == 0
  {
    DivUnique(a * p, p, a, 0);
  }
}
