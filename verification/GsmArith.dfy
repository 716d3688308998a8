/**
 Fixed-point arithmetic of the GSM 06.10 codec: the macros of private.h and the
 routines of add.c.

 A `word` is the 16-bit type of the codec and a `longword` its 32-bit accumulator.
 Both are newtypes, so every operation on them is a proof that the C operation does
 not overflow.  Where the C code does truncate, `Wrap16` says so.
 */
module GsmArith {
  import opened Powers

  newtype word = x: int | -32768 <= x <= 32767
  newtype longword = x: int | -0x8000_0000 <= x <= 0x7fff_ffff

  /** The samples of a sub-frame. */
  type Subframe = s: seq<word> | |s| == 40 witness seq(40, _ => 0)

  const MIN_WORD: word := -32768
  const MAX_WORD: word := 32767

  /** Storing an int in a 16-bit word: two's complement truncation. */
  function Wrap16(x: int): word {
    ((x + 32768) % 65536 - 32768) as word
  }

  /** The portable arithmetic right shift of private.h: the bits of a negative
      number are complemented, shifted and complemented back. */
  function Sasr(x: int, n: nat): (r: int) {
    if x >= 0 then x / Pow2(n) else -((-(x + 1)) / Pow2(n)) - 1
  }

  /** It is the division that rounds down, for both signs. */
  lemma SasrIsFloor(x: int, n: nat)
    ensures Sasr(x, n) == x / Pow2(n)
  {
    if x < 0 {
      var p, y := Pow2(n), -(x + 1);
      assert (-(y / p) - 1) * p == -((y / p) * p) - p;
      DivUnique(x, p, -(y / p) - 1, p - 1 - y % p);
    }
  }

  /** GSM_ADD and gsm_add: 16-bit addition that saturates. */
  function Add(a: word, b: word): word { Saturate(a as int + b as int) }

  /** GSM_SUB and gsm_sub. */
  function Sub(a: word, b: word): word { Saturate(a as int - b as int) }

  function Saturate(x: int): word {
    if x < -32768 then MIN_WORD else if x > 32767 then MAX_WORD else x as word
  }

  /** Truncation keeps a number modulo 65536. */
  lemma Wrap16Congruent(x: int)
    ensures (Wrap16(x) as int - x) % 65536 == 0
    ensures Wrap16(x) as int == x <==> -32768 <= x <= 32767
  {
    var y := x + 32768;
    assert y == y / 65536 * 65536 + y % 65536;
    DivUnique(y % 65536 - y, 65536, -(y / 65536), 0);
  }

  /** Saturation yields the word that lies nearest. */
  lemma SaturateNearest(x: int, w: word)
    ensures Distance(Saturate(x) as int, x) <= Distance(w as int, x)
    ensures Saturate(x) as int == x <==> -32768 <= x <= 32767
  {
  }

  function Distance(a: int, b: int): int { if a < b then b - a else a - b }

  function Magnitude(a: word): int { if a < 0 then -(a as int) else a as int }

  /** GSM_ABS: the most negative word has no negation and is mapped to the largest one. */
  function Abs(a: word): (r: word)
    ensures 0 <= r
  {
    if a < 0 then (if a == MIN_WORD then MAX_WORD else -a) else a
  }

  lemma AbsIsMagnitude(a: word)
    ensures Abs(a) == Saturate(Magnitude(a))
  {
  }

  /** The largest magnitude in a signal. */
  function MaxAbs(s: seq<word>): (m: word)
    ensures 0 <= m
    ensures forall i :: 0 <= i < |s| ==> Abs(s[i]) <= m
    ensures m == 0 || exists i :: 0 <= i < |s| && m == Abs(s[i])
  {
    if s == [] then 0
    else
      var m := MaxAbs(s[..|s| - 1]);
      var temp := Abs(s[|s| - 1]);
      if temp > m then temp else m
  }

  /** The search for it, which starts the scaling of a signal, of a sub-frame and of a
      pulse sequence. */
  method FindMaxAbs(s: array<word>) returns (smax: word)
    ensures smax == MaxAbs(s[..])
  {
    smax := 0;
    for k := 0 to s.Length
      invariant smax == MaxAbs(s[..k])
    {
      var temp := Abs(s[k]);
      assert s[..k + 1][..k] == s[..k];
      if temp > smax { smax := temp; }
    }
    assert s[..] == s[..s.Length];
  }

  /** The rounded product before it is stored in a word. */
  function RoundedProduct(a: word, b: word): int { (a as int * b as int + 16384) / 32768 }

  /** GSM_MULT_R as the encoder uses it: no special case, the result is truncated to a word. */
  function MultR(a: word, b: word): word { Wrap16(RoundedProduct(a, b)) }

  /** gsm_mult_r, also written out in the synthesis filter: MIN_WORD * MIN_WORD saturates. */
  function MultRSat(a: word, b: word): word {
    if a == MIN_WORD && b == MIN_WORD then MAX_WORD else Wrap16(RoundedProduct(a, b) % 65536)
  }

  /** GSM_MULT as the encoder uses it, and gsm_mult. */
  function Mult(a: word, b: word): word { Wrap16((a as int * b as int) / 32768) }

  /** The rounded product is the nearest multiple, and gsm_mult the one below. */
  lemma ProductsAre(a: word, b: word)
    ensures -16384 <= 32768 * RoundedProduct(a, b) - a as int * b as int <= 16384
    ensures a != MIN_WORD || b != MIN_WORD
            ==> 32768 * Mult(a, b) as int <= a as int * b as int < 32768 * (Mult(a, b) as int + 1)
  {
    var p := a as int * b as int;
    if a != MIN_WORD {
      ProductBound(a as int, b as int, 32767, 32768);
      WrapBack(p / 32768);
    } else if b != MIN_WORD {
      ProductBound(a as int, b as int, 32768, 32767);
      WrapBack(p / 32768);
    }
  }

  /** The rounded product fits a word, and the two multiplications agree, except on
      the one pair MIN_WORD, MIN_WORD. */
  lemma MultRExact(a: word, b: word)
    ensures a != MIN_WORD || b != MIN_WORD
            ==> MultR(a, b) == MultRSat(a, b) && MultR(a, b) as int == RoundedProduct(a, b)
    ensures a == b == MIN_WORD
            ==> MultR(a, b) == MIN_WORD && MultRSat(a, b) == MAX_WORD
  {
    if a != MIN_WORD {
      ProductBound(a as int, b as int, 32767, 32768);
      RoundedFits(a as int * b as int);
    } else if b != MIN_WORD {
      ProductBound(a as int, b as int, 32768, 32767);
      RoundedFits(a as int * b as int);
    }
  }

  lemma RoundedFits(x: int)
    requires -32767 * 32768 <= x <= 32767 * 32768
    ensures var r := (x + 16384) / 32768; Wrap16(r) as int == r && Wrap16(r % 65536) as int == r
  {
    var r := (x + 16384) / 32768;
    assert -32768 <= r <= 32767;
    WrapBack(r);
  }

  lemma WrapBack(r: int)
    requires -32768 <= r <= 32767
    ensures Wrap16(r) as int == r && Wrap16(r % 65536) as int == r
  {
  }

  /** SASR of a word. */
  function ShiftRight(a: word, n: nat): (r: word)
    ensures r as int == a as int / Pow2(n)
  {
    SasrIsFloor(a as int, n);
    assert -32768 <= a as int / Pow2(n) <= 32767 by {
      DivStaysInside(a as int, Pow2(n));
    }
    Sasr(a as int, n) as word
  }

  /** gsm_asr: an arithmetic shift right, to the left for a negative count. */
  function Asr(a: word, n: int): word {
    if n >= 16 then (if a < 0 then -1 else 0)
    else if n <= -16 then 0
    else if n < 0 then Wrap16(a as int * Pow2(-n))
    else ShiftRight(a, n)
  }

  /** gsm_asl: a shift left, to the right for a negative count. */
  function Asl(a: word, n: int): word {
    if n >= 16 then 0
    else if n <= -16 then (if a < 0 then -1 else 0)
    else if n < 0 then Asr(a, -n)
    else Wrap16(a as int * Pow2(n))
  }

  /** For every count gsm_asr is the division that rounds down, or the truncated product, and
      gsm_asl is gsm_asr of the opposite count. */
  lemma ShiftsAre(a: word, n: nat)
    ensures Asr(a, n) as int == a as int / Pow2(n)
    ensures var left: int := -(n as int);
            && (n > 0 ==> Asr(a, left) == Wrap16(a as int * Pow2(n)))
            && Asl(a, n) == Asr(a, left) && Asl(a, left) == Asr(a, n)
  {
    hide Wrap16, ShiftRight;
    if n >= 16 {
      Pow2Add(16, n - 16);
      Pow2Values();
      hide Pow2;
      FarShift(a as int, Pow2(n), Pow2(n - 16));
    } else if n == 0 {
      assert Wrap16(a as int * Pow2(0)) == a by { WrapBack(a as int); }
    }
  }

  lemma FarShift(a: int, p: int, q: int)
    requires -32768 <= a <= 32767 && q >= 1 && p == 65536 * q
    ensures a / p == if a < 0 then -1 else 0
    ensures Wrap16(a * p) == 0
  {
    if a < 0 {
      DivUnique(a, p, -1, a + p);
    } else {
      DivUnique(a, p, 0, a);
    }
    assert a * p == 65536 * (a * q);
    Wrap16OfMultiple(a * q);
  }

  lemma Wrap16OfMultiple(k: int)
    ensures Wrap16(65536 * k) == 0
  {
    DivUnique(65536 * k + 32768, 65536, k, 32768);
  }

  /** The entries of bitoff: the number of leading zeros of a byte. */
  function BitOff(i: int): (b: int)
    requires 0 <= i < 256
    ensures i == 0 ==> b == 8
    ensures i > 0 ==> 0 <= b <= 7 && 128 <= i * Pow2(b) < 256
  {
    if i == 0 then 8 else if i < 2 then 7 else if i < 4 then 6 else if i < 8 then 5
    else if i < 16 then 4 else if i < 32 then 3 else if i < 64 then 2 else if i < 128 then 1 else 0
  }

  /** gsm_norm: the left shifts that normalise a 32-bit number. */
  function Norm(a: longword): (n: nat)
    requires a != 0
    ensures n <= 31
  {
    if a < 0 then
      if a <= -1073741824 then 0 else Norm32(-(a as int) - 1)
    else Norm32(a as int)
  }

  function Norm32(a: int): (n: nat)
    requires 0 <= a <= 0x7fff_ffff
    ensures n <= 31
  {
    if a >= 0x1_0000 then
      if a >= 0x100_0000 then -1 + BitOff(a / 0x100_0000) else 7 + BitOff(a / 0x1_0000)
    else
      if a >= 0x100 then 15 + BitOff(a / 0x100) else 23 + BitOff(a)
  }

  /** The plain definition: doublings until the top bit below the sign is set. */
  function Doublings(a: int): (n: nat)
    requires 0 <= a <= 0x7fff_ffff
    decreases 0x8000_0000 - a
  {
    if a >= 0x4000_0000 then 0 else 1 + (if a == 0 then 30 else Doublings(2 * a))
  }

  /** The byte-wise table search counts the doublings. */
  lemma {:induction false} Norm32IsDoublings(a: int)
    requires 0 <= a <= 0x7fff_ffff
    ensures Norm32(a) == Doublings(a)
    decreases 0x8000_0000 - a
  {
    if 0 < a < 0x4000_0000 {
      assert Norm32(a) == Norm32(2 * a) + 1;
      Norm32IsDoublings(2 * a);
    }
  }

  lemma {:induction false} DoublingsNormalise(a: int)
    requires 0 < a <= 0x7fff_ffff
    ensures 0x4000_0000 <= a * Pow2(Doublings(a)) < 0x8000_0000
    decreases 0x8000_0000 - a
  {
    if a < 0x4000_0000 {
      DoublingsNormalise(2 * a);
      var p := Pow2(Doublings(2 * a));
      assert (2 * a) * p == a * (2 * p);
    }
  }

  /** A complemented number doubles to an odd one; one unit more still fits. */
  lemma {:induction false} DoublingsCeiling(b: int)
    requires 0 <= b <= 0x7fff_ffff
    ensures (b + 1) * Pow2(Doublings(b)) <= 0x8000_0000
    decreases 0x8000_0000 - b
  {
    if b < 0x4000_0000 {
      DoublingsCeiling(2 * b + 1);
      DoublingsOdd(b);
      var p := Pow2(Doublings(2 * b + 1));
      assert (2 * b + 1 + 1) * p == (b + 1) * (2 * p);
    }
  }

  lemma {:induction false} DoublingsOdd(b: int)
    requires 0 <= b < 0x4000_0000
    ensures Doublings(b) == 1 + Doublings(2 * b + 1)
  {
    if b == 0 {
      Norm32IsDoublings(1);
    } else {
      Norm32IsDoublings(b);
      Norm32IsDoublings(2 * b + 1);
    }
  }

  /** What gsm_norm promises: the shifted number lies in the upper half of its range. */
  lemma NormNormalises(a: longword)
    requires a != 0
    ensures a > 0 ==> 0x4000_0000 <= a as int * Pow2(Norm(a)) < 0x8000_0000
    ensures a < 0 ==> -0x8000_0000 <= a as int * Pow2(Norm(a)) <= -0x4000_0000
  {
    if a > 0 {
      Norm32IsDoublings(a as int);
      DoublingsNormalise(a as int);
    } else if a > -1073741824 {
      var b := -(a as int) - 1;
      Norm32IsDoublings(b);
      var n := Doublings(b);
      DoublingsCeiling(b);
      if b == 0 {
        Pow2Values();
      } else {
        DoublingsNormalise(b);
      }
      NegatedScale(b, Pow2(n));
    }
  }

  /** The quotient gsm_div promises: 15 fractional bits, rounded down, and a full
      word when the operands are equal. */
  function Quotient(num: word, denum: word): (q: word)
    requires 0 <= num <= denum
    ensures 0 <= q
  {
    if num == 0 then 0
    else if num == denum then MAX_WORD
    else
      QuotientBound(num as int, denum as int);
      (num as int * 32768 / denum as int) as word
  }

  lemma QuotientBound(num: int, denum: int)
    requires 0 <= num < denum
    ensures 0 <= num * 32768 / denum <= 32767
  {
    var q := num * 32768 / denum;
    MulMonotonic(32768, q, denum);
    MulMonotonic(q, -1, denum);
  }

  /** The quotient by its remainder. */
  lemma QuotientIs(num: word, denum: word)
    requires 0 <= num <= denum
    ensures var q := Quotient(num, denum) as int;
            && (num < denum ==> q * denum as int <= 32768 * num as int < (q + 1) * denum as int)
            && (num == denum > 0 ==> q == 32767)
            && (num == 0 ==> q == 0)
  {
    if 0 < num < denum {
      var n, d := num as int * 32768, denum as int;
      assert n == n / d * d + n % d;
    }
  }

  /** gsm_div: fifteen steps of restoring division. */
  method Div(num: word, denum: word) returns (div: word)
    requires 0 <= num <= denum
    ensures div == Quotient(num, denum)
  {
    var L_num, L_denum := num as longword, denum as longword;
    div := 0;
    var k := 15;
    if num == 0 {
      return 0;
    }
    Pow2Values();
    while k > 0
      invariant 0 <= k <= 15
      invariant DivState(num, denum, div as int, L_num as int, 15 - k)
    {
      k := k - 1;
      DivStep(num, denum, div as int, L_num as int, 14 - k);
      div := 2 * div;
      L_num := 2 * L_num;
      if L_num >= L_denum {
        L_num := L_num - L_denum;
        div := div + 1;
      }
    }
    QuotientUnique(num, denum, div as int, L_num as int);
  }

  /** After t steps, div holds t bits of the quotient and rem what is left to divide. */
  ghost predicate DivState(num: word, denum: word, div: int, rem: int, t: nat) {
    && 0 <= num <= denum
    && 0 <= div < Pow2(t)
    && div * denum as int + rem == num as int * Pow2(t)
    && 0 <= rem <= denum as int
    && (rem == denum as int <==> num == denum)
  }

  lemma DivStep(num: word, denum: word, div: int, rem: int, t: nat)
    requires t <= 14 && DivState(num, denum, div, rem, t)
    ensures 2 * div + 1 <= 32767 && 2 * rem <= 65534
    ensures if 2 * rem >= denum as int then DivState(num, denum, 2 * div + 1, 2 * rem - denum as int, t + 1)
            else DivState(num, denum, 2 * div, 2 * rem, t + 1)
  {
    hide Pow2;
    PowerOfStep(t);
    DivStepArith(num as int, denum as int, div, rem, Pow2(t));
  }

  lemma PowerOfStep(t: nat)
    requires t <= 14
    ensures 1 <= Pow2(t) <= 16384 && Pow2(t + 1) == 2 * Pow2(t)
  {
    Pow2Values();
    Pow2Monotonic(t, 14);
  }

  lemma DivStepArith(num: int, denum: int, div: int, rem: int, p: int)
    requires div * denum + rem == num * p
    ensures (2 * div) * denum + 2 * rem == num * (2 * p)
    ensures (2 * div + 1) * denum + (2 * rem - denum) == num * (2 * p)
  {
    assert num * (2 * p) == 2 * (num * p);
    assert (2 * div) * denum == 2 * (div * denum);
    assert (2 * div + 1) * denum == (2 * div) * denum + denum;
  }

  lemma QuotientUnique(num: word, denum: word, div: int, rem: int)
    requires 0 < num && DivState(num, denum, div, rem, 15)
    ensures div == Quotient(num, denum) as int
  {
    Pow2Values();
    if num == denum {
      assert (div + 1 - 32768) * denum as int == 0;
      MultipleInGap(div + 1 - 32768, denum as int);
    } else {
      DivUnique(num as int * 32768, denum as int, div, rem);
    }
  }
}
