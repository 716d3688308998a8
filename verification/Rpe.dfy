/**
 Regular-pulse excitation coding (rpe.c, sections 4.2.13 to 4.2.17 of GSM 06.10):
 weighting filter, grid selection, block-adaptive quantization of the thirteen pulses
 and their reconstruction.
 */
module Rpe {
  import opened Powers
  import opened GsmArith

  // ------------------------------------------------------------------ the peak code

  const NRFAC: seq<word> := [29128, 26215, 23832, 21846, 20165, 18725, 17476, 16384]
  const FAC: seq<word> := [18431, 20479, 22527, 24575, 26623, 28671, 30719, 32767]

  /** Where the interval of a peak code ends: 16 uniform intervals of 32, then eight per octave. */
  function PeakEnd(code: int): nat
    requires -1 <= code <= 63
  {
    if code <= 15 then 32 * (code + 1)
    else if code <= 23 then 64 * (code - 16 + 9)
    else if code <= 31 then 128 * (code - 24 + 9)
    else if code <= 39 then 256 * (code - 32 + 9)
    else if code <= 47 then 512 * (code - 40 + 9)
    else if code <= 55 then 1024 * (code - 48 + 9)
    else 2048 * (code - 56 + 9)
  }

  /** The block exponent: how many of six halvings of xmax >> 9 leave something. */
  function BlockExponent(xmax: word): (e: nat)
    requires 0 <= xmax
    ensures e <= 6
  {
    if xmax < 512 then 0 else if xmax < 1024 then 1 else if xmax < 2048 then 2
    else if xmax < 4096 then 3 else if xmax < 8192 then 4 else if xmax < 16384 then 5 else 6
  }

  function PeakCode(xmax: word): word
    requires 0 <= xmax
  {
    var e := BlockExponent(xmax);
    DivStaysInside(xmax as int, Pow2(e + 5));
    Add((xmax as int / Pow2(e + 5)) as word, e as word * 8)
  }

  /** The code names the interval that holds the peak, and the intervals tile the range. */
  lemma PeakCodeInterval(xmax: word)
    requires 0 <= xmax
    ensures 0 <= PeakCode(xmax) <= 63
    ensures PeakEnd(PeakCode(xmax) as int - 1) <= xmax as int < PeakEnd(PeakCode(xmax) as int)
  {
    assert Pow2(5) == 32 && Pow2(6) == 64 && Pow2(7) == 128 && Pow2(8) == 256;
    assert Pow2(9) == 512 && Pow2(10) == 1024 && Pow2(11) == 2048;
    var e := BlockExponent(xmax);
    if e == 0 {
    } else if e == 1 {
    } else if e == 2 {
    } else if e == 3 {
    } else if e == 4 {
    } else if e == 5 {
    } else {
    }
  }

  /** Exponent and mantissa of a decoded peak. */
  datatype Peak = Peak(exp: word, mant: word)

  predicate ProperPeak(p: Peak) {
    -4 <= p.exp <= 6 && 0 <= p.mant <= 7
  }

  /** The loop that shifts ones into the mantissa until its top bit is set. */
  function NormalisePeak(exp: word, mant: word): (p: Peak)
    requires 1 <= mant <= 15 && -4 <= exp <= 6
    requires mant <= 7 ==> exp >= (if mant >= 4 then -3 else if mant >= 2 then -2 else -1)
    decreases 15 - mant
  {
    if mant <= 7 then NormalisePeak(exp - 1, mant * 2 + 1) else Peak(exp, mant - 8)
  }

  function DecodePeak(xmaxc: word): (p: Peak)
    requires 0 <= xmaxc <= 63
  {
    var exp: word := if xmaxc > 15 then xmaxc / 8 - 1 else 0;
    var mant := xmaxc - exp * 8;
    if mant == 0 then Peak(-4, 7) else NormalisePeak(exp, mant)
  }

  /** Decoding finds the interval again: its end is (mant + 9) * 2^(exp + 5). */
  lemma DecodedPeakInterval(xmaxc: word)
    requires 0 <= xmaxc <= 63
    ensures var p := DecodePeak(xmaxc);
            ProperPeak(p) && PeakEnd(xmaxc as int) * Pow2(6 - p.exp as int) == (p.mant as int + 9) * 2048
  {
    if xmaxc <= 15 {
      DecodedLow(xmaxc);
    } else {
      DecodedHigh(xmaxc);
    }
  }

  lemma DecodedLow(xmaxc: word)
    requires 0 <= xmaxc <= 15
    ensures var p := DecodePeak(xmaxc);
            ProperPeak(p) && PeakEnd(xmaxc as int) * Pow2(6 - p.exp as int) == (p.mant as int + 9) * 2048
  {
    assert Pow2(6) == 64 && Pow2(7) == 128 && Pow2(8) == 256 && Pow2(9) == 512 && Pow2(10) == 1024;
    hide Pow2;
    if xmaxc == 0 {
    } else if xmaxc == 1 {
      assert DecodePeak(1) == Peak(-3, 7);
    } else if xmaxc <= 3 {
      assert DecodePeak(xmaxc) == Peak(-2, 4 * xmaxc + 3 - 8);
    } else if xmaxc <= 7 {
      assert DecodePeak(xmaxc) == Peak(-1, 2 * xmaxc + 1 - 8);
    } else {
      assert DecodePeak(xmaxc) == Peak(0, xmaxc - 8);
    }
  }

  lemma DecodedHigh(xmaxc: word)
    requires 16 <= xmaxc <= 63
    ensures var p := DecodePeak(xmaxc);
            ProperPeak(p) && PeakEnd(xmaxc as int) * Pow2(6 - p.exp as int) == (p.mant as int + 9) * 2048
  {
    SmallPowers();
    hide Pow2;
    var e := xmaxc / 8 - 1;
    assert DecodePeak(xmaxc) == Peak(e, xmaxc - e * 8 - 8);
    if e == 1 {
    } else if e == 2 {
    } else if e == 3 {
    } else if e == 4 {
    } else if e == 5 {
    } else {
    }
  }

  /** The largest peak. */
  lemma LargestPeak()
    ensures PeakCode(32767) == 63 && DecodePeak(63) == Peak(6, 7) && PeakEnd(62) <= 32767
  {
    assert Pow2(11) == 2048;
  }

  // ------------------------------------------------------------------ pulses

  /** The three-bit code of a pulse that was shifted up by 6 - exp. */
  function ScaledCode(v: word, mant: word): word
    requires 0 <= mant <= 7
  {
    (Mult(v, NRFAC[mant]) as int / 4096) as word + 4
  }

  /** The value a code stands for, on the same scale. */
  function ScaledValue(c: word, mant: word): word
    requires 0 <= mant <= 7 && 0 <= c <= 7
  {
    MultR(FAC[mant], (2 * c - 7) * 4096)
  }

  function QuantizeSample(x: word, p: Peak): word
    requires ProperPeak(p)
  {
    ScaledCode(Wrap16(x as int * Pow2(6 - p.exp as int)), p.mant)
  }

  function DequantizeSample(c: word, p: Peak): word
    requires ProperPeak(p) && 0 <= c <= 7
  {
    var temp2 := Sub(6, p.exp);
    var temp3 := Asl(1, Sub(temp2, 1) as int);
    Asr(Add(ScaledValue(c, p.mant), temp3), temp2 as int)
  }

  /** A shifted pulse that lies under the decoded peak. */
  predicate Under(v: int, mant: word) {
    -(mant as int + 9) * 2048 < v < (mant as int + 9) * 2048 || (mant == 7 && v == -32768)
  }

  lemma ScaledCodeArith(v: int, mant: word, u: int, y: int)
    requires 0 <= mant <= 7 && Under(v, mant) && u == v * NRFAC[mant] as int / 32768
    requires y == (FAC[mant] as int * ((2 * (u / 4096 + 4) - 7) * 4096) + 16384) / 32768
    ensures -4 <= u / 4096 <= 3
    ensures -(256 * (mant as int + 9) + 1) <= v - y <= 256 * (mant as int + 9) + 1
  {
    if mant == 0 {
    } else if mant == 1 {
    } else if mant == 2 {
    } else if mant == 3 {
    } else if mant == 4 {
    } else if mant == 5 {
    } else if mant == 6 {
    } else {
    }
  }

  lemma ScaledValueRange(c: word, mant: word)
    requires 0 <= mant <= 7 && 0 <= c <= 7
    ensures ScaledValue(c, mant) as int == (FAC[mant] as int * ((2 * c as int - 7) * 4096) + 16384) / 32768
    ensures -28672 <= ScaledValue(c, mant) <= 28672
  {
    MultRExact(FAC[mant], (2 * c - 7) * 4096);
    assert 0 <= FAC[mant] <= 32767;
    ProductBound(FAC[mant] as int, (2 * c as int - 7) * 4096, 32767, 28672);
  }

  /** Every code is in 0..7, and stands for a value at most half a step and one unit away. */
  lemma ScaledCodeCorrect(v: word, mant: word)
    requires 0 <= mant <= 7 && Under(v as int, mant)
    ensures 0 <= ScaledCode(v, mant) <= 7
    ensures -(256 * (mant as int + 9) + 1) <= v as int - ScaledValue(ScaledCode(v, mant), mant) as int
            <= 256 * (mant as int + 9) + 1
  {
    hide Under, ScaledValue, MultR, Pow2;
    var u := v as int * NRFAC[mant] as int / 32768;
    var y := (FAC[mant] as int * ((2 * (u / 4096 + 4) - 7) * 4096) + 16384) / 32768;
    ScaledCodeArith(v as int, mant, u, y);
    assert Mult(v, NRFAC[mant]) as int == u;
    var c := ScaledCode(v, mant);
    ScaledValueRange(c, mant);
  }

  /** Half an output unit, as the source computes it with gsm_asl. */
  lemma HalfUnit(n: nat)
    requires n <= 10
    ensures Pow2(n) <= 1024
    ensures n == 0 ==> Asl(1, n - 1) == 0
    ensures n > 0 ==> Pow2(n) == 2 * Asl(1, n - 1) as int && Asl(1, n - 1) >= 1
  {
    assert Pow2(10) == 1024;
    Pow2Monotonic(n, 10);
    if n > 0 {
      AslOne(n - 1);
    } else {
      assert Pow2(1) == 2;
    }
  }

  lemma AslOne(k: nat)
    requires k <= 9
    ensures Asl(1, k) as int == Pow2(k)
  {
    assert Pow2(9) == 512;
    Pow2Monotonic(k, 9);
    hide Pow2, Wrap16;
    WrapBack(Pow2(k));
  }

  lemma ShiftCounts(exp: word)
    requires -4 <= exp <= 6
    ensures Sub(6, exp) as int == 6 - exp as int && Sub(Sub(6, exp), 1) as int == 5 - exp as int
  {
  }

  /** Rounding shift: what gsm_asr leaves after half a unit was added. */
  lemma RoundingShift(y: word, n: nat, xp: word)
    requires n <= 10 && -28672 <= y <= 28672 && xp == Asr(Add(y, Asl(1, n - 1)), n)
    ensures var e := 2 * (y as int - xp as int * Pow2(n));
            if n == 0 then e == 0 else -(Pow2(n) as int) <= e < Pow2(n)
  {
    HalfUnit(n);
    var P := Pow2(n);
    var half := Asl(1, n - 1) as int;
    var z := y as int + half;
    assert Add(y, Asl(1, n - 1)) as int == z;
    assert xp as int == z / P;
    FloorIdentity(z, P);
  }

  lemma FloorIdentity(z: int, P: nat)
    requires P >= 1
    ensures z - (P as int) < (z / P) * P <= z
  {
  }

  /** The distance between a pulse and its reconstruction, on the scale of the block exponent. */
  function ScaledDistance(x: word, xp: word, p: Peak): int
    requires ProperPeak(p)
  {
    (x as int - xp as int) * Pow2(6 - p.exp as int)
  }

  /** At most half a quantizer step and one output unit. */
  predicate Close(x: word, xp: word, p: Peak)
    requires ProperPeak(p)
  {
    var bound := 256 * (p.mant as int + 9) + Pow2(6 - p.exp as int);
    -bound <= ScaledDistance(x, xp, p) <= bound
  }

  /** Quantizing a pulse that lies under the peak, and reconstructing it. */
  lemma PulseError(x: word, p: Peak)
    requires ProperPeak(p) && Under(x as int * Pow2(6 - p.exp as int), p.mant)
    ensures 0 <= QuantizeSample(x, p) <= 7
    ensures Close(x, DequantizeSample(QuantizeSample(x, p), p), p)
  {
    hide Pow2, ScaledCode, ScaledValue, QuantizeSample, DequantizeSample, Asl, Asr, Add;
    var n := 6 - p.exp as int;
    var v := x as int * Pow2(n);
    assert -32768 <= v <= 32767;
    ScaledCodeCorrect(v as word, p.mant);
    var c := QuantizeSample(x, p);
    QuantizeUnfolded(x, p, v);
    ScaledValueRange(c, p.mant);
    DequantizeUnfolded(c, p);
    var y, xp := ScaledValue(c, p.mant), DequantizeSample(c, p);
    RoundingShift(y, n, xp);
    HalfUnit(n);
    Distribute(x as int, xp as int, Pow2(n));
  }

  lemma QuantizeUnfolded(x: word, p: Peak, v: int)
    requires ProperPeak(p) && v == x as int * Pow2(6 - p.exp as int) && -32768 <= v <= 32767
    ensures QuantizeSample(x, p) == ScaledCode(v as word, p.mant)
  {
    hide Pow2, ScaledCode;
  }

  lemma DequantizeUnfolded(c: word, p: Peak)
    requires ProperPeak(p) && 0 <= c <= 7
    ensures var n := 6 - p.exp as int;
            DequantizeSample(c, p) == Asr(Add(ScaledValue(c, p.mant), Asl(1, n - 1)), n)
  {
    ShiftCounts(p.exp);
  }

  lemma Distribute(a: int, b: int, c: int)
    ensures (a - b) * c == a * c - b * c
  {
  }

  lemma ScaledCodeStable(v: int, c: int, mant: word, y: int, u: int)
    requires 0 <= mant <= 7 && 0 <= c <= 7 && -512 <= v - y <= 512
    requires y == (FAC[mant] as int * ((2 * c - 7) * 4096) + 16384) / 32768
    requires u == v * NRFAC[mant] as int / 32768
    ensures u / 4096 + 4 == c && -32768 <= v <= 32767 && -32768 <= u <= 32767
  {
    if mant == 0 {
    } else if mant == 1 {
    } else if mant == 2 {
    } else if mant == 3 {
    } else if mant == 4 {
    } else if mant == 5 {
    } else if mant == 6 {
    } else {
    }
  }

  /** Each of the eight codes is the code of the pulse it is decoded to. */
  lemma PulseCodesAreFixed(c: word, p: Peak)
    requires ProperPeak(p) && 0 <= c <= 7
    ensures QuantizeSample(DequantizeSample(c, p), p) == c
  {
    var n := 6 - p.exp as int;
    ScaledValueRange(c, p.mant);
    var y, xp := ScaledValue(c, p.mant), DequantizeSample(c, p);
    DequantizeUnfolded(c, p);
    RoundingShift(y, n, xp);
    HalfUnit(n);
    FixedCode(xp as int * Pow2(n), c, p.mant, y);
  }

  lemma FixedCode(v: int, c: word, mant: word, y: word)
    requires 0 <= mant <= 7 && 0 <= c <= 7 && -512 <= v - y as int <= 512
    requires y as int == (FAC[mant] as int * ((2 * c as int - 7) * 4096) + 16384) / 32768
    ensures ScaledCode(Wrap16(v), mant) == c
  {
    var u := v * NRFAC[mant] as int / 32768;
    ScaledCodeStable(v, c as int, mant, y as int, u);
    assert Wrap16(v) as int == v;
  }

  // ------------------------------------------------------------------ blocks of thirteen pulses

  type Pulses = s: seq<word> | |s| == 13 witness [0, 0, 0, 0, 0, 0, 0, 0, 0, 0, 0, 0, 0]

  /** What is sent for a block: the peak code and the thirteen codes. */
  datatype CodedBlock = CodedBlock(xmaxc: word, xMc: Pulses)

  predicate ThreeBit(codes: seq<word>) {
    forall i :: 0 <= i < |codes| ==> 0 <= codes[i] <= 7
  }

  predicate InFields(b: CodedBlock) {
    0 <= b.xmaxc <= 63 && ThreeBit(b.xMc)
  }

  function QuantizeBlock(xM: Pulses): (b: CodedBlock) {
    hide PeakCode, DecodePeak, MaxAbs, Pow2, QuantizeSample;
    var xmaxc := PeakCode(MaxAbs(xM));
    PeakCodeInterval(MaxAbs(xM));
    var p := DecodePeak(xmaxc);
    DecodedPeakInterval(xmaxc);
    CodedBlock(xmaxc, seq(13, i requires 0 <= i < 13 => QuantizeSample(xM[i], p)))
  }

  function DequantizePulses(codes: Pulses, p: Peak): Pulses
    requires ThreeBit(codes) && ProperPeak(p)
  {
    seq(13, i requires 0 <= i < 13 => DequantizeSample(codes[i], p))
  }

  function DequantizeBlock(b: CodedBlock): Pulses
    requires InFields(b)
  {
    DecodedPeakInterval(b.xmaxc);
    DequantizePulses(b.xMc, DecodePeak(b.xmaxc))
  }

  /** No shift of a pulse by its block exponent overflows. */
  lemma PulseUnderPeak(x: word, xmax: word)
    requires Abs(x) <= xmax
    ensures 0 <= PeakCode(xmax) <= 63
    ensures var p := DecodePeak(PeakCode(xmax));
            ProperPeak(p) && Under(x as int * Pow2(6 - p.exp as int), p.mant)
  {
    hide PeakCode, DecodePeak, PeakEnd, Pow2, Under;
    PeakCodeInterval(xmax);
    var code := PeakCode(xmax);
    DecodedPeakInterval(code);
    var p := DecodePeak(code);
    var P := Pow2(6 - p.exp as int);
    if x == MIN_WORD {
      LargestPeak();
      MinimumUnder();
    } else {
      UnderFromInterval(x as int, PeakEnd(code as int), P, p.mant);
    }
  }

  lemma MinimumUnder()
    ensures Under(MIN_WORD as int * Pow2(0), 7)
  {
  }

  lemma UnderFromInterval(x: int, e: int, P: nat, mant: word)
    requires P >= 1 && -e < x < e && e * P == (mant as int + 9) * 2048
    ensures Under(x * P, mant)
  {
    MulMonotonic(x, e - 1, P);
    MulMonotonic(-e + 1, x, P);
    assert (e - 1) * P == e * P - P && (-e + 1) * P == -(e * P) + P;
  }

  /** For every block: the codes fit their fields, and every reconstructed pulse is within
      half a step and one unit of the pulse it stands for. */
  lemma BlockError(xM: Pulses)
    ensures var b := QuantizeBlock(xM);
            && InFields(b)
            && ProperPeak(DecodePeak(b.xmaxc))
            && forall i :: 0 <= i < 13 ==> Close(xM[i], DequantizeBlock(b)[i], DecodePeak(b.xmaxc))
  {
    hide PeakCode, DecodePeak, MaxAbs, Pow2, QuantizeSample, DequantizeSample, Close, Under;
    PeakCodeInterval(MaxAbs(xM));
    var b := QuantizeBlock(xM);
    DecodedPeakInterval(b.xmaxc);
    var p := DecodePeak(b.xmaxc);
    forall i | 0 <= i < 13
      ensures 0 <= b.xMc[i] <= 7 && Close(xM[i], DequantizeSample(b.xMc[i], p), p)
    {
      PulseUnderPeak(xM[i], MaxAbs(xM));
      PulseError(xM[i], p);
    }
  }

  // ------------------------------------------------------------------ the four grids

  function Square(a: word): (r: longword)
    ensures 0 <= r <= 0x400_0000
  {
    DownscaledBound(a);
    ShiftRight(a, 2) as longword * ShiftRight(a, 2) as longword
  }

  /** It is a sixteenth of the square, up to what the shift drops. */
  lemma SquareIs(a: word)
    ensures Distance(16 * Square(a) as int, a as int * a as int) <= 6 * Magnitude(a) + 9
  {
    assert Pow2(2) == 4;
    var t := ShiftRight(a, 2) as int;
    var r := a as int - 4 * t;
    DownscaledBound(a);
    SquareOfParts(a as int, t, r);
  }

  lemma SquareOfParts(a: int, t: int, r: int)
    requires a == 4 * t + r && 0 <= r <= 3
    ensures a * a - 16 * (t * t) == r * (2 * a - r)
    ensures -(6 * a) - 9 <= r * (2 * a - r) <= 6 * a + 9 || -(6 * -a) - 9 <= r * (2 * a - r) <= 6 * -a + 9
  {
    assert (4 * t + r) * (4 * t + r) == 16 * (t * t) + 8 * (t * r) + r * r;
    assert r == 0 || r == 1 || r == 2 || r == 3;
  }

  lemma DownscaledBound(a: word)
    ensures -8192 <= ShiftRight(a, 2) <= 8191
    ensures 0 <= ShiftRight(a, 2) as int * ShiftRight(a, 2) as int <= 0x400_0000
  {
    assert Pow2(2) == 4;
    var b := ShiftRight(a, 2) as int;
    ProductBound(b, b, 8192, 8192);
    assert b * b >= 0;
  }

  /** Energy of samples lo to hi of grid m, scaled down by two bits. */
  function GridEnergy(x: Subframe, m: nat, lo: nat, hi: nat): (e: int)
    requires m <= 3 && lo <= hi <= 13
    ensures 0 <= e <= 0x400_0000 * (hi - lo)
  {
    if lo == hi then 0 else GridEnergy(x, m, lo, hi - 1) + Square(x[m + 3 * (hi - 1)]) as int
  }

  /** The energy of a grid, and what the shifts may drop of it. */
  function ExactEnergy(x: Subframe, m: nat, n: nat): int
    requires m <= 3 && n <= 13
  {
    if n == 0 then 0 else ExactEnergy(x, m, n - 1) + x[m + 3 * (n - 1)] as int * x[m + 3 * (n - 1)] as int
  }

  function EnergySlack(x: Subframe, m: nat, n: nat): int
    requires m <= 3 && n <= 13
  {
    if n == 0 then 0 else EnergySlack(x, m, n - 1) + 6 * Magnitude(x[m + 3 * (n - 1)]) + 9
  }

  lemma {:induction false} GridEnergyIs(x: Subframe, m: nat, n: nat)
    requires m <= 3 && n <= 13
    ensures Distance(16 * GridEnergy(x, m, 0, n), ExactEnergy(x, m, n)) <= EnergySlack(x, m, n)
  {
    hide Square;
    if n > 0 {
      GridEnergyIs(x, m, n - 1);
      SquareIs(x[m + 3 * (n - 1)]);
    }
  }

  lemma {:induction false} EnergyFront(x: Subframe, m: nat, lo: nat, hi: nat)
    requires m <= 3 && lo < hi <= 13
    ensures GridEnergy(x, m, lo, hi) == Square(x[m + 3 * lo]) as int + GridEnergy(x, m, lo + 1, hi)
    decreases hi
  {
    if lo + 1 < hi {
      EnergyFront(x, m, lo, hi - 1);
    }
  }

  /** Grids 0 and 3 share twelve samples. */
  lemma {:induction false} SharedEnergy(x: Subframe, lo: nat, hi: nat)
    requires lo <= hi <= 12
    ensures GridEnergy(x, 3, lo, hi) == GridEnergy(x, 0, lo + 1, hi + 1)
    decreases hi
  {
    if lo < hi {
      SharedEnergy(x, lo, hi - 1);
    }
  }

  predicate IsBestGrid(x: Subframe, mc: nat) {
    && mc <= 3
    && (forall m :: 0 <= m <= 3 ==> GridEnergy(x, m, 0, 13) <= GridEnergy(x, mc, 0, 13))
    && (forall m :: 0 <= m < mc ==> GridEnergy(x, m, 0, 13) < GridEnergy(x, mc, 0, 13))
  }

  lemma BestGridUnique(x: Subframe, m1: nat, m2: nat)
    requires IsBestGrid(x, m1) && IsBestGrid(x, m2)
    ensures m1 == m2
  {
    var e1, e2 := GridEnergy(x, m1, 0, 13), GridEnergy(x, m2, 0, 13);
    assert e1 <= e2 && e2 <= e1;
    assert (m1 < m2 ==> e1 < e2) && (m2 < m1 ==> e2 < e1);
  }

  /** The best grid, computed. */
  function BestGrid(x: Subframe): (mc: nat)
    ensures IsBestGrid(x, mc)
  {
    var e0, e1 := 2 * GridEnergy(x, 0, 0, 13), 2 * GridEnergy(x, 1, 0, 13);
    var e2, e3 := 2 * GridEnergy(x, 2, 0, 13), 2 * GridEnergy(x, 3, 0, 13);
    var mc := if e3 > e0 && e3 > e1 && e3 > e2 then 3 else if e2 > e0 && e2 > e1 then 2 else if e1 > e0 then 1 else 0;
    BestOfFour(x, mc, e0, e1, e2, e3);
    mc
  }

  function Selected(x: Subframe, mc: nat): Pulses
    requires mc <= 3
  {
    seq(13, i requires 0 <= i < 13 => x[mc + 3 * i])
  }

  function Positioned(xMp: Pulses, mc: nat): Subframe
    requires mc <= 3
  {
    seq(40, k requires 0 <= k < 40 => if k >= mc && (k - mc) % 3 == 0 && (k - mc) / 3 < 13 then xMp[(k - mc) / 3] else 0)
  }

  /** Positioning loses nothing, and puts zeros everywhere off the grid. */
  lemma SelectedPositioned(xMp: Pulses, mc: nat, k: nat)
    requires mc <= 3 && k < 40
    ensures Selected(Positioned(xMp, mc), mc) == xMp
    ensures (forall i :: 0 <= i < 13 ==> k != mc + 3 * i) ==> Positioned(xMp, mc)[k] == 0
  {
    assert k >= mc && (k - mc) % 3 == 0 ==> k == mc + 3 * ((k - mc) / 3);
  }

  /** A chain of STEP(m, lo) .. STEP(m, hi - 1) on top of an accumulator. */
  method AddSteps(x: array<word>, m: nat, lo: nat, hi: nat) returns (L_result: longword)
    requires x.Length == 40 && m <= 3 && lo <= hi <= 13
    ensures L_result as int == GridEnergy(x[..], m, lo, hi)
  {
    L_result := 0;
    for i := lo to hi
      invariant L_result as int == GridEnergy(x[..], m, lo, i)
    {
      DownscaledBound(x[m + 3 * i]);
      var L_temp := ShiftRight(x[m + 3 * i], 2) as longword;
      L_result := L_result + L_temp * L_temp;
    }
  }

  /** The choice of the grid: the first one of greatest energy.  Grids 0 and 3 are summed
      from their common part. */
  method ChooseGrid(x: array<word>) returns (Mc: nat)
    requires x.Length == 40
    ensures Mc == BestGrid(x[..])
  {
    Mc := 0;
    var L_common_0_3 := AddSteps(x, 0, 1, 13);
    var L_result := DoubledFrom(L_common_0_3, x, 0);
    var EM := L_result;
    ghost var e0 := L_result;

    L_result := AddSteps(x, 1, 0, 13);
    L_result := L_result * 2;
    ghost var e1 := L_result;
    if L_result > EM {
      Mc := 1;
      EM := L_result;
    }

    L_result := AddSteps(x, 2, 0, 13);
    L_result := L_result * 2;
    ghost var e2 := L_result;
    if L_result > EM {
      Mc := 2;
      EM := L_result;
    }

    L_result := DoubledFrom(L_common_0_3, x, 3);
    ghost var e3 := L_result;
    if L_result > EM {
      Mc := 3;
      EM := L_result;
    }
    BestOfFour(x[..], Mc, e0 as int, e1 as int, e2 as int, e3 as int);
    BestGridUnique(x[..], Mc, BestGrid(x[..]));
  }

  /** The energy of grid 0 or 3 from the common part, doubled. */
  method DoubledFrom(common: longword, x: array<word>, m: nat) returns (L_result: longword)
    requires x.Length == 40 && m in {0, 3} && common as int == GridEnergy(x[..], 0, 1, 13)
    ensures L_result as int == 2 * GridEnergy(x[..], m, 0, 13)
  {
    if m == 0 {
      EnergyFront(x[..], 0, 0, 13);
      L_result := common + Square(x[0]);
    } else {
      SharedEnergy(x[..], 0, 12);
      LastEnergy(x[..]);
      L_result := common + Square(x[39]);
    }
    L_result := L_result * 2;
  }

  lemma BestOfFour(x: Subframe, mc: nat, e0: int, e1: int, e2: int, e3: int)
    requires e0 == 2 * GridEnergy(x, 0, 0, 13) && e1 == 2 * GridEnergy(x, 1, 0, 13)
    requires e2 == 2 * GridEnergy(x, 2, 0, 13) && e3 == 2 * GridEnergy(x, 3, 0, 13)
    requires mc == if e3 > e0 && e3 > e1 && e3 > e2 then 3 else if e2 > e0 && e2 > e1 then 2 else if e1 > e0 then 1 else 0
    ensures IsBestGrid(x, mc)
  {
    forall m | 0 <= m <= 3
      ensures GridEnergy(x, m, 0, 13) <= GridEnergy(x, mc, 0, 13)
      ensures m < mc ==> GridEnergy(x, m, 0, 13) < GridEnergy(x, mc, 0, 13)
    {
      assert m == 0 || m == 1 || m == 2 || m == 3;
    }
  }

  lemma LastEnergy(x: Subframe)
    ensures GridEnergy(x, 3, 0, 13) == GridEnergy(x, 3, 0, 12) + Square(x[39]) as int
  {
  }

  /** RPE_grid_selection. */
  method RpeGridSelection(x: array<word>, xM: array<word>) returns (Mc: nat)
    requires x.Length == 40 && xM.Length == 13 && x != xM
    modifies xM
    ensures Mc == BestGrid(x[..])
    ensures xM[..] == Selected(x[..], Mc)
  {
    Mc := ChooseGrid(x);
    for i := 0 to 13
      invariant forall k :: 0 <= k < i ==> xM[k] == x[Mc + 3 * k]
    {
      xM[i] := x[Mc + 3 * i];
    }
  }

  /** RPE_grid_positioning: one run through the interleaved switch and loop.  The first pass
      of the loop is entered at case Mc. */
  method RpeGridPositioning(Mc: nat, xMp: array<word>, ep: array<word>, base: nat)
    requires Mc <= 3 && xMp.Length == 13 && base + 40 <= ep.Length && xMp != ep
    modifies ep
    ensures ep[base..base + 40] == Positioned(xMp[..], Mc)
    ensures ep[..base] == old(ep[..base]) && ep[base + 40..] == old(ep[base + 40..])
  {
    ghost var want := Positioned(xMp[..], Mc);
    var p := 0;
    if Mc == 3 {
      ep[base] := 0;
      p := 1;
    }
    for j := 0 to 13
      invariant p == (if j == 0 then (if Mc == 3 then 1 else 0) else Mc + 3 * j - 2)
      invariant forall k :: 0 <= k < p ==> ep[base + k] == want[k]
      invariant ep[..base] == old(ep[..base]) && ep[base + 40..] == old(ep[base + 40..])
      invariant want == Positioned(xMp[..], Mc)
    {
      if j > 0 || Mc >= 2 {
        ep[base + p] := 0;
        p := p + 1;
      }
      if j > 0 || Mc >= 1 {
        ep[base + p] := 0;
        p := p + 1;
      }
      assert p == Mc + 3 * j;
      ep[base + p] := xMp[j];
      p := p + 1;
    }
    var mc := Mc + 1;
    while mc < 4
      invariant Mc < mc <= 4 && p == 36 + mc
      invariant forall k :: 0 <= k < p ==> ep[base + k] == want[k]
      invariant ep[..base] == old(ep[..base]) && ep[base + 40..] == old(ep[base + 40..])
    {
      ep[base + p] := 0;
      p := p + 1;
      mc := mc + 1;
    }
  }

  // ------------------------------------------------------------------ quantizer loops

  /** APCM_quantization_xmaxc_to_exp_mant. */
  method XmaxcToExpMant(xmaxc: word) returns (exp: word, mant: word)
    requires 0 <= xmaxc <= 63
    ensures Peak(exp, mant) == DecodePeak(xmaxc)
  {
    exp := 0;
    if xmaxc > 15 { exp := (Sasr(xmaxc as int, 3) - 1) as word; }
    mant := xmaxc - exp * 8;
    if mant == 0 {
      exp := -4;
      mant := 7;
    } else {
      ghost var goal := DecodePeak(xmaxc);
      while mant <= 7
        invariant 1 <= mant <= 15 && -4 <= exp <= 6
        invariant mant <= 7 ==> exp >= (if mant >= 4 then -3 else if mant >= 2 then -2 else -1)
        invariant NormalisePeak(exp, mant) == goal
        decreases 15 - mant
      {
        mant := mant * 2 + 1;
        exp := exp - 1;
      }
      mant := mant - 8;
    }
  }

  /** What is left of xmax >> 9 after i halvings. */
  function Halved(xmax: word, i: nat): word
    requires 0 <= xmax && i <= 6
  {
    if i == 0 then xmax / 512 else Halved(xmax, i - 1) / 2
  }

  lemma HalvedIs(xmax: word, i: nat)
    requires 0 <= xmax && i <= 6
    ensures i < 6 ==> (Halved(xmax, i) <= 0 <==> BlockExponent(xmax) <= i)
  {
    if i > 0 {
      var h := xmax / 512;
      assert Halved(xmax, 1) == h / 2;
      if i > 1 {
        assert Halved(xmax, 2) == h / 2 / 2 == h / 4;
        if i > 2 {
          assert Halved(xmax, 3) == h / 4 / 2 == h / 8;
          if i > 3 {
            assert Halved(xmax, 4) == h / 8 / 2 == h / 16;
            if i > 4 {
              assert Halved(xmax, 5) == h / 16 / 2 == h / 32;
            }
          }
        }
      }
    }
  }

  /** The loop that counts the block exponent. */
  method CountExponent(xmax: word) returns (exp: word)
    requires 0 <= xmax
    ensures exp as int == BlockExponent(xmax)
  {
    exp := 0;
    var temp := xmax / 512;
    var itest := 0;
    for i := 0 to 6
      invariant temp == Halved(xmax, i)
      invariant itest == (if i as int <= BlockExponent(xmax) then 0 else 1)
      invariant exp as int == (if i <= BlockExponent(xmax) then i else BlockExponent(xmax))
    {
      HalvedIs(xmax, i);
      if temp <= 0 { itest := 1; }
      temp := temp / 2;
      if itest == 0 { exp := exp + 1; }
    }
  }

  /** The direct computation of a pulse's code by a table of inverse mantissas. */
  function CodePulse(x: word, temp1: word, temp2: word): word
    requires 0 <= temp1 <= 10
  {
    var temp := Wrap16(x as int * Pow2(temp1 as nat));
    var scaled := Mult(temp, temp2);
    (scaled as int / 4096) as word + 4
  }

  lemma CodePulseIs(x: word, xmax: word, exp: word, mant: word)
    requires Abs(x) <= xmax && 0 <= PeakCode(xmax) <= 63 && Peak(exp, mant) == DecodePeak(PeakCode(xmax))
    requires ProperPeak(Peak(exp, mant))
    ensures CodePulse(x, 6 - exp, NRFAC[mant]) == QuantizeSample(x, Peak(exp, mant))
    ensures -32768 <= x as int * Pow2(6 - exp as int) <= 32767
  {
    hide Pow2, PeakCode, DecodePeak, Mult;
    PulseUnderPeak(x, xmax);
  }

  /** APCM_quantization; no shifted pulse overflows. */
  method ApcmQuantization(xM: array<word>, xMc: array<word>) returns (mant: word, exp: word, xmaxc: word)
    requires xM.Length == xMc.Length == 13 && xM != xMc
    modifies xMc
    ensures CodedBlock(xmaxc, xMc[..]) == QuantizeBlock(xM[..])
    ensures 0 <= xmaxc <= 63 && Peak(exp, mant) == DecodePeak(xmaxc)
  {
    hide PeakCode, DecodePeak, MaxAbs, CodePulse, QuantizeSample, Pow2;
    ghost var pulses: Pulses := xM[..];
    var xmax := FindMaxAbs(xM);
    exp := CountExponent(xmax);
    PeakCodeIs(xmax, exp);
    PeakCodeInterval(xmax);
    xmaxc := Add(ShiftRight(xmax, (exp + 5) as nat), exp * 8);
    exp, mant := XmaxcToExpMant(xmaxc);
    DecodedPeakInterval(xmaxc);
    ghost var p := Peak(exp, mant);
    var temp1 := 6 - exp;
    var temp2 := NRFAC[mant];
    for i := 0 to 13
      invariant forall k :: 0 <= k < i ==> xMc[k] == QuantizeSample(xM[k], p)
    {
      CodePulseIs(xM[i], xmax, exp, mant);
      xMc[i] := CodePulse(xM[i], temp1, temp2);
    }
    assert xMc[..] == QuantizeBlock(pulses).xMc;
  }

  lemma PeakCodeIs(xmax: word, exp: word)
    requires 0 <= xmax && exp as int == BlockExponent(xmax)
    ensures Add(ShiftRight(xmax, (exp + 5) as nat), exp * 8) == PeakCode(xmax)
  {
    hide Pow2;
  }

  /** APCM_inverse_quantization of the thirteen codes from xMc[at] on. */
  method ApcmInverseQuantization(xMc: array<word>, at: nat, mant: word, exp: word, xMp: array<word>)
    requires at + 13 <= xMc.Length && xMp.Length == 13 && xMc != xMp
    requires ProperPeak(Peak(exp, mant)) && ThreeBit(xMc[at..at + 13])
    modifies xMp
    ensures xMp[..] == DequantizePulses(xMc[at..at + 13], Peak(exp, mant))
  {
    hide Reconstruct, DequantizeSample;
    var temp1 := FAC[mant];
    var temp2 := Sub(6, exp);
    var temp3 := Asl(1, Sub(temp2, 1) as int);
    ghost var codes, p := xMc[at..at + 13], Peak(exp, mant);
    for i := 0 to 13
      invariant forall k :: 0 <= k < i ==> xMp[k] == DequantizeSample(codes[k], p)
      invariant xMc[at..at + 13] == codes
    {
      assert xMc[at + i] == codes[i];
      ReconstructIs(codes[i], p);
      xMp[i] := Reconstruct(xMc[at + i], temp1, temp2, temp3);
    }
    assert xMp[..] == DequantizePulses(codes, p);
  }

  lemma ReconstructIs(c: word, p: Peak)
    requires ProperPeak(p) && 0 <= c <= 7
    ensures Reconstruct(c, FAC[p.mant], Sub(6, p.exp), Asl(1, Sub(Sub(6, p.exp), 1) as int)) == DequantizeSample(c, p)
  {
    hide Pow2, Asr, Asl, Add, MultR, Sub;
  }

  /** The body of that loop. */
  function Reconstruct(c: word, temp1: word, temp2: word, temp3: word): word
    requires 0 <= c <= 7
  {
    var temp := c * 2 - 7;
    var scaled := MultR(temp1, temp * 4096);
    Asr(Add(scaled, temp3), temp2 as int)
  }

  /** The residual that a coded sub-frame stands for. */
  function DecodedResidual(b: CodedBlock, mc: nat): Subframe
    requires InFields(b) && mc <= 3
  {
    Positioned(DequantizeBlock(b), mc)
  }

  /** Gsm_RPE_Decoding of the codes from xMcr[at] on. */
  method GsmRpeDecoding(xmaxcr: word, Mcr: nat, xMcr: array<word>, at: nat, erp: array<word>)
    requires at + 13 <= xMcr.Length && erp.Length == 40 && xMcr != erp && Mcr <= 3
    requires InFields(CodedBlock(xmaxcr, xMcr[at..at + 13]))
    modifies erp
    ensures erp[..] == DecodedResidual(CodedBlock(xmaxcr, xMcr[at..at + 13]), Mcr)
  {
    ghost var b := CodedBlock(xmaxcr, xMcr[at..at + 13]);
    var xMp := new word[13](_ => 0);
    var exp, mant := XmaxcToExpMant(xmaxcr);
    DecodedPeakInterval(xmaxcr);
    ApcmInverseQuantization(xMcr, at, mant, exp, xMp);
    assert xMp[..] == DequantizeBlock(b);
    RpeGridPositioning(Mcr, xMp, erp, 0);
    assert erp[..] == erp[0..40];
  }

  // ------------------------------------------------------------------ the encoder's side

  /** The impulse response of the weighting filter, scaled by 8192 (table 4.4 of GSM 06.10). */
  const H: seq<int> := [-134, -374, 0, 2054, 5741, 8192, 5741, 2054, 0, -374, -134]

  /** The first n terms of the convolution that gives sample k; e carries five zeros on
      either side of the sub-frame. */
  function Convolution(e: seq<word>, k: nat, n: nat): int
    requires |e| == 50 && k < 40 && n <= 11
  {
    if n == 0 then 0 else Convolution(e, k, n - 1) + H[n - 1] * e[k + n - 1] as int
  }

  function WeightedSignal(e: seq<word>): Subframe
    requires |e| == 50
  {
    seq(40, k requires 0 <= k < 40 => Saturate((Convolution(e, k, 11) + 4096) / 8192))
  }

  /** A weighted sample is the convolution over 8192 to the nearest, or the end of the range
      that it lies beyond. */
  lemma WeightedIs(e: seq<word>, k: nat)
    requires |e| == 50 && k < 40
    ensures var x, c := WeightedSignal(e)[k] as int, Convolution(e, k, 11);
            || Distance(8192 * x, c) <= 4096
            || (x == 32767 && c > 8192 * 32767) || (x == -32768 && c < -8192 * 32768)
  {
    hide Convolution;
  }

  /** The expression of the source, which leaves out taps 2 and 8, is the whole convolution,
      and none of its partial sums leaves 32 bits. */
  lemma UnrolledConvolution(e: seq<word>, k: nat)
    requires |e| == 50 && k < 40
    ensures Convolution(e, k, 11)
            == e[k] as int * -134 + e[k + 1] as int * -374 + e[k + 3] as int * 2054 + e[k + 4] as int * 5741
             + e[k + 5] as int * 8192 + e[k + 6] as int * 5741 + e[k + 7] as int * 2054
             + e[k + 9] as int * -374 + e[k + 10] as int * -134
    ensures -0x7fff_0000 <= Convolution(e, k, 11) <= 0x7fff_0000
  {
    UnrolledTo6(e, k);
    assert Convolution(e, k, 7) == Convolution(e, k, 6) + 5741 * e[k + 6] as int;
    assert Convolution(e, k, 8) == Convolution(e, k, 7) + 2054 * e[k + 7] as int;
    assert Convolution(e, k, 9) == Convolution(e, k, 8);
    assert Convolution(e, k, 10) == Convolution(e, k, 9) - 374 * e[k + 9] as int;
  }

  lemma UnrolledTo6(e: seq<word>, k: nat)
    requires |e| == 50 && k < 40
    ensures Convolution(e, k, 6)
            == e[k] as int * -134 + e[k + 1] as int * -374 + e[k + 3] as int * 2054 + e[k + 4] as int * 5741
             + e[k + 5] as int * 8192
  {
    assert Convolution(e, k, 1) == -134 * e[k] as int;
    assert Convolution(e, k, 2) == Convolution(e, k, 1) - 374 * e[k + 1] as int;
    assert Convolution(e, k, 3) == Convolution(e, k, 2);
    assert Convolution(e, k, 4) == Convolution(e, k, 3) + 2054 * e[k + 3] as int;
    assert Convolution(e, k, 5) == Convolution(e, k, 4) + 5741 * e[k + 4] as int;
  }

  function Reversed(s: seq<word>): (r: seq<word>)
    ensures |r| == |s|
  {
    seq(|s|, i requires 0 <= i < |s| => s[|s| - 1 - i])
  }

  /** The response is symmetric: the filter does the same in both directions of time. */
  lemma WeightingIsSymmetric(e: seq<word>)
    requires |e| == 50
    ensures WeightedSignal(Reversed(e)) == Reversed(WeightedSignal(e))
  {
    hide Convolution;
    forall k: nat | k < 40
      ensures Convolution(Reversed(e), k, 11) == Convolution(e, 39 - k, 11)
    {
      UnrolledConvolution(Reversed(e), k);
      UnrolledConvolution(e, 39 - k);
    }
  }

  /** The unrolled sum for one sample. */
  method WeightedSample(e: array<word>, k: nat) returns (L_result: longword)
    requires e.Length == 50 && k < 40
    ensures L_result as int == Convolution(e[..], k, 11) + 4096
  {
    hide Convolution;
    UnrolledConvolution(e[..], k);
    L_result := 4096;
    L_result := L_result
      + (e[k] as longword * -134 + e[k + 1] as longword * -374 + e[k + 3] as longword * 2054 + e[k + 4] as longword * 5741
       + e[k + 5] as longword * 8192 + e[k + 6] as longword * 5741 + e[k + 7] as longword * 2054
       + e[k + 9] as longword * -374 + e[k + 10] as longword * -134);
  }

  /** Weighting_filter: the convolution with the response, rounded to the nearest and saturated. */
  method WeightingFilter(e: array<word>, x: array<word>)
    requires e.Length == 50 && x.Length == 40 && e != x
    modifies x
    ensures x[..] == WeightedSignal(e[..])
  {
    hide Convolution, Sasr;
    assert Pow2(13) == 8192;
    for k := 0 to 40
      invariant forall i :: 0 <= i < k ==> x[i] == Saturate((Convolution(e[..], i, 11) + 4096) / 8192)
    {
      var L_result := WeightedSample(e, k);
      SasrIsFloor(L_result as int, 13);
      L_result := Sasr(L_result as int, 13) as longword;
      x[k] := if L_result < -32768 then MIN_WORD else if L_result > 32767 then MAX_WORD else L_result as word;
    }
  }

  /** Quantization followed by inverse quantization, as both sides perform it. */
  method QuantizeAndRebuild(xM: array<word>, xMc: array<word>, xMp: array<word>) returns (xmaxc: word)
    requires xM.Length == xMc.Length == xMp.Length == 13 && xM != xMc && xM != xMp && xMc != xMp
    modifies xMc, xMp
    ensures CodedBlock(xmaxc, xMc[..]) == QuantizeBlock(xM[..]) && InFields(CodedBlock(xmaxc, xMc[..]))
    ensures xMp[..] == DequantizeBlock(CodedBlock(xmaxc, xMc[..]))
  {
    ghost var pulses: Pulses := xM[..];
    BlockError(pulses);
    var mant, exp;
    mant, exp, xmaxc := ApcmQuantization(xM, xMc);
    DecodedPeakInterval(xmaxc);
    ApcmInverseQuantization(xMc, 0, mant, exp, xMp);
    assert xMc[0..13] == xMc[..];
  }

  /** Gsm_RPE_Encoding: e[5..45] is replaced by what the decoder will reconstruct from the
      codes, and by nothing else. */
  method GsmRpeEncoding(e: array<word>, xMc: array<word>) returns (xmaxc: word, Mc: nat)
    requires e.Length == 50 && xMc.Length == 13 && e != xMc
    modifies e, xMc
    ensures Mc <= 3 && InFields(CodedBlock(xmaxc, xMc[..]))
    ensures Mc == BestGrid(WeightedSignal(old(e[..])))
    ensures CodedBlock(xmaxc, xMc[..]) == QuantizeBlock(Selected(WeightedSignal(old(e[..])), Mc))
    ensures e[5..45] == DecodedResidual(CodedBlock(xmaxc, xMc[..]), Mc)
    ensures e[..5] == old(e[..5]) && e[45..] == old(e[45..])
  {
    hide WeightedSignal, BestGrid, QuantizeBlock, DequantizeBlock, Selected, Positioned, InFields;
    var x := new word[40](_ => 0);
    var xM, xMp := new word[13](_ => 0), new word[13](_ => 0);
    WeightingFilter(e, x);
    Mc := RpeGridSelection(x, xM);
    xmaxc := QuantizeAndRebuild(xM, xMc, xMp);
    RpeGridPositioning(Mc, xMp, e, 5);
  }
}