/**
 Linear prediction analysis (lpc.c, sections 4.2.4 to 4.2.7 of GSM 06.10):
 autocorrelation with dynamic scaling, the Schur recursion on 16-bit words, and the
 conversion of reflection coefficients into coded log-area ratios.
 */
module Lpc {
  import opened Powers
  import opened GsmArith
  import opened Seqs
  import ShortTerm

  // ------------------------------------------------------------------ dynamic scaling

  /** scalauto: four less the normalising shift of the maximum in the upper half of a longword. */
  function ScaleShift(smax: word): (n: int)
    requires 0 <= smax
    ensures n <= 4
  {
    if smax == 0 then 0 else 4 - Norm(smax as longword * 65536)
  }

  /** One scaled sample: multiplied by 16384 >> (scalauto - 1), with rounding. */
  function ScaleSample(x: word, scal: int): word {
    if scal <= 0 then x
    else if scal == 1 then MultR(x, 16384)
    else if scal == 2 then MultR(x, 8192)
    else if scal == 3 then MultR(x, 4096)
    else MultR(x, 2048)
  }

  function ScaledSignal(s: seq<word>, scal: int): (r: seq<word>)
    ensures |r| == |s|
  {
    seq(|s|, i requires 0 <= i < |s| => ScaleSample(s[i], scal))
  }

  /** The rescaling shift at the end; its result is stored in a word. */
  function UnscaleSample(x: word, scal: int): word {
    if scal <= 0 then x
    else if scal == 1 then Wrap16(x as int * 2)
    else if scal == 2 then Wrap16(x as int * 4)
    else if scal == 3 then Wrap16(x as int * 8)
    else Wrap16(x as int * 16)
  }

  /** The shift that the maximum selects, as intervals. */
  lemma ScaleShiftIntervals(smax: word)
    requires 0 <= smax
    ensures smax < 2048 ==> ScaleShift(smax) <= 0
    ensures 2048 <= smax < 4096 ==> ScaleShift(smax) == 1
    ensures 4096 <= smax < 8192 ==> ScaleShift(smax) == 2
    ensures 8192 <= smax < 16384 ==> ScaleShift(smax) == 3
    ensures 16384 <= smax ==> ScaleShift(smax) == 4
  {
  }

  /** After scaling every sample is at most 2048 in magnitude. */
  lemma ScaledSampleBound(x: word, smax: word)
    requires Abs(x) <= smax
    ensures -2048 <= ScaleSample(x, ScaleShift(smax)) <= 2048
  {
    ScaleShiftIntervals(smax);
    var scal := ScaleShift(smax);
    if scal > 0 {
      ScaleSampleRounds(x, scal);
    }
  }

  /** Scaling divides with rounding, halves upwards. */
  lemma ScaleSampleRounds(x: word, scal: int)
    requires 1 <= scal <= 4
    ensures var y := ScaleSample(x, scal) as int;
            && (scal == 1 ==> y == (x as int + 1) / 2)
            && (scal == 2 ==> y == (x as int + 2) / 4)
            && (scal == 3 ==> y == (x as int + 4) / 8)
            && (scal == 4 ==> y == (x as int + 8) / 16)
  {
    hide MultR, Wrap16, Pow2;
    MultRExact(x, 16384);
    MultRExact(x, 8192);
    MultRExact(x, 4096);
    MultRExact(x, 2048);
  }

  /** Half of the step that scaling rounds to. */
  function HalfStep(scal: int): int {
    if scal <= 1 then 1 else if scal == 2 then 2 else if scal == 3 then 4 else 8
  }

  lemma UnscaledValue(x: word, y: int, scal: int)
    requires 1 <= scal <= 4 && y == (x as int + HalfStep(scal)) / (2 * HalfStep(scal))
    ensures var z := y * (2 * HalfStep(scal));
            && x as int - HalfStep(scal) < z <= x as int + HalfStep(scal)
            && (x as int >= 32768 - HalfStep(scal) ==> z == 32768)
            && (x as int < 32768 - HalfStep(scal) ==> -32768 <= z < 32768)
  {
    if scal == 1 {
    } else if scal == 2 {
    } else if scal == 3 {
    } else {
    }
  }

  /** Rescaling restores a sample up to half a step, unless rounding carried it past the
      largest word: then the shift wraps around to the most negative one. */
  lemma UnscaleExactIff(x: word, scal: int)
    requires 1 <= scal <= 4
    ensures var r := UnscaleSample(ScaleSample(x, scal), scal) as int;
            && (-HalfStep(scal) <= r - x as int <= HalfStep(scal) <==> x as int < 32768 - HalfStep(scal))
            && (x as int >= 32768 - HalfStep(scal) ==> r == -32768)
  {
    ScaleSampleRounds(x, scal);
    var y := ScaleSample(x, scal);
    UnscaledValue(x, y as int, scal);
    UnscaleWraps(y, scal);
  }

  lemma UnscaleWraps(y: word, scal: int)
    requires 1 <= scal <= 4
    ensures UnscaleSample(y, scal) == Wrap16(y as int * (2 * HalfStep(scal)))
  {
  }

  // ------------------------------------------------------------------ autocorrelation

  /** The k-th autocorrelation of the first n samples. */
  function Correlation(s: seq<word>, k: nat, n: nat): int
    requires n <= |s|
  {
    if n <= k then 0 else Correlation(s, k, n - 1) + s[n - 1] as int * s[n - 1 - k] as int
  }

  predicate Small(s: seq<word>) {
    forall i :: 0 <= i < |s| ==> -2048 <= s[i] <= 2048
  }

  /** No accumulator leaves 32 bits, and twice its value still fits. */
  lemma {:induction false} CorrelationFits(s: seq<word>, k: nat, n: nat)
    requires n <= |s| && Small(s)
    ensures -(0x40_0000 * n) <= Correlation(s, k, n) <= 0x40_0000 * n
  {
    if n > k {
      CorrelationFits(s, k, n - 1);
      ProductBound(s[n - 1] as int, s[n - 1 - k] as int, 2048, 2048);
    }
  }

  /** Twice a product is at most the sum of the squares, in magnitude. */
  lemma ProductOfTwo(x: int, y: int)
    ensures -(x * x + y * y) <= 2 * (x * y) <= x * x + y * y
  {
    assert (x + y) * (x + y) == x * x + 2 * (x * y) + y * y;
    assert (x - y) * (x - y) == x * x - 2 * (x * y) + y * y;
  }

  /** The lagged sum is bounded by the energies of the two stretches it pairs up. */
  lemma {:induction false} CorrelationBound(s: seq<word>, k: nat, n: nat)
    requires n <= |s|
    ensures var e := Correlation(s, 0, n) + (if n <= k then 0 else Correlation(s, 0, n - k));
            -e <= 2 * Correlation(s, k, n) <= e
  {
    if n == 0 {
    } else if n <= k {
      CorrelationBound(s, k, n - 1);
      ProductOfTwo(s[n - 1] as int, 0);
    } else {
      CorrelationBound(s, k, n - 1);
      ProductOfTwo(s[n - 1] as int, s[n - 1 - k] as int);
    }
  }

  lemma {:induction false} EnergyMonotone(s: seq<word>, m: nat, n: nat)
    requires m <= n <= |s|
    ensures 0 <= Correlation(s, 0, m) <= Correlation(s, 0, n)
    decreases n
  {
    if n > 0 {
      ProductOfTwo(s[n - 1] as int, 0);
      if m < n {
        EnergyMonotone(s, m, n - 1);
      } else {
        EnergyMonotone(s, n - 1, n - 1);
      }
    }
  }

  /** No correlation exceeds the energy of the signal. */
  lemma CorrelationAtMostEnergy(s: seq<word>, k: nat)
    ensures -Correlation(s, 0, |s|) <= Correlation(s, k, |s|) <= Correlation(s, 0, |s|)
  {
    CorrelationBound(s, k, |s|);
    EnergyMonotone(s, if |s| <= k then 0 else |s| - k, |s|);
  }

  /** What one multiplication and accumulation needs to stay within 32 bits. */
  lemma StepFits(t: seq<word>, k: nat, i: nat)
    requires Small(t) && k <= i < |t| && |t| <= 160
    ensures -0x40_0000 <= t[i] as int * t[i - k] as int <= 0x40_0000
    ensures -0x2800_0000 <= Correlation(t, k, i) <= 0x2800_0000
    ensures Correlation(t, k, i + 1) == Correlation(t, k, i) + t[i] as int * t[i - k] as int
    ensures -0x2800_0000 <= Correlation(t, k, i + 1) <= 0x2800_0000
  {
    ProductBound(t[i] as int, t[i - k] as int, 2048, 2048);
    CorrelationFits(t, k, i);
    CorrelationFits(t, k, i + 1);
  }

  lemma ScaledSignalIsSmall(s: seq<word>)
    ensures Small(ScaledSignal(s, ScaleShift(MaxAbs(s))))
  {
    forall i | 0 <= i < |s|
      ensures -2048 <= ScaledSignal(s, ScaleShift(MaxAbs(s)))[i] <= 2048
    {
      ScaledSampleBound(s[i], MaxAbs(s));
    }
  }

  /** SCALE(n): every sample is multiplied by 16384 >> (n - 1). */
  method ScaleInPlace(s: array<word>, scalauto: int)
    requires 1 <= scalauto <= 4
    modifies s
    ensures s[..] == ScaledSignal(old(s[..]), scalauto)
  {
    var factor: word := match scalauto case 1 => 16384 case 2 => 8192 case 3 => 4096 case _ => 2048;
    for k := 0 to s.Length
      invariant forall i :: k <= i < s.Length ==> s[i] == old(s[i])
      invariant forall i :: 0 <= i < k ==> s[i] == ScaleSample(old(s[i]), scalauto)
    {
      s[k] := MultR(s[k], factor);
    }
  }

  /** STEP(k) of the unrolled sums. */
  method Accumulate(s: array<word>, i: nat, k: nat, L_ACF: array<longword>)
    requires L_ACF.Length == 9 && k <= i < s.Length <= 160 && k < 9 && Small(s[..])
    requires L_ACF[k] as int == Correlation(s[..], k, i)
    modifies L_ACF
    ensures L_ACF[k] as int == Correlation(s[..], k, i + 1)
    ensures forall j :: 0 <= j < 9 && j != k ==> L_ACF[j] == old(L_ACF[j])
  {
    StepFits(s[..], k, i);
    var sl := s[i] as longword;
    L_ACF[k] := L_ACF[k] + sl * s[i - k] as longword;
  }

  /** The sums: the first eight samples see fewer lags, the others all nine. */
  method ComputeCorrelations(s: array<word>, L_ACF: array<longword>)
    requires s.Length == 160 && L_ACF.Length == 9 && Small(s[..])
    modifies L_ACF
    ensures forall k :: 0 <= k < 9 ==> L_ACF[k] as int == 2 * Correlation(s[..], k, 160)
  {
    for k := 0 to 9
      invariant forall j :: 0 <= j < k ==> L_ACF[j] == 0
    {
      L_ACF[k] := 0;
    }
    for i := 0 to 8
      invariant forall j :: 0 <= j < 9 ==> L_ACF[j] as int == Correlation(s[..], j, i)
    {
      for k := 0 to i + 1
        invariant forall j :: 0 <= j < k ==> L_ACF[j] as int == Correlation(s[..], j, i + 1)
        invariant forall j :: k <= j < 9 ==> L_ACF[j] as int == Correlation(s[..], j, i)
      {
        Accumulate(s, i, k, L_ACF);
      }
    }
    for i := 8 to 160
      invariant forall j :: 0 <= j < 9 ==> L_ACF[j] as int == Correlation(s[..], j, i)
    {
      for k := 0 to 9
        invariant forall j :: 0 <= j < k ==> L_ACF[j] as int == Correlation(s[..], j, i + 1)
        invariant forall j :: k <= j < 9 ==> L_ACF[j] as int == Correlation(s[..], j, i)
      {
        Accumulate(s, i, k, L_ACF);
      }
    }
    for k := 0 to 9
      invariant forall j :: 0 <= j < k ==> L_ACF[j] as int == 2 * Correlation(s[..], j, 160)
      invariant forall j :: k <= j < 9 ==> L_ACF[j] as int == Correlation(s[..], j, 160)
    {
      CorrelationFits(s[..], k, 160);
      L_ACF[k] := L_ACF[k] * 2;
    }
  }

  /** The rescaling shift at the end. */
  method UnscaleInPlace(s: array<word>, scalauto: int)
    requires 1 <= scalauto <= 4
    modifies s
    ensures forall i :: 0 <= i < s.Length ==> s[i] == UnscaleSample(old(s[i]), scalauto)
  {
    for k := 0 to s.Length
      invariant forall i :: k <= i < s.Length ==> s[i] == old(s[i])
      invariant forall i :: 0 <= i < k ==> s[i] == UnscaleSample(old(s[i]), scalauto)
    {
      s[k] := UnscaleSample(s[k], scalauto);
    }
  }

  /** The signal Autocorrelation sums over, and the signal it leaves. */
  function Normalised(s: seq<word>): (t: seq<word>)
    ensures |t| == |s|
  {
    ScaledSignal(s, ScaleShift(MaxAbs(s)))
  }

  function Restored(s: seq<word>): (t: seq<word>)
    ensures |t| == |s|
  {
    var scal := ScaleShift(MaxAbs(s));
    seq(|s|, i requires 0 <= i < |s| => UnscaleSample(ScaleSample(s[i], scal), scal))
  }

  /** Autocorrelation leaves the signal within eight units of what it was exactly when
      no sample is among the eight largest words. */
  lemma RestoredIff(s: seq<word>)
    ensures (forall i :: 0 <= i < |s| ==> -8 <= Restored(s)[i] as int - s[i] as int <= 8)
            <==> (forall i :: 0 <= i < |s| ==> s[i] < 32760)
  {
    var m := MaxAbs(s);
    var scal := ScaleShift(m);
    ScaleShiftIntervals(m);
    forall i | 0 <= i < |s|
      ensures -8 <= Restored(s)[i] as int - s[i] as int <= 8 <==> s[i] < 32760
    {
      assert Abs(s[i]) <= m;
      if scal > 0 {
        UnscaleExactIff(s[i], scal);
      }
    }
  }

  method Autocorrelation(s: array<word>, L_ACF: array<longword>)
    requires s.Length == 160 && L_ACF.Length == 9
    modifies s, L_ACF
    ensures forall k :: 0 <= k < 9 ==> L_ACF[k] as int == 2 * Correlation(Normalised(old(s[..])), k, 160)
    ensures forall k :: 0 <= k < 9 ==> -(L_ACF[0] as int) <= L_ACF[k] as int <= L_ACF[0] as int
    ensures s[..] == Restored(old(s[..]))
  {
    ghost var s0 := s[..];
    var smax := FindMaxAbs(s);
    var scalauto := ScaleShift(smax);
    if scalauto > 0 {
      ScaleInPlace(s, scalauto);
    }
    ghost var t := Normalised(s0);
    assert s[..] == t;
    ScaledSignalIsSmall(s0);
    ComputeCorrelations(s, L_ACF);
    forall k | 0 <= k < 9
      ensures -(L_ACF[0] as int) <= L_ACF[k] as int <= L_ACF[0] as int
    {
      CorrelationAtMostEnergy(t, k);
    }
    ghost var acf := L_ACF[..];
    if scalauto > 0 {
      UnscaleInPlace(s, scalauto);
    }
  }

  // ------------------------------------------------------------------ Schur recursion

  /** The two rows of the recursion: P[0..8] and K[1..7]. */
  datatype Rows = Rows(P: seq<word>, K: seq<word>)

  predicate WellFormed(g: Rows) {
    |g.P| == 9 && |g.K| == 9
  }

  /** ACF[i]: the upper half of the normalised correlation. */
  function NormalisedAcf(acf: seq<longword>): (r: seq<word>)
    requires |acf| == 9 && acf[0] > 0
    requires forall k :: 0 <= k < 9 ==> -(acf[0] as int) <= acf[k] as int <= acf[0] as int
    ensures |r| == 9 && r[0] >= 16384
  {
    var p := Pow2(Norm(acf[0]));
    NormalisedHalf(acf[0], acf[0]);
    seq(9, i requires 0 <= i < 9 => NormalisedHalf(acf[0], acf[i]); (acf[i] as int * p / 65536) as word)
  }

  /** The shift marked as a possible overflow cannot overflow. */
  lemma NormalisedHalf(top: longword, a: longword)
    requires top > 0 && -(top as int) <= a as int <= top as int
    ensures var x := a as int * Pow2(Norm(top));
            -0x8000_0000 <= x < 0x8000_0000 && -32768 <= x / 65536 <= 32767
    ensures a == top ==> a as int * Pow2(Norm(top)) / 65536 >= 16384
  {
    NormNormalises(top);
    var p := Pow2(Norm(top));
    MulMonotonic(a as int, top as int, p);
    MulMonotonic(-(top as int), a as int, p);
    assert -(top as int) * p == -(top as int * p);
  }

  /** The reflection coefficient of one step: the quotient of the leading two entries,
      with the sign opposite to that of P[1]. */
  function Coefficient(p0: word, p1: word): (r: word)
    requires Abs(p1) <= p0
    ensures r != MIN_WORD
    ensures p1 > 0 ==> r <= 0
    ensures p1 <= 0 ==> r >= 0
  {
    var q := Quotient(Abs(p1), p0);
    if p1 > 0 then -q else q
  }

  /** r is the ratio of p1 to p0 in 32768ths, rounded towards 0, with the sign opposite to
      that of p1, and 32767 in magnitude for a ratio of 1. */
  predicate IsRatio(r: word, p0: word, p1: word) {
    var q, a := if r < 0 then -(r as int) else r as int, Abs(p1) as int;
    && (p1 > 0 ==> r <= 0) && (p1 <= 0 ==> r >= 0) && (p1 == 0 ==> r == 0)
    && (a < p0 as int ==> q * p0 as int <= 32768 * a < (q + 1) * p0 as int)
    && (a == p0 as int > 0 ==> q == 32767)
  }

  lemma CoefficientIsRatio(p0: word, p1: word)
    requires Abs(p1) <= p0
    ensures IsRatio(Coefficient(p0, p1), p0, p1)
  {
    hide Quotient;
    QuotientIs(Abs(p1), p0);
  }

  /** So P[1] + r * P[0] vanishes to within one unit: the step leaves nothing that the
      predictor of order one could still take. */
  lemma RatioAnnihilates(r: word, p0: word, p1: word)
    requires IsRatio(r, p0, p1) && Abs(p1) <= p0 && p1 != MIN_WORD
    ensures -(p0 as int) <= 32768 * p1 as int + r as int * p0 as int <= p0 as int
  {
    var q := if r < 0 then -(r as int) else r as int;
    NegatedProduct(q, p0 as int);
  }

  lemma NegatedProduct(q: int, p: int)
    ensures (-q) * p == -(q * p) && (q + 1) * p == q * p + p
  {
  }

  /** One step of the recursion, all entries at once. */
  function SchurStep(g: Rows, r: word, n: nat): (g': Rows)
    requires WellFormed(g) && 1 <= n <= 7
    ensures WellFormed(g')
  {
    Rows(seq(9, m requires 0 <= m < 9 =>
               if m == 0 then Add(g.P[0], MultR(g.P[1], r))
               else if m <= 8 - n then Add(g.P[m + 1], MultR(g.K[m], r))
               else g.P[m]),
         seq(9, m requires 0 <= m < 9 =>
               if 1 <= m <= 8 - n then Add(g.K[m], MultR(g.P[m + 1], r)) else g.K[m]))
  }

  /** The entries m of the rows after a step. */
  lemma SchurStepAt(g: Rows, r: word, n: nat, m: nat)
    requires WellFormed(g) && 1 <= n <= 7 && m < 9
    ensures var g' := SchurStep(g, r, n);
            && (m == 0 ==> g'.P[0] == Add(g.P[0], MultR(g.P[1], r)) && g'.K[0] == g.K[0])
            && (1 <= m < 9 - n ==> g'.P[m] == Add(g.P[m + 1], MultR(g.K[m], r)) && g'.K[m] == Add(g.K[m], MultR(g.P[m + 1], r)))
            && (9 - n <= m ==> g'.P[m] == g.P[m] && g'.K[m] == g.K[m])
  {
    hide MultR, Add;
  }

  /** The coefficients from the n-th on. */
  function Reflections(g: Rows, n: nat): (r: seq<word>)
    requires WellFormed(g) && 1 <= n <= 9
    ensures |r| == 9 - n
    decreases 9 - n
  {
    if n == 9 then []
    else if g.P[0] < Abs(g.P[1]) then seq(9 - n, _ => 0)
    else
      var r := Coefficient(g.P[0], g.P[1]);
      if n == 8 then [r] else [r] + Reflections(SchurStep(g, r, n), n + 1)
  }

  /** The rows that each turn of the loop finds, from the n-th on. */
  function RowsFrom(g: Rows, n: nat): (s: seq<Rows>)
    requires WellFormed(g) && 1 <= n <= 8
    ensures 1 <= |s| <= 9 - n && s[0] == g
    decreases 9 - n
  {
    if g.P[0] < Abs(g.P[1]) || n == 8 then [g]
    else [g] + RowsFrom(SchurStep(g, Coefficient(g.P[0], g.P[1]), n), n + 1)
  }

  /** Turn n takes the rows g to the rows h: its coefficient is the ratio of the leading
      entries, and the entries that are still needed move as the Schur recursion says. */
  ghost predicate Proceeds(g: Rows, h: Rows, r: word, n: nat) {
    && WellFormed(g) && WellFormed(h) && 1 <= n <= 7
    && Abs(g.P[1]) <= g.P[0] && IsRatio(r, g.P[0], g.P[1])
    && ShortTerm.Rounds(h.P[0], g.P[0], r as int, g.P[1])
    && (forall m :: 1 <= m <= 8 - n ==> ShortTerm.Rounds(h.P[m], g.P[m + 1], r as int, g.K[m]))
    && (forall m :: 1 <= m <= 8 - n ==> ShortTerm.Rounds(h.K[m], g.K[m], r as int, g.P[m + 1]))
  }

  /** The last turn stops for lack of energy, with zeros for all that is left, or writes the
      eighth coefficient. */
  ghost predicate Stops(g: Rows, r: seq<word>, n: nat) {
    && WellFormed(g) && |r| == 9 - n
    && if g.P[0] < Abs(g.P[1]) then forall i :: 0 <= i < |r| ==> r[i] == 0
       else n == 8 && IsRatio(r[0], g.P[0], g.P[1])
  }

  /** The coefficients from the n-th on, with the rows of each turn, are those of the recursion. */
  ghost predicate Recursion(rows: seq<Rows>, r: seq<word>, n: nat)
    decreases |rows|
  {
    && 1 <= |rows| <= 9 - n && |r| == 9 - n
    && if |rows| == 1 then Stops(rows[0], r, n)
       else Proceeds(rows[0], rows[1], r[0], n) && Recursion(rows[1..], r[1..], n + 1)
  }

  lemma {:induction false} ReflectionsAre(g: Rows, n: nat)
    requires WellFormed(g) && 1 <= n <= 8
    ensures Recursion(RowsFrom(g, n), Reflections(g, n), n)
    decreases 9 - n
  {
    hide SchurStep, Coefficient, Abs, IsRatio, Proceeds;
    if g.P[0] >= Abs(g.P[1]) {
      var r := Coefficient(g.P[0], g.P[1]);
      CoefficientIsRatio(g.P[0], g.P[1]);
      if n < 8 {
        var h := SchurStep(g, r, n);
        StepProceeds(g, r, n);
        ReflectionsAre(h, n + 1);
        assert RowsFrom(g, n)[1..] == RowsFrom(h, n + 1) && Reflections(g, n)[1..] == Reflections(h, n + 1);
      }
    }
  }

  lemma StepProceeds(g: Rows, r: word, n: nat)
    requires WellFormed(g) && 1 <= n <= 7 && Abs(g.P[1]) <= g.P[0] && r != MIN_WORD && IsRatio(r, g.P[0], g.P[1])
    ensures Proceeds(g, SchurStep(g, r, n), r, n)
  {
    hide SchurStep, IsRatio, Abs, MultR, Add, ShortTerm.Rounds;
    var h := SchurStep(g, r, n);
    SchurStepAt(g, r, n, 0);
    ProductRounds(g.P[0], r, g.P[1]);
    forall m | 1 <= m <= 8 - n
      ensures ShortTerm.Rounds(h.P[m], g.P[m + 1], r as int, g.K[m]) && ShortTerm.Rounds(h.K[m], g.K[m], r as int, g.P[m + 1])
    {
      SchurStepAt(g, r, n, m);
      ProductRounds(g.P[m + 1], r, g.K[m]);
      ProductRounds(g.K[m], r, g.P[m + 1]);
    }
  }

  lemma ProductRounds(a: word, r: word, u: word)
    requires r != MIN_WORD
    ensures ShortTerm.Rounds(Add(a, MultR(u, r)), a, r as int, u)
  {
    hide ShortTerm.Rounds;
    ShortTerm.StageRounds(a, r, u);
  }

  /** The first rows are the correlations, shifted up as far as they go: n is the shift that
      takes acf[0] into the upper half of a longword, and the entries are the upper halves. */
  ghost predicate StartsFrom(g: Rows, acf: seq<longword>) {
    && WellFormed(g) && |acf| == 9
    && (forall i :: 1 <= i <= 7 ==> g.K[i] == g.P[i])
    && exists n: nat ::
         && 0x4000_0000 <= acf[0] as int * Pow2(n) < 0x8000_0000
         && forall i :: 0 <= i < 9 ==> UpperHalfOf(g.P[i], acf[i], n)
  }

  predicate UpperHalfOf(x: word, a: longword, n: nat) {
    65536 * x as int <= a as int * Pow2(n) < 65536 * (x as int + 1)
  }

  lemma FirstRows(acf: seq<longword>)
    requires |acf| == 9 && acf[0] > 0
    requires forall k :: 0 <= k < 9 ==> -(acf[0] as int) <= acf[k] as int <= acf[0] as int
    ensures StartsFrom(InitialRows(NormalisedAcf(acf)), acf)
  {
    hide Norm;
    var x, n := NormalisedAcf(acf), Norm(acf[0]);
    NormNormalises(acf[0]);
    forall i | 0 <= i < 9
      ensures UpperHalfOf(x[i], acf[i], n)
    {
      NormalisedHalf(acf[0], acf[i]);
    }
  }

  /** The coefficients of a set of correlations, by the equations of the recursion. */
  lemma ReflectionsOfAre(acf: seq<longword>) returns (rows: seq<Rows>)
    requires |acf| == 9
    requires forall k :: 0 <= k < 9 ==> -(acf[0] as int) <= acf[k] as int <= acf[0] as int
    ensures acf[0] == 0 ==> forall i :: 0 <= i < 8 ==> ReflectionsOf(acf)[i] == 0
    ensures acf[0] > 0 ==> Recursion(rows, ReflectionsOf(acf), 1) && StartsFrom(rows[0], acf)
  {
    hide RowsFrom, Reflections, NormalisedAcf, InitialRows, StartsFrom;
    if acf[0] > 0 {
      var g := InitialRows(NormalisedAcf(acf));
      rows := RowsFrom(g, 1);
      FirstRows(acf);
      ReflectionsAre(g, 1);
    } else {
      rows := [];
    }
  }

  function InitialRows(acf: seq<word>): (g: Rows)
    requires |acf| == 9
    ensures WellFormed(g)
  {
    Rows(acf, [0] + acf[1..8] + [0])
  }

  /** A proper fraction of a magnitude, rounded, is never more than the magnitude. */
  lemma FractionTaken(a: int, q: int)
    requires 0 <= a <= 32768 && 0 <= q <= 32767
    ensures -a <= (-(a * q) + 16384) / 32768 <= 0
    ensures -32767 <= (-(a * q) + 16384) / 32768
  {
    MulMonotonic(0, a, q);
    MulMonotonic(q, 32767, a);
  }

  lemma EnergyTaken(p1: word, r: word)
    requires r != MIN_WORD && (p1 > 0 ==> r <= 0) && (p1 <= 0 ==> r >= 0)
    ensures -(Abs(p1) as int) <= RoundedProduct(p1, r) <= 0
  {
    if p1 > 0 {
      FractionTaken(p1 as int, -(r as int));
      assert p1 as int * r as int == -(p1 as int * -(r as int));
    } else {
      FractionTaken(-(p1 as int), r as int);
      assert p1 as int * r as int == -(-(p1 as int) * r as int);
    }
  }

  /** The leading entry is the energy left unpredicted: a step never raises it and never
      makes it negative. */
  lemma EnergyDecreases(p0: word, p1: word)
    requires Abs(p1) <= p0
    ensures 0 <= Add(p0, MultR(p1, Coefficient(p0, p1))) <= p0
  {
    var r := Coefficient(p0, p1);
    hide Coefficient, Quotient, MultR, RoundedProduct;
    MultRExact(p1, r);
    EnergyTaken(p1, r);
  }

  /** The leading entry at every coefficient from the n-th on, as long as the recursion goes. */
  function Energies(g: Rows, n: nat): (e: seq<word>)
    requires WellFormed(g) && 1 <= n <= 9
    decreases 9 - n
  {
    if n == 9 then []
    else if g.P[0] < Abs(g.P[1]) || n == 8 then [g.P[0]]
    else [g.P[0]] + Energies(SchurStep(g, Coefficient(g.P[0], g.P[1]), n), n + 1)
  }

  /** Over the whole recursion the leading entry never rises and never goes negative. */
  lemma {:induction false} EnergiesFall(g: Rows, n: nat)
    requires WellFormed(g) && 1 <= n <= 8 && g.P[0] >= 0
    ensures var e := Energies(g, n);
            && |e| > 0 && e[0] == g.P[0]
            && (forall i :: 0 <= i < |e| ==> 0 <= e[i] <= g.P[0])
            && (forall i :: 0 < i < |e| ==> e[i] <= e[i - 1])
    decreases 9 - n
  {
    hide SchurStep, Coefficient, Abs;
    if g.P[0] >= Abs(g.P[1]) && n < 8 {
      var r := Coefficient(g.P[0], g.P[1]);
      EnergyDecreases(g.P[0], g.P[1]);
      SchurStepAt(g, r, n, 0);
      var rest := Energies(SchurStep(g, r, n), n + 1);
      EnergiesFall(SchurStep(g, r, n), n + 1);
      assert Energies(g, n) == [g.P[0]] + rest;
    }
  }

  /** In every frame the recursion starts from a normalised energy of at least 16384 and
      keeps it from going negative. */
  lemma EnergiesOfFrame(acf: seq<longword>)
    requires |acf| == 9 && acf[0] > 0
    requires forall k :: 0 <= k < 9 ==> -(acf[0] as int) <= acf[k] as int <= acf[0] as int
    ensures var e := Energies(InitialRows(NormalisedAcf(acf)), 1);
            && |e| > 0 && e[0] >= 16384
            && (forall i :: 0 <= i < |e| ==> e[i] >= 0)
            && (forall i :: 0 < i < |e| ==> e[i] <= e[i - 1])
  {
    hide Energies;
    EnergiesFall(InitialRows(NormalisedAcf(acf)), 1);
  }

  /** Every coefficient is a proper fraction, so the lattice filters built from them are
      defined on all inputs. */
  lemma {:induction false} ReflectionsProper(g: Rows, n: nat)
    requires WellFormed(g) && 1 <= n <= 9
    ensures ShortTerm.NoMinWord(Reflections(g, n))
    decreases 9 - n
  {
    if n < 8 && g.P[0] >= Abs(g.P[1]) {
      ReflectionsProper(SchurStep(g, Coefficient(g.P[0], g.P[1]), n), n + 1);
    }
  }

  /** The reflection coefficients of a set of correlations. */
  function ReflectionsOf(acf: seq<longword>): (r: seq<word>)
    requires |acf| == 9
    requires forall k :: 0 <= k < 9 ==> -(acf[0] as int) <= acf[k] as int <= acf[0] as int
    ensures |r| == 8
  {
    if acf[0] == 0 then seq(8, _ => 0) else Reflections(InitialRows(NormalisedAcf(acf)), 1)
  }

  /** The rows when the inner loop has done the entries before m. */
  function SchurPartly(g: Rows, r: word, n: nat, m: nat): Rows
    requires WellFormed(g) && 1 <= n <= 7 && 1 <= m <= 9
  {
    var g' := SchurStep(g, r, n);
    Rows(g'.P[..m] + g.P[m..], g'.K[..m] + g.K[m..])
  }

  /** The rows at entry m, before and after it is done. */
  lemma SchurPass(g: Rows, r: word, n: nat, m: nat)
    requires WellFormed(g) && 1 <= n <= 7 && 1 <= m < 9 - n
    ensures var h := SchurPartly(g, r, n, m);
            && WellFormed(h) && h.P[m + 1] == g.P[m + 1] && h.K[m] == g.K[m]
            && SchurPartly(g, r, n, m + 1) == Rows(h.P[m := Add(h.P[m + 1], MultR(h.K[m], r))], h.K[m := Add(h.K[m], MultR(h.P[m + 1], r))])
  {
    hide SchurStep, MultR, Add;
    SchurStepAt(g, r, n, m);
  }

  /** The rows before the loop, with the first entry done, and after it. */
  lemma SchurEnds(g: Rows, r: word, n: nat)
    requires WellFormed(g) && 1 <= n <= 7
    ensures SchurPartly(g, r, n, 1) == Rows(g.P[0 := Add(g.P[0], MultR(g.P[1], r))], g.K)
    ensures SchurPartly(g, r, n, 9 - n) == SchurStep(g, r, n)
  {
    hide SchurStep, MultR, Add;
    SchurStepAt(g, r, n, 0);
    forall m | 9 - n <= m < 9
      ensures SchurStep(g, r, n).P[m] == g.P[m] && SchurStep(g, r, n).K[m] == g.K[m]
    {
      SchurStepAt(g, r, n, m);
    }
    var h := SchurStep(g, r, n);
    SameTail(h.P, g.P, 9 - n);
    SameTail(h.K, g.K, 9 - n);
    assert h.P[..1] + g.P[1..] == g.P[0 := h.P[0]];
    assert h.K[..1] + g.K[1..] == g.K;
  }

  lemma SameTail(s: seq<word>, t: seq<word>, k: nat)
    requires |s| == |t| && k <= |s| && forall m :: k <= m < |s| ==> s[m] == t[m]
    ensures s[..k] + t[k..] == s
  {
  }

  /** Schur recursion, in place: the inner loop overwrites P[m] and K[m] while P[m + 1] is
      still the old one. */
  method SchurInPlace(P: array<word>, K: array<word>, r: word, n: nat)
    requires P.Length == K.Length == 9 && P != K && 1 <= n <= 7
    modifies P, K
    ensures Rows(P[..], K[..]) == SchurStep(Rows(old(P[..]), old(K[..])), r, n)
  {
    hide MultR, Add, SchurStep, SchurPartly;
    ghost var g := Rows(P[..], K[..]);
    SchurEnds(g, r, n);
    var temp := MultR(P[1], r);
    P[0] := Add(P[0], temp);
    assert P[..] == g.P[0 := Add(g.P[0], MultR(g.P[1], r))];
    for m := 1 to 9 - n
      invariant Rows(P[..], K[..]) == SchurPartly(g, r, n, m)
    {
      SchurPass(g, r, n, m);
      SchurCell(P, K, r, m);
    }
  }

  method SchurCell(P: array<word>, K: array<word>, r: word, m: nat)
    requires P.Length == K.Length == 9 && P != K && m < 8
    modifies P, K
    ensures P[..] == old(P[..])[m := Add(old(P[m + 1]), MultR(old(K[m]), r))]
    ensures K[..] == old(K[..])[m := Add(old(K[m]), MultR(old(P[m + 1]), r))]
  {
    hide MultR, Add;
    var temp := MultR(K[m], r);
    P[m] := Add(P[m + 1], temp);
    temp := MultR(P[m + 1], r);
    K[m] := Add(K[m], temp);
  }

  /** ACF[i] = SASR(L_ACF[i] << temp, 16). */
  method NormaliseAcf(L_ACF: array<longword>) returns (ACF: array<word>)
    requires L_ACF.Length == 9 && L_ACF[0] > 0
    requires forall k :: 0 <= k < 9 ==> -(L_ACF[0] as int) <= L_ACF[k] as int <= L_ACF[0] as int
    ensures fresh(ACF) && ACF[..] == NormalisedAcf(L_ACF[..])
  {
    var temp := Norm(L_ACF[0]);
    ACF := new word[9](_ => 0);
    ghost var n := NormalisedAcf(L_ACF[..]);
    for i := 0 to 9
      invariant forall k :: 0 <= k < i ==> ACF[k] == n[k]
    {
      var shifted := ShiftAcf(L_ACF[0], L_ACF[i], temp);
      ACF[i] := shifted;
    }
  }

  method ShiftAcf(top: longword, a: longword, temp: nat) returns (x: word)
    requires top > 0 && -(top as int) <= a as int <= top as int && temp == Norm(top)
    ensures x as int == a as int * Pow2(temp) / 65536
  {
    NormalisedHalf(top, a);
    var shifted := (a as int * Pow2(temp)) as longword;
    SasrIsFloor(shifted as int, 16);
    Pow2Values();
    x := Sasr(shifted as int, 16) as word;
  }

  method InitialiseRows(ACF: array<word>, P: array<word>, K: array<word>)
    requires ACF.Length == P.Length == K.Length == 9 && P != K && P != ACF && K != ACF
    requires K[0] == K[8] == 0
    modifies P, K
    ensures Rows(P[..], K[..]) == InitialRows(ACF[..])
  {
    for i := 1 to 8
      invariant K[0] == K[8] == 0 && forall k :: 1 <= k < i ==> K[k] == ACF[k]
    {
      K[i] := ACF[i];
    }
    for i := 0 to 9
      invariant forall k :: 0 <= k < i ==> P[k] == ACF[k]
      invariant K[0] == K[8] == 0 && forall k :: 1 <= k < 8 ==> K[k] == ACF[k]
    {
      P[i] := ACF[i];
    }
    assert P[..] == ACF[..];
    assert K[..] == [0] + ACF[1..8] + [0];
  }

  /** Reflection_coefficients.  `rows` lists the rows as every turn of the loop finds them. */
  method ReflectionCoefficients(L_ACF: array<longword>, r: array<word>) returns (ghost rows: seq<Rows>)
    requires L_ACF.Length == 9 && r.Length == 8
    requires forall k :: 0 <= k < 9 ==> -(L_ACF[0] as int) <= L_ACF[k] as int <= L_ACF[0] as int
    modifies r
    ensures r[..] == ReflectionsOf(L_ACF[..])
    ensures L_ACF[0] == 0 ==> forall i :: 0 <= i < 8 ==> r[i] == 0
    ensures L_ACF[0] > 0 ==> Recursion(rows, r[..], 1) && StartsFrom(rows[0], L_ACF[..])
  {
    hide Recursion, StartsFrom, Reflections;
    ghost var acf := L_ACF[..];
    rows := ReflectionsOfAre(acf);
    if L_ACF[0] == 0 {
      for i := 0 to 8
        invariant forall k :: 0 <= k < i ==> r[k] == 0
      {
        r[i] := 0;
      }
      return;
    }
    var ACF := NormaliseAcf(L_ACF);
    var P, K := new word[9](_ => 0), new word[9](_ => 0);
    InitialiseRows(ACF, P, K);
    ghost var energies := ReflectionLoop(P, K, r);
  }

  /** One turn of the loop, on what has been written and what is left. */
  lemma ReflectionsTurn(done: seq<word>, g: Rows, n: nat)
    requires WellFormed(g) && 1 <= n <= 8
    ensures g.P[0] < Abs(g.P[1]) ==> Reflections(g, n) == seq(9 - n, _ => 0)
    ensures g.P[0] >= Abs(g.P[1])
            ==> var r := Coefficient(g.P[0], g.P[1]);
                if n == 8 then done + Reflections(g, n) == done + [r]
                else done + Reflections(g, n) == (done + [r]) + Reflections(SchurStep(g, r, n), n + 1)
  {
    hide Coefficient, SchurStep;
  }

  lemma EnergiesTurn(seen: seq<word>, g: Rows, n: nat)
    requires WellFormed(g) && 1 <= n <= 8
    ensures if g.P[0] < Abs(g.P[1]) || n == 8 then seen + Energies(g, n) == seen + [g.P[0]]
            else seen + Energies(g, n)
                 == (seen + [g.P[0]]) + Energies(SchurStep(g, Coefficient(g.P[0], g.P[1]), n), n + 1)
  {
    hide Coefficient, SchurStep, Abs;
    if g.P[0] >= Abs(g.P[1]) && n < 8 {
      Associative(seen, [g.P[0]], Energies(SchurStep(g, Coefficient(g.P[0], g.P[1]), n), n + 1));
    }
  }

  /** The loop over the eight coefficients.  `energies` lists P[0] as every turn finds it. */
  method ReflectionLoop(P: array<word>, K: array<word>, r: array<word>) returns (ghost energies: seq<word>)
    requires P.Length == K.Length == 9 && r.Length == 8 && P != K && P != r && K != r
    modifies P, K, r
    ensures r[..] == Reflections(Rows(old(P[..]), old(K[..])), 1)
    ensures energies == Energies(Rows(old(P[..]), old(K[..])), 1)
    ensures Recursion(RowsFrom(Rows(old(P[..]), old(K[..])), 1), r[..], 1)
  {
    hide SchurStep, Quotient, MultR, Add, Reflections, Energies, Recursion, RowsFrom;
    ReflectionsAre(Rows(P[..], K[..]), 1);
    energies := [];
    ghost var trace := Energies(Rows(P[..], K[..]), 1);
    ghost var all := Reflections(Rows(P[..], K[..]), 1);
    for n := 1 to 9
      invariant all == r[..n - 1] + Reflections(Rows(P[..], K[..]), n)
      invariant trace == energies + Energies(Rows(P[..], K[..]), n) && n <= 8
    {
      ghost var done, g := r[..n - 1], Rows(P[..], K[..]);
      ReflectionsTurn(done, g, n);
      EnergiesTurn(energies, g, n);
      energies := energies + [P[0]];
      var temp := Abs(P[1]);
      if P[0] < temp {
        for i := n to 9
          invariant r[..n - 1] == done
          invariant forall k :: n - 1 <= k < i - 1 ==> r[k] == 0
        {
          r[i - 1] := 0;
        }
        assert r[..] == done + Reflections(g, n);
        return;
      }
      var q := Div(temp, P[0]);
      r[n - 1] := q;
      if P[1] > 0 { r[n - 1] := -r[n - 1]; }
      assert r[n - 1] == Coefficient(P[0], P[1]) && r[..n] == done + [r[n - 1]];
      if n == 8 {
        return;
      }
      SchurInPlace(P, K, r[n - 1], n);
    }
  }

  // ------------------------------------------------------------------ log-area ratios

  /** Transformation of one reflection coefficient. */
  function ToLar(r: word): word
    requires r != MIN_WORD
  {
    var temp := Abs(r);
    var lar := if temp < 22118 then temp / 2 else if temp < 31130 then temp - 11059 else (temp - 26112) * 4;
    if r < 0 then -lar else lar
  }

  /** The standard's mapping, with coefficients in 32768ths and ratios in 16384ths: LAR = r up to
      0.675, then 2 * r - 0.675 up to 0.95, then 8 * r - 6.375; 0.675 * 32768 is 22118.4 and
      0.95 * 32768 is 31129.6. */
  lemma ToLarIs(a: word)
    requires a >= 0
    ensures var r, lar := a as int, ToLar(a) as int;
            && (10 * r < 221184 ==> 0 <= r - 2 * lar <= 1)
            && (221184 <= 10 * r < 311296 ==> 5 * lar == 5 * r - 55296 + 1)
            && (311296 <= 10 * r ==> lar == 4 * r - 104448)
    ensures ToLar(-a) == -ToLar(a)
  {
  }

  /** The decoder's mapping undoes the encoder's: exactly above the first knee, and up to
      the bit that the shift drops below it. */
  lemma LarRoundTrip(r: word)
    requires r != MIN_WORD
    ensures ShortTerm.LarpToRp(ToLar(r)) == if -22118 < r < 22118 then (if r < 0 then -(Abs(r) / 2 * 2) else r / 2 * 2) else r
  {
  }

  /** The other way round: exact below the second knee, a multiple of four above it, and
      everything above 26620 is clipped to it. */
  lemma LarRoundTripBack(lar: word)
    requires lar >= 0
    ensures ToLar(ShortTerm.LarpToRp(lar))
            == if lar <= 20070 then lar else if lar == 20071 then 20070 else if lar < 26620 then lar / 4 * 4 else 26620
  {
  }

  const A: seq<word> := [20480, 20480, 20480, 20480, 13964, 15360, 8534, 9036]
  const MAC: seq<word> := [31, 31, 15, 15, 7, 7, 3, 3]

  /** Quantization of one ratio, before the clamp. */
  function LarStep(lar: word, i: nat): (t: word)
    requires i < 8
  {
    (Add(Add(Mult(A[i], lar), ShortTerm.B[i]), 256) as int / 512) as word
  }

  function QuantizeLar(lar: word, i: nat): word
    requires i < 8
  {
    var mac, mic := MAC[i], ShortTerm.MIC[i];
    var temp := LarStep(lar, i);
    if temp > mac then mac - mic else if temp < mic then 0 else temp - mic
  }

  /** A coded ratio fits its field: 6, 6, 5, 5, 4, 4, 3 and 3 bits. */
  lemma LarCodeFitsField(lar: word, i: nat)
    requires i < 8
    ensures 0 <= QuantizeLar(lar, i) as int < [64, 64, 32, 32, 16, 16, 8, 8][i]
  {
  }

  /** Neither the shift by ten nor the subtraction of the offset leaves a word. */
  lemma DecodedLarArgument(c: word, i: nat)
    requires i < 8 && 0 <= c <= MAC[i] - ShortTerm.MIC[i]
    ensures Sub(Wrap16(Add(c, ShortTerm.MIC[i]) as int * 1024), ShortTerm.B[i] * 2) as int
            == (c as int + ShortTerm.MIC[i] as int) * 1024 - 2 * ShortTerm.B[i] as int
  {
    assert Add(c, ShortTerm.MIC[i]) == c + ShortTerm.MIC[i];
  }

  lemma RescaledLar(inva: word, x: word)
    requires -16384 <= (inva as int * x as int + 16384) / 32768 < 16384
    ensures var t := MultR(inva, x); Add(t, t) as int == 2 * ((inva as int * x as int + 16384) / 32768)
  {
  }

  /** Decoding a code in range neither wraps nor saturates. */
  lemma DecodedLarValue(c: word, i: nat)
    requires i < 8 && 0 <= c <= MAC[i] - ShortTerm.MIC[i]
    ensures var x := (c as int + ShortTerm.MIC[i] as int) * 1024 - 2 * ShortTerm.B[i] as int;
            ShortTerm.DecodeLar(c, i) as int == 2 * ((ShortTerm.INVA[i] as int * x + 16384) / 32768)
  {
    var x := (c as int + ShortTerm.MIC[i] as int) * 1024 - 2 * ShortTerm.B[i] as int;
    DecodedLarRange(i, x);
    DecodedLarArgument(c, i);
    RescaledLar(ShortTerm.INVA[i], x as word);
  }

  lemma DecodedLarRange(i: nat, x: int)
    requires i < 8
    requires ShortTerm.MIC[i] as int * 1024 - 2 * ShortTerm.B[i] as int <= x
          <= MAC[i] as int * 1024 - 2 * ShortTerm.B[i] as int
    ensures -32768 <= x <= 32767
    ensures -16384 <= (ShortTerm.INVA[i] as int * x + 16384) / 32768 < 16384
  {
    if i <= 1 {
    } else if i == 2 {
    } else if i == 3 {
    } else if i == 4 {
    } else if i == 5 {
    } else if i == 6 {
    } else {
    }
  }

  /** Nor does the quantizer before its clamp. */
  lemma LarStepValue(lar: word, i: nat)
    requires i < 8
    ensures LarStep(lar, i) as int == (A[i] as int * lar as int / 32768 + ShortTerm.B[i] as int + 256) / 512
  {
    assert 0 <= A[i] <= 20480 && -2560 <= ShortTerm.B[i] <= 2048;
    LarStepGeneral(A[i], lar, ShortTerm.B[i]);
  }

  lemma LarStepGeneral(a: word, lar: word, b: word)
    requires 0 <= a <= 20480 && -2560 <= b <= 2048
    ensures Add(Add(Mult(a, lar), b), 256) as int == a as int * lar as int / 32768 + b as int + 256
  {
    ProductBound(a as int, lar as int, 20480, 32768);
  }

  lemma CodeStep(c: int, i: nat, x: int, t: int)
    requires i < 8 && 0 <= c <= MAC[i] as int - ShortTerm.MIC[i] as int
    requires x == (c + ShortTerm.MIC[i] as int) * 1024 - 2 * ShortTerm.B[i] as int
    requires t == (ShortTerm.INVA[i] as int * x + 16384) / 32768
    ensures (A[i] as int * (2 * t) / 32768 + ShortTerm.B[i] as int + 256) / 512 == c + ShortTerm.MIC[i] as int
  {
    if i <= 1 {
    } else if i == 2 {
    } else if i == 3 {
    } else if i == 4 {
    } else if i == 5 {
    } else if i == 6 {
    } else {
    }
  }

  /** Every code is the code of the ratio it decodes to: coding again changes nothing. */
  lemma LarCodesAreFixed(c: word, i: nat)
    requires i < 8 && 0 <= c <= MAC[i] - ShortTerm.MIC[i]
    ensures QuantizeLar(ShortTerm.DecodeLar(c, i), i) == c
  {
    var lar := ShortTerm.DecodeLar(c, i);
    DecodedLarStep(c, i, lar);
    assert LarStep(lar, i) == c + ShortTerm.MIC[i];
  }

  lemma DecodedLarStep(c: word, i: nat, lar: word)
    requires i < 8 && 0 <= c <= MAC[i] - ShortTerm.MIC[i] && lar == ShortTerm.DecodeLar(c, i)
    ensures LarStep(lar, i) as int == c as int + ShortTerm.MIC[i] as int
  {
    hide ShortTerm.DecodeLar, LarStep;
    var x := (c as int + ShortTerm.MIC[i] as int) * 1024 - 2 * ShortTerm.B[i] as int;
    DecodedLarValue(c, i);
    LarStepValue(lar, i);
    CodeStep(c as int, i, x, (ShortTerm.INVA[i] as int * x + 16384) / 32768);
  }

  lemma CodingErrorStep(lar: int, i: nat, step: int, x: int, t: int)
    requires i < 8 && -32768 <= lar <= 32767 && ShortTerm.MIC[i] as int <= step <= MAC[i] as int
    requires step == (A[i] as int * lar / 32768 + ShortTerm.B[i] as int + 256) / 512
    requires x == step * 1024 - 2 * ShortTerm.B[i] as int
    requires t == (ShortTerm.INVA[i] as int * x + 16384) / 32768
    ensures -0x80_0000 - 2 * A[i] as int <= A[i] as int * (2 * t - lar) <= 0x80_0000 + 2 * A[i] as int
  {
    if i <= 1 {
    } else if i == 2 {
    } else if i == 3 {
    } else if i == 4 {
    } else if i == 5 {
    } else if i == 6 {
    } else {
    }
  }

  /** Within the range of the quantizer the decoded ratio is at most half a step, and two
      units of rounding, from the coded one. */
  lemma LarCodingError(lar: word, i: nat)
    requires i < 8 && ShortTerm.MIC[i] <= LarStep(lar, i) <= MAC[i]
    ensures var e := ShortTerm.DecodeLar(QuantizeLar(lar, i), i) as int - lar as int;
            -(256 * 32768 + 2 * A[i] as int) <= A[i] as int * e <= 256 * 32768 + 2 * A[i] as int
  {
    hide ShortTerm.DecodeLar, LarStep;
    var step, c := LarStep(lar, i), QuantizeLar(lar, i);
    assert c == step - ShortTerm.MIC[i];
    var x := (c as int + ShortTerm.MIC[i] as int) * 1024 - 2 * ShortTerm.B[i] as int;
    var t := (ShortTerm.INVA[i] as int * x + 16384) / 32768;
    LarStepValue(lar, i);
    DecodedLarValue(c, i);
    CodingErrorStep(lar as int, i, step as int, x, t);
  }

  /** Transformation_to_Log_Area_Ratios, in place, with its branches. */
  method TransformationToLogAreaRatios(r: array<word>)
    requires r.Length == 8 && forall i :: 0 <= i < 8 ==> r[i] != MIN_WORD
    modifies r
    ensures forall i :: 0 <= i < 8 ==> r[i] == ToLar(old(r[i]))
  {
    for i := 0 to 8
      invariant forall k :: i <= k < 8 ==> r[k] == old(r[k])
      invariant forall k :: 0 <= k < i ==> r[k] == ToLar(old(r[k]))
    {
      var temp := Abs(r[i]);
      if temp < 22118 {
        temp := temp / 2;
      } else if temp < 31130 {
        temp := temp - 11059;
      } else {
        temp := temp - 26112;
        temp := temp * 4;
      }
      if r[i] < 0 {
        r[i] := -temp;
      } else {
        r[i] := temp;
      }
    }
  }

  /** Quantization_and_coding: STEP for each of the eight ratios. */
  method QuantizationAndCoding(LAR: array<word>)
    requires LAR.Length == 8
    modifies LAR
    ensures forall i :: 0 <= i < 8 ==> LAR[i] == QuantizeLar(old(LAR[i]), i)
  {
    hide Mult, Add;
    for i := 0 to 8
      invariant forall k :: i <= k < 8 ==> LAR[k] == old(LAR[k])
      invariant forall k :: 0 <= k < i ==> LAR[k] == QuantizeLar(old(LAR[k]), k)
    {
      var temp := Mult(A[i], LAR[i]);
      temp := Add(temp, ShortTerm.B[i]);
      temp := Add(temp, 256);
      temp := (temp as int / 512) as word;
      LAR[i] := if temp > MAC[i] then MAC[i] - ShortTerm.MIC[i]
                else if temp < ShortTerm.MIC[i] then 0 else temp - ShortTerm.MIC[i];
    }
  }

  /** The correlations of a frame, as Autocorrelation leaves them. */
  function AcfOf(s: seq<word>): (acf: seq<longword>)
    requires |s| == 160
    ensures |acf| == 9
    ensures forall k :: 0 <= k < 9 ==> acf[k] as int == 2 * Correlation(Normalised(s), k, 160)
    ensures forall k :: 0 <= k < 9 ==> -(acf[0] as int) <= acf[k] as int <= acf[0] as int
  {
    ScaledSignalIsSmall(s);
    var t := Normalised(s);
    assert forall k: nat :: -(0x40_0000 * 160) <= Correlation(t, k, 160) <= 0x40_0000 * 160 by {
      forall k: nat { CorrelationFits(t, k, 160); }
    }
    assert forall k: nat :: -Correlation(t, 0, 160) <= Correlation(t, k, 160) <= Correlation(t, 0, 160) by {
      forall k: nat { CorrelationAtMostEnergy(t, k); }
    }
    seq(9, k requires 0 <= k < 9 => (2 * Correlation(t, k, 160)) as longword)
  }

  /** The coded log-area ratios of a frame. */
  function LarCodes(s: seq<word>): (c: seq<word>)
    requires |s| == 160
    ensures |c| == 8
  {
    var acf := AcfOf(s);
    var r := ReflectionsOf(acf);
    ReflectionsOfProper(acf);
    seq(8, i requires 0 <= i < 8 => QuantizeLar(ToLar(r[i]), i))
  }

  lemma ReflectionsOfProper(acf: seq<longword>)
    requires |acf| == 9
    requires forall k :: 0 <= k < 9 ==> -(acf[0] as int) <= acf[k] as int <= acf[0] as int
    ensures ShortTerm.NoMinWord(ReflectionsOf(acf))
  {
    if acf[0] != 0 {
      ReflectionsProper(InitialRows(NormalisedAcf(acf)), 1);
    }
  }

  /** The codes of any frame fit the bit fields they are sent in. */
  lemma LarCodesFitFields(s: seq<word>)
    requires |s| == 160
    ensures forall i :: 0 <= i < 8 ==> 0 <= LarCodes(s)[i] as int < [64, 64, 32, 32, 16, 16, 8, 8][i]
  {
    forall i | 0 <= i < 8
      ensures 0 <= LarCodes(s)[i] as int < [64, 64, 32, 32, 16, 16, 8, 8][i]
    {
      ReflectionsOfProper(AcfOf(s));
      LarCodeFitsField(ToLar(ReflectionsOf(AcfOf(s))[i]), i);
    }
  }

  method GsmLpcAnalysis(s: array<word>, LARc: array<word>)
    requires s.Length == 160 && LARc.Length == 8 && s != LARc
    modifies s, LARc
    ensures LARc[..] == LarCodes(old(s[..]))
    ensures s[..] == Restored(old(s[..]))
  {
    ghost var acf := AcfOf(s[..]);
    var L_ACF := new longword[9](_ => 0);
    Autocorrelation(s, L_ACF);
    assert L_ACF[..] == acf;
    ghost var rows := ReflectionCoefficients(L_ACF, LARc);
    ReflectionsOfProper(acf);
    ghost var r := LARc[..];
    assert forall i :: 0 <= i < 8 ==> LARc[i] == r[i];
    TransformationToLogAreaRatios(LARc);
    QuantizationAndCoding(LARc);
  }
}

