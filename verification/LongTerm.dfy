/**
 Long-term prediction (long_term.c, sections 4.2.11, 4.2.12 and 4.3.2 of GSM 06.10):
 the search for the lag by cross-correlation, in its direct form and in the form that
 evaluates nine lags at once from rotating registers, the coding of the gain, and the
 two long-term filters over the 120-word history.
 */
module LongTerm {
  import opened Powers
  import opened GsmArith
  import opened GsmStates
  import opened Seqs

  /** The previous 120 reconstructed residual samples, dp[-120..-1]. */
  type History = s: seq<word> | |s| == 120 witness seq(120, _ => 0)

  // ------------------------------------------------------------------ scaling

  /** scal: six less the normalising shift, at least zero. */
  function ScaleShift(dmax: word): (scal: nat)
    requires 0 <= dmax
    ensures scal <= 6
  {
    var temp := if dmax == 0 then 0 else Norm(dmax as longword * 65536);
    if temp > 6 then 0 else 6 - temp
  }

  lemma ScaleShiftIntervals(dmax: word)
    requires 0 <= dmax
    ensures dmax == 0 ==> ScaleShift(dmax) == 6
    ensures 0 < dmax < 512 ==> ScaleShift(dmax) == 0
    ensures 512 <= dmax < 1024 ==> ScaleShift(dmax) == 1
    ensures 1024 <= dmax < 2048 ==> ScaleShift(dmax) == 2
    ensures 2048 <= dmax < 4096 ==> ScaleShift(dmax) == 3
    ensures 4096 <= dmax < 8192 ==> ScaleShift(dmax) == 4
    ensures 8192 <= dmax < 16384 ==> ScaleShift(dmax) == 5
    ensures 16384 <= dmax ==> ScaleShift(dmax) == 6
  {
  }

  /** The working array: every scaled sample has at most ten bits. */
  lemma ScaledBound(x: word, dmax: word)
    requires Abs(x) <= dmax
    ensures -512 <= ShiftRight(x, ScaleShift(dmax)) <= 512
  {
    ScaleShiftIntervals(dmax);
    SmallPowers();
    var scal := ScaleShift(dmax);
    if scal == 0 {
    } else if scal == 1 {
    } else if scal == 2 {
    } else if scal == 3 {
    } else if scal == 4 {
    } else if scal == 5 {
    } else {
    }
  }

  function Scaled(d: Subframe): (wt: Subframe)
    ensures forall k :: 0 <= k < 40 ==> -512 <= wt[k] <= 512
  {
    var scal := ScaleShift(MaxAbs(d));
    assert forall k :: 0 <= k < 40 ==> -512 <= ShiftRight(d[k], scal) <= 512 by {
      forall k | 0 <= k < 40
        ensures -512 <= ShiftRight(d[k], scal) <= 512
      {
        ScaledBound(d[k], MaxAbs(d));
      }
    }
    seq(40, k requires 0 <= k < 40 => ShiftRight(d[k], scal))
  }

  // ------------------------------------------------------------------ cross-correlation

  predicate TenBit(wt: Subframe) {
    forall k :: 0 <= k < 40 ==> -512 <= wt[k] <= 512
  }

  /** The first n terms of the cross-correlation at a lag. */
  function Cross(wt: Subframe, h: History, lag: nat, n: nat): int
    requires 40 <= lag <= 120 && n <= 40
  {
    if n == 0 then 0 else Cross(wt, h, lag, n - 1) + wt[n - 1] as int * h[120 + n - 1 - lag] as int
  }

  /** No partial sum, and no doubled sum, leaves 32 bits. */
  lemma {:induction false} CrossFits(wt: Subframe, h: History, lag: nat, n: nat)
    requires 40 <= lag <= 120 && n <= 40 && TenBit(wt)
    ensures -(0x100_0000 * n) <= Cross(wt, h, lag, n) <= 0x100_0000 * n
  {
    if n > 0 {
      CrossFits(wt, h, lag, n - 1);
      ProductBound(wt[n - 1] as int, h[120 + n - 1 - lag] as int, 512, 32768);
    }
  }

  /** The outcome of a search over the lags 40 to hi - 1: the greatest positive
      correlation at the first lag that reaches it, or lag 40 when none is positive. */
  ghost predicate BestLag(wt: Subframe, h: History, hi: nat, Nc: nat, L_max: int)
    requires 40 <= hi <= 121
  {
    && 40 <= Nc <= 120 && (Nc < hi || Nc == 40)
    && L_max >= 0
    && (forall l :: 40 <= l < hi ==> Cross(wt, h, l, 40) <= L_max)
    && (L_max == 0 ==> Nc == 40)
    && (L_max > 0 ==> Nc < hi && Cross(wt, h, Nc, 40) == L_max)
    && (forall l :: 40 <= l < Nc ==> Cross(wt, h, l, 40) < L_max)
  }

  /** There is one such outcome. */
  lemma BestLagUnique(wt: Subframe, h: History, hi: nat, n1: nat, m1: int, n2: nat, m2: int)
    requires 40 <= hi <= 121 && BestLag(wt, h, hi, n1, m1) && BestLag(wt, h, hi, n2, m2)
    ensures n1 == n2 && m1 == m2
  {
  }

  datatype Lag = Lag(Nc: nat, L_max: int)

  /** The outcome, computed. */
  function FindBestLag(wt: Subframe, h: History, hi: nat): (r: Lag)
    requires 40 <= hi <= 121
    ensures BestLag(wt, h, hi, r.Nc, r.L_max)
  {
    if hi == 40 then Lag(40, 0)
    else
      var r := FindBestLag(wt, h, hi - 1);
      var c := Cross(wt, h, hi - 1, 40);
      if c > r.L_max then Lag(hi - 1, c) else r
  }

  lemma BestLagStep(wt: Subframe, h: History, hi: nat, Nc: nat, L_max: int)
    requires 40 <= hi <= 120 && BestLag(wt, h, hi, Nc, L_max)
    ensures var c := Cross(wt, h, hi, 40);
            BestLag(wt, h, hi + 1, if c > L_max then hi else Nc, if c > L_max then c else L_max)
  {
  }

  /** One STEP chain: the correlation at one lag. */
  method CrossAt(wt: array<word>, dp: array<word>, at: nat, lag: nat) returns (L_result: longword)
    requires wt.Length == 40 && 120 <= at <= dp.Length && 40 <= lag <= 120 && TenBit(wt[..])
    ensures L_result as int == Cross(wt[..], dp[at - 120..at], lag, 40)
  {
    L_result := 0;
    ghost var h := dp[at - 120..at];
    for k := 0 to 40
      invariant L_result as int == Cross(wt[..], h, lag, k)
    {
      CrossFits(wt[..], h, lag, k);
      CrossFits(wt[..], h, lag, k + 1);
      ProductBound(wt[k] as int, h[120 + k - lag] as int, 512, 32768);
      assert dp[at + k - lag] == h[120 + k - lag];
      L_result := L_result + wt[k] as longword * dp[at + k - lag] as longword;
    }
  }

  /** The direct search over the 81 lags. */
  method SearchLag(wt: array<word>, dp: array<word>, at: nat) returns (Nc: nat, L_max: longword)
    requires wt.Length == 40 && 120 <= at <= dp.Length && TenBit(wt[..])
    ensures Lag(Nc, L_max as int) == FindBestLag(wt[..], dp[at - 120..at], 121)
  {
    L_max := 0;
    Nc := 40;
    for lag := 40 to 121
      invariant BestLag(wt[..], dp[at - 120..at], lag, Nc, L_max as int)
    {
      var L_result := CrossAt(wt, dp, at, lag);
      BestLagStep(wt[..], dp[at - 120..at], lag, Nc, L_max as int);
      if L_result > L_max {
        Nc := lag;
        L_max := L_result;
      }
    }
    ghost var best := FindBestLag(wt[..], dp[at - 120..at], 121);
    BestLagUnique(wt[..], dp[at - 120..at], 121, Nc, L_max as int, best.Nc, best.L_max);
  }

  lemma TermFits(wt: Subframe, h: History, lag: nat, n: nat)
    requires 40 <= lag <= 120 && n < 40 && TenBit(wt)
    ensures -0x100_0000 <= wt[n] as int * h[120 + n - lag] as int <= 0x100_0000
    ensures Cross(wt, h, lag, n + 1) == Cross(wt, h, lag, n) + wt[n] as int * h[120 + n - lag] as int
    ensures -0x2800_0000 <= Cross(wt, h, lag, n) <= 0x2800_0000
    ensures -0x2800_0000 <= Cross(wt, h, lag, n + 1) <= 0x2800_0000
  {
    CrossFits(wt, h, lag, n);
    CrossFits(wt, h, lag, n + 1);
    ProductBound(wt[n] as int, h[120 + n - lag] as int, 512, 32768);
  }

  /** Where step K finds the j-th oldest of its eight registers. */
  function Slot(K: nat, j: nat): nat { (K + j) % 8 }

  /** At step K the registers a to h, in rotation, hold lp[K - 8] to lp[K - 1]. */
  ghost predicate Registers(reg: seq<word>, h: History, lag: nat, K: nat)
    requires 40 <= lag <= 112 && K <= 40
  {
    |reg| == 8 && forall j :: 0 <= j < 8 ==> reg[Slot(K, j)] == h[112 - lag + K + j]
  }

  /** The slot written in step K is the newest of the eight in step K + 1. */
  lemma RegistersRotate(reg: seq<word>, h: History, lag: nat, K: nat)
    requires 40 <= lag <= 112 && K < 40 && Registers(reg, h, lag, K)
    ensures Registers(reg[Slot(K, 0) := h[120 - lag + K]], h, lag, K + 1)
  {
    var reg' := reg[Slot(K, 0) := h[120 - lag + K]];
    forall j {:trigger Slot(K + 1, j)} | 0 <= j < 8
      ensures reg'[Slot(K + 1, j)] == h[112 - lag + K + 1 + j]
    {
      if j == 7 {
        assert Slot(K + 1, 7) == Slot(K, 0);
      } else {
        assert Slot(K + 1, j) == Slot(K, j + 1) != Slot(K, 0);
      }
    }
  }

  /** STEP(K, ...) without its last product: the sums S8 down to S1. */
  method EightProducts(W: word, reg: array<word>, S: array<longword>, ghost wt: Subframe, ghost h: History, lag: nat, K: nat)
    requires 40 <= lag <= 112 && K < 40 && TenBit(wt) && W == wt[K]
    requires reg.Length == 8 && S.Length == 9 && Registers(reg[..], h, lag, K)
    requires forall j :: 0 <= j < 9 ==> S[j] as int == Cross(wt, h, lag + j, K)
    modifies S
    ensures S[0] == old(S[0])
    ensures forall j :: 1 <= j < 9 ==> S[j] as int == Cross(wt, h, lag + j, K + 1)
  {
    for j := 9 downto 1
      invariant S[0] == old(S[0])
      invariant forall i :: j <= i < 9 ==> S[i] as int == Cross(wt, h, lag + i, K + 1)
      invariant forall i :: 0 <= i < j ==> S[i] as int == Cross(wt, h, lag + i, K)
    {
      TermFits(wt, h, lag + j, K);
      var slot := Slot(K, 8 - j);
      assert reg[..][slot] == h[120 - lag + K - j];
      var E := W as longword * reg[slot] as longword;
      S[j] := S[j] + E;
    }
  }

  /** Nine lags at once: eight registers hold the last eight history samples, and each
      step overwrites the oldest of them. */
  method NineLags(wt: array<word>, dp: array<word>, at: nat, lag: nat) returns (S: array<longword>)
    requires wt.Length == 40 && 120 <= at <= dp.Length && 40 <= lag <= 112 && TenBit(wt[..])
    ensures fresh(S) && S.Length == 9
    ensures forall j :: 0 <= j < 9 ==> S[j] as int == Cross(wt[..], dp[at - 120..at], lag + j, 40)
  {
    ghost var w, h := wt[..], dp[at - 120..at];
    var lp := at - lag;
    var reg := new word[8](_ => 0);
    for i := 0 to 8
      invariant forall j :: 0 <= j < i ==> reg[j] == h[112 - lag + j]
    {
      reg[i] := dp[lp - 8 + i];
    }
    S := new longword[9](_ => 0);
    RegistersInitially(reg[..], h, lag);
    assert forall j :: 0 <= j < 9 ==> S[j] as int == Cross(w, h, lag + j, 0);
    hide Registers, Cross, TenBit;
    for K := 0 to 40
      invariant Registers(reg[..], h, lag, K) && wt[..] == w && dp[at - 120..at] == h
      invariant forall j :: 0 <= j < 9 ==> S[j] as int == Cross(w, h, lag + j, K)
    {
      EightProducts(wt[K], reg, S, w, h, lag, K);
      RegistersRotate(reg[..], h, lag, K);
      TermFits(w, h, lag, K);
      var a := Slot(K, 0);
      assert dp[lp + K] == h[120 - lag + K];
      ghost var before := reg[..];
      reg[a] := dp[lp + K];
      assert reg[..] == before[a := h[120 - lag + K]];
      CrossStep(w, h, lag, K);
      S[0] := S[0] + wt[K] as longword * reg[a] as longword;
    }
  }

  lemma RegistersInitially(reg: seq<word>, h: History, lag: nat)
    requires |reg| == 8 && 40 <= lag <= 112 && forall j :: 0 <= j < 8 ==> reg[j] == h[112 - lag + j]
    ensures Registers(reg, h, lag, 0)
  {
  }

  lemma CrossStep(w: Subframe, h: History, lag: nat, K: nat)
    requires 40 <= lag <= 120 && K < 40
    ensures Cross(w, h, lag, K + 1) == Cross(w, h, lag, K) + w[K] as int * h[120 + K - lag] as int
  {
  }

  /** The nine comparisons that follow, in the order of the lags. */
  method CompareNine(S: array<longword>, lag: nat, Nc0: nat, L_max0: longword, ghost wt: Subframe, ghost h: History)
    returns (Nc: nat, L_max: longword)
    requires S.Length == 9 && 40 <= lag <= 112 && BestLag(wt, h, lag, Nc0, L_max0 as int)
    requires forall j :: 0 <= j < 9 ==> S[j] as int == Cross(wt, h, lag + j, 40)
    ensures BestLag(wt, h, lag + 9, Nc, L_max as int)
  {
    Nc, L_max := Nc0, L_max0;
    for j := 0 to 9
      invariant BestLag(wt, h, lag + j, Nc, L_max as int)
    {
      BestLagStep(wt, h, lag + j, Nc, L_max as int);
      if S[j] > L_max {
        L_max := S[j];
        Nc := lag + j;
      }
    }
  }

  /** The search that takes nine lags at a time agrees with the direct one. */
  method SearchLagByNines(wt: array<word>, dp: array<word>, at: nat) returns (Nc: nat, L_max: longword)
    requires wt.Length == 40 && 120 <= at <= dp.Length && TenBit(wt[..])
    ensures Lag(Nc, L_max as int) == FindBestLag(wt[..], dp[at - 120..at], 121)
  {
    L_max := 0;
    Nc := 40;
    ghost var w, h := wt[..], dp[at - 120..at];
    var lag := 40;
    while lag <= 120
      invariant 40 <= lag <= 121 && (lag == 121 || lag <= 112) && lag % 9 == 4
      invariant BestLag(w, h, lag, Nc, L_max as int)
    {
      var S := NineLags(wt, dp, at, lag);
      Nc, L_max := CompareNine(S, lag, Nc, L_max, w, h);
      lag := lag + 9;
    }
    ghost var best := FindBestLag(w, h, 121);
    BestLagUnique(w, h, 121, Nc, L_max as int, best.Nc, best.L_max);
  }

  // ------------------------------------------------------------------ the gain

  const DLB: seq<word> := [6554, 16384, 26214, 32767]
  const QLB: seq<word> := [3277, 11469, 21299, 32767]

  /** Energy of the history at a lag, scaled down by three bits. */
  function Power(h: History, lag: nat, n: nat): (e: int)
    requires 40 <= lag <= 120 && n <= 40
    ensures 0 <= e <= 0x100_0000 * n
  {
    if n == 0 then 0
    else
      PowerTerm(h[120 + n - 1 - lag]);
      var t := ShiftRight(h[120 + n - 1 - lag], 3) as int;
      Power(h, lag, n - 1) + t * t
  }

  lemma PowerTerm(x: word)
    ensures -4096 <= ShiftRight(x, 3) <= 4095
    ensures 0 <= ShiftRight(x, 3) as int * ShiftRight(x, 3) as int <= 0x100_0000
  {
    assert Pow2(3) == 8;
    var t := ShiftRight(x, 3) as int;
    ProductBound(t, t, 4096, 4096);
    assert t * t >= 0;
  }

  /** The upper half of a longword shifted to where the power is normalised. */
  function UpperHalf(x: longword, w: longword): (r: word)
    requires 0 <= x <= w && 0 < w
    ensures r >= 0
    ensures x == w ==> r >= 16384
  {
    UpperHalfFits(x as int, w);
    (x as int * Pow2(Norm(w)) / 65536) as word
  }

  lemma UpperHalfFits(x: int, w: longword)
    requires 0 <= x <= w as int && 0 < w
    ensures 0 <= x * Pow2(Norm(w)) / 65536 <= 32767
    ensures x == w as int ==> x * Pow2(Norm(w)) / 65536 >= 16384
  {
    NormNormalises(w);
    MulMonotonic(x, w as int, Pow2(Norm(w)));
    MulMonotonic(0, x, Pow2(Norm(w)));
  }

  /** Coding of the gain L_max / L_power against the four decision levels. */
  function GainCode(m: longword, w: longword): (bc: nat)
    requires w >= 0
    ensures bc <= 3
  {
    if m <= 0 then 0
    else if m >= w then 3
    else
      var R, S := UpperHalf(m, w), UpperHalf(w, w);
      if R <= Mult(S, DLB[0]) then 0
      else if R <= Mult(S, DLB[1]) then 1
      else if R <= Mult(S, DLB[2]) then 2
      else 3
  }

  lemma LevelArith(X: int, Y: int, R: int, S: int, q: int, D: int)
    requires D in {6554, 16384, 26214}
    requires X >= 0x4000_0000 && Y >= 0 && R == Y / 65536 && S == X / 65536 && q == S * D / 32768
    ensures R <= q ==> 32768 * 16384 * Y <= (16384 * D + 32768) * X
    ensures R > q ==> 32768 * 16384 * Y >= (16384 * D - 32768) * X
  {
    if D == 6554 {
    } else if D == 16384 {
    } else {
    }
  }

  lemma CancelScale(a: int, m: int, c: int, w: int, T: int)
    requires T >= 1
    ensures a * (m * T) <= c * (w * T) ==> a * m <= c * w
    ensures a * (m * T) >= c * (w * T) ==> a * m >= c * w
  {
    assert a * (m * T) == (a * m) * T && c * (w * T) == (c * w) * T;
    MulMonotonic(a * m + 1, c * w, T);
    MulMonotonic(c * w + 1, a * m, T);
    assert (a * m + 1) * T == (a * m) * T + T && (c * w + 1) * T == (c * w) * T + T;
  }

  /** One comparison of the normalised words decides the comparison of the full ratio with
      the level, up to one part in 16384. */
  lemma LevelDecision(m: longword, w: longword, D: word)
    requires 0 < m < w && D in {6554, 16384, 26214}
    ensures var below := UpperHalf(m, w) <= Mult(UpperHalf(w, w), D);
            && (below ==> 32768 * 16384 * m as int <= (16384 * D as int + 32768) * w as int)
            && (!below ==> 32768 * 16384 * m as int >= (16384 * D as int - 32768) * w as int)
  {
    NormNormalises(w);
    var T := Pow2(Norm(w));
    var X, Y := w as int * T, m as int * T;
    MulMonotonic(0, m as int, T);
    var S := UpperHalf(w, w);
    LevelArith(X, Y, UpperHalf(m, w) as int, S as int, S as int * D as int / 32768, D as int);
    LevelWord(S, D);
    CancelScale(32768 * 16384, m as int, 16384 * D as int + 32768, w as int, T);
    CancelScale(32768 * 16384, m as int, 16384 * D as int - 32768, w as int, T);
  }

  lemma LevelWord(S: word, D: word)
    requires S >= 0 && D in {6554, 16384, 26214}
    ensures Mult(S, D) as int == S as int * D as int / 32768
  {
  }

  /** The coded gain is right: the ratio L_max / L_power lies between the two decision
      levels next to the code, 0.2, 0.5 or 0.8, to one part in 16384.  So from a ratio of 1 on
      the code is 3, and without a positive correlation it is 0. */
  lemma GainCodeInterval(m: longword, w: longword)
    requires w >= 0
    ensures var bc, level := GainCode(m, w), [6554, 16384, 26214];
            && (m > 0 && bc < 3 ==> 32768 * 16384 * m as int <= (16384 * level[bc] + 32768) * w as int)
            && (bc > 0 ==> 32768 * 16384 * m as int >= (16384 * level[bc - 1] - 32768) * w as int)
    ensures m >= w && m > 0 ==> GainCode(m, w) == 3
    ensures m <= 0 ==> GainCode(m, w) == 0
  {
    hide UpperHalf, Mult;
    if 0 < m < w {
      LevelDecision(m, w, 6554);
      LevelDecision(m, w, 16384);
      LevelDecision(m, w, 26214);
    }
  }

  /** What the encoder sends for a sub-frame's long-term predictor. */
  datatype Predictor = Predictor(Nc: nat, bc: nat)

  function ParametersOf(d: Subframe, h: History): (r: Predictor)
    ensures 40 <= r.Nc <= 120 && r.bc <= 3
  {
    var lag := FindBestLag(Scaled(d), h, 121);
    Predictor(lag.Nc, GainCode(RescaledMaximum(d, h), (2 * Power(h, lag.Nc, 40)) as longword))
  }

  /** L_max after its doubling and the shift that takes back the scaling. */
  function RescaledMaximum(d: Subframe, h: History): longword {
    var lag := FindBestLag(Scaled(d), h, 121);
    CorrelationFits32(Scaled(d), h, lag);
    (2 * lag.L_max / Pow2(6 - ScaleShift(MaxAbs(d)))) as longword
  }

  /** The cross-correlation of the sub-frame itself, the energy of the history, and the sum
      of its magnitudes, at a lag. */
  function ExactCross(d: Subframe, h: History, lag: nat, n: nat): int
    requires 40 <= lag <= 120 && n <= 40
  {
    if n == 0 then 0 else ExactCross(d, h, lag, n - 1) + d[n - 1] as int * h[120 + n - 1 - lag] as int
  }

  function ExactPower(h: History, lag: nat, n: nat): int
    requires 40 <= lag <= 120 && n <= 40
  {
    if n == 0 then 0 else ExactPower(h, lag, n - 1) + h[120 + n - 1 - lag] as int * h[120 + n - 1 - lag] as int
  }

  function Loudness(h: History, lag: nat, n: nat): int
    requires 40 <= lag <= 120 && n <= 40
  {
    if n == 0 then 0 else Loudness(h, lag, n - 1) + Magnitude(h[120 + n - 1 - lag])
  }

  lemma ScaledTerm(d: int, w: int, P: int, x: word)
    requires P >= 1 && w == d / P
    ensures -((P - 1) * Magnitude(x)) <= d * x as int - P * (w * x as int) <= (P - 1) * Magnitude(x)
  {
    var r := d - P * w;
    assert d * x as int == (P * w + r) * x as int == P * (w * x as int) + r * x as int;
    assert 0 <= r <= P - 1;
    ProductBound(r, x as int, P - 1, Magnitude(x));
  }

  /** The correlation of the scaled sub-frame, scaled back. */
  lemma {:induction false} CrossIsScaled(d: Subframe, h: History, lag: nat, n: nat)
    requires 40 <= lag <= 120 && n <= 40
    ensures var P := Pow2(ScaleShift(MaxAbs(d)));
            -((P - 1) * Loudness(h, lag, n)) <= ExactCross(d, h, lag, n) - P * Cross(Scaled(d), h, lag, n) <= (P - 1) * Loudness(h, lag, n)
  {
    hide ScaleShift, MaxAbs, Pow2, Magnitude;
    if n > 0 {
      var P, x := Pow2(ScaleShift(MaxAbs(d))), h[120 + n - 1 - lag];
      CrossIsScaled(d, h, lag, n - 1);
      ScaledTerm(d[n - 1] as int, Scaled(d)[n - 1] as int, P, x);
      Distributed(P - 1, Loudness(h, lag, n - 1), Magnitude(x));
      Distributed(P, Cross(Scaled(d), h, lag, n - 1), Scaled(d)[n - 1] as int * x as int);
    }
  }

  lemma Distributed(a: int, b: int, c: int)
    ensures a * (b + c) == a * b + a * c
  {
  }

  lemma SquareTerm(x: word)
    ensures var t := ShiftRight(x, 3) as int;
            -(14 * Magnitude(x) + 49) <= x as int * x as int - 64 * (t * t) <= 14 * Magnitude(x) + 49
  {
    assert Pow2(3) == 8;
    var a, t := x as int, ShiftRight(x, 3) as int;
    var r := a - 8 * t;
    assert (8 * t + r) * (8 * t + r) == 64 * (t * t) + 16 * (t * r) + r * r;
    assert a * a - 64 * (t * t) == r * (2 * a - r);
    assert r == 0 || r == 1 || r == 2 || r == 3 || r == 4 || r == 5 || r == 6 || r == 7;
  }

  lemma {:induction false} PowerIsScaled(h: History, lag: nat, n: nat)
    requires 40 <= lag <= 120 && n <= 40
    ensures -(14 * Loudness(h, lag, n) + 49 * n) <= ExactPower(h, lag, n) - 64 * Power(h, lag, n) <= 14 * Loudness(h, lag, n) + 49 * n
  {
    hide Magnitude, Pow2;
    if n > 0 {
      PowerIsScaled(h, lag, n - 1);
      SquareTerm(h[120 + n - 1 - lag]);
    }
  }

  lemma RescaleArith(L: int, s: nat, P: int, Q: int, m: int)
    requires P >= 1 && Q >= 1 && P * Q == 64 && m == 2 * L / Q
    ensures 32 * m <= P * L < 32 * m + 32
  {
    assert m * Q <= 2 * L < m * Q + Q;
    MulMonotonic(m * Q, 2 * L, P);
    MulMonotonic(2 * L + 1, m * Q + Q, P);
    assert P * (m * Q) == m * (P * Q) == 64 * m;
    assert (m * Q + Q) * P == 64 * m + 64 && (m * Q) * P == 64 * m && (2 * L) * P == 2 * (P * L) && (2 * L + 1) * P == 2 * (P * L) + P;
  }

  /** What the gain is coded from: 32 * m is the greatest cross-correlation, and 32 * w the
      energy of the history at its lag, up to what the shifts drop.  So m / w is the gain
      that section 4.2.11 asks for. */
  lemma GainOperands(d: Subframe, h: History)
    requires FindBestLag(Scaled(d), h, 121).L_max > 0
    ensures var l, m, w := ParametersOf(d, h).Nc, RescaledMaximum(d, h) as int, 2 * Power(h, ParametersOf(d, h).Nc, 40);
            var slack := (Pow2(ScaleShift(MaxAbs(d))) - 1) * Loudness(h, l, 40) + 32;
            && -slack <= ExactCross(d, h, l, 40) - 32 * m <= slack
            && -(14 * Loudness(h, l, 40) + 1960) <= ExactPower(h, l, 40) - 32 * w <= 14 * Loudness(h, l, 40) + 1960
  {
    hide Cross, FindBestLag, Scaled, Power, Pow2, ScaleShift, MaxAbs, GainCode, ExactCross, ExactPower, Loudness;
    var lag, s := FindBestLag(Scaled(d), h, 121), ScaleShift(MaxAbs(d));
    CrossIsScaled(d, h, lag.Nc, 40);
    PowerIsScaled(h, lag.Nc, 40);
    Pow2Add(s, 6 - s);
    SmallPowers();
    CorrelationFits32(Scaled(d), h, lag);
    RescaleArith(lag.L_max, s, Pow2(s), Pow2(6 - s), RescaledMaximum(d, h) as int);
  }

  /** The doubling of the maximum and the shift that rescales it stay within 32 bits. */
  lemma CorrelationFits32(wt: Subframe, h: History, lag: Lag)
    requires TenBit(wt) && lag == FindBestLag(wt, h, 121)
    ensures 0 <= 2 * lag.L_max <= 0x5000_0000
    ensures forall p: nat :: p >= 1 ==> 0 <= 2 * lag.L_max / p <= 0x5000_0000
  {
    CrossFits(wt, h, lag.Nc, 40);
    forall p: nat | p >= 1
      ensures 0 <= 2 * lag.L_max / p <= 0x5000_0000
    {
      DivStaysInside(2 * lag.L_max, p);
    }
  }

  /** The search for the maximum and the working array. */
  method ScaleSubframe(d: array<word>, wt: array<word>) returns (scal: nat)
    requires d.Length == wt.Length == 40 && d != wt
    modifies wt
    ensures wt[..] == Scaled(d[..]) && scal == ScaleShift(MaxAbs(d[..]))
  {
    hide MaxAbs;
    var dmax := FindMaxAbs(d);
    var temp := 0;
    if dmax != 0 { temp := Norm(dmax as longword * 65536); }
    scal := if temp > 6 then 0 else 6 - temp;
    for k := 0 to 40
      invariant forall i :: 0 <= i < k ==> wt[i] == ShiftRight(d[i], scal)
    {
      wt[k] := ShiftRight(d[k], scal);
    }
  }

  method ComputePower(dp: array<word>, at: nat, Nc: nat) returns (L_power: longword)
    requires 120 <= at <= dp.Length && 40 <= Nc <= 120
    ensures L_power as int == 2 * Power(dp[at - 120..at], Nc, 40)
  {
    ghost var h := dp[at - 120..at];
    L_power := 0;
    for k := 0 to 40
      invariant L_power as int == Power(h, Nc, k)
    {
      assert dp[at + k - Nc] == h[120 + k - Nc];
      PowerTerm(dp[at + k - Nc]);
      var L_temp := ShiftRight(dp[at + k - Nc], 3) as longword;
      L_power := L_power + L_temp * L_temp;
    }
    L_power := L_power * 2;
  }

  /** Coding of the LTP gain. */
  method CodeGain(L_max: longword, L_power: longword) returns (bc: nat)
    requires 0 <= L_power
    ensures bc == GainCode(L_max, L_power)
  {
    if L_max <= 0 {
      return 0;
    }
    if L_max >= L_power {
      return 3;
    }
    var temp := Norm(L_power);
    UpperHalfFits(L_max as int, L_power);
    UpperHalfFits(L_power as int, L_power);
    var R := (L_max as int * Pow2(temp) / 65536) as word;
    var S := (L_power as int * Pow2(temp) / 65536) as word;
    bc := 0;
    while bc <= 2
      invariant 0 <= bc <= 3
      invariant forall i :: 0 <= i < bc ==> R > Mult(S, DLB[i])
    {
      if R <= Mult(S, DLB[bc]) { break; }
      bc := bc + 1;
    }
  }

  method CalculationOfTheLtpParameters(d: array<word>, dp: array<word>, at: nat) returns (bc: nat, Nc: nat)
    requires d.Length == 40 && 120 <= at <= dp.Length
    ensures Predictor(Nc, bc) == ParametersOf(d[..], dp[at - 120..at])
  {
    hide FindBestLag, Cross, Power, GainCode, Scaled, ScaleShift, MaxAbs;
    ghost var h := dp[at - 120..at];
    var wt := new word[40](_ => 0);
    var scal := ScaleSubframe(d, wt);
    var L_max;
    Nc, L_max := SearchLag(wt, dp, at);
    CorrelationFits32(wt[..], h, Lag(Nc, L_max as int));
    L_max := L_max * 2;
    L_max := (L_max as int / Pow2(6 - scal)) as longword;
    var L_power := ComputePower(dp, at, Nc);
    bc := CodeGain(L_max, L_power);
  }

  // ------------------------------------------------------------------ the two filters

  function EstimateAt(h: History, p: Predictor, k: nat): word
    requires 40 <= p.Nc <= 120 && p.bc <= 3 && k < 40
  {
    MultR(QLB[p.bc], h[120 + k - p.Nc])
  }

  /** The predicted sub-frame: the history one lag back, times the decoded gain. */
  function Estimate(h: History, p: Predictor): Subframe
    requires 40 <= p.Nc <= 120 && p.bc <= 3
  {
    seq(40, k requires 0 <= k < 40 => EstimateAt(h, p, k))
  }

  function Plus(a: Subframe, b: Subframe): Subframe {
    seq(40, k requires 0 <= k < 40 => Add(a[k], b[k]))
  }

  function Minus(a: Subframe, b: Subframe): Subframe {
    seq(40, k requires 0 <= k < 40 => Sub(a[k], b[k]))
  }

  /** The history after a sub-frame: the last 120 samples. */
  function Shift(h: History, out: Subframe): History {
    h[40..] + out
  }

  /** Long_term_analysis_filtering into dpp[0..40] and e[base..base + 40]. */
  method LongTermAnalysisFiltering(bc: nat, Nc: nat, dp: array<word>, at: nat, d: array<word>, dpp: array<word>, e: array<word>, base: nat)
    requires bc <= 3 && 40 <= Nc <= 120 && 120 <= at <= dp.Length && d.Length == dpp.Length == 40 && base + 40 <= e.Length
    requires dpp != dp && e != dp && dpp != d && e != d && dpp != e
    modifies dpp, e
    ensures dpp[..] == Estimate(dp[at - 120..at], Predictor(Nc, bc))
    ensures e[base..base + 40] == Minus(d[..], dpp[..])
    ensures e[..base] == old(e[..base]) && e[base + 40..] == old(e[base + 40..])
  {
    ghost var h := dp[at - 120..at];
    var BP := match bc case 0 => 3277 case 1 => 11469 case 2 => 21299 case _ => 32767;
    for k := 0 to 40
      invariant forall i :: 0 <= i < k ==> dpp[i] == MultR(QLB[bc], h[120 + i - Nc]) && e[base + i] == Sub(d[i], dpp[i])
      invariant e[..base] == old(e[..base]) && e[base + 40..] == old(e[base + 40..])
    {
      assert dp[at + k - Nc] == h[120 + k - Nc];
      dpp[k] := MultR(BP, dp[at + k - Nc]);
      e[base + k] := Sub(d[k], dpp[k]);
    }
  }

  /** Gsm_Update_of_reconstructed_short_time_residual_signal, the encoder's own decoding. */
  method UpdateOfReconstructedResidual(dpp: array<word>, ep: array<word>, base: nat, dp: array<word>, at: nat)
    requires dpp.Length == 40 && base + 40 <= ep.Length && 120 <= at <= dp.Length && dp != dpp && dp != ep
    modifies dp
    ensures dp[at - 120..at] == Shift(old(dp[at - 120..at]), Plus(ep[base..base + 40], dpp[..]))
    ensures dp[..at - 120] == old(dp[..at - 120]) && dp[at..] == old(dp[at..])
  {
    hide Add;
    ghost var h := dp[at - 120..at];
    ghost var new40 := Plus(ep[base..base + 40], dpp[..]);
    for k := 0 to 80
      invariant dp[at - 120..at - 120 + k] == h[40..40 + k] && dp[at - 120 + k..at] == h[k..]
      invariant dp[..at - 120] == old(dp[..at - 120]) && dp[at..] == old(dp[at..])
    {
      DropHead(h, k);
      assert dp[at - 80 + k] == dp[at - 120 + k..at][40] == h[40 + k];
      dp[at - 120 + k] := dp[at - 80 + k];
      assert dp[at - 120..at - 119 + k] == dp[at - 120..at - 120 + k] + [h[40 + k]];
    }
    for k := 0 to 40
      invariant dp[at - 120..at - 40] == h[40..] && dp[at - 40..at - 40 + k] == new40[..k]
      invariant dp[..at - 120] == old(dp[..at - 120]) && dp[at..] == old(dp[at..])
    {
      dp[at - 40 + k] := Add(ep[base + k], dpp[k]);
      assert dp[at - 40..at - 39 + k] == dp[at - 40..at - 40 + k] + [new40[k]];
    }
    assert dp[at - 120..at] == dp[at - 120..at - 40] + dp[at - 40..at];
  }

  /** Gsm_Long_Term_Synthesis_Filtering over S.dp0, whose word 120 is drp[0].  A lag out of
      range is replaced by the last valid one. */
  method GsmLongTermSynthesisFiltering(S: GsmState, Ncr: word, bcr: nat, erp: array<word>)
    requires S.Valid() && bcr <= 3 && erp.Length == 40 && erp != S.dp0
    modifies S`nrp, S.dp0
    ensures S.Valid()
    ensures S.nrp == if Ncr < 40 || Ncr > 120 then old(S.nrp) else Ncr
    ensures var out := Plus(erp[..], Estimate(old(S.dp0[..120]), Predictor(S.nrp as nat, bcr)));
            S.dp0[120..160] == out && S.dp0[..120] == Shift(old(S.dp0[..120]), out)
  {
    var Nr := if Ncr < 40 || Ncr > 120 then S.nrp else Ncr;
    S.nrp := Nr;
    PredictInto(S.dp0, Nr as nat, bcr, erp);
    ghost var all := S.dp0[..160];
    ShiftDown(S.dp0);
    assert all[40..] == all[..120][40..] + all[120..];
  }

  /** The forty new samples.  Every sample read is older than the sub-frame. */
  method PredictInto(dp0: array<word>, Nr: nat, bcr: nat, erp: array<word>)
    requires dp0.Length == 280 && bcr <= 3 && 40 <= Nr <= 120 && erp.Length == 40 && erp != dp0
    modifies dp0
    ensures dp0[..120] == old(dp0[..120])
    ensures dp0[120..160] == Plus(erp[..], Estimate(old(dp0[..120]), Predictor(Nr, bcr)))
  {
    var brp := QLB[bcr];
    ghost var h := dp0[..120];
    ghost var out := Plus(erp[..], Estimate(h, Predictor(Nr, bcr)));
    for k := 0 to 40
      invariant dp0[..120] == h && dp0[120..120 + k] == out[..k]
    {
      assert dp0[120 + k - Nr] == h[120 + k - Nr];
      var drpp := MultR(brp, dp0[120 + k - Nr]);
      dp0[120 + k] := Add(erp[k], drpp);
      assert dp0[120..121 + k] == dp0[120..120 + k] + [out[k]];
    }
  }

  /** The history moves down by one sub-frame. */
  method ShiftDown(dp0: array<word>)
    requires dp0.Length == 280
    modifies dp0
    ensures dp0[..120] == old(dp0[40..160]) && dp0[120..160] == old(dp0[120..160])
  {
    ghost var all := dp0[..160];
    for k := 0 to 120
      invariant dp0[..k] == all[40..40 + k] && dp0[k..160] == all[k..]
    {
      DropHead(all, k);
      assert dp0[k + 40] == dp0[k..160][40] == all[k + 40];
      dp0[k] := dp0[40 + k];
      assert dp0[..k + 1] == dp0[..k] + [all[40 + k]];
    }
  }
}

