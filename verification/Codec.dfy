/**
 The decoder (decode.c, section 4.3 of GSM 06.10) over whole runs of frames, and the
 closed loop between encoder and decoder: the encoder decodes its own sub-frames, so
 that both sides predict from the same history.
 */
module Codec {
  import opened GsmArith
  import opened GsmStates
  import opened Seqs
  import opened Powers
  import ShortTerm
  import LongTerm
  import Rpe

  // ------------------------------------------------------------------ the long-term loop

  /** The parameters of one sub-frame as they arrive.  The lag field has seven bits and may
      be out of range. */
  datatype SubframeCode = SubframeCode(Ncr: word, bcr: nat, Mcr: nat, block: Rpe.CodedBlock)

  predicate Legal(c: SubframeCode) {
    c.bcr <= 3 && c.Mcr <= 3 && Rpe.InFields(c.block)
  }

  type Code = c: SubframeCode | Legal(c)
    witness SubframeCode(40, 0, 0, Rpe.CodedBlock(0, [0, 0, 0, 0, 0, 0, 0, 0, 0, 0, 0, 0, 0]))

  /** What the decoder's long-term filter remembers. */
  datatype LtpState = LtpState(h: LongTerm.History, nrp: word)

  predicate ValidLtp(st: LtpState) { 40 <= st.nrp <= 120 }

  function EffectiveLag(nrp: word, Ncr: word): word {
    if Ncr < 40 || Ncr > 120 then nrp else Ncr
  }

  /** The reconstructed residual of one sub-frame. */
  function Reconstructed(st: LtpState, c: Code): Subframe
    requires ValidLtp(st)
  {
    LongTerm.Plus(Rpe.DecodedResidual(c.block, c.Mcr),
                  LongTerm.Estimate(st.h, LongTerm.Predictor(EffectiveLag(st.nrp, c.Ncr) as nat, c.bcr)))
  }

  function NextLtp(st: LtpState, c: Code): (st': LtpState)
    requires ValidLtp(st)
    ensures ValidLtp(st')
  {
    LtpState(LongTerm.Shift(st.h, Reconstructed(st, c)), EffectiveLag(st.nrp, c.Ncr))
  }

  datatype LtpResult = LtpResult(state: LtpState, out: seq<word>)

  /** A run of sub-frames: the final state and everything put out. */
  function RunLtp(st: LtpState, cs: seq<Code>): (r: LtpResult)
    requires ValidLtp(st)
    ensures ValidLtp(r.state) && |r.out| == 40 * |cs|
    decreases |cs|
  {
    if cs == [] then LtpResult(st, [])
    else
      var r := RunLtp(st, cs[..|cs| - 1]);
      var c := cs[|cs| - 1];
      LtpResult(NextLtp(r.state, c), r.out + Reconstructed(r.state, c))
  }

  // ------------------------------------------------------------------ the unbounded recursion

  /** The lag used in sub-frame q: the last one in range, 40 before there was one. */
  function LagAt(cs: seq<Code>, q: int): (l: word)
    requires q < |cs|
    ensures 40 <= l <= 120
    decreases if q < 0 then 0 else q + 1
  {
    if q < 0 then 40
    else if cs[q].Ncr < 40 || cs[q].Ncr > 120 then LagAt(cs, q - 1)
    else cs[q].Ncr
  }

  /** Silence before the first sample. */
  function Past(out: seq<word>, i: int): word {
    if 0 <= i < |out| then out[i] else 0
  }

  /** A past sample times a gain of 0.1, 0.35, 0.65 or 1, rounded. */
  function Amplified(bc: nat, past: word): int
    requires bc <= 3
  {
    ([3277, 11469, 21299, 32767][bc] * past as int + 16384) / 32768
  }

  lemma GainIs(bc: nat, past: word)
    requires bc <= 3
    ensures MultR(LongTerm.QLB[bc], past) as int == Amplified(bc, past)
  {
    hide MultR;
    MultRExact(LongTerm.QLB[bc], past);
    RoundedIs(LongTerm.QLB[bc], [3277, 11469, 21299, 32767][bc], past);
  }

  lemma RoundedIs(gain: word, g: int, past: word)
    requires gain as int == g
    ensures RoundedProduct(gain, past) == (g * past as int + 16384) / 32768
  {
  }

  function Clamped(x: int): int { if x < -32768 then -32768 else if x > 32767 then 32767 else x }

  /** out[n] is erp[n] and the amplified out[n - lag], clamped, with no history buffer in sight. */
  predicate Recursion(out: seq<word>, cs: seq<Code>, n: nat)
    requires |out| == 40 * |cs| && n < |out|
  {
    var q := n / 40;
    var c := cs[q];
    out[n] as int == Clamped(Rpe.DecodedResidual(c.block, c.Mcr)[n % 40] as int + Amplified(c.bcr, Past(out, n - LagAt(cs, q) as int)))
  }

  function Silence(): LongTerm.History { seq(120, _ => 0) }

  /** The last 120 samples, zeros where there are none. */
  function Tail(out: seq<word>): LongTerm.History {
    (Silence() + out)[|out|..]
  }

  lemma {:induction false} LagAtPrefix(cs: seq<Code>, m: nat, q: int)
    requires q < m <= |cs|
    ensures LagAt(cs[..m], q) == LagAt(cs, q)
    decreases if q < 0 then 0 else q + 1
  {
    if q >= 0 {
      LagAtPrefix(cs, m, q - 1);
    }
  }

  lemma TailAt(out: seq<word>, i: nat)
    requires i < 120
    ensures Tail(out)[i] == Past(out, |out| - 120 + i)
  {
  }

  lemma TailShift(out: seq<word>, more: Subframe)
    ensures LongTerm.Shift(Tail(out), more) == Tail(out + more)
  {
    assert Silence() + (out + more) == (Silence() + out) + more;
  }

  /** Adding samples leaves the recursion of the earlier ones as it was. */
  lemma RecursionPrefix(out: seq<word>, cs: seq<Code>, more: Subframe, n: nat)
    requires cs != [] && |out| == 40 * (|cs| - 1) && n < |out| && Recursion(out, cs[..|cs| - 1], n)
    ensures Recursion(out + more, cs, n)
  {
    var q := n / 40;
    assert q < |cs| - 1;
    LagAtPrefix(cs, |cs| - 1, q);
  }

  /** A new sub-frame reads only samples older than itself. */
  lemma RecursionNew(st: LtpState, out: seq<word>, cs: seq<Code>, n: nat)
    requires cs != [] && |out| == 40 * (|cs| - 1) && ValidLtp(st)
    requires st == LtpState(Tail(out), LagAt(cs[..|cs| - 1], |cs| - 2))
    requires |out| <= n < |out| + 40
    ensures Recursion(out + Reconstructed(st, cs[|cs| - 1]), cs, n)
  {
    hide Reconstructed, Tail, LagAt, Past, Rpe.DecodedResidual, Add, MultR, Amplified, Clamped;
    var c := cs[|cs| - 1];
    var more := Reconstructed(st, c);
    LagAtPrefix(cs, |cs| - 1, |cs| - 2);
    LagAtLast(cs);
    var lag := LagAt(cs, |cs| - 1);
    var k := n - |out|;
    DivUnique(n, 40, |cs| - 1, k);
    ReconstructedAt(st, c, k);
    AddIs(Rpe.DecodedResidual(c.block, c.Mcr)[k], MultR(LongTerm.QLB[c.bcr], st.h[120 + k - lag as int]));
    GainIs(c.bcr, st.h[120 + k - lag as int]);
    TailAt(out, 120 + k - lag as int);
    PastPrefix(out, more, n - lag as int);
    assert (out + more)[n] == more[k];
  }

  lemma AddIs(a: word, b: word)
    ensures Add(a, b) as int == Clamped(a as int + b as int)
  {
  }

  lemma LagAtLast(cs: seq<Code>)
    requires cs != []
    ensures LagAt(cs, |cs| - 1) == EffectiveLag(LagAt(cs, |cs| - 2), cs[|cs| - 1].Ncr)
  {
  }

  lemma ReconstructedAt(st: LtpState, c: Code, k: nat)
    requires ValidLtp(st) && k < 40
    ensures var lag := EffectiveLag(st.nrp, c.Ncr) as int;
            Reconstructed(st, c)[k] == Add(Rpe.DecodedResidual(c.block, c.Mcr)[k], MultR(LongTerm.QLB[c.bcr], st.h[120 + k - lag]))
  {
    hide Rpe.DecodedResidual, Add, MultR;
  }

  lemma PastPrefix(out: seq<word>, more: seq<word>, i: int)
    requires i < |out|
    ensures Past(out + more, i) == Past(out, i)
  {
  }

  /** Over any run from the start the shifted 120-word history refines the unbounded
      recursion, and holds the last 120 samples put out. */
  lemma {:induction false} RunRefinesRecursion(cs: seq<Code>)
    ensures var r := RunLtp(LtpState(Silence(), 40), cs);
            && r.state == LtpState(Tail(r.out), LagAt(cs, |cs| - 1))
            && forall n :: 0 <= n < |r.out| ==> Recursion(r.out, cs, n)
    decreases |cs|
  {
    if cs == [] {
      assert Silence() + [] == Silence();
    } else {
      var front := cs[..|cs| - 1];
      RunRefinesRecursion(front);
      var r := RunLtp(LtpState(Silence(), 40), front);
      var more := Reconstructed(r.state, cs[|cs| - 1]);
      forall n | 0 <= n < |r.out| + 40
        ensures Recursion(r.out + more, cs, n)
      {
        if n < |r.out| {
          RecursionPrefix(r.out, cs, more, n);
        } else {
          RecursionNew(r.state, r.out, cs, n);
        }
      }
      TailShift(r.out, more);
      LagAtPrefix(cs, |cs| - 1, |cs| - 2);
    }
  }

  // ------------------------------------------------------------------ the closed loop

  const FIVE_ZEROS: seq<word> := [0, 0, 0, 0, 0]

  /** The code of a sub-frame and the history the encoder keeps after it. */
  datatype Encoded = Encoded(code: Code, h: LongTerm.History)

  /** One sub-frame of the encoder: predict from the history, quantize what is left, and
      add the quantized residual to the prediction. */
  function EncodeSubframe(h: LongTerm.History, d: Subframe): Encoded {
    hide LongTerm.ParametersOf, LongTerm.Estimate, LongTerm.Minus, LongTerm.Plus, LongTerm.Shift;
    hide Rpe.WeightedSignal, Rpe.BestGrid, Rpe.Selected, Rpe.QuantizeBlock, Rpe.DequantizeBlock, Rpe.DecodedResidual;
    var p := LongTerm.ParametersOf(d, h);
    var estimate := LongTerm.Estimate(h, p);
    var x := Rpe.WeightedSignal(FIVE_ZEROS + LongTerm.Minus(d, estimate) + FIVE_ZEROS);
    var mc := Rpe.BestGrid(x);
    Rpe.BlockError(Rpe.Selected(x, mc));
    var block := Rpe.QuantizeBlock(Rpe.Selected(x, mc));
    Encoded(SubframeCode(p.Nc as word, p.bc, mc, block),
            LongTerm.Shift(h, LongTerm.Plus(Rpe.DecodedResidual(block, mc), estimate)))
  }

  /** What was coded of a sub-frame: the estimate is the history one lag back times the gain,
      the residual what it leaves, and the pulses stand for every third weighted residual
      sample, to half a step and one unit, with nothing between them.  What the encoder
      rebuilds then misses the sub-frame by exactly what the pulses miss of the residual,
      unless an addition saturates. */
  ghost predicate CodedFrom(e: Encoded, h: LongTerm.History, d: Subframe, estimate: Subframe, residual: Subframe, x: Subframe, q: Subframe) {
    && 40 <= e.code.Ncr <= 120
    && (forall k :: 0 <= k < 40 ==> EstimatedFrom(estimate[k], e.code.bcr, h[120 + k - e.code.Ncr as int]))
    && (forall k :: 0 <= k < 40 ==> LeftOver(residual[k], d[k], estimate[k]))
    && (forall k :: 0 <= k < 40 ==> WeightedFrom(x[k], FIVE_ZEROS + residual + FIVE_ZEROS, k))
    && Rpe.ProperPeak(Rpe.DecodePeak(e.code.block.xmaxc))
    && (forall i :: 0 <= i < 13 ==> Rpe.Close(x[e.code.Mcr + 3 * i], q[e.code.Mcr + 3 * i], Rpe.DecodePeak(e.code.block.xmaxc)))
    && (forall k :: 0 <= k < 40 && (k < e.code.Mcr || (k - e.code.Mcr) % 3 != 0 || k > e.code.Mcr + 36) ==> q[k] == 0)
    && (forall k :: 0 <= k < 40 ==> RebuiltFrom(e.h[80 + k], d[k], residual[k], q[k], estimate[k]))
  }

  predicate EstimatedFrom(x: word, bc: nat, past: word)
    requires bc <= 3
  {
    x as int == Amplified(bc, past)
  }

  predicate Fits(x: int) { -32768 <= x <= 32767 }

  predicate LeftOver(e: word, d: word, estimate: word) {
    e as int == d as int - estimate as int <==> Fits(d as int - estimate as int)
  }

  predicate WeightedFrom(x: word, e: seq<word>, k: nat)
    requires |e| == 50 && k < 40
  {
    var c := Rpe.Convolution(e, k, 11);
    Distance(8192 * x as int, c) <= 4096 || (x == 32767 && c > 8192 * 32767) || (x == -32768 && c < -8192 * 32768)
  }

  predicate RebuiltFrom(r: word, d: word, residual: word, q: word, estimate: word) {
    Fits(d as int - estimate as int)
    ==> (r as int - d as int == q as int - residual as int <==> Fits(q as int + estimate as int))
  }

  lemma SubframeIsCoded(h: LongTerm.History, d: Subframe) returns (estimate: Subframe, residual: Subframe, x: Subframe, q: Subframe)
    ensures CodedFrom(EncodeSubframe(h, d), h, d, estimate, residual, x, q)
  {
    hide LongTerm.ParametersOf, LongTerm.Estimate, LongTerm.Minus, LongTerm.Plus;
    hide Rpe.WeightedSignal, Rpe.BestGrid, Rpe.Selected, Rpe.QuantizeBlock, Rpe.DequantizeBlock, Rpe.DecodedResidual, Rpe.Close, Rpe.DecodePeak;
    hide EstimatedFrom, Amplified, LeftOver, WeightedFrom, RebuiltFrom;
    var p := LongTerm.ParametersOf(d, h);
    estimate := LongTerm.Estimate(h, p);
    residual := LongTerm.Minus(d, estimate);
    x := Rpe.WeightedSignal(FIVE_ZEROS + residual + FIVE_ZEROS);
    var mc := Rpe.BestGrid(x);
    Rpe.BlockError(Rpe.Selected(x, mc));
    var block := Rpe.QuantizeBlock(Rpe.Selected(x, mc));
    q := Rpe.DecodedResidual(block, mc);
    var e := EncodeSubframe(h, d);
    NewestShifted(h, LongTerm.Plus(q, estimate));
    assert e.h[80..] == LongTerm.Plus(q, estimate);
    forall k | 0 <= k < 40
      ensures EstimatedFrom(estimate[k], p.bc, h[120 + k - p.Nc])
      ensures LeftOver(residual[k], d[k], estimate[k])
      ensures WeightedFrom(x[k], FIVE_ZEROS + residual + FIVE_ZEROS, k)
      ensures RebuiltFrom(e.h[80 + k], d[k], residual[k], q[k], estimate[k])
    {
      EstimateIs(h, p, k);
      ResidualIs(d, estimate, q, k);
      WeightedFromIs(FIVE_ZEROS + residual + FIVE_ZEROS, k);
      assert e.h[80 + k] == e.h[80..][k];
    }
    PulsesOf(x, block, mc);
  }

  lemma EstimateIs(h: LongTerm.History, p: LongTerm.Predictor, k: nat)
    requires 40 <= p.Nc <= 120 && p.bc <= 3 && k < 40
    ensures EstimatedFrom(LongTerm.Estimate(h, p)[k], p.bc, h[120 + k - p.Nc])
  {
    hide MultR;
    GainIs(p.bc, h[120 + k - p.Nc]);
  }

  lemma ResidualIs(d: Subframe, estimate: Subframe, q: Subframe, k: nat)
    requires k < 40
    ensures LeftOver(LongTerm.Minus(d, estimate)[k], d[k], estimate[k])
    ensures RebuiltFrom(LongTerm.Plus(q, estimate)[k], d[k], LongTerm.Minus(d, estimate)[k], q[k], estimate[k])
  {
  }

  lemma WeightedFromIs(e: seq<word>, k: nat)
    requires |e| == 50 && k < 40
    ensures WeightedFrom(Rpe.WeightedSignal(e)[k], e, k)
  {
    hide Rpe.Convolution, Rpe.WeightedSignal;
    Rpe.WeightedIs(e, k);
  }

  lemma PulsesOf(x: Subframe, block: Rpe.CodedBlock, mc: nat)
    requires mc <= 3 && Rpe.InFields(block) && Rpe.ProperPeak(Rpe.DecodePeak(block.xmaxc))
    requires forall i :: 0 <= i < 13 ==> Rpe.Close(Rpe.Selected(x, mc)[i], Rpe.DequantizeBlock(block)[i], Rpe.DecodePeak(block.xmaxc))
    ensures var q := Rpe.DecodedResidual(block, mc);
            && (forall i :: 0 <= i < 13 ==> Rpe.Close(x[mc + 3 * i], q[mc + 3 * i], Rpe.DecodePeak(block.xmaxc)))
            && (forall k :: 0 <= k < 40 && (k < mc || (k - mc) % 3 != 0 || k > mc + 36) ==> q[k] == 0)
  {
    hide Rpe.Close, Rpe.DecodePeak, Rpe.DequantizeBlock, Rpe.Positioned;
    var q, pulses := Rpe.DecodedResidual(block, mc), Rpe.DequantizeBlock(block);
    Rpe.SelectedPositioned(pulses, mc, 0);
    forall i | 0 <= i < 13
      ensures Rpe.Close(x[mc + 3 * i], q[mc + 3 * i], Rpe.DecodePeak(block.xmaxc))
    {
      assert Rpe.Selected(x, mc)[i] == x[mc + 3 * i] && Rpe.Selected(q, mc)[i] == q[mc + 3 * i];
    }
    forall k | 0 <= k < 40 && (k < mc || (k - mc) % 3 != 0 || k > mc + 36)
      ensures q[k] == 0
    {
      Rpe.SelectedPositioned(pulses, mc, k);
    }
  }

  /** The codes of a run, what the encoder itself reconstructed (the newest 40 samples of
      its history after each sub-frame), and its last history. */
  datatype EncodedRun = EncodedRun(codes: seq<Code>, rebuilt: seq<word>, h: LongTerm.History)

  function EncodeRun(h: LongTerm.History, ds: seq<Subframe>): (r: EncodedRun)
    ensures |r.codes| == |ds| && |r.rebuilt| == 40 * |ds|
    decreases |ds|
  {
    hide EncodeSubframe;
    if ds == [] then EncodedRun([], [], h)
    else
      var r := EncodeRun(h, ds[..|ds| - 1]);
      var e := EncodeSubframe(r.h, ds[|ds| - 1]);
      EncodedRun(r.codes + [e.code], r.rebuilt + e.h[80..], e.h)
  }

  lemma NewestShifted(h: LongTerm.History, out: Subframe)
    ensures LongTerm.Shift(h, out)[80..] == out
  {
  }

  /** The decoder follows the encoder for ever: from equal histories, whatever signal is
      coded and whatever lag the decoder remembers, it puts out sample for sample what the
      encoder reconstructed, and the histories are equal again. */
  lemma {:induction false} DecoderFollowsEncoder(st: LtpState, ds: seq<Subframe>)
    requires ValidLtp(st)
    ensures var e, r := EncodeRun(st.h, ds), RunLtp(st, EncodeRun(st.h, ds).codes);
            r.state.h == e.h && r.out == e.rebuilt
    decreases |ds|
  {
    if ds != [] {
      var front := ds[..|ds| - 1];
      DecoderFollowsEncoder(st, front);
      var r := EncodeRun(st.h, front);
      var e := EncodeSubframe(r.h, ds[|ds| - 1]);
      var codes := r.codes + [e.code];
      assert codes[..|codes| - 1] == r.codes;
      var before := RunLtp(st, r.codes).state;
      NewestShifted(before.h, Reconstructed(before, e.code));
    }
  }

  /** Sub-frame n of a run is coded from the history that the ones before it left. */
  lemma {:induction false} EncodeRunAt(h: LongTerm.History, ds: seq<Subframe>, n: nat)
    requires n < |ds|
    ensures var r := EncodeRun(h, ds);
            var e := EncodeSubframe(EncodeRun(h, ds[..n]).h, ds[n]);
            r.codes[n] == e.code && r.rebuilt[40 * n..40 * n + 40] == e.h[80..]
    decreases |ds|
  {
    hide EncodeSubframe;
    var front := ds[..|ds| - 1];
    if n < |ds| - 1 {
      assert front[..n] == ds[..n];
      EncodeRunAt(h, front, n);
      var r := EncodeRun(h, front);
      assert EncodeRun(h, ds).rebuilt[40 * n..40 * n + 40] == r.rebuilt[40 * n..40 * n + 40];
    }
  }

  /** What the decoder puts out over a run is, sub-frame by sub-frame, what was coded: it
      misses the encoder's input by exactly what the pulses miss of the residual. */
  lemma DecodedIsCoded(st: LtpState, ds: seq<Subframe>, n: nat)
    returns (e: Encoded, h: LongTerm.History, estimate: Subframe, residual: Subframe, x: Subframe, q: Subframe)
    requires ValidLtp(st) && n < |ds|
    ensures CodedFrom(e, h, ds[n], estimate, residual, x, q)
    ensures EncodeRun(st.h, ds).codes[n] == e.code
    ensures RunLtp(st, EncodeRun(st.h, ds).codes).out[40 * n..40 * n + 40] == e.h[80..]
    ensures n == 0 ==> h == st.h
  {
    hide EncodeSubframe, CodedFrom;
    DecoderFollowsEncoder(st, ds);
    EncodeRunAt(st.h, ds, n);
    h := EncodeRun(st.h, ds[..n]).h;
    e := EncodeSubframe(h, ds[n]);
    estimate, residual, x, q := SubframeIsCoded(h, ds[n]);
  }

  /** The encoder's sub-frame: long-term predictor, RPE encoder and update, over the
      history dp[at - 120..at]. */
  method EncodeSubframeInPlace(d: array<word>, dp: array<word>, at: nat, xMc: array<word>)
    returns (Nc: nat, bc: nat, xmaxc: word, Mc: nat)
    requires d.Length == 40 && 120 <= at <= dp.Length && xMc.Length == 13
    requires d != dp && d != xMc && dp != xMc
    modifies dp, xMc
    ensures 40 <= Nc <= 120 && bc <= 3 && Mc <= 3 && Rpe.InFields(Rpe.CodedBlock(xmaxc, xMc[..]))
    ensures Encoded(SubframeCode(Nc as word, bc, Mc, Rpe.CodedBlock(xmaxc, xMc[..])), dp[at - 120..at])
            == EncodeSubframe(old(dp[at - 120..at]), d[..])
    ensures dp[..at - 120] == old(dp[..at - 120]) && dp[at..] == old(dp[at..])
  {
    hide LongTerm.ParametersOf, LongTerm.Estimate, LongTerm.Minus, LongTerm.Plus, LongTerm.Shift;
    hide Rpe.WeightedSignal, Rpe.BestGrid, Rpe.Selected, Rpe.QuantizeBlock, Rpe.DecodedResidual;
    ghost var h := dp[at - 120..at];
    var e := new word[50](_ => 0);
    var dpp := new word[40](_ => 0);
    bc, Nc := LongTerm.CalculationOfTheLtpParameters(d, dp, at);
    assert LongTerm.Predictor(Nc, bc) == LongTerm.ParametersOf(d[..], h);
    LongTerm.LongTermAnalysisFiltering(bc, Nc, dp, at, d, dpp, e, 5);
    assert e[..] == e[..5] + e[5..45] + e[45..];
    assert e[..5] == FIVE_ZEROS && e[45..] == FIVE_ZEROS;
    xmaxc, Mc := Rpe.GsmRpeEncoding(e, xMc);
    LongTerm.UpdateOfReconstructedResidual(dpp, e, 5, dp, at);
  }

  // ------------------------------------------------------------------ the decoder, frame by frame

  /** GSM_ADD(msr, msr) & 0xFFF8: upscaling, with the three low bits cleared. */
  function Truncated(msr: word): word {
    var x := Add(msr, msr);
    x - (x as int % 8) as word
  }

  /** The coefficient of the de-emphasis filter. */
  const BETA: word := 28180

  /** De-emphasis of a signal, a first-order recursion with coefficient beta. */
  function Deemphasised(beta: word, msr: word, s: seq<word>): (r: seq<word>)
    ensures |r| == |s|
    decreases |s|
  {
    if s == [] then []
    else
      var m := Add(s[0], MultR(msr, beta));
      [m] + Deemphasised(beta, m, s[1..])
  }

  datatype Post = Post(msr: word, out: seq<word>)

  /** The memory after a frame is its last de-emphasised sample. */
  function Postprocess(beta: word, msr: word, s: seq<word>): (r: Post)
    ensures |r.out| == |s|
  {
    var m := Deemphasised(beta, msr, s);
    Post(if s == [] then msr else m[|s| - 1],
         seq(|s|, k requires 0 <= k < |s| => Truncated(m[k])))
  }

  /** out is twice the memory m, clamped to a word, with the three low bits cleared. */
  predicate Upscaled(out: word, m: word) {
    var x := if m < -16384 then -32768 else if m > 16383 then 32767 else 2 * m as int;
    out as int % 8 == 0 && 0 <= x - out as int < 8
  }

  /** What the de-emphasis adds to a sample when m is the memory: 28180 / 32768 of it, rounded. */
  function Fed(m: word): int { (28180 * m as int + 16384) / 32768 }

  /** The memory before sample k. */
  function MemoryAt(msr: word, m: seq<word>, k: nat): word
    requires k <= |m|
  {
    if k == 0 then msr else m[k - 1]
  }

  /** m are the de-emphasised samples of s: pre-emphasis gives s[k] back from them exactly
      when the addition at k did not saturate, and where it did, m[k] is the end of the range. */
  predicate Emphasis(s: seq<word>, msr: word, m: seq<word>) {
    && |m| == |s|
    && forall k: nat :: k < |s| ==> EmphasisAt(s[k], MemoryAt(msr, m, k), m[k])
  }

  predicate EmphasisAt(s: word, before: word, m: word) {
    && (s as int == m as int - Fed(before) <==> -32768 <= s as int + Fed(before) <= 32767)
    && (s as int + Fed(before) < -32768 ==> m == -32768)
    && (s as int + Fed(before) > 32767 ==> m == 32767)
  }

  lemma UpscaledIs(m: word)
    ensures Upscaled(Truncated(m), m)
  {
  }

  lemma EmphasisStep(s: word, msr: word)
    ensures EmphasisAt(s, msr, Add(s, MultR(msr, BETA)))
  {
    MultRExact(msr, BETA);
    hide MultR;
  }

  lemma {:induction false} DeemphasisIs(msr: word, s: seq<word>)
    ensures Emphasis(s, msr, Deemphasised(BETA, msr, s))
    decreases |s|
  {
    hide EmphasisAt, Add, MultR;
    if s != [] {
      var m := Add(s[0], MultR(msr, BETA));
      EmphasisStep(s[0], msr);
      DeemphasisIs(m, s[1..]);
      var rest := Deemphasised(BETA, m, s[1..]);
      forall k: nat | k < |s|
        ensures EmphasisAt(s[k], MemoryAt(msr, [m] + rest, k), ([m] + rest)[k])
      {
        if k > 0 {
          assert EmphasisAt(s[1..][k - 1], MemoryAt(m, rest, k - 1), rest[k - 1]);
        }
      }
    }
  }

  /** What Postprocessing leaves: the samples put out, and the memory. */
  lemma PostprocessIs(msr: word, s: seq<word>) returns (m: seq<word>)
    ensures Emphasis(s, msr, m) && Postprocess(BETA, msr, s).msr == MemoryAt(msr, m, |s|)
    ensures forall k :: 0 <= k < |s| ==> Upscaled(Postprocess(BETA, msr, s).out[k], m[k])
  {
    hide Emphasis, Upscaled, Truncated;
    m := Deemphasised(BETA, msr, s);
    DeemphasisIs(msr, s);
    assert |m| == |s|;
    forall k | 0 <= k < |s|
      ensures Upscaled(Postprocess(BETA, msr, s).out[k], m[k])
    {
      UpscaledIs(m[k]);
    }
  }

  /** The codes of one frame. */
  datatype FrameFields = FrameFields(larc: ShortTerm.Memory, subframes: seq<Code>)

  type FrameCode = f: FrameFields | |f.subframes| == 4
    witness FrameFields([0, 0, 0, 0, 0, 0, 0, 0], seq(4, _ => SubframeCode(40, 0, 0, Rpe.CodedBlock(0, [0, 0, 0, 0, 0, 0, 0, 0, 0, 0, 0, 0, 0]))))

  /** The state of a decoder. */
  datatype DecoderState = DecoderState(ltp: LtpState, filter: ShortTerm.FilterState, msr: word)

  datatype Decoded = Decoded(state: DecoderState, samples: seq<word>)

  function DecodeFrame(st: DecoderState, f: FrameCode): (r: Decoded)
    requires ValidLtp(st.ltp)
    ensures ValidLtp(r.state.ltp) && |r.samples| == 160
  {
    var residual := RunLtp(st.ltp, f.subframes);
    var filtered := ShortTerm.SynthesisFrame(st.filter, ShortTerm.Frame(f.larc, residual.out));
    var post := Postprocess(BETA, st.msr, filtered.frame.samples);
    Decoded(DecoderState(residual.state, filtered.state, post.msr), post.out)
  }

  /** A run of frames. */
  function DecodeRun(st: DecoderState, fs: seq<FrameCode>): (r: Decoded)
    requires ValidLtp(st.ltp)
    ensures ValidLtp(r.state.ltp) && |r.samples| == 160 * |fs|
    decreases |fs|
  {
    if fs == [] then Decoded(st, [])
    else
      var r := DecodeRun(st, fs[..|fs| - 1]);
      var last := DecodeFrame(r.state, fs[|fs| - 1]);
      Decoded(last.state, r.samples + last.samples)
  }

  /** All the sub-frames of a run. */
  function Subframes(fs: seq<FrameCode>): (cs: seq<Code>)
    ensures |cs| == 4 * |fs|
    decreases |fs|
  {
    if fs == [] then [] else Subframes(fs[..|fs| - 1]) + fs[|fs| - 1].subframes
  }

  lemma {:induction false} RunLtpJoin(st: LtpState, a: seq<Code>, b: seq<Code>)
    requires ValidLtp(st)
    ensures var ra := RunLtp(st, a);
            var rb := RunLtp(ra.state, b);
            RunLtp(st, a + b) == LtpResult(rb.state, ra.out + rb.out)
    decreases |b|
  {
    var ra := RunLtp(st, a);
    if b == [] {
      assert a + b == a && ra.out + [] == ra.out;
    } else {
      var front := b[..|b| - 1];
      RunLtpJoin(st, a, front);
      assert (a + b)[..|a + b| - 1] == a + front;
      var rf := RunLtp(ra.state, front);
      Associative(ra.out, rf.out, Reconstructed(rf.state, b[|b| - 1]));
    }
  }

  /** Frames are only a grouping: the long-term loop runs through all sub-frames in turn. */
  lemma {:induction false} FramesAreSubframes(st: DecoderState, fs: seq<FrameCode>)
    requires ValidLtp(st.ltp)
    ensures DecodeRun(st, fs).state.ltp == RunLtp(st.ltp, Subframes(fs)).state
    decreases |fs|
  {
    if fs != [] {
      var front := fs[..|fs| - 1];
      FramesAreSubframes(st, front);
      RunLtpJoin(st.ltp, Subframes(front), fs[|fs| - 1].subframes);
    }
  }

  /** The frames that the short-term filter is given: the residual of a run, 160 samples each. */
  function Residuals(fs: seq<FrameCode>, out: seq<word>): (frames: seq<ShortTerm.Frame>)
    requires |out| == 160 * |fs|
    ensures |frames| == |fs|
  {
    seq(|fs|, q requires 0 <= q < |fs| => ShortTerm.Frame(fs[q].larc, out[160 * q..160 * q + 160]))
  }

  function Samples(frames: seq<ShortTerm.Frame>): seq<word>
    decreases |frames|
  {
    if frames == [] then [] else Samples(frames[..|frames| - 1]) + frames[|frames| - 1].samples
  }

  lemma ResidualsJoin(fs: seq<FrameCode>, f: FrameCode, out: seq<word>, more: ShortTerm.Block)
    requires |out| == 160 * |fs|
    ensures Residuals(fs + [f], out + more) == Residuals(fs, out) + [ShortTerm.Frame(f.larc, more)]
  {
    forall q: nat | q < |fs|
      ensures (out + more)[160 * q..160 * q + 160] == out[160 * q..160 * q + 160]
    {
    }
    assert (out + more)[160 * |fs|..160 * |fs| + 160] == more;
  }

  lemma {:induction false} SynthesisRunSnoc(st: ShortTerm.FilterState, frames: seq<ShortTerm.Frame>, f: ShortTerm.Frame)
    ensures var r := ShortTerm.SynthesisRun(st, frames);
            var last := ShortTerm.SynthesisFrame(r.state, f);
            ShortTerm.SynthesisRun(st, frames + [f]) == ShortTerm.Run(last.state, r.frames + [last.frame])
    decreases |frames|
  {
    hide ShortTerm.SynthesisFrame;
    if frames == [] {
      assert [] + [f] == [f] && [f][1..] == [];
    } else {
      assert (frames + [f])[1..] == frames[1..] + [f];
      var first := ShortTerm.SynthesisFrame(st, frames[0]);
      SynthesisRunSnoc(first.state, frames[1..], f);
      var r := ShortTerm.SynthesisRun(first.state, frames[1..]);
      Associative([first.frame], r.frames, [ShortTerm.SynthesisFrame(r.state, f).frame]);
    }
  }

  lemma {:induction false} DeemphasisJoin(beta: word, msr: word, a: seq<word>, b: seq<word>)
    ensures var m := Deemphasised(beta, msr, a);
            Deemphasised(beta, msr, a + b) == m + Deemphasised(beta, if a == [] then msr else m[|a| - 1], b)
    decreases |a|
  {
    hide Add, MultR;
    if a == [] {
      assert a + b == b;
    } else {
      assert (a + b)[1..] == a[1..] + b;
      DeemphasisJoin(beta, Add(a[0], MultR(msr, beta)), a[1..], b);
    }
  }

  lemma PostprocessJoin(beta: word, msr: word, a: seq<word>, b: seq<word>)
    ensures var p := Postprocess(beta, msr, a);
            var q := Postprocess(beta, p.msr, b);
            Postprocess(beta, msr, a + b) == Post(q.msr, p.out + q.out)
  {
    hide Deemphasised, Truncated;
    DeemphasisJoin(beta, msr, a, b);
    if b == [] {
      assert a + b == a;
    }
  }

  /** Frame by frame the decoder is the three stages over the whole run, one after the
      other: the long-term loop over all sub-frames, the short-term filter over all frames,
      and the de-emphasis over all samples. */
  lemma {:induction false} FramesAreStages(st: DecoderState, fs: seq<FrameCode>)
    requires ValidLtp(st.ltp)
    ensures var ltp := RunLtp(st.ltp, Subframes(fs));
            var syn := ShortTerm.SynthesisRun(st.filter, Residuals(fs, ltp.out));
            var post := Postprocess(BETA, st.msr, Samples(syn.frames));
            DecodeRun(st, fs) == Decoded(DecoderState(ltp.state, syn.state, post.msr), post.out)
    decreases |fs|
  {
    hide RunLtp, ShortTerm.SynthesisRun, ShortTerm.SynthesisFrame, Postprocess, Residuals;
    if fs == [] {
      NoStages(st);
    } else {
      var front, f := fs[..|fs| - 1], fs[|fs| - 1];
      assert fs == front + [f];
      FramesAreStages(st, front);
      RunLtpJoin(st.ltp, Subframes(front), f.subframes);
      var ltp := RunLtp(st.ltp, Subframes(front));
      var more := RunLtp(ltp.state, f.subframes);
      ResidualsJoin(front, f, ltp.out, more.out);
      SynthesisRunSnoc(st.filter, Residuals(front, ltp.out), ShortTerm.Frame(f.larc, more.out));
      var syn := ShortTerm.SynthesisRun(st.filter, Residuals(front, ltp.out));
      var last := ShortTerm.SynthesisFrame(syn.state, ShortTerm.Frame(f.larc, more.out));
      assert (syn.frames + [last.frame])[..|syn.frames|] == syn.frames;
      PostprocessJoin(BETA, st.msr, Samples(syn.frames), last.frame.samples);
    }
  }

  /** So the samples put out over a run are multiples of eight, twice the de-emphasised ones
      m, and pre-emphasis of m gives what the short-term filter put out, wherever no addition
      saturated. */
  lemma SamplesOfRun(st: DecoderState, fs: seq<FrameCode>) returns (s: seq<word>, m: seq<word>)
    requires ValidLtp(st.ltp)
    ensures s == Samples(ShortTerm.SynthesisRun(st.filter, Residuals(fs, RunLtp(st.ltp, Subframes(fs)).out)).frames)
    ensures |s| == 160 * |fs| && Emphasis(s, st.msr, m)
    ensures DecodeRun(st, fs).state.msr == MemoryAt(st.msr, m, |s|)
    ensures forall k :: 0 <= k < |s| ==> Upscaled(DecodeRun(st, fs).samples[k], m[k])
  {
    hide RunLtp, ShortTerm.SynthesisRun, Postprocess, Residuals, Emphasis, Upscaled, Samples, DecodeRun;
    FramesAreStages(st, fs);
    s := Samples(ShortTerm.SynthesisRun(st.filter, Residuals(fs, RunLtp(st.ltp, Subframes(fs)).out)).frames);
    m := PostprocessIs(st.msr, s);
  }

  lemma NoStages(st: DecoderState)
    requires ValidLtp(st.ltp)
    ensures RunLtp(st.ltp, []) == LtpResult(st.ltp, [])
    ensures ShortTerm.SynthesisRun(st.filter, Residuals([], [])) == ShortTerm.Run(st.filter, [])
    ensures Postprocess(BETA, st.msr, []) == Post(st.msr, [])
  {
  }

  /** After any run of frames from gsm_create the history holds the last 120 samples of the
      unbounded recursion over all sub-frames, and the lag memory is in range. */
  lemma DecoderRunHistory(filter: ShortTerm.FilterState, fs: seq<FrameCode>)
    ensures var st := DecodeRun(DecoderState(LtpState(Silence(), 40), filter, 0), fs).state;
            var cs := Subframes(fs);
            var out := RunLtp(LtpState(Silence(), 40), cs).out;
            && st.ltp.h == Tail(out) && 40 <= st.ltp.nrp <= 120
            && forall n :: 0 <= n < |out| ==> Recursion(out, cs, n)
  {
    FramesAreSubframes(DecoderState(LtpState(Silence(), 40), filter, 0), fs);
    RunRefinesRecursion(Subframes(fs));
  }

  /** The value of a decoder object. */
  ghost function StateOf(S: GsmState): DecoderState
    requires S.Valid()
    reads S, S.Buffers()
  {
    DecoderState(LtpState(S.dp0[..120], S.nrp), ShortTerm.DecoderFilter(S), S.msr)
  }

  /** `m` lists the de-emphasised samples. */
  method Postprocessing(S: GsmState, s: array<word>) returns (ghost m: seq<word>)
    requires S.Valid() && s.Length == 160 && s !in S.Buffers()
    modifies S`msr, s
    ensures Post(S.msr, s[..]) == Postprocess(BETA, old(S.msr), old(s[..]))
    ensures Emphasis(old(s[..]), old(S.msr), m) && S.msr == m[159]
    ensures forall k :: 0 <= k < 160 ==> Upscaled(s[k], m[k])
  {
    hide Postprocess, Upscaled, EmphasisAt;
    m := PostprocessIs(S.msr, s[..]);
    var msr := Deemphasise(BETA, S.msr, s);
    S.msr := msr;
  }

  /** The loop of Postprocessing. */
  method Deemphasise(beta: word, msr0: word, s: array<word>) returns (msr: word)
    modifies s
    ensures Post(msr, s[..]) == Postprocess(beta, msr0, old(s[..]))
  {
    hide MultR, Add, Truncated;
    msr := msr0;
    ghost var s0 := s[..];
    ghost var m := Deemphasised(beta, msr0, s0);
    for k := 0 to s.Length
      invariant s[k..] == s0[k..]
      invariant msr == if k == 0 then msr0 else m[k - 1]
      invariant m[k..] == Deemphasised(beta, msr, s0[k..])
      invariant forall i :: 0 <= i < k ==> s[i] == Truncated(m[i])
    {
      DropHead(s0, k);
      DropHead(m, k);
      assert s[k] == s0[k..][0];
      var tmp := MultR(msr, beta);
      msr := Add(s[k], tmp);
      s[k] := Truncated(msr);
    }
    assert s[..] == Postprocess(beta, msr0, s0).out;
  }

  predicate LegalFields(bcr: seq<word>, Mcr: seq<word>, xmaxcr: seq<word>, xMcr: seq<word>) {
    && |bcr| == |Mcr| == |xmaxcr| == 4 && |xMcr| == 52
    && (forall j :: 0 <= j < 4 ==> 0 <= bcr[j] <= 3)
    && (forall j :: 0 <= j < 4 ==> 0 <= Mcr[j] <= 3)
    && (forall j :: 0 <= j < 4 ==> 0 <= xmaxcr[j] <= 63)
    && Rpe.ThreeBit(xMcr)
  }

  function CodeAt(Ncr: seq<word>, bcr: seq<word>, Mcr: seq<word>, xmaxcr: seq<word>, xMcr: seq<word>, j: nat): Code
    requires |Ncr| == 4 && LegalFields(bcr, Mcr, xmaxcr, xMcr) && j < 4
  {
    SubframeCode(Ncr[j], bcr[j] as nat, Mcr[j] as nat, Rpe.CodedBlock(xmaxcr[j], xMcr[13 * j..13 * j + 13]))
  }

  function CodesOf(Ncr: seq<word>, bcr: seq<word>, Mcr: seq<word>, xmaxcr: seq<word>, xMcr: seq<word>): (cs: seq<Code>)
    requires |Ncr| == 4 && LegalFields(bcr, Mcr, xmaxcr, xMcr)
    ensures |cs| == 4
  {
    seq(4, j requires 0 <= j < 4 => CodeAt(Ncr, bcr, Mcr, xmaxcr, xMcr, j))
  }

  /** The four sub-frames of a frame, over one history buffer, into wt. */
  method DecodeSubframes(S: GsmState, Ncr: array<word>, bcr: array<word>, Mcr: array<word>, xmaxcr: array<word>, xMcr: array<word>, wt: array<word>)
    requires S.Valid() && Ncr.Length == 4 && bcr.Length == 4 && Mcr.Length == 4 && xmaxcr.Length == 4 && xMcr.Length == 52
    requires LegalFields(bcr[..], Mcr[..], xmaxcr[..], xMcr[..]) && wt.Length == 160
    requires S.Buffers() !! {Ncr, bcr, Mcr, xmaxcr, xMcr, wt} && wt !in {Ncr, bcr, Mcr, xmaxcr, xMcr}
    modifies S`nrp, S.dp0, wt
    ensures S.Valid()
    ensures LtpResult(LtpState(S.dp0[..120], S.nrp), wt[..])
            == RunLtp(LtpState(old(S.dp0[..120]), old(S.nrp)), CodesOf(Ncr[..], bcr[..], Mcr[..], xmaxcr[..], xMcr[..]))
  {
    hide RunLtp, Reconstructed, CodesOf, Rpe.DecodedResidual;
    var erp := new word[40](_ => 0);
    ghost var st := LtpState(S.dp0[..120], S.nrp);
    ghost var cs := CodesOf(Ncr[..], bcr[..], Mcr[..], xmaxcr[..], xMcr[..]);
    NothingRun(st, cs);
    for j := 0 to 4
      invariant S.Valid() && fresh(erp)
      invariant LtpResult(LtpState(S.dp0[..120], S.nrp), wt[..40 * j]) == RunLtp(st, cs[..j])
    {
      ghost var before := LtpState(S.dp0[..120], S.nrp);
      ghost var done := wt[..40 * j];
      CodesAt(Ncr[..], bcr[..], Mcr[..], xmaxcr[..], xMcr[..], j);
      ghost var c := cs[j];
      assert xMcr[13 * j..13 * j + 13] == c.block.xMc;
      Rpe.GsmRpeDecoding(xmaxcr[j], Mcr[j] as nat, xMcr, 13 * j, erp);
      LongTerm.GsmLongTermSynthesisFiltering(S, Ncr[j], bcr[j] as nat, erp);
      assert S.dp0[120..160] == Reconstructed(before, c) by { ReconstructedIs(before, c); }
      CopySubframe(S.dp0, wt, 40 * j);
      RunStep(st, cs, j);
      assert wt[..40 * (j + 1)] == done + wt[40 * j..40 * j + 40];
    }
    assert cs[..4] == cs && wt[..160] == wt[..];
  }

  lemma NothingRun(st: LtpState, cs: seq<Code>)
    requires ValidLtp(st)
    ensures RunLtp(st, cs[..0]) == LtpResult(st, [])
  {
    assert cs[..0] == [];
  }

  lemma RunStep(st: LtpState, cs: seq<Code>, j: nat)
    requires ValidLtp(st) && j < |cs|
    ensures var r := RunLtp(st, cs[..j]);
            RunLtp(st, cs[..j + 1]) == LtpResult(NextLtp(r.state, cs[j]), r.out + Reconstructed(r.state, cs[j]))
  {
    hide Reconstructed, NextLtp;
    assert cs[..j + 1][..j] == cs[..j];
  }

  lemma ReconstructedIs(st: LtpState, c: Code)
    requires ValidLtp(st)
    ensures Reconstructed(st, c)
         == LongTerm.Plus(Rpe.DecodedResidual(c.block, c.Mcr),
                          LongTerm.Estimate(st.h, LongTerm.Predictor(EffectiveLag(st.nrp, c.Ncr) as nat, c.bcr)))
  {
  }

  lemma CodesAt(Ncr: seq<word>, bcr: seq<word>, Mcr: seq<word>, xmaxcr: seq<word>, xMcr: seq<word>, j: nat)
    requires |Ncr| == 4 && LegalFields(bcr, Mcr, xmaxcr, xMcr) && j < 4
    ensures CodesOf(Ncr, bcr, Mcr, xmaxcr, xMcr)[j]
         == SubframeCode(Ncr[j], bcr[j] as nat, Mcr[j] as nat, Rpe.CodedBlock(xmaxcr[j], xMcr[13 * j..13 * j + 13]))
  {
  }

  /** wt[j * 40 + k] = drp[k]. */
  method CopySubframe(dp0: array<word>, wt: array<word>, base: nat)
    requires dp0.Length == 280 && base + 40 <= wt.Length && dp0 != wt
    modifies wt
    ensures wt[..base] == old(wt[..base]) && wt[base..base + 40] == dp0[120..160]
  {
    for k := 0 to 40
      invariant wt[..base] == old(wt[..base]) && wt[base..base + k] == dp0[120..120 + k]
    {
      wt[base + k] := dp0[120 + k];
    }
  }

  method GsmDecoder(S: GsmState, LARcr: array<word>, Ncr: array<word>, bcr: array<word>, Mcr: array<word>,
                    xmaxcr: array<word>, xMcr: array<word>, s: array<word>)
    requires S.Valid() && LARcr.Length == 8 && s.Length == 160
    requires Ncr.Length == 4 && bcr.Length == 4 && Mcr.Length == 4 && xmaxcr.Length == 4 && xMcr.Length == 52
    requires LegalFields(bcr[..], Mcr[..], xmaxcr[..], xMcr[..])
    requires S.Buffers() !! {LARcr, Ncr, bcr, Mcr, xmaxcr, xMcr, s} && s !in {LARcr, Ncr, bcr, Mcr, xmaxcr, xMcr}
    modifies S, S.Buffers(), s
    ensures S.Valid()
    ensures Decoded(StateOf(S), s[..])
            == DecodeFrame(old(StateOf(S)), FrameFields(LARcr[..], CodesOf(Ncr[..], bcr[..], Mcr[..], xmaxcr[..], xMcr[..])))
  {
    hide ShortTerm.SynthesisFrame, ShortTerm.SynthesisBlock, ShortTerm.OwnRatios, Postprocess, RunLtp, Emphasis, Upscaled;
    var wt := new word[160](_ => 0);
    DecodeSubframes(S, Ncr, bcr, Mcr, xmaxcr, xMcr, wt);
    ShortTerm.GsmShortTermSynthesisFilter(S, LARcr, wt, s);
    ghost var m := Postprocessing(S, s);
  }
}
