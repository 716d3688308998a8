/**
 Short-term analysis and synthesis filtering (short_term.c, sections 4.2.8 to 4.2.10
 and 4.3.4 of GSM 06.10): decoding and interpolation of the log-area ratios, and the
 eight-stage lattice filter of the encoder with its inverse in the decoder.

 The functions give each filter as a recursion over its stages, the methods are the
 loops of the source, and the theorems say that the rounded, saturating filters undo
 each other exactly.
 */
module ShortTerm {
  import opened Powers
  import opened GsmArith
  import opened GsmStates
  import opened Seqs

  // ------------------------------------------------------------------ lattice stages

  /** What a lattice leaves behind: its memory and the sample it puts out. */
  datatype Stage = Stage(memory: seq<word>, out: word)

  /** Analysis from one stage on: d is the forward residual, sav the delayed one.
      The memory is one word longer than what is kept. */
  function Analyse(u: seq<word>, rp: seq<word>, d: word, sav: word): (r: Stage)
    requires |u| == |rp|
    ensures |r.memory| == |u| + 1 && r.memory[0] == sav
  {
    if u == [] then Stage([sav], d)
    else
      var rest := Analyse(u[1..], rp[1..], Add(d, MultR(rp[0], u[0])), Add(u[0], MultR(rp[0], d)));
      Stage([sav] + rest.memory, rest.out)
  }

  /** Synthesis of the same stages, last stage first. */
  function Synthesise(v: seq<word>, rrp: seq<word>, d: word): (r: Stage)
    requires |v| == |rrp|
    ensures |r.memory| == |v|
  {
    if v == [] then Stage([], d)
    else
      var rest := Synthesise(v[1..], rrp[1..], d);
      var sri := Sub(rest.out, MultRSat(rrp[0], v[0]));
      Stage([Add(v[0], MultRSat(rrp[0], sri))] + rest.memory, sri)
  }

  predicate NoMinWord(rp: seq<word>) {
    forall i :: 0 <= i < |rp| ==> rp[i] != MIN_WORD
  }

  predicate Fits(x: int) { -32768 <= x <= 32767 }

  /** No addition on the forward path of the analysis saturates.  The delayed path may. */
  predicate AnalysisFits(u: seq<word>, rp: seq<word>, d: word)
    requires |u| == |rp|
  {
    u == [] ||
    (Fits(d as int + MultR(rp[0], u[0]) as int) && AnalysisFits(u[1..], rp[1..], Add(d, MultR(rp[0], u[0]))))
  }

  /** No subtraction of the synthesis saturates. */
  predicate SynthesisFits(v: seq<word>, rrp: seq<word>, d: word)
    requires |v| == |rrp|
  {
    v == [] ||
    (SynthesisFits(v[1..], rrp[1..], d) &&
     Fits(Synthesise(v[1..], rrp[1..], d).out as int - MultRSat(rrp[0], v[0]) as int))
  }

  /** One stage is undone exactly when its addition does not saturate. */
  lemma StageRecoversIff(d: word, z: word)
    ensures Sub(Add(d, z), z) == d <==> Fits(d as int + z as int)
  {
  }

  /** The lattice is a lifting structure: whatever the rounding, synthesis undoes analysis. */
  lemma {:induction false} LatticeInverse(u: seq<word>, rp: seq<word>, d: word, sav: word)
    requires |u| == |rp| && NoMinWord(rp) && AnalysisFits(u, rp, d)
    ensures var a := Analyse(u, rp, d, sav);
            Synthesise(u, rp, a.out) == Stage(a.memory[1..], d)
  {
    if u != [] {
      var d', sav' := Add(d, MultR(rp[0], u[0])), Add(u[0], MultR(rp[0], d));
      LatticeInverse(u[1..], rp[1..], d', sav');
      var rest := Analyse(u[1..], rp[1..], d', sav');
      MultRExact(rp[0], u[0]);
      MultRExact(rp[0], d);
      StageRecoversIff(d, MultR(rp[0], u[0]));
      assert rest.memory == [sav'] + rest.memory[1..];
    }
  }

  /** And analysis undoes synthesis. */
  lemma {:induction false} LatticeInverseBack(v: seq<word>, rp: seq<word>, d: word, sav: word)
    requires |v| == |rp| && NoMinWord(rp) && SynthesisFits(v, rp, d)
    ensures var b := Synthesise(v, rp, d);
            Analyse(v, rp, b.out, sav) == Stage([sav] + b.memory, d)
  {
    if v != [] {
      var rest := Synthesise(v[1..], rp[1..], d);
      var sri := Sub(rest.out, MultRSat(rp[0], v[0]));
      MultRExact(rp[0], v[0]);
      MultRExact(rp[0], sri);
      LatticeInverseBack(v[1..], rp[1..], d, Add(v[0], MultR(rp[0], sri)));
    }
  }

  // ------------------------------------------------------------------ samples and blocks

  type Memory = m: seq<word> | |m| == 8 witness [0, 0, 0, 0, 0, 0, 0, 0]

  /** A filter's memory after one sample, with the sample put out. */
  datatype Sample = Sample(memory: Memory, out: word)

  /** A filter's memory after a block, with the block put out. */
  datatype Filtered = Filtered(memory: Memory, out: seq<word>)

  function AnalysisSample(u: Memory, rp: Memory, s: word): Sample {
    var a := Analyse(u, rp, s, s);
    Sample(a.memory[..8], a.out)
  }

  function SynthesisSample(v: Memory, rrp: Memory, d: word): Sample {
    var b := Synthesise(v, rrp, d);
    Sample([b.out] + b.memory[..7], b.out)
  }

  function AnalysisBlock(u: Memory, rp: Memory, s: seq<word>): (r: Filtered)
    ensures |r.out| == |s|
    decreases |s|
  {
    if s == [] then Filtered(u, [])
    else
      var first := AnalysisSample(u, rp, s[0]);
      var rest := AnalysisBlock(first.memory, rp, s[1..]);
      Filtered(rest.memory, [first.out] + rest.out)
  }

  function SynthesisBlock(v: Memory, rrp: Memory, d: seq<word>): (r: Filtered)
    ensures |r.out| == |d|
    decreases |d|
  {
    if d == [] then Filtered(v, [])
    else
      var first := SynthesisSample(v, rrp, d[0]);
      var rest := SynthesisBlock(first.memory, rrp, d[1..]);
      Filtered(rest.memory, [first.out] + rest.out)
  }

  lemma AnalysisBlockHead(u: Memory, rp: Memory, s: seq<word>, k: nat)
    requires k < |s|
    ensures var first := AnalysisSample(u, rp, s[k]);
            var rest := AnalysisBlock(first.memory, rp, s[k + 1..]);
            AnalysisBlock(u, rp, s[k..]) == Filtered(rest.memory, [first.out] + rest.out)
  {
    hide AnalysisSample;
    DropHead(s, k);
  }

  lemma AnalysisBlockEnd(u: Memory, rp: Memory)
    ensures AnalysisBlock(u, rp, []) == Filtered(u, [])
  {
  }

  predicate AnalysisBlockFits(u: Memory, rp: Memory, s: seq<word>)
    decreases |s|
  {
    s == [] ||
    (AnalysisFits(u, rp, s[0]) && AnalysisBlockFits(AnalysisSample(u, rp, s[0]).memory, rp, s[1..]))
  }

  lemma SynthesisBlockHead(v: Memory, rrp: Memory, d: seq<word>, k: nat)
    requires k < |d|
    ensures var first := SynthesisSample(v, rrp, d[k]);
            var rest := SynthesisBlock(first.memory, rrp, d[k + 1..]);
            SynthesisBlock(v, rrp, d[k..]) == Filtered(rest.memory, [first.out] + rest.out)
  {
    hide SynthesisSample;
    DropHead(d, k);
  }

  lemma SynthesisBlockEnd(v: Memory, rrp: Memory)
    ensures SynthesisBlock(v, rrp, []) == Filtered(v, [])
  {
  }

  predicate SynthesisBlockFits(v: Memory, rrp: Memory, d: seq<word>)
    decreases |d|
  {
    d == [] ||
    (SynthesisFits(v, rrp, d[0]) && SynthesisBlockFits(SynthesisSample(v, rrp, d[0]).memory, rrp, d[1..]))
  }

  lemma SampleInverse(u: Memory, rp: Memory, s: word)
    requires NoMinWord(rp) && AnalysisFits(u, rp, s)
    ensures var a := AnalysisSample(u, rp, s);
            SynthesisSample(u, rp, a.out) == Sample(a.memory, s)
  {
    LatticeInverse(u, rp, s, s);
    var memory := Analyse(u, rp, s, s).memory;
    assert memory[..8] == [s] + memory[1..][..7];
  }

  lemma SampleInverseBack(v: Memory, rp: Memory, d: word)
    requires NoMinWord(rp) && SynthesisFits(v, rp, d)
    ensures var b := SynthesisSample(v, rp, d);
            AnalysisSample(v, rp, b.out) == Sample(b.memory, d)
  {
    var b := Synthesise(v, rp, d);
    LatticeInverseBack(v, rp, d, b.out);
    assert ([b.out] + b.memory)[..8] == [b.out] + b.memory[..7];
  }

  lemma {:induction false} BlockInverse(u: Memory, rp: Memory, s: seq<word>)
    requires NoMinWord(rp) && AnalysisBlockFits(u, rp, s)
    ensures var a := AnalysisBlock(u, rp, s);
            SynthesisBlock(u, rp, a.out) == Filtered(a.memory, s)
    decreases |s|
  {
    if s != [] {
      SampleInverse(u, rp, s[0]);
      var first := AnalysisSample(u, rp, s[0]);
      BlockInverse(first.memory, rp, s[1..]);
      assert AnalysisBlock(u, rp, s).out[1..] == AnalysisBlock(first.memory, rp, s[1..]).out;
    }
  }

  lemma {:induction false} BlockInverseBack(v: Memory, rp: Memory, d: seq<word>)
    requires NoMinWord(rp) && SynthesisBlockFits(v, rp, d)
    ensures var b := SynthesisBlock(v, rp, d);
            AnalysisBlock(v, rp, b.out) == Filtered(b.memory, d)
    decreases |d|
  {
    if d != [] {
      SampleInverseBack(v, rp, d[0]);
      var first := SynthesisSample(v, rp, d[0]);
      BlockInverseBack(first.memory, rp, d[1..]);
      assert SynthesisBlock(v, rp, d).out[1..] == SynthesisBlock(first.memory, rp, d[1..]).out;
    }
  }

  /** A block is its samples, one after the other, each filtered with the memory that the one
      before it left. */
  lemma {:induction false} AnalysisSamples(u: Memory, rp: Memory, s: seq<word>) returns (m: seq<Memory>)
    ensures var r := AnalysisBlock(u, rp, s);
            && |m| == |s| + 1 && m[0] == u && m[|s|] == r.memory
            && forall k :: 0 <= k < |s| ==> Sample(m[k + 1], r.out[k]) == AnalysisSample(m[k], rp, s[k])
    decreases |s|
  {
    hide AnalysisSample;
    m := [u];
    if s != [] {
      var rest := AnalysisSamples(AnalysisSample(u, rp, s[0]).memory, rp, s[1..]);
      m := m + rest;
    }
  }

  lemma {:induction false} SynthesisSamples(v: Memory, rrp: Memory, d: seq<word>) returns (m: seq<Memory>)
    ensures var r := SynthesisBlock(v, rrp, d);
            && |m| == |d| + 1 && m[0] == v && m[|d|] == r.memory
            && forall k :: 0 <= k < |d| ==> Sample(m[k + 1], r.out[k]) == SynthesisSample(m[k], rrp, d[k])
    decreases |d|
  {
    hide SynthesisSample;
    m := [v];
    if d != [] {
      var rest := SynthesisSamples(SynthesisSample(v, rrp, d[0]).memory, rrp, d[1..]);
      m := m + rest;
    }
  }

  // ------------------------------------------------------------------ the equations of the lattice

  /** x is a + r * u / 32768 to the nearest, or the end of the range that it lies beyond. */
  predicate Rounds(x: word, a: word, r: int, u: word) {
    var n := 32768 * a as int + r * u as int;
    || -16384 <= 32768 * x as int - n <= 16384
    || (x == MAX_WORD && n > 32768 * 32767)
    || (x == MIN_WORD && n < -32768 * 32768)
  }

  /** Section 4.2.10: f are the forward residuals from stage to stage, g the backward ones,
      u the delayed backward ones. */
  predicate AnalysisEquations(u: seq<word>, rp: seq<word>, f: seq<word>, g: seq<word>) {
    && |u| == |rp| && |f| == |g| == |u| + 1
    && forall i :: 0 <= i < |u| ==> Rounds(f[i + 1], f[i], rp[i] as int, u[i]) && Rounds(g[i + 1], u[i], rp[i] as int, f[i])
  }

  /** Section 4.3.4: the same stages, with the forward residual solved for. */
  predicate SynthesisEquations(v: seq<word>, rp: seq<word>, f: seq<word>, g: seq<word>) {
    && |v| == |rp| && |f| == |g| == |v| + 1
    && forall i :: 0 <= i < |v| ==> Rounds(f[i], f[i + 1], -(rp[i] as int), v[i]) && Rounds(g[i + 1], v[i], rp[i] as int, f[i])
  }

  lemma AddRounds(a: word, p: int, q: int)
    requires q == (p + 16384) / 32768
    ensures Rounds(Saturate(a as int + q), a, p, 1)
    ensures Rounds(Saturate(a as int - q), a, -p, 1)
  {
  }

  lemma ProductOfOne(x: word, a: word, r: int, u: word, p: int)
    requires r * u as int == p && Rounds(x, a, p, 1)
    ensures Rounds(x, a, r, u)
  {
  }

  lemma StageRounds(a: word, rp: word, u: word)
    requires rp != MIN_WORD
    ensures Rounds(Add(a, MultR(rp, u)), a, rp as int, u)
    ensures Rounds(Add(a, MultRSat(rp, u)), a, rp as int, u)
    ensures Rounds(Sub(a, MultRSat(rp, u)), a, -(rp as int), u)
  {
    hide Rounds, MultR, MultRSat, Saturate;
    MultRExact(rp, u);
    var p := rp as int * u as int;
    AddRounds(a, p, RoundedProduct(rp, u));
    ProductOfOne(Add(a, MultR(rp, u)), a, rp as int, u, p);
    assert (-(rp as int)) * u as int == -p;
    ProductOfOne(Sub(a, MultRSat(rp, u)), a, -(rp as int), u, -p);
  }

  lemma {:induction false} AnalysisHolds(u: seq<word>, rp: seq<word>, d: word, sav: word) returns (f: seq<word>, g: seq<word>)
    requires |u| == |rp| && NoMinWord(rp)
    ensures AnalysisEquations(u, rp, f, g) && f[0] == d && g[0] == sav && Analyse(u, rp, d, sav) == Stage(g, f[|u|])
  {
    hide Rounds, MultR, Add;
    if u == [] {
      f, g := [d], [sav];
    } else {
      StageRounds(d, rp[0], u[0]);
      StageRounds(u[0], rp[0], d);
      var f', g' := AnalysisHolds(u[1..], rp[1..], Add(d, MultR(rp[0], u[0])), Add(u[0], MultR(rp[0], d)));
      f, g := [d] + f', [sav] + g';
      OneMoreStage(u, rp, f, g);
    }
  }

  lemma OneMoreStage(u: seq<word>, rp: seq<word>, f: seq<word>, g: seq<word>)
    requires u != [] && |u| == |rp| && |f| == |g| == |u| + 1
    ensures Rounds(f[1], f[0], rp[0] as int, u[0]) && Rounds(g[1], u[0], rp[0] as int, f[0]) && AnalysisEquations(u[1..], rp[1..], f[1..], g[1..])
            ==> AnalysisEquations(u, rp, f, g)
    ensures Rounds(f[0], f[1], -(rp[0] as int), u[0]) && Rounds(g[1], u[0], rp[0] as int, f[0]) && SynthesisEquations(u[1..], rp[1..], f[1..], [f[1]] + g[2..])
            ==> SynthesisEquations(u, rp, f, g)
  {
    hide Rounds;
    assert forall i :: 0 < i < |u| ==> u[i] == u[1..][i - 1] && rp[i] == rp[1..][i - 1];
    assert forall i :: 0 < i <= |u| ==> f[i] == f[1..][i - 1] && g[i] == g[1..][i - 1];
    assert forall i :: 1 < i <= |u| ==> g[i] == ([f[1]] + g[2..])[i - 1];
  }

  lemma {:induction false} SynthesisHolds(v: seq<word>, rp: seq<word>, d: word) returns (f: seq<word>, g: seq<word>)
    requires |v| == |rp| && NoMinWord(rp)
    ensures SynthesisEquations(v, rp, f, g) && f[|v|] == d && g[0] == f[0] && Synthesise(v, rp, d) == Stage(g[1..], f[0])
  {
    hide Rounds, MultRSat, Add, Sub;
    if v == [] {
      f, g := [d], [d];
    } else {
      var f', g' := SynthesisHolds(v[1..], rp[1..], d);
      var sri := Sub(f'[0], MultRSat(rp[0], v[0]));
      StageRounds(f'[0], rp[0], v[0]);
      StageRounds(v[0], rp[0], sri);
      f := [sri] + f';
      g := [sri, Add(v[0], MultRSat(rp[0], sri))] + g'[1..];
      assert g[1..] == [Add(v[0], MultRSat(rp[0], sri))] + g'[1..];
      assert f[1..] == f' && [f[1]] + g[2..] == g';
      OneMoreStage(v, rp, f, g);
    }
  }

  /** One sample of the encoder's filter solves the equations of the lattice, stage by stage. */
  lemma AnalysisIsLattice(u: Memory, rp: Memory, s: word) returns (f: seq<word>, g: seq<word>)
    requires NoMinWord(rp)
    ensures AnalysisEquations(u, rp, f, g) && f[0] == g[0] == s
    ensures AnalysisSample(u, rp, s) == Sample(g[..8], f[8])
  {
    hide Rounds;
    f, g := AnalysisHolds(u, rp, s, s);
  }

  /** So does one sample of the decoder's. */
  lemma SynthesisIsLattice(v: Memory, rp: Memory, d: word) returns (f: seq<word>, g: seq<word>)
    requires NoMinWord(rp)
    ensures SynthesisEquations(v, rp, f, g) && f[8] == d && f[0] == g[0]
    ensures SynthesisSample(v, rp, d) == Sample(g[..8], f[0])
  {
    hide Rounds;
    f, g := SynthesisHolds(v, rp, d);
    assert g == [g[0]] + g[1..];
    assert g[..8] == [f[0]] + g[1..][..7];
  }

  // ------------------------------------------------------------------ reflection coefficients

  /** Tables 4.1 and 4.2, the constants of the eight decoding steps. */
  const B: seq<word> := [0, 0, 2048, -2560, 94, -1792, -341, -1144]
  const MIC: seq<word> := [-32, -32, -16, -16, -8, -8, -4, -4]
  const INVA: seq<word> := [13107, 13107, 13107, 13107, 19223, 17476, 31454, 29708]

  /** One decoded log-area ratio.  The shift by ten is stored in a word. */
  function DecodeLar(larc: word, i: nat): word
    requires i < 8
  {
    var temp := MultR(INVA[i], Sub(Wrap16(Add(larc, MIC[i]) as int * 1024), B[i] * 2));
    Add(temp, temp)
  }

  function DecodeLars(larc: Memory): Memory {
    seq(8, i requires 0 <= i < 8 => DecodeLar(larc[i], i))
  }

  /** The four interpolations of section 4.2.9.1. */
  function Interpolate(prev: word, cur: word, segment: nat): word {
    if segment == 0 then Add(Add(ShiftRight(prev, 2), ShiftRight(cur, 2)), ShiftRight(prev, 1))
    else if segment == 1 then Add(ShiftRight(prev, 1), ShiftRight(cur, 1))
    else if segment == 2 then Add(Add(ShiftRight(prev, 2), ShiftRight(cur, 2)), ShiftRight(cur, 1))
    else cur
  }

  /** From a log-area ratio to a reflection coefficient: piecewise linear and odd. */
  function LarpToRp(larp: word): word {
    var temp := Abs(larp);
    var rp := if temp < 11059 then temp * 2 else if temp < 20070 then temp + 11059 else Add(temp / 4, 26112);
    if larp < 0 then -rp else rp
  }

  function Interpolated(prev: Memory, cur: Memory, segment: nat): Memory {
    seq(8, i requires 0 <= i < 8 => Interpolate(prev[i], cur[i], segment))
  }

  function ReflectionCoefficients(larp: Memory): (r: Memory)
    ensures NoMinWord(r)
  {
    seq(8, i requires 0 <= i < 8 => LarpToRp(larp[i]))
  }

  function SegmentRp(prev: Memory, cur: Memory, segment: nat): (r: Memory)
    ensures NoMinWord(r)
  {
    ReflectionCoefficients(Interpolated(prev, cur, segment))
  }

  /** No interpolation saturates: the four segments hold the means of the two frames with
      weights 3:1, 1:1, 1:3 and 0:1, at most two units low. */
  lemma InterpolationIsWeightedMean(prev: word, cur: word)
    ensures -8 <= 4 * Interpolate(prev, cur, 0) as int - (3 * prev as int + cur as int) <= 0
    ensures -2 <= 2 * Interpolate(prev, cur, 1) as int - (prev as int + cur as int) <= 0
    ensures -8 <= 4 * Interpolate(prev, cur, 2) as int - (prev as int + 3 * cur as int) <= 0
    ensures Interpolate(prev, cur, 3) == cur
  {
    ShiftValues(prev);
    ShiftValues(cur);
    ThreeTermMean(prev, cur, ShiftRight(prev, 2), ShiftRight(cur, 2), ShiftRight(prev, 1));
    ThreeTermMean(cur, prev, ShiftRight(cur, 2), ShiftRight(prev, 2), ShiftRight(cur, 1));
  }

  /** The word that stands for a ratio in a segment: a mean of the two frames, at most two
      units low, and in the last segment the ratio of the frame itself. */
  predicate Mean(segment: nat, prev: word, cur: word, x: word) {
    var p, c, m := prev as int, cur as int, x as int;
    if segment == 0 then -8 <= 4 * m - (3 * p + c) <= 0
    else if segment == 1 then -2 <= 2 * m - (p + c) <= 0
    else if segment == 2 then -8 <= 4 * m - (p + 3 * c) <= 0
    else m == c
  }

  ghost predicate OfMean(r: word, segment: nat, prev: word, cur: word) {
    exists x: word :: Mean(segment, prev, cur, x) && r == LarpToRp(x)
  }

  /** The coefficients of a segment belong to such means. */
  ghost predicate CoefficientsOf(rp: Memory, prev: Memory, cur: Memory, segment: nat) {
    forall i :: 0 <= i < 8 ==> OfMean(rp[i], segment, prev[i], cur[i])
  }

  lemma SegmentIsMean(prev: Memory, cur: Memory, segment: nat)
    requires segment < 4
    ensures CoefficientsOf(SegmentRp(prev, cur, segment), prev, cur, segment)
  {
    hide Interpolate, LarpToRp, Mean;
    forall i | 0 <= i < 8
      ensures OfMean(SegmentRp(prev, cur, segment)[i], segment, prev[i], cur[i])
    {
      InterpolateIsMean(prev[i], cur[i], segment);
    }
  }

  lemma InterpolateIsMean(prev: word, cur: word, segment: nat)
    requires segment < 4
    ensures Mean(segment, prev, cur, Interpolate(prev, cur, segment))
  {
    InterpolationIsWeightedMean(prev, cur);
    hide Interpolate;
  }

  /** Samples 40 to 159 use the ratios of the frame alone. */
  lemma LastSegmentIsCurrent(prev: Memory, cur: Memory, rp: Memory)
    requires CoefficientsOf(rp, prev, cur, 3)
    ensures forall i :: 0 <= i < 8 ==> rp[i] == LarpToRp(cur[i])
  {
    hide LarpToRp;
  }

  lemma ThreeTermMean(a: word, b: word, a4: word, b4: word, a2: word)
    requires 0 <= a as int - 4 * a4 as int <= 3 && 0 <= b as int - 4 * b4 as int <= 3 && 0 <= a as int - 2 * a2 as int <= 1
    ensures -8 <= 4 * Add(Add(a4, b4), a2) as int - (3 * a as int + b as int) <= 0
    ensures Add(b4, a4) == Add(a4, b4)
  {
  }

  lemma ShiftValues(a: word)
    ensures 0 <= a as int - 4 * ShiftRight(a, 2) as int <= 3
    ensures 0 <= a as int - 2 * ShiftRight(a, 1) as int <= 1
  {
    assert Pow2(1) == 2 && Pow2(2) == 4;
  }

  /** The mapping is odd and monotone, and it never yields the most negative word. */
  lemma LarpToRpOddMonotone(a: word, b: word)
    ensures a <= b ==> LarpToRp(a) <= LarpToRp(b)
    ensures a != MIN_WORD ==> LarpToRp(-a) == -LarpToRp(a)
    ensures -32767 <= LarpToRp(a) <= 32767
  {
  }

  /** The standard's mapping, with ratios in 16384ths and coefficients in 32768ths: r = LAR up to
      0.675, then LAR / 2 + 0.3375 up to 1.225, then LAR / 8 + 0.796875; 0.675 * 16384 is
      11059.2 and 1.225 * 16384 is 20070.4. */
  lemma LarpToRpIs(larp: word)
    requires larp >= 0
    ensures var lar, r := larp as int, LarpToRp(larp) as int;
            && (10 * lar < 110592 ==> r == 2 * lar)
            && (110592 <= 10 * lar < 200704 ==> -4 <= 5 * r - (5 * lar + 55296) <= 4)
            && (200704 <= 10 * lar && lar < 26620 ==> -3 <= 4 * r - (lar + 104448) <= 0)
            && (lar >= 26620 ==> r == 32767)
  {
  }

  // ------------------------------------------------------------------ frames and runs

  type Block = s: seq<word> | |s| == 160 witness seq(160, _ => 0)

  /** A coded set of log-area ratios with the 160 samples it applies to. */
  datatype Frame = Frame(larc: Memory, samples: Block)

  /** What the filter carries from frame to frame. */
  datatype FilterState = FilterState(memory: Memory, prevLar: Memory)

  const CUT: seq<nat> := [0, 13, 27, 40, 160]

  /** The segments of a frame from the given one on. */
  function AnalysisSegments(u: Memory, prev: Memory, cur: Memory, s: seq<word>, segment: nat): (r: Filtered)
    requires segment <= 4 && |s| == 160 - CUT[segment]
    ensures |r.out| == |s|
    decreases 4 - segment
  {
    if segment == 4 then Filtered(u, [])
    else
      var n := CUT[segment + 1] - CUT[segment];
      var first := AnalysisBlock(u, SegmentRp(prev, cur, segment), s[..n]);
      var rest := AnalysisSegments(first.memory, prev, cur, s[n..], segment + 1);
      Filtered(rest.memory, first.out + rest.out)
  }

  function SynthesisSegments(v: Memory, prev: Memory, cur: Memory, d: seq<word>, segment: nat): (r: Filtered)
    requires segment <= 4 && |d| == 160 - CUT[segment]
    ensures |r.out| == |d|
    decreases 4 - segment
  {
    if segment == 4 then Filtered(v, [])
    else
      var n := CUT[segment + 1] - CUT[segment];
      var first := SynthesisBlock(v, SegmentRp(prev, cur, segment), d[..n]);
      var rest := SynthesisSegments(first.memory, prev, cur, d[n..], segment + 1);
      Filtered(rest.memory, first.out + rest.out)
  }

  /** The coefficients of the four segments of a frame. */
  ghost predicate FourSets(c: seq<Memory>, prev: Memory, cur: Memory) {
    && |c| == 4 && CoefficientsOf(c[0], prev, cur, 0) && CoefficientsOf(c[1], prev, cur, 1) && CoefficientsOf(c[2], prev, cur, 2)
    && forall i :: 0 <= i < 8 ==> c[3][i] == LarpToRp(cur[i])
  }

  /** A frame is four blocks: samples 0 to 12 filtered with the means that favour the frame
      before, 13 to 26 with the plain ones, 27 to 39 with those that favour the frame
      itself, and 40 to 159 with its own ratios. */
  lemma AnalysisIsFourBlocks(u: Memory, prev: Memory, cur: Memory, s: Block) returns (m: seq<Memory>, c: seq<Memory>)
    ensures |m| == 5 && m[0] == u && FourSets(c, prev, cur)
    ensures var r := AnalysisSegments(u, prev, cur, s, 0);
            && Filtered(m[1], r.out[0..13]) == AnalysisBlock(m[0], c[0], s[0..13])
            && Filtered(m[2], r.out[13..27]) == AnalysisBlock(m[1], c[1], s[13..27])
            && Filtered(m[3], r.out[27..40]) == AnalysisBlock(m[2], c[2], s[27..40])
            && Filtered(m[4], r.out[40..160]) == AnalysisBlock(m[3], c[3], s[40..160]) && m[4] == r.memory
  {
    hide AnalysisBlock, SegmentRp, CoefficientsOf;
    c := SegmentSets(prev, cur);
    var r0 := AnalysisBlock(u, c[0], s[..13]);
    var r1 := AnalysisBlock(r0.memory, c[1], s[13..][..14]);
    var r2 := AnalysisBlock(r1.memory, c[2], s[13..][14..][..13]);
    var r3 := AnalysisBlock(r2.memory, c[3], s[13..][14..][13..]);
    m := [u, r0.memory, r1.memory, r2.memory, r3.memory];
    SlicesOfFrame(s);
    assert s[40..160][..120] == s[40..160] && s[40..160][120..] == [];
    assert AnalysisSegments(r3.memory, prev, cur, [], 4) == Filtered(r3.memory, []);
    assert AnalysisSegments(r2.memory, prev, cur, s[40..160], 3) == Filtered(r3.memory, r3.out + []);
    assert AnalysisSegments(r1.memory, prev, cur, s[13..][14..], 2) == Filtered(r3.memory, r2.out + (r3.out + []));
    assert AnalysisSegments(r0.memory, prev, cur, s[13..], 1) == Filtered(r3.memory, r1.out + (r2.out + (r3.out + [])));
    JoinOfFrame(r0.out, r1.out, r2.out, r3.out);
  }

  lemma SynthesisIsFourBlocks(v: Memory, prev: Memory, cur: Memory, d: Block) returns (m: seq<Memory>, c: seq<Memory>)
    ensures |m| == 5 && m[0] == v && FourSets(c, prev, cur)
    ensures var r := SynthesisSegments(v, prev, cur, d, 0);
            && Filtered(m[1], r.out[0..13]) == SynthesisBlock(m[0], c[0], d[0..13])
            && Filtered(m[2], r.out[13..27]) == SynthesisBlock(m[1], c[1], d[13..27])
            && Filtered(m[3], r.out[27..40]) == SynthesisBlock(m[2], c[2], d[27..40])
            && Filtered(m[4], r.out[40..160]) == SynthesisBlock(m[3], c[3], d[40..160]) && m[4] == r.memory
  {
    hide SynthesisBlock, SegmentRp, CoefficientsOf;
    c := SegmentSets(prev, cur);
    var r0 := SynthesisBlock(v, c[0], d[..13]);
    var r1 := SynthesisBlock(r0.memory, c[1], d[13..][..14]);
    var r2 := SynthesisBlock(r1.memory, c[2], d[13..][14..][..13]);
    var r3 := SynthesisBlock(r2.memory, c[3], d[13..][14..][13..]);
    m := [v, r0.memory, r1.memory, r2.memory, r3.memory];
    SlicesOfFrame(d);
    assert d[40..160][..120] == d[40..160] && d[40..160][120..] == [];
    assert SynthesisSegments(r3.memory, prev, cur, [], 4) == Filtered(r3.memory, []);
    assert SynthesisSegments(r2.memory, prev, cur, d[40..160], 3) == Filtered(r3.memory, r3.out + []);
    assert SynthesisSegments(r1.memory, prev, cur, d[13..][14..], 2) == Filtered(r3.memory, r2.out + (r3.out + []));
    assert SynthesisSegments(r0.memory, prev, cur, d[13..], 1) == Filtered(r3.memory, r1.out + (r2.out + (r3.out + [])));
    JoinOfFrame(r0.out, r1.out, r2.out, r3.out);
  }

  lemma SegmentSets(prev: Memory, cur: Memory) returns (c: seq<Memory>)
    ensures FourSets(c, prev, cur)
    ensures c == [SegmentRp(prev, cur, 0), SegmentRp(prev, cur, 1), SegmentRp(prev, cur, 2), SegmentRp(prev, cur, 3)]
  {
    hide CoefficientsOf, SegmentRp, LarpToRp;
    c := [SegmentRp(prev, cur, 0), SegmentRp(prev, cur, 1), SegmentRp(prev, cur, 2), SegmentRp(prev, cur, 3)];
    SegmentIsMean(prev, cur, 0);
    SegmentIsMean(prev, cur, 1);
    SegmentIsMean(prev, cur, 2);
    SegmentIsMean(prev, cur, 3);
    LastSegmentIsCurrent(prev, cur, c[3]);
  }

  lemma SlicesOfFrame<T>(s: seq<T>)
    requires |s| == 160
    ensures s[..13] == s[0..13] && s[13..][..14] == s[13..27] && s[13..][14..][..13] == s[27..40] && s[13..][14..][13..] == s[40..160]
  {
  }

  lemma JoinOfFrame<T>(a: seq<T>, b: seq<T>, c: seq<T>, d: seq<T>)
    requires |a| == 13 && |b| == 14 && |c| == 13 && |d| == 120
    ensures var s := a + (b + (c + (d + []))); s[0..13] == a && s[13..27] == b && s[27..40] == c && s[40..160] == d
  {
  }

  /** One frame of the encoder's filter: it goes on from the memory and the ratios that the
      frame before it left, and leaves its own. */
  lemma AnalysisFrameIs(st: FilterState, f: Frame) returns (m: seq<Memory>, c: seq<Memory>)
    ensures |m| == 5 && m[0] == st.memory && FourSets(c, st.prevLar, DecodeLars(f.larc))
    ensures var r := AnalysisFrame(st, f);
            && r.state == FilterState(m[4], DecodeLars(f.larc)) && r.frame.larc == f.larc
            && Filtered(m[1], r.frame.samples[0..13]) == AnalysisBlock(m[0], c[0], f.samples[0..13])
            && Filtered(m[2], r.frame.samples[13..27]) == AnalysisBlock(m[1], c[1], f.samples[13..27])
            && Filtered(m[3], r.frame.samples[27..40]) == AnalysisBlock(m[2], c[2], f.samples[27..40])
            && Filtered(m[4], r.frame.samples[40..160]) == AnalysisBlock(m[3], c[3], f.samples[40..160])
  {
    hide AnalysisBlock, AnalysisSegments, FourSets;
    m, c := AnalysisIsFourBlocks(st.memory, st.prevLar, DecodeLars(f.larc), f.samples);
  }

  lemma SynthesisFrameIs(st: FilterState, f: Frame) returns (m: seq<Memory>, c: seq<Memory>)
    ensures |m| == 5 && m[0] == st.memory && FourSets(c, st.prevLar, DecodeLars(f.larc))
    ensures var r := SynthesisFrame(st, f);
            && r.state == FilterState(m[4], DecodeLars(f.larc)) && r.frame.larc == f.larc
            && Filtered(m[1], r.frame.samples[0..13]) == SynthesisBlock(m[0], c[0], f.samples[0..13])
            && Filtered(m[2], r.frame.samples[13..27]) == SynthesisBlock(m[1], c[1], f.samples[13..27])
            && Filtered(m[3], r.frame.samples[27..40]) == SynthesisBlock(m[2], c[2], f.samples[27..40])
            && Filtered(m[4], r.frame.samples[40..160]) == SynthesisBlock(m[3], c[3], f.samples[40..160])
  {
    hide SynthesisBlock, SynthesisSegments, FourSets;
    m, c := SynthesisIsFourBlocks(st.memory, st.prevLar, DecodeLars(f.larc), f.samples);
  }

  predicate AnalysisSegmentsFit(u: Memory, prev: Memory, cur: Memory, s: seq<word>, segment: nat)
    requires segment <= 4 && |s| == 160 - CUT[segment]
    decreases 4 - segment
  {
    segment == 4 ||
    var n := CUT[segment + 1] - CUT[segment];
    var rp := SegmentRp(prev, cur, segment);
    && AnalysisBlockFits(u, rp, s[..n])
    && AnalysisSegmentsFit(AnalysisBlock(u, rp, s[..n]).memory, prev, cur, s[n..], segment + 1)
  }

  predicate SynthesisSegmentsFit(v: Memory, prev: Memory, cur: Memory, d: seq<word>, segment: nat)
    requires segment <= 4 && |d| == 160 - CUT[segment]
    decreases 4 - segment
  {
    segment == 4 ||
    var n := CUT[segment + 1] - CUT[segment];
    var rp := SegmentRp(prev, cur, segment);
    && SynthesisBlockFits(v, rp, d[..n])
    && SynthesisSegmentsFit(SynthesisBlock(v, rp, d[..n]).memory, prev, cur, d[n..], segment + 1)
  }

  lemma {:induction false} SegmentsInverse(u: Memory, prev: Memory, cur: Memory, s: seq<word>, segment: nat)
    requires segment <= 4 && |s| == 160 - CUT[segment]
    requires AnalysisSegmentsFit(u, prev, cur, s, segment)
    ensures var a := AnalysisSegments(u, prev, cur, s, segment);
            SynthesisSegments(u, prev, cur, a.out, segment) == Filtered(a.memory, s)
    decreases 4 - segment
  {
    hide AnalysisBlock, SynthesisBlock, AnalysisBlockFits, SynthesisBlockFits, SegmentRp;
    if segment < 4 {
      var n := CUT[segment + 1] - CUT[segment];
      var rp := SegmentRp(prev, cur, segment);
      BlockInverse(u, rp, s[..n]);
      var first := AnalysisBlock(u, rp, s[..n]);
      SegmentsInverse(first.memory, prev, cur, s[n..], segment + 1);
      var rest := AnalysisSegments(first.memory, prev, cur, s[n..], segment + 1);
      JoinSplit(first.out, rest.out);
      SplitJoin(s, n);
    }
  }

  lemma {:induction false} SegmentsInverseBack(v: Memory, prev: Memory, cur: Memory, d: seq<word>, segment: nat)
    requires segment <= 4 && |d| == 160 - CUT[segment]
    requires SynthesisSegmentsFit(v, prev, cur, d, segment)
    ensures var a := SynthesisSegments(v, prev, cur, d, segment);
            AnalysisSegments(v, prev, cur, a.out, segment) == Filtered(a.memory, d)
    decreases 4 - segment
  {
    hide AnalysisBlock, SynthesisBlock, AnalysisBlockFits, SynthesisBlockFits, SegmentRp;
    if segment < 4 {
      var n := CUT[segment + 1] - CUT[segment];
      var rp := SegmentRp(prev, cur, segment);
      BlockInverseBack(v, rp, d[..n]);
      var first := SynthesisBlock(v, rp, d[..n]);
      SegmentsInverseBack(first.memory, prev, cur, d[n..], segment + 1);
      var rest := SynthesisSegments(first.memory, prev, cur, d[n..], segment + 1);
      JoinSplit(first.out, rest.out);
      SplitJoin(d, n);
    }
  }

  /** The state after one frame, with the frame put out; and the same for a run. */
  datatype Step = Step(state: FilterState, frame: Frame)
  datatype Run = Run(state: FilterState, frames: seq<Frame>)

  function AnalysisFrame(st: FilterState, f: Frame): Step {
    var cur := DecodeLars(f.larc);
    var r := AnalysisSegments(st.memory, st.prevLar, cur, f.samples, 0);
    Step(FilterState(r.memory, cur), Frame(f.larc, r.out))
  }

  predicate AnalysisFrameFits(st: FilterState, f: Frame) {
    AnalysisSegmentsFit(st.memory, st.prevLar, DecodeLars(f.larc), f.samples, 0)
  }

  function AnalysisRun(st: FilterState, fs: seq<Frame>): Run
    decreases |fs|
  {
    if fs == [] then Run(st, [])
    else
      var first := AnalysisFrame(st, fs[0]);
      var rest := AnalysisRun(first.state, fs[1..]);
      Run(rest.state, [first.frame] + rest.frames)
  }

  predicate AnalysisRunFits(st: FilterState, fs: seq<Frame>)
    decreases |fs|
  {
    fs == [] || (AnalysisFrameFits(st, fs[0]) && AnalysisRunFits(AnalysisFrame(st, fs[0]).state, fs[1..]))
  }

  lemma AnalysisRunCons(st: FilterState, f: Frame, rest: seq<Frame>)
    ensures var first := AnalysisFrame(st, f);
            var r := AnalysisRun(first.state, rest);
            AnalysisRun(st, [f] + rest) == Run(r.state, [first.frame] + r.frames)
  {
    assert ([f] + rest)[1..] == rest;
  }

  function SynthesisFrame(st: FilterState, f: Frame): Step {
    var cur := DecodeLars(f.larc);
    var r := SynthesisSegments(st.memory, st.prevLar, cur, f.samples, 0);
    Step(FilterState(r.memory, cur), Frame(f.larc, r.out))
  }

  predicate SynthesisFrameFits(st: FilterState, f: Frame) {
    SynthesisSegmentsFit(st.memory, st.prevLar, DecodeLars(f.larc), f.samples, 0)
  }

  function SynthesisRun(st: FilterState, fs: seq<Frame>): Run
    decreases |fs|
  {
    if fs == [] then Run(st, [])
    else
      var first := SynthesisFrame(st, fs[0]);
      var rest := SynthesisRun(first.state, fs[1..]);
      Run(rest.state, [first.frame] + rest.frames)
  }

  predicate SynthesisRunFits(st: FilterState, fs: seq<Frame>)
    decreases |fs|
  {
    fs == [] || (SynthesisFrameFits(st, fs[0]) && SynthesisRunFits(SynthesisFrame(st, fs[0]).state, fs[1..]))
  }

  lemma SynthesisRunCons(st: FilterState, f: Frame, rest: seq<Frame>)
    ensures var first := SynthesisFrame(st, f);
            var r := SynthesisRun(first.state, rest);
            SynthesisRun(st, [f] + rest) == Run(r.state, [first.frame] + r.frames)
  {
    assert ([f] + rest)[1..] == rest;
  }

  lemma FrameInverse(st: FilterState, f: Frame)
    requires AnalysisFrameFits(st, f)
    ensures var r := AnalysisFrame(st, f);
            SynthesisFrame(st, r.frame) == Step(r.state, f)
  {
    SegmentsInverse(st.memory, st.prevLar, DecodeLars(f.larc), f.samples, 0);
  }

  /** Over any number of frames the decoder's filter returns exactly the samples the
      encoder's filter was given, and the two memories stay equal. */
  lemma {:induction false} RunInverse(st: FilterState, fs: seq<Frame>)
    requires AnalysisRunFits(st, fs)
    ensures var r := AnalysisRun(st, fs);
            SynthesisRun(st, r.frames) == Run(r.state, fs)
    decreases |fs|
  {
    if fs != [] {
      var first := AnalysisFrame(st, fs[0]);
      FrameInverse(st, fs[0]);
      RunInverse(first.state, fs[1..]);
      SynthesisRunCons(st, first.frame, AnalysisRun(first.state, fs[1..]).frames);
      HeadTail(fs);
    }
  }

  lemma FrameInverseBack(st: FilterState, f: Frame)
    requires SynthesisFrameFits(st, f)
    ensures var r := SynthesisFrame(st, f);
            AnalysisFrame(st, r.frame) == Step(r.state, f)
  {
    SegmentsInverseBack(st.memory, st.prevLar, DecodeLars(f.larc), f.samples, 0);
  }

  /** The other direction: filtering the decoder's output again gives back the residual. */
  lemma {:induction false} RunInverseBack(st: FilterState, fs: seq<Frame>)
    requires SynthesisRunFits(st, fs)
    ensures var r := SynthesisRun(st, fs);
            AnalysisRun(st, r.frames) == Run(r.state, fs)
    decreases |fs|
  {
    if fs != [] {
      var first := SynthesisFrame(st, fs[0]);
      FrameInverseBack(st, fs[0]);
      RunInverseBack(first.state, fs[1..]);
      AnalysisRunCons(st, first.frame, SynthesisRun(first.state, fs[1..]).frames);
      HeadTail(fs);
    }
  }

  /** Between two frames both filters hold the ratios of the frame sent last: those are what
      the next frame interpolates from. */
  lemma RatiosOfLastFrame(st: FilterState, fs: seq<Frame>)
    requires fs != []
    ensures AnalysisRun(st, fs).state.prevLar == SynthesisRun(st, fs).state.prevLar == DecodeLars(fs[|fs| - 1].larc)
  {
    hide AnalysisSegments, SynthesisSegments, DecodeLars;
    RatiosOfLastFrames(AnalysisFrame(st, fs[0]).state, SynthesisFrame(st, fs[0]).state, fs[1..]);
  }

  lemma {:induction false} RatiosOfLastFrames(a: FilterState, b: FilterState, fs: seq<Frame>)
    requires a.prevLar == b.prevLar
    ensures AnalysisRun(a, fs).state.prevLar == SynthesisRun(b, fs).state.prevLar
            == if fs == [] then a.prevLar else DecodeLars(fs[|fs| - 1].larc)
    decreases |fs|
  {
    hide AnalysisSegments, SynthesisSegments, DecodeLars;
    if fs != [] {
      RatiosOfLastFrames(AnalysisFrame(a, fs[0]).state, SynthesisFrame(b, fs[0]).state, fs[1..]);
    }
  }

  // ------------------------------------------------------------------ the loops of the source

  /** The eight stages of the inner analysis loop. */
  method AnalyseInPlace(u: array<word>, rp: array<word>, s: word) returns (di: word)
    requires u.Length == 8 && rp.Length == 8 && u != rp
    modifies u
    ensures Sample(u[..], di) == AnalysisSample(old(u[..]), rp[..], s)
  {
    hide MultR, Add;
    var sav := s;
    di := s;
    ghost var u0, rp0 := u[..], rp[..];
    ghost var whole := Analyse(u0, rp0, s, s);
    for i := 0 to 8
      invariant u[i..] == u0[i..]
      invariant var rest := Analyse(u0[i..], rp0[i..], di, sav);
                whole == Stage(u[..i] + rest.memory, rest.out)
    {
      DropHead(u0, i);
      DropHead(rp0, i);
      ghost var done := u[..i];
      var ui := u[i];
      var rpi := rp[i];
      assert ui == u0[i];
      u[i] := sav;
      assert u[..i + 1] == done + [sav] && u[i + 1..] == u0[i + 1..];
      var zzz := MultR(rpi, di);
      sav := Add(ui, zzz);
      zzz := MultR(rpi, ui);
      di := Add(di, zzz);
      Associative(done, [u[i]], Analyse(u0[i + 1..], rp0[i + 1..], di, sav).memory);
    }
    assert whole.memory[..8] == u[..];
  }

  /** Short_term_analysis_filtering: k_n samples of s from start on are replaced by their residual. */
  method ShortTermAnalysisFiltering(S: GsmState, rp: array<word>, k_n: nat, s: array<word>, start: nat)
    requires S.Valid() && rp.Length == 8 && start + k_n <= s.Length
    requires rp != S.u && s != S.u && s != rp
    modifies S.u, s
    ensures Filtered(S.u[..], s[start..start + k_n])
            == AnalysisBlock(old(S.u[..]), rp[..], old(s[start..start + k_n]))
    ensures s[..start] == old(s[..start]) && s[start + k_n..] == old(s[start + k_n..])
  {
    hide AnalysisSample, AnalysisBlock;
    ghost var u0, rp0, s0 := S.u[..], rp[..], s[..];
    ghost var input := s0[start..start + k_n];
    for k := 0 to k_n
      invariant s[..start] == s0[..start] && s[start + k..] == s0[start + k..]
      invariant var rest := AnalysisBlock(S.u[..], rp0, input[k..]);
                AnalysisBlock(u0, rp0, input) == Filtered(rest.memory, s[start..start + k] + rest.out)
    {
      AnalysisBlockHead(S.u[..], rp0, input, k);
      ghost var done := s[start..start + k];
      assert s[start + k] == s0[start + k..][0] == input[k];
      var di := AnalyseInPlace(S.u, rp, s[start + k]);
      s[start + k] := di;
      assert s[start..start + k + 1] == done + [di];
      Associative(done, [di], AnalysisBlock(S.u[..], rp0, input[k + 1..]).out);
    }
    assert input[k_n..] == [];
    AnalysisBlockEnd(S.u[..], rp0);
  }

  /** The eight stages of the inner synthesis loop; v[8] receives a word nothing reads. */
  method SynthesiseInPlace(v: array<word>, rrp: array<word>, wt: word) returns (sri: word)
    requires v.Length == 9 && rrp.Length == 8 && v != rrp
    modifies v
    ensures Sample(v[..8], sri) == SynthesisSample(old(v[..8]), rrp[..], wt)
    ensures v[1..] == Synthesise(old(v[..8]), rrp[..], wt).memory
  {
    hide MultRSat, Add, Sub, Synthesise;
    sri := wt;
    ghost var v0, rrp0 := v[..8], rrp[..];
    NoStages(wt);
    assert v0[8..] == [] && rrp0[8..] == [];
    for i := 8 downto 0
      invariant v[..i] == v0[..i]
      invariant Synthesise(v0[i..], rrp0[i..], wt) == Stage(v[i + 1..], sri)
    {
      OneStage(v0, rrp0, i, wt);
      ghost var w := v[..];
      assert w[i] == w[..i + 1][i] == v0[i];
      var tmp1, tmp2 := rrp[i], v[i];
      sri := Sub(sri, MultRSat(tmp1, tmp2));
      v[i + 1] := Add(v[i], MultRSat(tmp1, sri));
      UpdateTail(w, v[..], i + 1, v[i + 1]);
      assert v[..i] == w[..i + 1][..i];
    }
    ghost var w := v[..];
    v[0] := sri;
    assert v[..8] == [sri] + w[1..][..7] && v[1..] == w[1..];
    SynthesisSampleIs(v0, rrp0, wt);
    assert v0[0..] == v0 && rrp0[0..] == rrp0;
  }

  lemma UpdateTail<T>(w: seq<T>, w': seq<T>, i: nat, x: T)
    requires i < |w| && w' == w[i := x]
    ensures w'[i..] == [x] + w[i + 1..] && w'[..i] == w[..i]
  {
  }

  lemma NoStages(d: word)
    ensures Synthesise([], [], d) == Stage([], d)
  {
  }

  lemma OneStage(v: seq<word>, rrp: seq<word>, i: nat, d: word)
    requires i < |v| == |rrp|
    ensures var rest := Synthesise(v[i + 1..], rrp[i + 1..], d);
            var sri := Sub(rest.out, MultRSat(rrp[i], v[i]));
            Synthesise(v[i..], rrp[i..], d) == Stage([Add(v[i], MultRSat(rrp[i], sri))] + rest.memory, sri)
  {
    hide MultRSat, Add, Sub;
    DropHead(v, i);
    DropHead(rrp, i);
  }

  lemma SynthesisSampleIs(v: Memory, rrp: Memory, d: word)
    ensures var b := Synthesise(v, rrp, d); SynthesisSample(v, rrp, d) == Sample([b.out] + b.memory[..7], b.out)
  {
  }

  /** Short_term_synthesis_filtering: k samples of wt become k samples of sr. */
  method ShortTermSynthesisFiltering(S: GsmState, rrp: array<word>, k: nat, wt: array<word>, sr: array<word>, start: nat)
    requires S.Valid() && rrp.Length == 8 && start + k <= wt.Length && start + k <= sr.Length
    requires rrp != S.v && sr != S.v && sr != rrp && wt != S.v && wt != sr
    modifies S.v, sr
    ensures Filtered(S.v[..8], sr[start..start + k])
            == SynthesisBlock(old(S.v[..8]), rrp[..], wt[start..start + k])
    ensures sr[..start] == old(sr[..start]) && sr[start + k..] == old(sr[start + k..])
  {
    hide SynthesisSample, SynthesisBlock;
    ghost var v0, rrp0, sr0 := S.v[..8], rrp[..], sr[..];
    ghost var input := wt[start..start + k];
    for n := 0 to k
      invariant sr[..start] == sr0[..start] && sr[start + n..] == sr0[start + n..]
      invariant var rest := SynthesisBlock(S.v[..8], rrp0, input[n..]);
                SynthesisBlock(v0, rrp0, input) == Filtered(rest.memory, sr[start..start + n] + rest.out)
    {
      SynthesisBlockHead(S.v[..8], rrp0, input, n);
      ghost var done := sr[start..start + n];
      var sri := SynthesiseInPlace(S.v, rrp, wt[start + n]);
      sr[start + n] := sri;
      assert sr[start..start + n + 1] == done + [sri];
      Associative(done, [sri], SynthesisBlock(S.v[..8], rrp0, input[n + 1..]).out);
    }
    assert input[k..] == [];
    SynthesisBlockEnd(S.v[..8], rrp0);
  }

  /** STEP of Decoding_of_the_coded_Log_Area_Ratios, once for each of the eight ratios. */
  method DecodingOfTheCodedLogAreaRatios(LARc: array<word>, LARpp: array<word>)
    requires LARc.Length == 8 && LARpp.Length == 8 && LARc != LARpp
    modifies LARpp
    ensures LARpp[..] == DecodeLars(LARc[..])
  {
    for i := 0 to 8
      invariant forall k :: 0 <= k < i ==> LARpp[k] == DecodeLar(LARc[k], k)
    {
      var temp1 := Wrap16(Add(LARc[i], MIC[i]) as int * 1024);
      temp1 := Sub(temp1, B[i] * 2);
      temp1 := MultR(INVA[i], temp1);
      LARpp[i] := Add(temp1, temp1);
    }
  }

  method Coefficients0To12(prev: array<word>, cur: array<word>, LARp: array<word>)
    requires prev.Length == cur.Length == LARp.Length == 8 && LARp != prev && LARp != cur
    modifies LARp
    ensures LARp[..] == Interpolated(prev[..], cur[..], 0)
  {
    for i := 0 to 8
      invariant forall k :: 0 <= k < i ==> LARp[k] == Interpolate(prev[k], cur[k], 0)
    {
      LARp[i] := Add(ShiftRight(prev[i], 2), ShiftRight(cur[i], 2));
      LARp[i] := Add(LARp[i], ShiftRight(prev[i], 1));
    }
  }

  method Coefficients13To26(prev: array<word>, cur: array<word>, LARp: array<word>)
    requires prev.Length == cur.Length == LARp.Length == 8 && LARp != prev && LARp != cur
    modifies LARp
    ensures LARp[..] == Interpolated(prev[..], cur[..], 1)
  {
    for i := 0 to 8
      invariant forall k :: 0 <= k < i ==> LARp[k] == Interpolate(prev[k], cur[k], 1)
    {
      LARp[i] := Add(ShiftRight(prev[i], 1), ShiftRight(cur[i], 1));
    }
  }

  method Coefficients27To39(prev: array<word>, cur: array<word>, LARp: array<word>)
    requires prev.Length == cur.Length == LARp.Length == 8 && LARp != prev && LARp != cur
    modifies LARp
    ensures LARp[..] == Interpolated(prev[..], cur[..], 2)
  {
    for i := 0 to 8
      invariant forall k :: 0 <= k < i ==> LARp[k] == Interpolate(prev[k], cur[k], 2)
    {
      LARp[i] := Add(ShiftRight(prev[i], 2), ShiftRight(cur[i], 2));
      LARp[i] := Add(LARp[i], ShiftRight(cur[i], 1));
    }
  }

  method Coefficients40To159(cur: array<word>, LARp: array<word>)
    requires cur.Length == LARp.Length == 8 && LARp != cur
    modifies LARp
    ensures LARp[..] == cur[..]
  {
    for i := 0 to 8
      invariant LARp[..i] == cur[..i]
    {
      LARp[i] := cur[i];
    }
  }

  method LarpToRpInPlace(LARp: array<word>)
    requires LARp.Length == 8
    modifies LARp
    ensures LARp[..] == ReflectionCoefficients(old(LARp[..]))
  {
    for i := 0 to 8
      invariant forall k :: i <= k < 8 ==> LARp[k] == old(LARp[k])
      invariant forall k :: 0 <= k < i ==> LARp[k] == LarpToRp(old(LARp[k]))
    {
      var temp;
      if LARp[i] < 0 {
        temp := if LARp[i] == MIN_WORD then MAX_WORD else -LARp[i];
        LARp[i] := -(if temp < 11059 then temp * 2 else if temp < 20070 then temp + 11059 else Add(temp / 4, 26112));
      } else {
        temp := LARp[i];
        LARp[i] := if temp < 11059 then temp * 2 else if temp < 20070 then temp + 11059 else Add(temp / 4, 26112);
      }
    }
  }

  /** The value of an encoder's short-term state. */
  ghost function EncoderFilter(S: GsmState): FilterState
    requires S.Valid()
    reads S, S.Buffers()
  {
    FilterState(S.u[..], S.OtherBank()[..])
  }

  /** The value of a decoder's short-term state. */
  ghost function DecoderFilter(S: GsmState): FilterState
    requires S.Valid()
    reads S, S.Buffers()
  {
    FilterState(S.v[..8], S.OtherBank()[..])
  }

  /** The reflection coefficients of one of the four segments of a frame. */
  method SegmentCoefficients(prev: array<word>, cur: array<word>, LARp: array<word>, segment: nat)
    requires prev.Length == cur.Length == LARp.Length == 8 && LARp != prev && LARp != cur && segment < 4
    modifies LARp
    ensures LARp[..] == SegmentRp(prev[..], cur[..], segment)
    ensures CoefficientsOf(LARp[..], prev[..], cur[..], segment)
  {
    SegmentIsMean(prev[..], cur[..], segment);
    match segment {
      case 0 => Coefficients0To12(prev, cur, LARp);
      case 1 => Coefficients13To26(prev, cur, LARp);
      case 2 => Coefficients27To39(prev, cur, LARp);
      case 3 =>
        Coefficients40To159(cur, LARp);
        assert LARp[..] == Interpolated(prev[..], cur[..], 3);
    }
    LarpToRpInPlace(LARp);
  }

  /** What four successive updates of a frame leave of one another. */
  lemma FrameSlices<T>(s0: seq<T>, s1: seq<T>, s2: seq<T>, s3: seq<T>, s4: seq<T>)
    requires |s0| == |s1| == |s2| == |s3| == |s4| == 160
    requires s1[13..] == s0[13..]
    requires s2[..13] == s1[..13] && s2[27..] == s1[27..]
    requires s3[..27] == s2[..27] && s3[40..] == s2[40..]
    requires s4[..40] == s3[..40]
    ensures s1[13..27] == s0[13..27] && s2[27..40] == s0[27..40] && s3[40..160] == s0[40..160]
    ensures s4 == s1[0..13] + (s2[13..27] + (s3[27..40] + (s4[40..160] + [])))
  {
    assert s1[13..27] == s1[13..][..14] && s0[13..27] == s0[13..][..14];
    assert s2[27..40] == s1[27..][..13] && s1[27..] == s1[13..][14..] == s0[27..];
    assert s3[40..160] == s2[40..] && s2[40..] == s2[27..][13..] && s1[27..][13..] == s0[40..];
    assert s4[..40] == s3[..40] && s3[..27] == s2[..27] && s2[..13] == s1[..13];
    assert s4 == s4[..40] + s4[40..160];
    assert s3[..40] == s3[..27] + s3[27..40];
    assert s2[..27] == s2[..13] + s2[13..27];
  }

  /** Four blocks filtered one after the other make a frame. */
  lemma AnalysisOfFourBlocks(u0: Memory, u1: Memory, u2: Memory, u3: Memory, u4: Memory, prev: Memory, cur: Memory,
                              s0: Block, s1: Block, s2: Block, s3: Block, s4: Block)
    requires Filtered(u1, s1[0..13]) == AnalysisBlock(u0, SegmentRp(prev, cur, 0), s0[0..13])
    requires s1[13..] == s0[13..]
    requires Filtered(u2, s2[13..27]) == AnalysisBlock(u1, SegmentRp(prev, cur, 1), s1[13..27])
    requires s2[..13] == s1[..13] && s2[27..] == s1[27..]
    requires Filtered(u3, s3[27..40]) == AnalysisBlock(u2, SegmentRp(prev, cur, 2), s2[27..40])
    requires s3[..27] == s2[..27] && s3[40..] == s2[40..]
    requires Filtered(u4, s4[40..160]) == AnalysisBlock(u3, SegmentRp(prev, cur, 3), s3[40..160])
    requires s4[..40] == s3[..40] && s4[160..] == s3[160..]
    ensures AnalysisSegments(u0, prev, cur, s0, 0) == Filtered(u4, s4)
  {
    hide AnalysisBlock, SynthesisBlock, SegmentRp;
    FrameSlices(s0, s1, s2, s3, s4);
    assert s0[..13] == s0[0..13] && s0[13..][..14] == s0[13..27] && s0[27..][..13] == s0[27..40] && s0[40..][..120] == s0[40..160];
    assert s0[13..][14..] == s0[27..] && s0[27..][13..] == s0[40..] && s0[40..][120..] == [];
    assert AnalysisSegments(u4, prev, cur, [], 4) == Filtered(u4, []);
    assert AnalysisSegments(u3, prev, cur, s0[40..], 3) == Filtered(u4, s4[40..160] + []);
    assert AnalysisSegments(u2, prev, cur, s0[27..], 2) == Filtered(u4, s3[27..40] + (s4[40..160] + []));
    assert AnalysisSegments(u1, prev, cur, s0[13..], 1) == Filtered(u4, s2[13..27] + (s3[27..40] + (s4[40..160] + [])));
  }

  lemma SynthesisOfFourBlocks(v0: Memory, v1: Memory, v2: Memory, v3: Memory, v4: Memory, prev: Memory, cur: Memory,
                              d: Block, s0: Block, s1: Block, s2: Block, s3: Block, s4: Block)
    requires Filtered(v1, s1[0..13]) == SynthesisBlock(v0, SegmentRp(prev, cur, 0), d[0..13])
    requires s1[13..] == s0[13..]
    requires Filtered(v2, s2[13..27]) == SynthesisBlock(v1, SegmentRp(prev, cur, 1), d[13..27])
    requires s2[..13] == s1[..13] && s2[27..] == s1[27..]
    requires Filtered(v3, s3[27..40]) == SynthesisBlock(v2, SegmentRp(prev, cur, 2), d[27..40])
    requires s3[..27] == s2[..27] && s3[40..] == s2[40..]
    requires Filtered(v4, s4[40..160]) == SynthesisBlock(v3, SegmentRp(prev, cur, 3), d[40..160])
    requires s4[..40] == s3[..40] && s4[160..] == s3[160..]
    ensures SynthesisSegments(v0, prev, cur, d, 0) == Filtered(v4, s4)
  {
    hide AnalysisBlock, SynthesisBlock, SegmentRp;
    FrameSlices(s0, s1, s2, s3, s4);
    assert d[..13] == d[0..13] && d[13..][..14] == d[13..27] && d[27..][..13] == d[27..40] && d[40..][..120] == d[40..160];
    assert d[13..][14..] == d[27..] && d[27..][13..] == d[40..] && d[40..][120..] == [];
    assert SynthesisSegments(v4, prev, cur, [], 4) == Filtered(v4, []);
    assert SynthesisSegments(v3, prev, cur, d[40..], 3) == Filtered(v4, s4[40..160] + []);
    assert SynthesisSegments(v2, prev, cur, d[27..], 2) == Filtered(v4, s3[27..40] + (s4[40..160] + []));
    assert SynthesisSegments(v1, prev, cur, d[13..], 1) == Filtered(v4, s2[13..27] + (s3[27..40] + (s4[40..160] + [])));
  }

  method AnalysisSegmentsInPlace(S: GsmState, prev: array<word>, cur: array<word>, s: array<word>)
    requires S.Valid() && prev.Length == cur.Length == 8 && s.Length == 160
    requires S.u != prev && S.u != cur && s != S.u && s != prev && s != cur
    modifies S.u, s
    ensures Filtered(S.u[..], s[..]) == AnalysisSegments(old(S.u[..]), prev[..], cur[..], old(s[..]), 0)
  {
    hide AnalysisBlock, SynthesisBlock, SegmentRp, AnalysisSegments, SynthesisSegments;
    var LARp := new word[8];
    ghost var u0, s0 := S.u[..], s[..];
    SegmentCoefficients(prev, cur, LARp, 0);
    ShortTermAnalysisFiltering(S, LARp, 13, s, 0);
    ghost var u1, s1 := S.u[..], s[..];

    SegmentCoefficients(prev, cur, LARp, 1);
    ShortTermAnalysisFiltering(S, LARp, 14, s, 13);
    ghost var u2, s2 := S.u[..], s[..];

    SegmentCoefficients(prev, cur, LARp, 2);
    ShortTermAnalysisFiltering(S, LARp, 13, s, 27);
    ghost var u3, s3 := S.u[..], s[..];

    SegmentCoefficients(prev, cur, LARp, 3);
    ShortTermAnalysisFiltering(S, LARp, 120, s, 40);
    AnalysisOfFourBlocks(u0, u1, u2, u3, S.u[..], prev[..], cur[..], s0, s1, s2, s3, s[..]);
  }

  /** Coefficients of the decoded ratios of one frame, and of nothing else. */
  ghost predicate OwnRatios(rp: Memory, larc: Memory) {
    forall i :: 0 <= i < 8 ==> rp[i] == LarpToRp(DecodeLar(larc[i], i))
  }

  method GsmShortTermAnalysisFilter(S: GsmState, LARc: array<word>, s: array<word>)
    requires S.Valid() && LARc.Length == 8 && s.Length == 160
    requires LARc !in S.Buffers() && s !in S.Buffers() && LARc != s
    modifies S`j, S.u, S.LARpp0, S.LARpp1, s
    ensures S.Valid()
    ensures Step(EncoderFilter(S), Frame(LARc[..], s[..]))
            == AnalysisFrame(old(EncoderFilter(S)), Frame(LARc[..], old(s[..])))
    ensures exists u, rp: Memory ::
              OwnRatios(rp, LARc[..]) && Filtered(S.u[..], s[40..160]) == AnalysisBlock(u, rp, old(s[40..160]))
  {
    hide AnalysisBlock, AnalysisSegments, DecodeLar, LarpToRp;
    ghost var st, s0 := EncoderFilter(S), s[..];
    ghost var m, c := AnalysisIsFourBlocks(st.memory, st.prevLar, DecodeLars(LARc[..]), s0);
    var LARpp_j := S.Bank();
    S.j := 1 - S.j;
    var LARpp_j_1 := S.Bank();
    DecodingOfTheCodedLogAreaRatios(LARc, LARpp_j);
    AnalysisSegmentsInPlace(S, LARpp_j_1, LARpp_j, s);
    assert OwnRatios(c[3], LARc[..]) && Filtered(S.u[..], s[40..160]) == AnalysisBlock(m[3], c[3], s0[40..160]);
  }

  method SynthesisSegmentsInPlace(S: GsmState, prev: array<word>, cur: array<word>, wt: array<word>, s: array<word>)
    requires S.Valid() && prev.Length == cur.Length == 8 && s.Length == wt.Length == 160
    requires S.v != prev && S.v != cur && s != S.v && s != prev && s != cur && wt != S.v && wt != s
    modifies S.v, s
    ensures Filtered(S.v[..8], s[..]) == SynthesisSegments(old(S.v[..8]), prev[..], cur[..], wt[..], 0)
  {
    hide AnalysisBlock, SynthesisBlock, SegmentRp, AnalysisSegments, SynthesisSegments;
    var LARp := new word[8];
    ghost var v0, s0 := S.v[..8], s[..];
    SegmentCoefficients(prev, cur, LARp, 0);
    ShortTermSynthesisFiltering(S, LARp, 13, wt, s, 0);
    ghost var v1, s1 := S.v[..8], s[..];

    SegmentCoefficients(prev, cur, LARp, 1);
    ShortTermSynthesisFiltering(S, LARp, 14, wt, s, 13);
    ghost var v2, s2 := S.v[..8], s[..];

    SegmentCoefficients(prev, cur, LARp, 2);
    ShortTermSynthesisFiltering(S, LARp, 13, wt, s, 27);
    ghost var v3, s3 := S.v[..8], s[..];

    SegmentCoefficients(prev, cur, LARp, 3);
    ShortTermSynthesisFiltering(S, LARp, 120, wt, s, 40);
    SynthesisOfFourBlocks(v0, v1, v2, v3, S.v[..8], prev[..], cur[..], wt[..], s0, s1, s2, s3, s[..]);
  }

  method GsmShortTermSynthesisFilter(S: GsmState, LARcr: array<word>, wt: array<word>, s: array<word>)
    requires S.Valid() && LARcr.Length == 8 && s.Length == wt.Length == 160
    requires LARcr !in S.Buffers() && s !in S.Buffers() && LARcr != s && wt !in S.Buffers() && wt != s
    modifies S`j, S.v, S.LARpp0, S.LARpp1, s
    ensures S.Valid()
    ensures Step(DecoderFilter(S), Frame(LARcr[..], s[..]))
            == SynthesisFrame(old(DecoderFilter(S)), Frame(LARcr[..], wt[..]))
    ensures exists v, rp: Memory ::
              OwnRatios(rp, LARcr[..]) && Filtered(S.v[..8], s[40..160]) == SynthesisBlock(v, rp, wt[40..160])
  {
    hide SynthesisBlock, SynthesisSegments, DecodeLar, LarpToRp;
    ghost var st := DecoderFilter(S);
    ghost var m, c := SynthesisIsFourBlocks(st.memory, st.prevLar, DecodeLars(LARcr[..]), wt[..]);
    var LARpp_j := S.Bank();
    S.j := 1 - S.j;
    var LARpp_j_1 := S.Bank();
    DecodingOfTheCodedLogAreaRatios(LARcr, LARpp_j);
    SynthesisSegmentsInPlace(S, LARpp_j_1, LARpp_j, wt, s);
    assert OwnRatios(c[3], LARcr[..]) && Filtered(S.v[..8], s[40..160]) == SynthesisBlock(m[3], c[3], wt[40..160]);
  }
}