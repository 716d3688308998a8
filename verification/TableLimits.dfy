/**
 Where the index into the padded table of bit_allocate.c can go.

 The comment at lines 262-263 of the source gives the limits -156 and 147 and derives the
 second one from minpsd, fgain, deltba and snroffset.  It leaves out the term of dbknee,
 which lets an exponent far above the level of an earlier, loud band pull the mask down
 by up to 704 more, and it does not speak of the opening loop, which adds lowcomp.  Here
 both ends are derived from the code: a bound for each phase, and the exact conditions,
 over fields, exponents and leaks, under which a lookup leaves the table.
 */
module TableLimits {
  import opened BitAllocation
  import opened Powers
  import DA = DeltaAllocation
  import Ex = Exponents

  // ------------------------------------------------------------------ the mask alone

  /** The largest mask before the knee, in the negated domain, that takes the index of an
      exponent past 148. */
  function Reach(f: Fields, psd: int, i: nat, e: int): int
    requires ValidFields(f) && i < 50
  {
    var dbknee, floor := DBPBTAB[f.bai / 8 % 4], FLOORTAB[f.bai % 8];
    128 * (e + f.deltba[i]) + Max(psd - dbknee, 0) / 4 - 64 * f.csnroffst - 4 * (f.chbai / 8) - 3808 + floor % 32
  }

  predicate AllAtLeast(s: seq<int>, n: int) {
    forall k :: 0 <= k < |s| ==> s[k] >= n
  }

  /** The hearing thresholds are high enough never to decide about the upper end. */
  lemma HearingAtLeast(f: Fields, i: nat)
    requires ValidFields(f) && i < 50
    ensures ParamsOf(f).hth[HearingIndex(ParamsOf(f), i)] >= 960
  {
    assert AllAtLeast(HTH_48000, 960);
    assert AllAtLeast(HTH_44100, 960);
    assert AllAtLeast(HTH_32000, 960);
  }

  lemma AboveArith(m0: int, hth: int, floor: int, q: int, r: int, s: int, d: int, e: int, limit: int)
    requires floor == 32 * q + r && 0 <= q && 0 <= r <= 16 && s >= 0 && d <= 4 && e <= 24 && hth >= 960 && limit >= 112
    ensures var m2 := Min(m0, hth) - (960 - s + floor + 128 * d);
            (if m2 > 0 then 0 else (-m2) / 32) - q + 4 * e > limit
            <==> m0 <= 128 * (e + d) - s - 3808 + r + 32 * (148 - limit)
  {
  }

  lemma FloorParts(f: Fields)
    requires ValidFields(f)
    ensures var floor := ParamsOf(f).floor; floor == 32 * (floor / 32) + floor % 32 && 0 <= floor / 32 && floor % 32 <= 16
    ensures ParamsOf(f).floor == FLOORTAB[f.bai % 8] && ParamsOf(f).dbknee == DBPBTAB[f.bai / 8 % 4]
    ensures ParamsOf(f).snroffset == 960 - (64 * f.csnroffst + 4 * (f.chbai / 8)) + ParamsOf(f).floor
    ensures ParamsOf(f).deltba == f.deltba
  {
  }

  /** How the index compares with any limit from 112 on. */
  lemma IndexAboveIff(f: Fields, mask: int, psd: int, i: nat, e: int, limit: int)
    requires ValidFields(f) && i < 50 && e <= 24 && limit >= 112
    ensures ComputeMask(ParamsOf(f), mask, psd, i) + 4 * e > limit <==> mask <= Reach(f, psd, i, e) + 32 * (148 - limit)
  {
    var p := ParamsOf(f);
    HearingAtLeast(f, i);
    FloorParts(f);
    hide ParamsOf, HearingIndex;
    var m0 := if psd > p.dbknee then mask - (psd - p.dbknee) / 4 else mask;
    AboveArith(m0, p.hth[HearingIndex(p, i)], p.floor, p.floor / 32, p.floor % 32,
               64 * f.csnroffst + 4 * (f.chbai / 8), f.deltba[i], e, limit);
  }

  // ------------------------------------------------------------------ the leaks, in closed form

  /** The first bin that the opening loop does not take: from bin 3 on it stops where an
      exponent is not above the one before it, and at bin 7 in any case. */
  function OpeningEnd(ex: seq<int>): (n: nat)
    requires |ex| == 256
    ensures 3 <= n <= 7
  {
    if ex[3] <= ex[2] then 3 else if ex[4] <= ex[3] then 4 else if ex[5] <= ex[4] then 5
    else if ex[6] <= ex[5] then 6 else 7
  }

  lemma {:induction false} BegunIff(p: Params, ex: seq<int>, c: Channel, i: nat)
    requires ValidChannel(c) && InChannel(c, i) && |ex| == 256
    ensures RefBand(LeakageOf(p), ex, c, i).begun <==> c.start > 0 || i + 1 >= OpeningEnd(ex)
    decreases i
  {
    hide RefBand, BandStart, BandEnd, CalcLowcomp, Lo, Hi, RefBandPsd;
    PrevOf(p, ex, c, i);
    if i > c.bndstart {
      BegunIff(p, ex, c, i - 1);
    }
    if c.start == 0 && i < 7 {
      SinglePsd(ex, c, i);
    }
  }

  lemma SinglePsd(ex: seq<int>, c: Channel, i: nat)
    requires ValidChannel(c) && InChannel(c, i) && |ex| == 256 && c.start == 0 && i < 28
    ensures Lo(c, i) < Hi(c, i) <= 256 && RefBandPsd(ex, Lo(c, i), Hi(c, i)) == RefPsd(ex[i])
  {
    SingleBins(c, i);
  }

  /** The level of a band: its power in the negated domain, psd in the source. */
  function Level(ex: seq<int>, c: Channel, i: nat): int
    requires ValidChannel(c) && InChannel(c, i) && |ex| == 256
  {
    BandInside(c, i);
    3072 - RefBandPsd(ex, Lo(c, i), Hi(c, i))
  }

  /** The first band whose level counts for the leaks. */
  function FirstLeak(ex: seq<int>, c: Channel): nat
    requires |ex| == 256
  {
    if c.start > 0 then c.bndstart else OpeningEnd(ex) - 1
  }

  function Gain(p: Params, slow: bool): int { if slow then p.sgain else p.fgain }

  function Decay(p: Params, slow: bool): int { if slow then p.sdecay else p.fdecay }

  /** The leak after band i, as the source holds it. */
  function Leak(p: Params, ex: seq<int>, c: Channel, i: nat, slow: bool): int
    requires ValidChannel(c) && InChannel(c, i) && |ex| == 256
  {
    3072 - (if slow then RefBand(LeakageOf(p), ex, c, i).slow else RefBand(LeakageOf(p), ex, c, i).fast)
  }

  /** Band j is loud enough for its level, raised by the gain and by what has leaked away
      since, to be at most the limit at band i. */
  predicate LoudAt(p: Params, ex: seq<int>, c: Channel, slow: bool, i: nat, j: nat, limit: int)
    requires ValidChannel(c) && InChannel(c, i) && c.bndstart <= j <= i && |ex| == 256
  {
    BandsAscend(j, i);
    Level(ex, c, j) + Gain(p, slow) + (i - j) * Decay(p, slow) <= limit
  }

  /** Some band up to band i is, or the leak that a coupling channel starts from. */
  predicate Loud(p: Params, ex: seq<int>, c: Channel, slow: bool, i: nat, limit: int)
    requires ValidChannel(c) && InChannel(c, i) && |ex| == 256
  {
    || (c.start > 0 && 3072 - (if slow then c.slow else c.fast) + (i + 1 - c.bndstart) * Decay(p, slow) <= limit)
    || exists j: nat :: c.bndstart <= j <= i && FirstLeak(ex, c) <= j && LoudAt(p, ex, c, slow, i, j, limit)
  }

  lemma OneMoreDecay(n: int, d: int)
    ensures (n + 1) * d == n * d + d
  {
  }

  lemma LoudAtBefore(p: Params, ex: seq<int>, c: Channel, slow: bool, i: nat, j: nat, limit: int)
    requires ValidChannel(c) && i > 0 && InChannel(c, i) && InChannel(c, i - 1) && c.bndstart <= j < i && |ex| == 256
    ensures LoudAt(p, ex, c, slow, i, j, limit) <==> LoudAt(p, ex, c, slow, i - 1, j, limit - Decay(p, slow))
  {
    hide Level, Decay, Gain, InChannel;
    OneMoreDecay(i - 1 - j, Decay(p, slow));
  }

  /** A band more: it may be loud itself, or what was loud enough is so still. */
  lemma LoudStep(p: Params, ex: seq<int>, c: Channel, slow: bool, i: nat, limit: int)
    requires ValidChannel(c) && i > 0 && InChannel(c, i) && InChannel(c, i - 1) && |ex| == 256 && FirstLeak(ex, c) < i
    ensures Loud(p, ex, c, slow, i, limit)
            <==> Level(ex, c, i) + Gain(p, slow) <= limit || Loud(p, ex, c, slow, i - 1, limit - Decay(p, slow))
  {
    hide Level, Decay, Gain, LoudAt, BandStart, FirstLeak;
    var k, before := i - 1, limit - Decay(p, slow);
    OneMoreDecay(i - c.bndstart, Decay(p, slow));
    LoudNow(p, ex, c, slow, i, limit);
    if Loud(p, ex, c, slow, i, limit) {
      if j: nat :| c.bndstart <= j <= i && FirstLeak(ex, c) <= j && LoudAt(p, ex, c, slow, i, j, limit) {
        if j < i {
          LoudAtBefore(p, ex, c, slow, i, j, limit);
          assert LoudAt(p, ex, c, slow, k, j, before);
        }
      }
    }
    if Loud(p, ex, c, slow, k, before) {
      if j: nat :| c.bndstart <= j <= k && FirstLeak(ex, c) <= j && LoudAt(p, ex, c, slow, k, j, before) {
        LoudAtBefore(p, ex, c, slow, i, j, limit);
      }
    }
  }

  lemma LoudNow(p: Params, ex: seq<int>, c: Channel, slow: bool, i: nat, limit: int)
    requires ValidChannel(c) && InChannel(c, i) && |ex| == 256
    ensures LoudAt(p, ex, c, slow, i, i, limit) <==> Level(ex, c, i) + Gain(p, slow) <= limit
  {
  }

  /** A leak is at most a limit exactly if some band, or the start, was loud enough: leaking
      keeps the minimum over all of them. */
  lemma {:induction false} LeakIsLoudest(p: Params, ex: seq<int>, c: Channel, slow: bool, i: nat, limit: int)
    requires ValidChannel(c) && InChannel(c, i) && |ex| == 256 && FirstLeak(ex, c) <= i
    ensures Leak(p, ex, c, i, slow) <= limit <==> Loud(p, ex, c, slow, i, limit)
    decreases i
  {
    hide RefBand, BandStart, BandEnd, CalcLowcomp, Lo, Hi, RefBandPsd, Loud;
    PrevOf(p, ex, c, i);
    if i > FirstLeak(ex, c) {
      BegunIff(p, ex, c, i - 1);
      LeakIsLoudest(p, ex, c, slow, i - 1, limit - Decay(p, slow));
      LoudStep(p, ex, c, slow, i, limit);
    } else {
      LoudFirst(p, ex, c, slow, i, limit);
      if i > c.bndstart {
        BegunIff(p, ex, c, i - 1);
      }
    }
  }

  lemma LoudFirst(p: Params, ex: seq<int>, c: Channel, slow: bool, i: nat, limit: int)
    requires ValidChannel(c) && InChannel(c, i) && |ex| == 256 && FirstLeak(ex, c) == i
    ensures Loud(p, ex, c, slow, i, limit)
            <==> (|| Level(ex, c, i) + Gain(p, slow) <= limit
                  || (c.start > 0 && 3072 - (if slow then c.slow else c.fast) + Decay(p, slow) <= limit))
  {
    hide Level, Decay, Gain, LoudAt, BandStart;
    LoudNow(p, ex, c, slow, i, limit);
  }

  // ------------------------------------------------------------------ the compensation

  /** lowcomp after bin i, from the exponents alone. */
  function Compensation(ex: seq<int>, c: Channel, i: nat): int
    requires |ex| == 256
  {
    if c.start > 0 || i >= 22 then 0
    else
      var before := if i == 0 then 0 else Compensation(ex, c, i - 1);
      if c.end == 7 && i == 6 then before else CalcLowcomp(before, RefPsd(ex[i]), RefPsd(ex[i + 1]), i)
  }

  lemma {:induction false} CompensationIs(p: Params, ex: seq<int>, c: Channel, i: nat)
    requires ValidChannel(c) && InChannel(c, i) && |ex| == 256
    ensures RefBand(LeakageOf(p), ex, c, i).lowcomp == Compensation(ex, c, i)
    decreases i
  {
    hide RefBand, BandStart, BandEnd, CalcLowcomp, Lo, Hi, RefBandPsd;
    PrevOf(p, ex, c, i);
    if c.start == 0 && i < 22 {
      SinglePsd(ex, c, i);
      if i > 0 {
        CompensationIs(p, ex, c, i - 1);
      }
    }
  }

  lemma {:induction false} CompensationRange(ex: seq<int>, c: Channel, i: nat)
    requires |ex| == 256
    ensures 0 <= Compensation(ex, c, i) <= 384
    ensures i < 7 ==> Compensation(ex, c, i) % 64 == 0
  {
    if i > 0 && i < 22 {
      CompensationRange(ex, c, i - 1);
    }
  }

  // ------------------------------------------------------------------ the upper end

  /** Bin k of band i looks past the end of the table: the bin is so quiet, or its delta so
      high, that a loud band or start, leaked down to band i, still reaches under it. */
  predicate Overrun(f: Fields, ex: seq<int>, c: Channel, i: nat, k: nat)
    requires ValidFields(f) && ValidChannel(c) && InChannel(c, i) && |ex| == 256 && k < 256
  {
    var p, reach := ParamsOf(f), Reach(f, Level(ex, c, i), i, ex[k]);
    Loud(p, ex, c, false, i, reach - Compensation(ex, c, i)) || Loud(p, ex, c, true, i, reach)
  }

  /** Band i comes after the opening loop. */
  predicate Leaks(ex: seq<int>, c: Channel, i: nat)
    requires |ex| == 256
  {
    c.start > 0 || i >= OpeningEnd(ex)
  }

  lemma LeaksIff(p: Params, ex: seq<int>, c: Channel, i: nat)
    requires ValidChannel(c) && InChannel(c, i) && |ex| == 256
    ensures i > c.bndstart ==> InChannel(c, i - 1)
    ensures Prev(LeakageOf(p), ex, c, i).begun <==> Leaks(ex, c, i)
  {
    hide RefBand, BandEnd, BandStart;
    PrevOf(p, ex, c, i);
    if i > c.bndstart {
      BegunIff(p, ex, c, i - 1);
    }
  }

  /** The mask that a leaking band starts from is the smaller leak. */
  lemma LeakMask(p: Params, ex: seq<int>, c: Channel, i: nat)
    requires ValidChannel(c) && InChannel(c, i) && |ex| == 256 && Leaks(ex, c, i)
    ensures 3072 - RefBand(LeakageOf(p), ex, c, i).excite
            == Min(Leak(p, ex, c, i, false) + Compensation(ex, c, i), Leak(p, ex, c, i, true))
  {
    hide RefBand, BandStart, BandEnd, CalcLowcomp, Lo, Hi, RefBandPsd, Compensation;
    LeaksIff(p, ex, c, i);
    PrevOf(p, ex, c, i);
    CompensationIs(p, ex, c, i);
  }

  lemma IndexInLevels(p: Params, ex: seq<int>, c: Channel, i: nat, k: nat)
    requires ValidParams(p) && ValidChannel(c) && InChannel(c, i) && |ex| == 256 && k < 256
    ensures IndexAt(p, ex, c, i, k) == ComputeMask(p, 3072 - RefBand(LeakageOf(p), ex, c, i).excite, Level(ex, c, i), i) + 4 * ex[k]
  {
    hide RefBand, ComputeMask, RefBandPsd;
  }

  /** In every phase that takes its mask from the leaks the index goes past the end of the
      table exactly for an overrun. */
  lemma OverrunIff(f: Fields, ex: seq<int>, c: Channel, i: nat, k: nat)
    requires ValidFields(f) && ValidChannel(c) && InChannel(c, i) && ValidExponents(ex) && k < 256 && Leaks(ex, c, i)
    ensures IndexAt(ParamsOf(f), ex, c, i, k) > 148 <==> Overrun(f, ex, c, i, k)
  {
    hide RefBand, ComputeMask, Level, Loud, Leak, Compensation, Reach, BandStart, ParamsOf, IndexAt;
    var p, reach := ParamsOf(f), Reach(f, Level(ex, c, i), i, ex[k]);
    IndexInLevels(p, ex, c, i, k);
    LeakMask(p, ex, c, i);
    IndexAboveIff(f, 3072 - RefBand(LeakageOf(p), ex, c, i).excite, Level(ex, c, i), i, ex[k], 148);
    FirstBefore(ex, c, i);
    LeakIsLoudest(p, ex, c, false, i, reach - Compensation(ex, c, i));
    LeakIsLoudest(p, ex, c, true, i, reach);
  }

  lemma FirstBefore(ex: seq<int>, c: Channel, i: nat)
    requires InChannel(c, i) && |ex| == 256 && Leaks(ex, c, i)
    ensures FirstLeak(ex, c) <= i
  {
  }

  // ------------------------------------------------------------------ the opening loop

  /** The compensation is at its peak of 384 in a bin of exponent 0 of the opening loop: the
      exponent fell by exactly 2 one or two bins before, and has not risen since. */
  predicate Peak(ex: seq<int>, i: nat)
    requires |ex| == 256
  {
    || (i == 1 && ex[0] == 2 && ex[1] == 0 && ex[2] == 0)
    || (i == 2 && ex[2] == 0 && ex[3] == 0 && (ex[1] == 2 || ex[0] == ex[1] + 2))
  }

  lemma PeakIff(ex: seq<int>, c: Channel, i: nat)
    requires ValidExponents(ex) && c.start == 0 && c.end >= 7 && i < OpeningEnd(ex)
    ensures Peak(ex, i) <==> ex[i] == 0 && Compensation(ex, c, i) == 384
  {
    if i == 1 {
      assert Compensation(ex, c, 1) == CalcLowcomp(Compensation(ex, c, 0), RefPsd(ex[1]), RefPsd(ex[2]), 1);
    } else if i == 2 {
      assert Compensation(ex, c, 2) == CalcLowcomp(Compensation(ex, c, 1), RefPsd(ex[2]), RefPsd(ex[3]), 2);
      assert Compensation(ex, c, 1) == CalcLowcomp(Compensation(ex, c, 0), RefPsd(ex[1]), RefPsd(ex[2]), 1);
    }
  }

  /** The opening loop looks in front of the table: the highest floor, gain, offsets and
      attenuation meet in a bin of exponent 0 at the peak of the compensation. */
  predicate Underrun(f: Fields, ex: seq<int>, i: nat)
    requires ValidFields(f) && |ex| == 256 && i < 50
  {
    && f.bai % 8 == 7 && f.csnroffst == 63 && f.chbai / 8 >= 1 && f.chbai % 8 == 7 && f.deltba[i] == -4
    && Peak(ex, i)
  }

  lemma LowThresholds(f: Fields, i: nat)
    requires ValidFields(f) && i < 7
    ensures ParamsOf(f).hth[HearingIndex(ParamsOf(f), i)] >= 1664
  {
    var p := ParamsOf(f);
    assert HearingIndex(p, i) <= i;
    assert AllAtLeast(HTH_48000[..7], 1664) && HTH_48000[HearingIndex(p, i)] == HTH_48000[..7][HearingIndex(p, i)];
    assert AllAtLeast(HTH_44100[..7], 1664) && HTH_44100[HearingIndex(p, i)] == HTH_44100[..7][HearingIndex(p, i)];
    assert AllAtLeast(HTH_32000[..7], 1664) && HTH_32000[HearingIndex(p, i)] == HTH_32000[..7][HearingIndex(p, i)];
  }

  /** COMPUTE_MASK on an opening bin: exponent e, compensation l, gain 128 * g + 128,
      offsets 64 * cs + 4 * fs, delta d, floor 32 * q + r. */
  lemma OpeningArith(e: int, l: int, g: int, knee: int, hth: int, q: int, r: int, cs: int, fs: int, d: int)
    requires 0 <= e <= 24 && 0 <= l <= 384 && l % 64 == 0 && 0 <= g <= 7 && knee >= 256 && hth >= 1664
    requires (72 <= q <= 88 && 0 <= r <= 16) || (q == 160 && r == 0)
    requires 0 <= cs <= 63 && 0 <= fs <= 15 && -4 <= d <= 4
    ensures var m0 := 128 * e + 128 * g + 128 + l - Max(128 * e - knee, 0) / 4;
            var m2 := Min(m0, hth) - (960 - 64 * cs - 4 * fs + 32 * q + r + 128 * d);
            var index := (if m2 > 0 then 0 else (-m2) / 32) - q + 4 * e;
            && -158 <= index <= 90
            && (index < -156 <==> q == 160 && cs == 63 && fs >= 1 && g == 7 && d == -4 && e == 0 && l == 384)
            && (index < -156 ==> index == if fs <= 8 then -157 else -158)
  {
  }

  lemma OpeningMask(p: Params, ex: seq<int>, c: Channel, i: nat)
    requires ValidChannel(c) && InChannel(c, i) && |ex| == 256 && !Leaks(ex, c, i)
    ensures Level(ex, c, i) == 128 * ex[i] && i < 7
    ensures 3072 - RefBand(LeakageOf(p), ex, c, i).excite == 128 * ex[i] + p.fgain + Compensation(ex, c, i)
  {
    hide RefBand, BandStart, BandEnd, CalcLowcomp, Lo, Hi, Compensation;
    LeaksIff(p, ex, c, i);
    PrevOf(p, ex, c, i);
    SinglePsd(ex, c, i);
    CompensationIs(p, ex, c, i);
  }

  lemma OpeningFields(f: Fields)
    requires ValidFields(f)
    ensures var p := ParamsOf(f);
            && p.fgain == 128 * (f.chbai % 8) + 128 && p.dbknee >= 256
            && p.snroffset == 960 - 64 * f.csnroffst - 4 * (f.chbai / 8) + 32 * (p.floor / 32) + p.floor % 32
            && ((72 <= p.floor / 32 <= 88 && p.floor % 32 <= 16) || (p.floor / 32 == 160 && p.floor % 32 == 0))
            && (p.floor / 32 == 160 <==> f.bai % 8 == 7)
            && p.deltba == f.deltba
  {
  }

  /** In the opening loop the index stays within -158..90, and it goes below -156 exactly for
      an underrun. */
  lemma UnderrunIff(f: Fields, ex: seq<int>, c: Channel, i: nat)
    requires ValidFields(f) && ValidChannel(c) && InChannel(c, i) && ValidExponents(ex) && !Leaks(ex, c, i)
    ensures -158 <= IndexAt(ParamsOf(f), ex, c, i, i) <= 90
    ensures IndexAt(ParamsOf(f), ex, c, i, i) < -156 <==> Underrun(f, ex, i)
    ensures Underrun(f, ex, i) ==> IndexAt(ParamsOf(f), ex, c, i, i) == if f.chbai / 8 <= 8 then -157 else -158
  {
    hide RefBand, Level, Compensation, IndexAt, ParamsOf, HearingIndex, BandStart, Peak;
    var p, l := ParamsOf(f), Compensation(ex, c, i);
    OpeningMask(p, ex, c, i);
    IndexInLevels(p, ex, c, i, i);
    OpeningFields(f);
    LowThresholds(f, i);
    CompensationRange(ex, c, i);
    PeakIff(ex, c, i);
    OpeningArith(ex[i], l, f.chbai % 8, p.dbknee, p.hth[HearingIndex(p, i)], p.floor / 32, p.floor % 32,
                 f.csnroffst, f.chbai / 8, f.deltba[i]);
  }

  /** Exponents 2, 0, 0, ... */
  function DropExponents(): (ex: seq<int>)
    ensures ValidExponents(ex)
  {
    seq(256, k => if k == 0 then 2 else 0)
  }

  /** The lowest of the indices in front of the table, with exponents and deltas that a
      stream can send: bin 1 looks up -158. */
  lemma UnderrunReached()
    ensures var f, ex, c := Fields(0, 0, 7, 63, 127, DA.FlatDeltas(-4)), DropExponents(), Channel(0, 0, 73, 0, 0);
            && ValidFields(f) && ValidChannel(c) && InChannel(c, 1)
            && DA.Sendable(f.deltba) && Ex.Sendable(ex, c.end) && Ex.Smooth(ex)
            && Underrun(f, ex, 1) && IndexAt(ParamsOf(f), ex, c, 1, 1) == -158
  {
    var f, ex, c := Fields(0, 0, 7, 63, 127, DA.FlatDeltas(-4)), DropExponents(), Channel(0, 0, 73, 0, 0);
    DA.FlatIsSendable(-4);
    DropIsSendable();
    hide DA.Sendable, Ex.Sendable, IndexAt, ParamsOf;
    UnderrunIff(f, ex, c, 1);
  }

  lemma DropIsSendable()
    ensures Ex.Sendable(DropExponents(), 73)
  {
    hide Ex.Sendable;
    assert Ex.ChannelEnd(73) by { assert 73 == 0 * 3 + 73; }
    Ex.SmoothIsSendable(DropExponents(), 73);
  }

  // ------------------------------------------------------------------ bounds for every phase

  /** The power of n bins of exponent 0, above that of one. */
  function Growth(n: nat): (g: int)
    requires n > 0
    ensures g >= 0
  {
    if n == 1 then 0 else Growth(n - 1) - Latab(Min(Growth(n - 1) / 2, 255))
  }

  lemma Grows(n: nat, g: int, g': int)
    requires n > 1 && Growth(n - 1) == g && 0 <= g < 510 && g - Latab(g / 2) == g'
    ensures Growth(n) == g'
  {
  }

  lemma GrowthTo9()
    ensures Growth(9) == 202
  {
    GrowthOne();
    hide Growth;
    Grows(2, 0, 64); Grows(3, 64, 101); Grows(4, 101, 128); Grows(5, 128, 148);
    Grows(6, 148, 165); Grows(7, 165, 179); Grows(8, 179, 191); Grows(9, 191, 202);
  }

  lemma GrowthTo17()
    ensures Growth(17) == 259
  {
    GrowthTo9();
    hide Growth;
    Grows(10, 202, 211); Grows(11, 211, 220); Grows(12, 220, 228); Grows(13, 228, 235);
    Grows(14, 235, 242); Grows(15, 242, 248); Grows(16, 248, 254); Grows(17, 254, 259);
  }

  lemma GrowthTo24()
    ensures Growth(24) == 289
  {
    GrowthTo17();
    hide Growth;
    Grows(18, 259, 264); Grows(19, 264, 269); Grows(20, 269, 273); Grows(21, 273, 277);
    Grows(22, 277, 281); Grows(23, 281, 285); Grows(24, 285, 289);
  }

  lemma {:induction false} GrowthMonotone(m: nat, n: nat)
    requires 0 < m <= n
    ensures Growth(m) <= Growth(n)
  {
    hide Latab;
    if m < n {
      GrowthMonotone(m, n - 1);
    }
  }

  lemma LogAddMonotone(a: int, a': int, b: int)
    requires a <= a' && b <= 3072 <= a'
    ensures LogAdd(a, b) <= LogAdd(a', 3072)
  {
  }

  lemma GrowthIsSum(n: nat)
    requires n > 1
    ensures 3072 + Growth(n) == LogAdd(3072 + Growth(n - 1), 3072)
  {
    hide Latab;
  }

  lemma {:induction false} BandPsdAtMost(ex: seq<int>, lo: nat, hi: nat)
    requires ValidExponents(ex) && lo < hi <= 256
    ensures RefBandPsd(ex, lo, hi) <= 3072 + Growth(hi - lo)
    decreases hi
  {
    hide Latab, LogAdd, Growth;
    if hi > lo + 1 {
      BandPsdAtMost(ex, lo, hi - 1);
      GrowthIsSum(hi - lo);
      LogAddMonotone(RefBandPsd(ex, lo, hi - 1), 3072 + Growth(hi - 1 - lo), RefPsd(ex[hi - 1]));
    } else {
      GrowthOne();
    }
  }

  lemma GrowthOne()
    ensures Growth(1) == 0
  {
  }

  /** minpsd: no band is louder than 24 bins of exponent 0 together. */
  lemma LevelAtLeast(ex: seq<int>, c: Channel, i: nat)
    requires ValidChannel(c) && InChannel(c, i) && ValidExponents(ex)
    ensures Level(ex, c, i) >= -289
    ensures c.start == 0 && i < 28 ==> Level(ex, c, i) >= 0
  {
    hide Growth, RefBandPsd;
    BandInside(c, i);
    BandPsdAtMost(ex, Lo(c, i), Hi(c, i));
    BandWidth(c, i);
    GrowthTo24();
    GrowthMonotone(Hi(c, i) - Lo(c, i), 24);
    if c.start == 0 && i < 28 {
      SinglePsd(ex, c, i);
    }
  }

  lemma BandWidth(c: Channel, i: nat)
    requires ValidChannel(c) && InChannel(c, i)
    ensures Hi(c, i) - Lo(c, i) <= 24
  {
  }

  /** The leaks that a coupling channel can start from: 512 to 2304 once they have been
      sent, 0 before. */
  predicate LegalLeaks(c: Channel) {
    c.start > 0 ==> c.fast <= 3072 && c.slow <= 3072
  }

  lemma GainsPositive(f: Fields)
    requires ValidFields(f)
    ensures var p := ParamsOf(f); p.fgain >= 128 && p.sgain >= 1040 && p.fdecay >= 0 && p.sdecay >= 0
  {
  }

  /** Nothing is louder than the loudest band with the smallest gain. */
  lemma NotLoudUnder(f: Fields, ex: seq<int>, c: Channel, slow: bool, i: nat)
    requires ValidFields(f) && ValidChannel(c) && InChannel(c, i) && ValidExponents(ex) && LegalLeaks(c)
    ensures !Loud(ParamsOf(f), ex, c, slow, i, -162)
    ensures c.start == 0 && i < 28 ==> !Loud(ParamsOf(f), ex, c, slow, i, 127)
  {
    hide Level, ParamsOf, BandStart;
    var p := ParamsOf(f);
    GainsPositive(f);
    forall j: nat | c.bndstart <= j <= i
      ensures LoudAt(p, ex, c, slow, i, j, -162) == false
      ensures c.start == 0 && i < 28 ==> LoudAt(p, ex, c, slow, i, j, 127) == false
    {
      BandsAscend(j, i);
      LevelAtLeast(ex, c, j);
      MulMonotonic(0, i - j, Decay(p, slow));
    }
    MulMonotonic(0, i + 1 - c.bndstart, Decay(p, slow));
  }

  lemma ReachAtMost(f: Fields, psd: int, i: nat, e: int)
    requires ValidFields(f) && i < 50 && e <= 24 && psd <= 3072
    ensures Reach(f, psd, i, e) <= 496
  {
  }

  /** How low the mask of a leaking band can be before the knee. */
  lemma LeakMaskAtLeast(f: Fields, ex: seq<int>, c: Channel, i: nat)
    requires ValidFields(f) && ValidChannel(c) && InChannel(c, i) && ValidExponents(ex) && LegalLeaks(c) && Leaks(ex, c, i)
    ensures var mask := 3072 - RefBand(LeakageOf(ParamsOf(f)), ex, c, i).excite;
            mask >= -161 && (c.start == 0 && i < 28 ==> mask >= 128)
  {
    hide RefBand, Loud, Leak, Compensation, BandStart, ParamsOf;
    var p := ParamsOf(f);
    LeakMask(p, ex, c, i);
    FirstBefore(ex, c, i);
    CompensationRange(ex, c, i);
    NotLoudUnder(f, ex, c, false, i);
    NotLoudUnder(f, ex, c, true, i);
    LeakIsLoudest(p, ex, c, false, i, -162);
    LeakIsLoudest(p, ex, c, true, i, -162);
    LeakIsLoudest(p, ex, c, false, i, 127);
    LeakIsLoudest(p, ex, c, true, i, 127);
  }

  /** The upper limits: 160 while the bands have one bin, 169 afterwards.  The limit of the
      source, 147, leaves out the term of dbknee. */
  lemma LeakIndexAtMost(f: Fields, ex: seq<int>, c: Channel, i: nat, k: nat)
    requires ValidFields(f) && ValidChannel(c) && InChannel(c, i) && ValidExponents(ex) && LegalLeaks(c)
    requires Leaks(ex, c, i) && k < 256
    ensures IndexAt(ParamsOf(f), ex, c, i, k) <= 169
    ensures c.start == 0 && i < 28 ==> IndexAt(ParamsOf(f), ex, c, i, k) <= 160
  {
    hide RefBand, ComputeMask, Level, Reach, BandStart, ParamsOf, IndexAt;
    var p, psd := ParamsOf(f), Level(ex, c, i);
    var mask := 3072 - RefBand(LeakageOf(p), ex, c, i).excite;
    IndexInLevels(p, ex, c, i, k);
    LeakMaskAtLeast(f, ex, c, i);
    LevelAtMost(ex, c, i);
    ReachAtMost(f, psd, i, ex[k]);
    IndexAboveIff(f, mask, psd, i, ex[k], 169);
    IndexAboveIff(f, mask, psd, i, ex[k], 160);
  }

  lemma ReachFormula(f: Fields, psd: int, i: nat, e: int)
    requires ValidFields(f) && i < 50 && psd <= 3072
    ensures Reach(f, psd, i, e) <= 128 * (e + f.deltba[i]) - 64 * f.csnroffst - 4 * (f.chbai / 8) - 3088
  {
  }

  /** An overrun takes an exponent, with its delta, near the top and a low offset: there is
      none with a coarse offset of 11 or more, and none without an exponent above 22. */
  lemma OverrunNeeds(f: Fields, ex: seq<int>, c: Channel, i: nat, k: nat)
    requires ValidFields(f) && ValidChannel(c) && InChannel(c, i) && ValidExponents(ex) && LegalLeaks(c)
    requires Leaks(ex, c, i) && k < 256 && Overrun(f, ex, c, i, k)
    ensures 128 * (ex[k] + f.deltba[i]) >= 2927 + 64 * f.csnroffst + 4 * (f.chbai / 8)
    ensures f.csnroffst <= 10 && ex[k] + f.deltba[i] >= 23
  {
    hide RefBand, ComputeMask, Level, BandStart, ParamsOf, IndexAt, Overrun, Reach;
    var p, psd := ParamsOf(f), Level(ex, c, i);
    OverrunIff(f, ex, c, i, k);
    IndexInLevels(p, ex, c, i, k);
    LeakMaskAtLeast(f, ex, c, i);
    LevelAtMost(ex, c, i);
    IndexAboveIff(f, 3072 - RefBand(LeakageOf(p), ex, c, i).excite, psd, i, ex[k], 148);
    ReachFormula(f, psd, i, ex[k]);
  }

  lemma LevelAtMost(ex: seq<int>, c: Channel, i: nat)
    requires ValidChannel(c) && InChannel(c, i) && ValidExponents(ex)
    ensures Level(ex, c, i) <= 3072
  {
    hide RefBandPsd;
    BandInside(c, i);
    BandPsdAtLeast(ex, Lo(c, i), Hi(c, i), Lo(c, i));
  }

  /** The address of a bin, from how far its excitation lies below its power. */
  lemma AddressBound(f: Fields, excite: int, psd: int, i: nat, e: int, slack: int)
    requires ValidFields(f) && i < 50 && excite >= psd - slack && psd >= RefPsd(e)
    ensures RefAddress(e, RefMask(RuleOf(ParamsOf(f)), excite, psd, i)) <= (slack + 3675) / 32
  {
    var p := ParamsOf(f);
    assert p.floor - p.snroffset <= 3132;
    assert p.deltba[i] >= -4;
  }

  lemma SlowGainBound(f: Fields)
    requires ValidFields(f)
    ensures ParamsOf(f).sgain <= 1344
  {
  }

  /** The lower limit: where the mask comes from the leaks, the index never goes below -156,
      because no bin of a band has more power than the band. */
  lemma LeakIndexAtLeast(f: Fields, ex: seq<int>, c: Channel, i: nat, k: nat)
    requires ValidFields(f) && ValidChannel(c) && InChannel(c, i) && |ex| == 256
    requires Lo(c, i) <= k < Hi(c, i) && Leaks(ex, c, i)
    ensures IndexAt(ParamsOf(f), ex, c, i, k) >= -156
  {
    hide RefBand, RefMask, ComputeMask, ParamsOf, BandStart, BandEnd, CalcLowcomp;
    var p := ParamsOf(f);
    var psd := RefBandPsd(ex, Lo(c, i), Hi(c, i));
    var excite := RefBand(LeakageOf(p), ex, c, i).excite;
    LeaksIff(p, ex, c, i);
    PrevOf(p, ex, c, i);
    BandInside(c, i);
    BandPsdAtLeast(ex, Lo(c, i), Hi(c, i), k);
    SlowGainBound(f);
    assert excite >= psd - 1344;
    AddressBound(f, excite, psd, i, ex[k], 1344);
    IndexIsNegatedAddress(p, excite, psd, i, ex[k]);
  }

  // ------------------------------------------------------------------ when every lookup is inside

  /** A lookup is inside the table exactly if it is no underrun of the opening loop and no
      overrun of the loops after it. */
  lemma InTableIff(f: Fields, ex: seq<int>, c: Channel, i: nat, k: nat)
    requires ValidFields(f) && ValidChannel(c) && InChannel(c, i) && ValidExponents(ex) && Lo(c, i) <= k < Hi(c, i) <= 253
    ensures InTable(IndexAt(ParamsOf(f), ex, c, i, k))
            <==> if Leaks(ex, c, i) then !Overrun(f, ex, c, i, k) else !Underrun(f, ex, i)
  {
    hide IndexAt, Overrun, Underrun, ParamsOf;
    if Leaks(ex, c, i) {
      OverrunIff(f, ex, c, i, k);
      LeakIndexAtLeast(f, ex, c, i, k);
    } else {
      SingleBins(c, i);
      UnderrunIff(f, ex, c, i);
    }
  }

  /** No bin of the channel is looked up outside the table. */
  ghost predicate Contained(f: Fields, ex: seq<int>, c: Channel)
    requires ValidFields(f) && ValidChannel(c) && |ex| == 256
  {
    forall k: nat :: c.start <= k < c.end ==> InTable(IndexOf(ParamsOf(f), ex, c, k))
  }

  lemma {:induction false} BandOfIs(c: Channel, k: nat, i: nat, b: nat)
    requires ValidChannel(c) && InChannel(c, i) && InChannel(c, b) && i <= b && Lo(c, i) <= k < c.end && Lo(c, b) <= k < Hi(c, b)
    ensures BandOf(c, k, i) == b
    decreases b - i
  {
    hide BandStart, BandEnd;
    if i < b {
      BandsAscend(i, b);
      NextBand(c, i);
      BandOfIs(c, k, i + 1, b);
    }
  }

  /** And so for a channel as a whole, over its fields, exponents and leaks. */
  lemma ContainedIff(f: Fields, ex: seq<int>, c: Channel)
    requires ValidFields(f) && ValidChannel(c) && ValidExponents(ex)
    ensures Contained(f, ex, c)
            <==> && (c.start == 0 ==> !Underrun(f, ex, 1) && !Underrun(f, ex, 2))
                 && (forall i: nat, k: nat :: InChannel(c, i) && Leaks(ex, c, i) && Lo(c, i) <= k < Hi(c, i) && k < 256
                                          ==> !Overrun(f, ex, c, i, k))
  {
    hide IndexAt, IndexOf, Overrun, ParamsOf, BandStart, BandEnd, Lo, Hi, Leaks, Underrun;
    if Contained(f, ex, c) {
      forall i: nat, k: nat | InChannel(c, i) && Leaks(ex, c, i) && Lo(c, i) <= k < Hi(c, i) && k < 256
        ensures !Overrun(f, ex, c, i, k)
      {
        BinTableIff(f, ex, c, i, k);
      }
      if c.start == 0 {
        FirstBins(ex, c);
        BinTableIff(f, ex, c, 1, 1);
        BinTableIff(f, ex, c, 2, 2);
      }
    } else {
      FirstBand(c);
      var k: nat :| c.start <= k < c.end && !InTable(IndexOf(ParamsOf(f), ex, c, k));
      var i := BandOf(c, k, c.bndstart);
      BinTableIff(f, ex, c, i, k);
      if !Leaks(ex, c, i) {
        UnderrunBins(f, ex, c, i);
      }
    }
  }

  lemma BinTableIff(f: Fields, ex: seq<int>, c: Channel, i: nat, k: nat)
    requires ValidFields(f) && ValidChannel(c) && InChannel(c, i) && ValidExponents(ex) && Lo(c, i) <= k < Hi(c, i)
    ensures c.start <= k < c.end <= 253
    ensures InTable(IndexOf(ParamsOf(f), ex, c, k))
            <==> if Leaks(ex, c, i) then !Overrun(f, ex, c, i, k) else !Underrun(f, ex, i)
  {
    hide IndexAt, Overrun, Underrun, ParamsOf, BandStart, BandEnd;
    BandInside(c, i);
    FirstBand(c);
    InTableIff(f, ex, c, i, k);
    BandOfIs(c, k, c.bndstart, i);
  }

  lemma FirstBand(c: Channel)
    requires ValidChannel(c)
    ensures InChannel(c, c.bndstart) && Lo(c, c.bndstart) == c.start
  {
  }

  lemma FirstBins(ex: seq<int>, c: Channel)
    requires ValidChannel(c) && c.start == 0 && |ex| == 256
    ensures InChannel(c, 1) && InChannel(c, 2) && !Leaks(ex, c, 1) && !Leaks(ex, c, 2)
    ensures Lo(c, 1) == 1 && Hi(c, 1) == 2 && Lo(c, 2) == 2 && Hi(c, 2) == 3
  {
  }

  lemma UnderrunBins(f: Fields, ex: seq<int>, c: Channel, i: nat)
    requires ValidFields(f) && ValidChannel(c) && InChannel(c, i) && |ex| == 256 && !Leaks(ex, c, i) && Underrun(f, ex, i)
    ensures c.start == 0 && (i == 1 || i == 2)
  {
  }

  // ------------------------------------------------------------------ overruns that a stream can send

  /** Silence after loud bins: the exponents rise by 2 a bin from 0 at bin `from` to 24. */
  function RampExponents(from: nat): (ex: seq<int>)
    ensures ValidExponents(ex)
  {
    seq(256, k => if k < from then 0 else if k < from + 12 then 2 * (k - from) else 24)
  }

  lemma RampIsSmooth(from: nat)
    requires from > 0
    ensures Ex.Smooth(RampExponents(from))
  {
  }

  lemma RampIsSendable(from: nat, endmant: nat)
    requires from > 0 && Ex.ChannelEnd(endmant)
    ensures Ex.Sendable(RampExponents(from), endmant)
  {
    hide Ex.Sendable, Ex.ChannelEnd, Ex.Smooth;
    RampIsSmooth(from);
    Ex.SmoothIsSendable(RampExponents(from), endmant);
  }

  const RAMP_FIELDS := Fields(0, 3, 120, 0, 8, DA.FlatDeltas(4))
  const RAMP_CHANNEL := Channel(0, 0, 73, 0, 0)

  lemma RampIsLegal()
    ensures ValidFields(RAMP_FIELDS) && ValidChannel(RAMP_CHANNEL) && LegalLeaks(RAMP_CHANNEL)
    ensures forall i: nat :: i < 28 ==> InChannel(RAMP_CHANNEL, i)
    ensures OpeningEnd(RampExponents(3)) == 3
    ensures var p := ParamsOf(RAMP_FIELDS);
            && p.fdecay == 7 && p.fgain == 128 && p.sdecay == 1 && p.sgain == 1040 && p.dbknee == 256
            && p.floor == 2320 && p.snroffset == 3276 && p.deltba[15] == 4 && p.halfrate == 3
  {
  }

  /** The fast leak creeps up by 7 a bin from the loud bins on. */
  lemma {:induction false} RampLeaks(i: nat)
    requires 2 <= i <= 15
    requires ValidFields(RAMP_FIELDS) && ValidChannel(RAMP_CHANNEL) && InChannel(RAMP_CHANNEL, i)
    ensures var p, ex, c := ParamsOf(RAMP_FIELDS), RampExponents(3), RAMP_CHANNEL;
            && Leak(p, ex, c, i, false) == (if i == 2 then 128 else 128 + 7 * (i - 3)) && Leak(p, ex, c, i, true) >= 1040
            && Compensation(ex, c, i) == 0
  {
    RampIsLegal();
    var p, ex, c := ParamsOf(RAMP_FIELDS), RampExponents(3), RAMP_CHANNEL;
    hide ParamsOf, RefBand, BandStart, BandEnd, Lo, Hi, RefBandPsd;
    PrevOf(p, ex, c, i);
    SinglePsd(ex, c, i);
    LeaksIff(p, ex, c, i);
    if i > 2 {
      RampLeaks(i - 1);
    } else {
      assert Compensation(ex, c, 0) == 0;
      assert Compensation(ex, c, 1) == 0;
    }
  }

  /** The source reads (baptab + 156)[157], nine entries past the end of the table. */
  lemma OverrunReached()
    ensures ValidFields(RAMP_FIELDS) && ValidChannel(RAMP_CHANNEL) && LegalLeaks(RAMP_CHANNEL) && InChannel(RAMP_CHANNEL, 15)
    ensures IndexAt(ParamsOf(RAMP_FIELDS), RampExponents(3), RAMP_CHANNEL, 15, 15) == 157
    ensures Overrun(RAMP_FIELDS, RampExponents(3), RAMP_CHANNEL, 15, 15)
    ensures DA.Sendable(RAMP_FIELDS.deltba) && Ex.Sendable(RampExponents(3), RAMP_CHANNEL.end) && Ex.Smooth(RampExponents(3))
  {
    RampIsSmooth(3);
    RampIsLegal();
    DA.FlatIsSendable(4);
    assert Ex.ChannelEnd(73) by { assert 73 == 0 * 3 + 73; }
    RampIsSendable(3, 73);
    hide *;
    RampLeaks(15);
    RampLevel();
    RampReach();
    IndexEquals(RAMP_FIELDS, RampExponents(3), RAMP_CHANNEL, 15, 15, 212, 157);
    OverrunIff(RAMP_FIELDS, RampExponents(3), RAMP_CHANNEL, 15, 15);
  }

  lemma IndexEquals(f: Fields, ex: seq<int>, c: Channel, i: nat, k: nat, mask: int, n: int)
    requires ValidFields(f) && ValidChannel(c) && InChannel(c, i) && ValidExponents(ex) && Leaks(ex, c, i) && k < 256
    requires mask == Leak(ParamsOf(f), ex, c, i, false) + Compensation(ex, c, i) <= Leak(ParamsOf(f), ex, c, i, true)
    requires 32 * (148 - n) < mask - Reach(f, Level(ex, c, i), i, ex[k]) <= 32 * (149 - n) && n > 112
    ensures IndexAt(ParamsOf(f), ex, c, i, k) == n
  {
    hide Leak, RefBand, Level, Compensation, ParamsOf, IndexAt, BandStart, ComputeMask, Reach;
    LeakMask(ParamsOf(f), ex, c, i);
    IndexInLevels(ParamsOf(f), ex, c, i, k);
    IndexAboveIff(f, mask, Level(ex, c, i), i, ex[k], n - 1);
    IndexAboveIff(f, mask, Level(ex, c, i), i, ex[k], n);
  }

  lemma RampReach()
    requires ValidFields(RAMP_FIELDS)
    ensures Reach(RAMP_FIELDS, 3072, 15, 24) == 492
  {
  }

  lemma RampLevel()
    requires ValidChannel(RAMP_CHANNEL) && InChannel(RAMP_CHANNEL, 15)
    ensures Level(RampExponents(3), RAMP_CHANNEL, 15) == 3072 && RampExponents(3)[15] == 24
    ensures Leaks(RampExponents(3), RAMP_CHANNEL, 15)
  {
    SinglePsd(RampExponents(3), RAMP_CHANNEL, 15);
  }

  // ------------------------------------------------------------------ the least upper limits

  /** The ranges that the decoder allocates: their ends fall on groups of three bins, those
      of a coupling channel on subbands of twelve. */
  predicate SentRange(c: Channel) {
    && (c.start == 0 ==> c.end == 7 || c.end % 3 == 1)
    && (c.start > 0 ==> c.start >= 37 && c.start % 12 == 1 && c.end % 12 == 1)
  }

  /** So from band 28 on every band has at least three bins. */
  lemma WideBands(c: Channel, i: nat)
    requires ValidChannel(c) && InChannel(c, i) && SentRange(c) && (c.start > 0 || i >= 28)
    ensures Hi(c, i) - Lo(c, i) >= 3
  {
    hide BandStart, BandEnd;
    BandInside(c, i);
    BandEdges(i);
    ThirdsOf(c.start);
    ThirdsOf(c.end);
    ThreeApart(Lo(c, i), Hi(c, i));
  }

  lemma ThirdsOf(n: nat)
    ensures n % 12 == 1 ==> n % 3 == 1
  {
  }

  lemma ThreeApart(lo: nat, hi: nat)
    requires lo < hi
    ensures lo % 3 == 1 && hi % 3 == 1 ==> hi - lo >= 3
  {
  }

  lemma BandEdges(i: nat)
    requires 21 <= i < 50
    ensures i >= 28 ==> BandStart(i) % 3 == 1 && BandEnd(i) % 3 == 1
    ensures i < 28 ==> BandEnd(i) <= 28
  {
  }

  /** A band of n bins is at least as loud as n bins of exponent 24. */
  lemma {:induction false} QuietBand(ex: seq<int>, lo: nat, hi: nat)
    requires ValidExponents(ex) && lo < hi <= 256
    ensures RefBandPsd(ex, lo, hi) >= Growth(hi - lo)
    decreases hi
  {
    hide Latab, LogAdd, Growth;
    if hi > lo + 1 {
      QuietBand(ex, lo, hi - 1);
      GrowthOverZero(hi - lo);
      LogAddAbove(Growth(hi - 1 - lo), RefBandPsd(ex, lo, hi - 1), RefPsd(ex[hi - 1]));
    } else {
      GrowthOne();
    }
  }

  lemma GrowthOverZero(n: nat)
    requires n > 1
    ensures Growth(n) == LogAdd(Growth(n - 1), 0)
  {
    hide Latab;
  }

  lemma LogAddAbove(a: int, a': int, b: int)
    requires 0 <= a <= a' && 0 <= b
    ensures LogAdd(a, 0) <= LogAdd(a', b)
  {
  }

  lemma WideLevel(ex: seq<int>, c: Channel, i: nat)
    requires ValidChannel(c) && InChannel(c, i) && SentRange(c) && (c.start > 0 || i >= 28) && ValidExponents(ex)
    ensures Level(ex, c, i) <= 2971
  {
    hide Growth, RefBandPsd;
    BandInside(c, i);
    WideBands(c, i);
    QuietBand(ex, Lo(c, i), Hi(c, i));
    GrowthThree();
    GrowthMonotone(3, Hi(c, i) - Lo(c, i));
  }

  lemma GrowthThree()
    ensures Growth(3) == 101
  {
    GrowthOne();
    hide Growth;
    Grows(2, 0, 64);
    Grows(3, 64, 101);
  }

  lemma WideReach(f: Fields, psd: int, i: nat, e: int)
    requires ValidFields(f) && i < 50 && e <= 24 && psd <= 2971
    ensures Reach(f, psd, i, e) <= 470
  {
  }

  /** In the bands of several bins the least upper limit is 168; BandOverrunReached reaches it. */
  lemma BandIndexAtMost(f: Fields, ex: seq<int>, c: Channel, i: nat, k: nat)
    requires ValidFields(f) && ValidChannel(c) && InChannel(c, i) && ValidExponents(ex) && LegalLeaks(c) && SentRange(c)
    requires Leaks(ex, c, i) && (c.start > 0 || i >= 28) && k < 256
    ensures IndexAt(ParamsOf(f), ex, c, i, k) <= 168
  {
    hide RefBand, ComputeMask, Level, Reach, BandStart, ParamsOf, IndexAt;
    var p, psd := ParamsOf(f), Level(ex, c, i);
    IndexInLevels(p, ex, c, i, k);
    LeakMaskAtLeast(f, ex, c, i);
    WideLevel(ex, c, i);
    WideReach(f, psd, i, ex[k]);
    IndexAboveIff(f, 3072 - RefBand(LeakageOf(p), ex, c, i).excite, psd, i, ex[k], 168);
  }

  /** Smooth exponents fall by at most 2 a bin. */
  lemma {:induction false} SmoothFall(ex: seq<int>, j: nat, i: nat, end: nat)
    requires |ex| == 256 && end <= 256 && Ex.Smooth(ex[..end]) && j <= i < end
    ensures ex[i] - ex[j] <= 2 * (i - j)
    decreases i
  {
    if j < i {
      SmoothFall(ex, j, i - 1, end);
      assert ex[..end][i] - ex[..end][i - 1] <= 2;
    }
  }

  lemma SingleReach(f: Fields, i: nat, e: int)
    requires ValidFields(f) && i < 50 && 0 <= e <= 24
    ensures Reach(f, 128 * e, i, e) - 288 <= 160 * e - 3632 <= 208 || (e <= 2 && Reach(f, 128 * e, i, e) - 288 < 0)
  {
  }

  /** What leaks from j to i, when the exponent rises as fast as it can. */
  lemma LeakUnderRamp(ej: int, e: int, n: int, gain: int, decay: int, reach: int)
    requires 0 <= ej <= 24 && 0 <= e <= 24 && n >= 0 && e - ej <= 2 * n && gain >= 128 && decay >= 7
    requires reach <= 160 * e - 3632 || reach < 0
    ensures 128 * ej + gain + n * decay > reach
  {
    MulMonotonic(7, decay, n);
    assert n * decay == decay * n;
  }

  lemma NotLoudUnderRamp(f: Fields, ex: seq<int>, c: Channel, slow: bool, i: nat)
    requires ValidFields(f) && ValidChannel(c) && InChannel(c, i) && ValidExponents(ex) && c.start == 0 && i < 28
    requires Ex.Smooth(ex[..c.end]) && i < c.end
    ensures !Loud(ParamsOf(f), ex, c, slow, i, Reach(f, 128 * ex[i], i, ex[i]) - 288)
  {
    hide ParamsOf, BandStart, Reach, Level, Ex.Smooth;
    var p, limit := ParamsOf(f), Reach(f, 128 * ex[i], i, ex[i]) - 288;
    SteadyGains(f);
    SingleReach(f, i, ex[i]);
    forall j: nat | c.bndstart <= j <= i
      ensures !LoudAt(p, ex, c, slow, i, j, limit)
    {
      BandsAscend(j, i);
      SingleLevel(ex, c, j);
      SmoothFall(ex, j, i, c.end);
      if slow {
        MulMonotonic(0, i - j, p.sdecay);
      } else {
        LeakUnderRamp(ex[j], ex[i], i - j, p.fgain, p.fdecay, limit);
      }
    }
  }

  lemma SteadyGains(f: Fields)
    requires ValidFields(f)
    ensures var p := ParamsOf(f); p.fgain >= 128 && p.sgain >= 1040 && p.fdecay >= 7 && p.sdecay >= 0
  {
  }

  lemma SingleLevel(ex: seq<int>, c: Channel, i: nat)
    requires ValidChannel(c) && InChannel(c, i) && |ex| == 256 && c.start == 0 && i < 28
    ensures Level(ex, c, i) == 128 * ex[i]
  {
    SinglePsd(ex, c, i);
  }

  /** In the bands of one bin the least upper limit is 157 for smooth exponents, as they are
      whenever they have just been sent; OverrunReached reaches it. */
  lemma SingleIndexAtMost(f: Fields, ex: seq<int>, c: Channel, i: nat)
    requires ValidFields(f) && ValidChannel(c) && InChannel(c, i) && ValidExponents(ex) && c.start == 0 && i < 28
    requires Ex.Smooth(ex[..c.end]) && Leaks(ex, c, i) && i < c.end
    ensures IndexAt(ParamsOf(f), ex, c, i, i) <= 157
  {
    hide RefBand, ComputeMask, Level, Reach, BandStart, ParamsOf, IndexAt, Loud, Leak, Compensation, Ex.Smooth;
    var p, limit := ParamsOf(f), Reach(f, 128 * ex[i], i, ex[i]) - 288;
    IndexInLevels(p, ex, c, i, i);
    SingleLevel(ex, c, i);
    LeakMask(p, ex, c, i);
    FirstBefore(ex, c, i);
    CompensationRange(ex, c, i);
    NotLoudUnderRamp(f, ex, c, false, i);
    NotLoudUnderRamp(f, ex, c, true, i);
    LeakIsLoudest(p, ex, c, false, i, limit);
    LeakIsLoudest(p, ex, c, true, i, limit);
    IndexAboveIff(f, 3072 - RefBand(LeakageOf(p), ex, c, i).excite, 128 * ex[i], i, ex[i], 157);
  }

  /** Bins of one exponent, together. */
  lemma {:induction false} FlatBand(ex: seq<int>, e: int, lo: nat, hi: nat)
    requires lo < hi <= |ex| && forall k :: lo <= k < hi ==> ex[k] == e
    ensures RefBandPsd(ex, lo, hi) == RefPsd(e) + Growth(hi - lo)
    decreases hi
  {
    hide Latab, Growth, LogAdd;
    if hi > lo + 1 {
      FlatBand(ex, e, lo, hi - 1);
      GrowthAbove(hi - lo, RefPsd(e));
    } else {
      GrowthOne();
    }
  }

  lemma GrowthAbove(n: nat, a: int)
    requires n > 1
    ensures a + Growth(n) == LogAdd(a + Growth(n - 1), a)
  {
    hide Latab;
  }

  const LATE_CHANNEL := Channel(0, 0, 208, 0, 0)

  lemma LateIsLegal()
    ensures ValidChannel(LATE_CHANNEL) && LegalLeaks(LATE_CHANNEL) && SentRange(LATE_CHANNEL)
    ensures InChannel(LATE_CHANNEL, 46) && InChannel(LATE_CHANNEL, 48)
    ensures Lo(LATE_CHANNEL, 46) == 157 && Hi(LATE_CHANNEL, 46) == 181 && Lo(LATE_CHANNEL, 48) == 205 && Hi(LATE_CHANNEL, 48) == 208
    ensures Ex.ChannelEnd(LATE_CHANNEL.end)
  {
    assert 208 == 45 * 3 + 73;
  }

  lemma LateLevels()
    requires ValidChannel(LATE_CHANNEL) && InChannel(LATE_CHANNEL, 46) && InChannel(LATE_CHANNEL, 48)
    ensures Level(RampExponents(193), LATE_CHANNEL, 46) == -289 && Level(RampExponents(193), LATE_CHANNEL, 48) == 2971
  {
    LateIsLegal();
    GrowthTo24();
    GrowthThree();
    hide Growth, RefBandPsd, BandStart, BandEnd, Lo, Hi;
    FlatBand(RampExponents(193), 0, 157, 181);
    FlatBand(RampExponents(193), 24, 205, 208);
  }

  lemma LateReach()
    requires ValidFields(RAMP_FIELDS)
    ensures Reach(RAMP_FIELDS, 2971, 48, 24) == 466
  {
  }

  /** Band 46 is as loud as a band can be, and band 48 still hears it. */
  lemma LateIsLoud()
    requires ValidFields(RAMP_FIELDS) && ValidChannel(LATE_CHANNEL) && InChannel(LATE_CHANNEL, 46) && InChannel(LATE_CHANNEL, 48)
    ensures Loud(ParamsOf(RAMP_FIELDS), RampExponents(193), LATE_CHANNEL, false, 48, -147)
    ensures Leaks(RampExponents(193), LATE_CHANNEL, 48)
  {
    RampIsLegal();
    LateLevels();
    var p, ex := ParamsOf(RAMP_FIELDS), RampExponents(193);
    hide Level, ParamsOf, RampExponents, BandStart, BandEnd;
    assert FirstLeak(ex, LATE_CHANNEL) <= 46;
    assert LoudAt(p, ex, LATE_CHANNEL, false, 48, 46, -147);
  }

  /** With exponents and deltas that a stream can send the source reads (baptab + 156)[168],
      twenty entries past the end of the table. */
  lemma BandOverrunReached()
    ensures ValidFields(RAMP_FIELDS) && ValidChannel(LATE_CHANNEL) && LegalLeaks(LATE_CHANNEL) && SentRange(LATE_CHANNEL)
    ensures InChannel(LATE_CHANNEL, 48) && Lo(LATE_CHANNEL, 48) <= 205 < Hi(LATE_CHANNEL, 48)
    ensures IndexAt(ParamsOf(RAMP_FIELDS), RampExponents(193), LATE_CHANNEL, 48, 205) == 168
    ensures DA.Sendable(RAMP_FIELDS.deltba) && Ex.Sendable(RampExponents(193), LATE_CHANNEL.end) && Ex.Smooth(RampExponents(193))
  {
    RampIsLegal();
    LateIsLegal();
    RampIsSmooth(193);
    RampIsSendable(193, 208);
    DA.FlatIsSendable(4);
    LateExponent();
    hide *;
    LateLevels();
    LateReach();
    LateIsLoud();
    BandIndexAtMost(RAMP_FIELDS, RampExponents(193), LATE_CHANNEL, 48, 205);
    IndexAboveLoud(RAMP_FIELDS, RampExponents(193), LATE_CHANNEL, 48, 205, -147, 167);
  }

  lemma LateExponent()
    ensures RampExponents(193)[205] == 24
  {
  }

  /** A loud band alone takes the index past a limit. */
  lemma IndexAboveLoud(f: Fields, ex: seq<int>, c: Channel, i: nat, k: nat, mask: int, limit: int)
    requires ValidFields(f) && ValidChannel(c) && InChannel(c, i) && ValidExponents(ex) && Leaks(ex, c, i) && k < 256
    requires c.start > 0 || i >= 22
    requires Loud(ParamsOf(f), ex, c, false, i, mask) && limit >= 112
    requires mask <= Reach(f, Level(ex, c, i), i, ex[k]) + 32 * (148 - limit)
    ensures IndexAt(ParamsOf(f), ex, c, i, k) > limit
  {
    assert Compensation(ex, c, i) == 0;
    hide Leak, RefBand, Level, Compensation, ParamsOf, IndexAt, BandStart, ComputeMask, Reach, Loud;
    FirstBefore(ex, c, i);
    LeakIsLoudest(ParamsOf(f), ex, c, false, i, mask);
    LeakMask(ParamsOf(f), ex, c, i);
    IndexInLevels(ParamsOf(f), ex, c, i, k);
    IndexAboveIff(f, 3072 - RefBand(LeakageOf(ParamsOf(f)), ex, c, i).excite, Level(ex, c, i), i, ex[k], limit);
  }

  // ------------------------------------------------------------------ the standard's bit mask

  /** Section 7.2.2.7 of ATSC A/52 keeps bits 5 to 12 of the mask above the floor. */
  function KeptBits(m: int): int { m % 8192 / 32 * 32 }

  lemma KeptBitsRound(m: int)
    requires 0 <= m < 8192
    ensures KeptBits(m) == m / 32 * 32
  {
  }

  /** The mask of a band above the floor, before its low bits are dropped. */
  function MaskAboveFloor(p: Params, excite: int, psd: int, i: nat): int
    requires ValidParams(p) && i < 50
  {
    var raised := if psd < 3072 - p.dbknee then excite + (3072 - p.dbknee - psd) / 4 else excite;
    Max(Max(raised, 3072 - p.hth[HearingIndex(p, i)]) + 128 * p.deltba[i] - (p.floor - p.snroffset) - (3072 - p.floor), 0)
  }

  lemma AboveFloorArith(excite: int, psd: int, knee: int, hth: int, floor: int, snroffset: int, d: int)
    requires excite <= 3233 && psd >= 0 && knee >= 256 && hth >= 960 && floor <= 5120 && snroffset <= 960 + floor && d <= 4
    ensures var raised := if psd < 3072 - knee then excite + (3072 - knee - psd) / 4 else excite;
            Max(Max(raised, 3072 - hth) + 128 * d - (floor - snroffset) - (3072 - floor), 0) < 8192
  {
  }

  /** For what occurs that is rounding down to a multiple of 32, as the rule here states it:
      no mask reaches 8192 above the floor. */
  lemma MaskBitsSuffice(f: Fields, ex: seq<int>, c: Channel, i: nat)
    requires ValidFields(f) && ValidChannel(c) && InChannel(c, i) && ValidExponents(ex) && LegalLeaks(c)
    ensures var p, excite, psd := ParamsOf(f), RefBand(LeakageOf(ParamsOf(f)), ex, c, i).excite, 3072 - Level(ex, c, i);
            && 0 <= MaskAboveFloor(p, excite, psd, i) < 8192
            && RefMask(RuleOf(p), excite, psd, i) == KeptBits(MaskAboveFloor(p, excite, psd, i)) + (3072 - p.floor)
  {
    hide ParamsOf, RefBand, Level, MaskAboveFloor, RefMask, BandStart, KeptBits;
    var excite, psd := RefBand(LeakageOf(ParamsOf(f)), ex, c, i).excite, 3072 - Level(ex, c, i);
    ExciteAtMost(f, ex, c, i);
    LevelAtMost(ex, c, i);
    MaskSmall(f, excite, psd, i);
    RuleRounds(ParamsOf(f), excite, psd, i);
  }

  lemma MaskSmall(f: Fields, excite: int, psd: int, i: nat)
    requires ValidFields(f) && i < 50 && excite <= 3233 && psd >= 0
    ensures 0 <= MaskAboveFloor(ParamsOf(f), excite, psd, i) < 8192
  {
    var p := ParamsOf(f);
    OpeningFields(f);
    HearingAtLeast(f, i);
    FloorParts(f);
    FloorAtMost(f);
    hide ParamsOf, HearingIndex;
    AboveFloorArith(excite, psd, p.dbknee, p.hth[HearingIndex(p, i)], p.floor, p.snroffset, p.deltba[i]);
  }

  lemma RuleRounds(p: Params, excite: int, psd: int, i: nat)
    requires ValidParams(p) && i < 50 && MaskAboveFloor(p, excite, psd, i) < 8192
    ensures RefMask(RuleOf(p), excite, psd, i) == KeptBits(MaskAboveFloor(p, excite, psd, i)) + (3072 - p.floor)
  {
    hide HearingIndex;
    KeptBitsRound(MaskAboveFloor(p, excite, psd, i));
  }

  lemma FloorAtMost(f: Fields)
    requires ValidFields(f)
    ensures ParamsOf(f).floor <= 5120
  {
  }

  lemma ExciteAtMost(f: Fields, ex: seq<int>, c: Channel, i: nat)
    requires ValidFields(f) && ValidChannel(c) && InChannel(c, i) && ValidExponents(ex) && LegalLeaks(c)
    ensures RefBand(LeakageOf(ParamsOf(f)), ex, c, i).excite <= 3233
  {
    hide RefBand, BandStart, ParamsOf, Compensation;
    if Leaks(ex, c, i) {
      LeakMaskAtLeast(f, ex, c, i);
    } else {
      OpeningMask(ParamsOf(f), ex, c, i);
      CompensationRange(ex, c, i);
      GainsPositive(f);
    }
  }
}
