# Integer kernels of the xine codecs

This project models the integer coding and decoding kernels that xine-lib carries under
`contrib/`, and proves what the published standards and the code's own comments promise of
them. All models keep the source's branches, constants and error paths, and its integer
widths where they matter.

* **GSM 06.10 full rate** (`contrib/gsm610`). `GsmArith` is the fixed-point arithmetic on
  16-bit words and 32-bit accumulators; words and accumulators are newtypes, so every
  operation on them is also a proof that the C operation does not overflow. `ShortTerm`,
  `Lpc`, `Rpe` and `LongTerm` follow the source files; `Codec` holds the decoder over whole
  runs and the closed loop with the encoder; `GsmFrames` the two bit formats. The main
  results: the short-term filters undo each other exactly over any run unless an addition
  saturates; they solve the equations of the lattice to the nearest word, with the
  coefficients that the standard interpolates; every reflection coefficient is the ratio that
  the Schur recursion asks for; pre-emphasis undoes the de-emphasis; the decoder's 120-word history refines the unbounded recursion of the standard;
  the decoder follows the encoder for ever; the quantisers' error bounds; no overflow in any
  correlation, and the nine-lag search equals the direct one.
* **AC-3** (`contrib/a52dec`). `BitAllocation` proves that the routine, which works in a
  negated domain with a padded table, gives every bin the width of section 7.2.2 of ATSC A/52,
  stated separately in positive powers, with the standard's tables and from the single codes of
  the stream, wherever it looks inside its table; `TableLimits`
  derives from the code when it does not. `DeltaAllocation` parses the deltas. `A52Reader` is
  the bit reader, `Exponents` section 7.1.3 with the link to bit allocation, `Mantissas`
  section 7.3.5: shared code words across all channels of a block against a closed form.
  `MantissaWriter` writes them and proves that the reader gives back what was written.
  `Crc` has the checksum and the dither generator.
* **DTS** (`contrib/libdca`). `DtsReader` is the word reader in its four formats against the
  plain payload, `Huffman` the table-driven prefix decoder, with the exact condition under
  which an entry can be decoded.
* **AAC** (`contrib/libfaad`). `AacReader` is the double-word reader against the zero-padded
  bit string; the DRM checksum on top of it is in `Crc`.

`Powers`, `Seqs`, `Bits` and `ByteStrings` hold the mathematics the models share.
`dafny verify dfyconfig.toml` checks the whole project.

Where the code does not do what one would expect, the code was kept and the exact condition
proved:

* Autocorrelation (lpc.c) scales the signal down and up again; a sample of 32760 or more
  wraps to -32768 under the largest scaling (`Lpc.RestoredIff`).
* The limits in the comment of bit_allocate.c, lines 262-263, are not met at either end of
  the 305-entry table. The opening loop reaches the index -158, two entries before the table
  (`TableLimits.UnderrunReached`), and a quiet bin after loud ones reaches 157 or, in a wide
  band, 168, twenty entries past it (`TableLimits.OverrunReached`,
  `TableLimits.BandOverrunReached`); a stream can send all three, and they are the least
  limits. `TableLimits.UnderrunIff` and
  `TableLimits.OverrunIff` say exactly when, `TableLimits.ContainedIff` does so for a whole
  channel, and `BitAllocation.BitAllocate` claims the standard's width for the bins whose
  index is inside; outside, the code stores what happens to lie there.
* A coupling range with `cplendf + 3 == cplbegf` passes the guard of a52_block and is empty;
  a52_bit_allocate stores a width for the bin behind it all the same
  (`BitAllocation.CouplingChannelAdmitted`, `BitAllocation.BitAllocate`).
* An exponent 512 below the power of the bins before it in its band would index `latab`
  with 256 (`BitAllocation.TableSafeIff`). Freshly sent exponents never do
  (`Exponents.StoredAreTableSafe`), exponents of a coupling range that are kept while the
  range moves can (`BitAllocation.LatabOverrun`).
* faad_rewindbits does not clear a pending error, and faad_resetbits does; only without one
  are they interchangeable (`AacReader.ResetEqualsFlushes`).
* `bitalloc_b_4` and `bitalloc_c_4` (tables_huffman.h) are not sorted by length, and
  three of their eight entries can never be decoded (`Huffman.UnsortedTransitionModes`).
* With a silent sub-frame the scaling of long_term.c is 6, not the standard's 0; nothing
  depends on it, and the code is followed.

## Model

| member | source | states |
|---|---|---|
| GsmArith.SasrIsFloor | contrib/gsm610/private.h:50-55 | The portable right shift, which complements negative numbers, is division rounding down, for both signs and every shift |
| GsmArith.SaturateNearest | contrib/gsm610/private.h:116-122 | GSM_ADD and GSM_SUB yield the word nearest to the exact sum or difference, and the exact one if and only if it fits |
| GsmArith.AbsIsMagnitude | contrib/gsm610/private.h:124 | GSM_ABS is the magnitude, saturated |
| GsmArith.ProductsAre | contrib/gsm610/private.h:92-96 | GSM_MULT_R rounds the product to the nearest 32768th, and GSM_MULT down |
| GsmArith.ShiftsAre | contrib/gsm610/add.c:161-192 | For every count gsm_asr divides rounding down, or multiplies and truncates to a word when the count is negative, and gsm_asl is gsm_asr of the opposite count |
| GsmArith.MultRExact | contrib/gsm610/private.h:92-93 | GSM_MULT_R and gsm_mult_r give the exact rounded product for every pair of words except (-32768, -32768), where the first wraps and the second saturates |
| GsmArith.Norm32IsDoublings | contrib/gsm610/add.c:117-151 | The byte-table search of gsm_norm counts the doublings until 30 bits are reached |
| GsmArith.NormNormalises | contrib/gsm610/add.c:117-151 | For every non-zero 32-bit number, of either sign, gsm_norm is a shift that brings it into the normalised range without overflow |
| GsmArith.Div | contrib/gsm610/add.c:206-235 | For 0 <= num <= denum, denum > 0, the 15-step loop returns min(32767, floor(num * 32768 / denum)), and 0 for num = 0 |
| GsmArith.QuotientIs | contrib/gsm610/add.c:206-235 | That quotient q is the one with q * denum <= 32768 * num < (q + 1) * denum |
| ShortTerm.StageRecoversIff | contrib/gsm610/short_term.c:186-227 | One lattice stage is undone if and only if its saturating addition does not saturate |
| ShortTerm.AnalysisIsLattice | contrib/gsm610/short_term.c:186-227 | One sample solves the equations of section 4.2.10 stage by stage: with f[0] = g[0] = s, each f[i + 1] is f[i] + rp[i] * u[i] and each g[i + 1] is u[i] + rp[i] * f[i], in 32768ths, to the nearest word; f[8] is put out and g[0..7] kept |
| ShortTerm.SynthesisIsLattice | contrib/gsm610/short_term.c:268-307 | The same for synthesis, with f[i] = f[i + 1] - rp[i] * v[i]: f[8] is the input and f[0] is put out |
| ShortTerm.AnalysisSamples | contrib/gsm610/short_term.c:186-227 | A block is its samples in order, each filtered with the memory the one before it left |
| ShortTerm.SynthesisSamples | contrib/gsm610/short_term.c:268-307 | The same for synthesis |
| ShortTerm.LatticeInverse | contrib/gsm610/short_term.c:186-227 | For any number of stages, synthesis undoes analysis exactly, rounding included, when no addition on the forward path saturates; the delayed path may saturate |
| ShortTerm.LatticeInverseBack | contrib/gsm610/short_term.c:268-307 | Analysis undoes synthesis when no subtraction of the synthesis saturates |
| ShortTerm.BlockInverse | contrib/gsm610/short_term.c:186-307 | The same over any number of samples, and the two filters' memories agree after every one of them |
| ShortTerm.FrameInverse | contrib/gsm610/short_term.c:349-432 | The same over the four segments of a frame with interpolated coefficients |
| ShortTerm.RunInverse | contrib/gsm610/short_term.c:349-432 | Section 4.2.10 of GSM 06.10 over any run of frames: from equal states and without forward saturation, the decoder's filter returns exactly the samples the encoder's filter was given, and the states are equal again |
| ShortTerm.RunInverseBack | contrib/gsm610/short_term.c:349-432 | The converse direction over any run: analysis of what was synthesised gives back the residual |
| ShortTerm.InterpolationIsWeightedMean | contrib/gsm610/short_term.c:94-143 | The interpolated log-area ratios are the means with weights 3:1, 1:1, 1:3 and 0:1, at most two units low, and no addition saturates |
| ShortTerm.AnalysisFrameIs | contrib/gsm610/short_term.c:349-384 | A frame is four blocks, samples 0-12, 13-26, 27-39 and 40-159; each coefficient of the first three belongs to a mean of the ratios of the previous frame and of this one with weights 3:1, 1:1 and 1:3, those of the last to this frame alone; the state goes on with this frame's ratios |
| ShortTerm.SynthesisFrameIs | contrib/gsm610/short_term.c:391-432 | The same for synthesis |
| ShortTerm.RatiosOfLastFrame | contrib/gsm610/short_term.c:357-358 | After any run of frames the ratios that the next frame interpolates from are those of the frame sent last |
| ShortTerm.LarpToRpOddMonotone | contrib/gsm610/short_term.c:147-180 | The mapping to reflection coefficients is odd and monotone and never yields -32768 |
| ShortTerm.LarpToRpIs | contrib/gsm610/short_term.c:147-180 | It is the piecewise linear mapping of the standard, with its knees at 0.675 and 1.225, to within one unit |
| ShortTerm.AnalyseInPlace | contrib/gsm610/short_term.c:186-227 | The in-place loop over u[0..7] computes the analysis lattice |
| ShortTerm.ShortTermAnalysisFiltering | contrib/gsm610/short_term.c:186-227 | A stretch of samples is replaced by its residual, u by the new memory, nothing else changes |
| ShortTerm.SynthesiseInPlace | contrib/gsm610/short_term.c:268-307 | The downward loop over v[0..8] computes the synthesis lattice; v[8] receives a word that nothing reads |
| ShortTerm.ShortTermSynthesisFiltering | contrib/gsm610/short_term.c:268-307 | A stretch of residual becomes samples, v the new memory, nothing else changes |
| ShortTerm.DecodingOfTheCodedLogAreaRatios | contrib/gsm610/short_term.c:26-86 | The eight unrolled steps decode the eight ratios with the constants of tables 4.1 and 4.2 |
| ShortTerm.SegmentCoefficients | contrib/gsm610/short_term.c:94-180 | The four interpolations, each followed by the mapping in place: every coefficient of segment n is that of a word x with -8 <= 4x - (3 prev + cur) <= 0, -2 <= 2x - (prev + cur) <= 0, -8 <= 4x - (prev + 3 cur) <= 0, or x = cur |
| ShortTerm.GsmShortTermAnalysisFilter | contrib/gsm610/short_term.c:349-384 | The driver swaps the two banks of ratios and transforms state and frame as the value-level analysis of a frame; samples 40-159 are one block under the coefficients of this frame's decoded ratios alone |
| ShortTerm.GsmShortTermSynthesisFilter | contrib/gsm610/short_term.c:391-432 | The same for synthesis |
| Lpc.UnscaleExactIff | contrib/gsm610/lpc.c:144-149 | Scaling a sample down with rounding and up again stays within half a step, except that it wraps to -32768 exactly for samples within half a step of 32768 |
| Lpc.ScaleShiftIntervals | contrib/gsm610/lpc.c:55-63 | The scaling shift by intervals of the maximum: none below 2048, one more from each power of two on |
| Lpc.ScaleSampleRounds | contrib/gsm610/lpc.c:65-93 | Scaling divides by 2, 4, 8 or 16 with rounding to the nearest |
| Lpc.RestoredIff | contrib/gsm610/lpc.c:65-149 | Scaling down and up again leaves every sample of a frame within 8 of what it was if and only if no sample is 32760 or more |
| Lpc.CorrelationFits | contrib/gsm610/lpc.c:95-142 | No 32-bit accumulator, and no doubled one, overflows on the scaled signal |
| Lpc.CorrelationAtMostEnergy | contrib/gsm610/lpc.c:95-142 | Every correlation is at most the energy in absolute value, so normalising by the energy's shift always fits |
| Lpc.Autocorrelation | contrib/gsm610/lpc.c:30-149 | The unrolled loops compute twice the plain double sums over the scaled signal, and the samples are scaled back as RestoredIff describes |
| Lpc.NormalisedHalf | contrib/gsm610/lpc.c:202-207 | The shift marked with a question mark in the source fits 32 bits and its upper half fits a word |
| Lpc.CoefficientIsRatio | contrib/gsm610/lpc.c:219-230 | The coefficient of a step is the ratio of P[1] to P[0] in 32768ths, rounded towards 0, with the opposite sign: |r| * P[0] <= 32768 * |P[1]| < (|r| + 1) * P[0], and |r| = 32767 for equal magnitudes |
| Lpc.RatioAnnihilates | contrib/gsm610/lpc.c:226-230 | So P[1] + r * P[0] / 32768 vanishes to within one unit |
| Lpc.ReflectionsAre | contrib/gsm610/lpc.c:217-248 | At every turn the coefficient is that ratio of the rows the turn finds, the rows move by the Schur equations to the nearest word, and the first turn without energy leaves zeros for the rest |
| Lpc.ReflectionsOfAre | contrib/gsm610/lpc.c:194-248 | The same from the correlations: the first rows are the upper halves of all nine, shifted by the count that brings the energy into the upper half of a longword |
| Lpc.EnergyDecreases | contrib/gsm610/lpc.c:238-243 | One Schur step keeps the leading entry between 0 and its old value |
| Lpc.EnergiesFall | contrib/gsm610/lpc.c:217-248 | Over the whole recursion, from any rows with P[0] >= 0, P[0] never goes negative and never rises |
| Lpc.EnergiesOfFrame | contrib/gsm610/lpc.c:202-248 | So it is in every frame, where the recursion starts from a normalised energy of at least 16384 |
| Lpc.ReflectionLoop | contrib/gsm610/lpc.c:217-248 | The loop returns the coefficients of the recursion as ReflectionsAre describes them, and the values of P[0] it meets are those EnergiesFall speaks of |
| Lpc.ReflectionsProper | contrib/gsm610/lpc.c:217-248 | No reflection coefficient of the recursion is -32768, whatever the rows |
| Lpc.SchurInPlace | contrib/gsm610/lpc.c:238-247 | The inner loop, which overwrites P[m] while P[m + 1] is still old, performs one step of the recursion on all entries |
| Lpc.ReflectionCoefficients | contrib/gsm610/lpc.c:181-248 | The whole of Reflection_coefficients: silence gives zeros; otherwise the rows start from the shifted correlations and every coefficient is the ratio of the rows its turn finds, with the early exit; every call of gsm_div is legal |
| Lpc.ToLarIs | contrib/gsm610/lpc.c:253-294 | The mapping to log-area ratios is the piecewise linear one of the standard, with its knees at 0.675 and 0.95, to within one unit, and odd |
| Lpc.LarRoundTrip | contrib/gsm610/lpc.c:253-294 | Decoding the log-area ratio gives the reflection coefficient back exactly from the first knee on, and without its lowest bit below it |
| Lpc.LarRoundTripBack | contrib/gsm610/lpc.c:253-294 | What encoding makes of every decoded non-negative ratio: the ratio itself up to the second knee, less its two low bits above it, and the largest ratio at the top |
| Lpc.LarCodeFitsField | contrib/gsm610/lpc.c:300-337 | Every quantised ratio fits its field |
| Lpc.LarCodesAreFixed | contrib/gsm610/lpc.c:300-337 | Every legal code is the code of what it decodes to, for all eight ratios |
| Lpc.LarCodingError | contrib/gsm610/lpc.c:300-337 | A ratio that is not clipped is at most half a step and two units away from what its code decodes to, for all eight ratios |
| Lpc.TransformationToLogAreaRatios | contrib/gsm610/lpc.c:253-294 | The loop maps each coefficient in place |
| Lpc.QuantizationAndCoding | contrib/gsm610/lpc.c:300-337 | The eight steps quantise each ratio in place |
| Lpc.LarCodesFitFields | contrib/gsm610/lpc.c:339-356 | For every frame of 16-bit samples all eight transmitted codes fit their fields |
| Lpc.GsmLpcAnalysis | contrib/gsm610/lpc.c:339-356 | The four stages in sequence give those codes and leave the rescaled signal |
| Rpe.PeakCodeInterval | contrib/gsm610/rpe.c:287-304 | The six-bit code of a block maximum names the interval that holds it, and the 64 intervals tile 0..32767 |
| Rpe.DecodedPeakInterval | contrib/gsm610/rpe.c:226-257 | Exponent and mantissa decoded from a code are in range and give the end of that same interval |
| Rpe.PulseUnderPeak | contrib/gsm610/rpe.c:329-340 | No pulse overflows when it is shifted up by the block exponent |
| Rpe.ScaledCodeCorrect | contrib/gsm610/rpe.c:332-387 | On the shifted scale every code is in 0..7 and decodes to within half a step and one unit, for every mantissa |
| Rpe.PulseError | contrib/gsm610/rpe.c:319-388 | The reconstructed pulse differs from the pulse by at most half a quantiser step and one output unit |
| Rpe.PulseCodesAreFixed | contrib/gsm610/rpe.c:319-388 | Each of the eight codes is the code of the pulse it is decoded to, for every peak |
| Rpe.BlockError | contrib/gsm610/rpe.c:259-388 | For every block of thirteen 16-bit pulses the codes fit their fields and PulseError holds of each pulse |
| Rpe.CountExponent | contrib/gsm610/rpe.c:287-300 | The counting loop finds the block exponent |
| Rpe.XmaxcToExpMant | contrib/gsm610/rpe.c:226-257 | The loop that shifts ones into the mantissa decodes the code |
| Rpe.ApcmQuantization | contrib/gsm610/rpe.c:259-348 | The loops compute the code of the maximum and the thirteen codes |
| Rpe.ApcmInverseQuantization | contrib/gsm610/rpe.c:352-388 | The loop reconstructs the thirteen pulses |
| Rpe.BestGridUnique | contrib/gsm610/rpe.c:119-222 | At most one grid is the first of maximal energy |
| Rpe.GridEnergyIs | contrib/gsm610/rpe.c:162-222 | Sixteen times the energy that the comparisons use is the sum of the squares of the grid, up to what the shift by two drops of each sample |
| Rpe.SharedEnergy | contrib/gsm610/rpe.c:162-222 | Grids 0 and 3 share twelve samples, which is what lets the source compute one sum for both |
| Rpe.ChooseGrid | contrib/gsm610/rpe.c:162-216 | The unrolled sums and comparisons return the first grid of maximal energy |
| Rpe.RpeGridSelection | contrib/gsm610/rpe.c:119-222 | The thirteen samples of that grid are copied out |
| Rpe.SelectedPositioned | contrib/gsm610/rpe.c:392-430 | Selecting from what was positioned gives the pulses back, and every other sample is zero |
| Rpe.RpeGridPositioning | contrib/gsm610/rpe.c:392-430 | The interleaved switch and loop put the pulses on the grid and zeros elsewhere |
| Rpe.GsmRpeDecoding | contrib/gsm610/rpe.c:481-499 | The decoder's residual of a sub-frame |
| Rpe.UnrolledConvolution | contrib/gsm610/rpe.c:60-96 | The unrolled sum, which leaves out taps 2 and 8, is the convolution with all eleven entries of table 4.4, and it stays inside 32 bits for every signal |
| Rpe.WeightedIs | contrib/gsm610/rpe.c:60-113 | A weighted sample times 8192 is within 4096 of the convolution with table 4.4, unless it is the end of the range that the convolution lies beyond |
| Rpe.WeightingIsSymmetric | contrib/gsm610/rpe.c:25-115 | The filter has linear phase: it does the same to a signal and to the signal reversed in time |
| Rpe.WeightingFilter | contrib/gsm610/rpe.c:25-115 | The loop stores each sample of the recursive convolution with table 4.4, rounded to the nearest and saturated |
| Rpe.GsmRpeEncoding | contrib/gsm610/rpe.c:457-479 | The encoder sends the codes of the best grid and leaves in e[5..45] exactly what the decoder will reconstruct from them, and nothing else |
| LongTerm.ScaledBound | contrib/gsm610/long_term.c:178-201 | After the dynamic scaling every sample has at most ten bits |
| LongTerm.ScaleShiftIntervals | contrib/gsm610/long_term.c:178-196 | The scaling shift by intervals of the maximum: none below 512, one more from each power of two on |
| LongTerm.CrossFits | contrib/gsm610/long_term.c:205-241 | No partial cross-correlation, and no doubled one, leaves 32 bits |
| LongTerm.BestLagUnique | contrib/gsm610/long_term.c:205-241 | The first maximising lag (40 when none is positive) is unique |
| LongTerm.SearchLag | contrib/gsm610/long_term.c:205-243 | The direct loop over lags 40 to 120 finds it, reading only dp[-120..-1] |
| LongTerm.RegistersRotate | contrib/gsm610/long_term.c:533-579 | Overwriting the oldest of eight registers in each step keeps the last eight history samples in their slots |
| LongTerm.NineLags | contrib/gsm610/long_term.c:533-579 | The rotating registers compute nine cross-correlations at once, equal to the direct sums |
| LongTerm.CompareNine | contrib/gsm610/long_term.c:581-589 | The nine comparisons extend the best lag by nine lags |
| LongTerm.SearchLagByNines | contrib/gsm610/long_term.c:524-591 | The nine-lag search returns the same lag and maximum as the direct search |
| LongTerm.GainCodeInterval | contrib/gsm610/long_term.c:267-291 | For every correlation and power, the decision levels 6554, 16384 and 26214 around the two-bit gain code bracket the exact ratio of the two, up to one unit of the normalised words; from a ratio of 1 on the code is 3, and for no positive correlation 0 |
| LongTerm.GainOperands | contrib/gsm610/long_term.c:241-262 | The two operands of the gain code are a 32nd of the cross-correlation of the sub-frame itself at the best lag and a 32nd of the energy of the history there, up to what the shifts drop |
| LongTerm.CalculationOfTheLtpParameters | contrib/gsm610/long_term.c:161-292 | Lag and gain code of the integer version, as functions of the sub-frame and the history |
| LongTerm.LongTermAnalysisFiltering | contrib/gsm610/long_term.c:845-876 | Estimate and residual of a sub-frame |
| LongTerm.UpdateOfReconstructedResidual | contrib/gsm610/rpe.c:442-454 | The history is shifted by 40 and the reconstructed sub-frame appended, nothing else changes |
| LongTerm.GsmLongTermSynthesisFiltering | contrib/gsm610/long_term.c:922-965 | The sub-frame is reconstructed from the history at the effective lag, an illegal lag being replaced by the last legal one, and the history of 120 words is shifted |
| GsmStates.GsmState.constructor | contrib/gsm610/gsm_create.c:34-45 | All memories are zero and nrp is 40 |
| Codec.RunRefinesRecursion | contrib/gsm610/long_term.c:922-965 | Over any run of sub-frames from the start, the shifted 120-word buffer holds the last 120 outputs and every output is erp[n] plus the rounded product of out[n - lag] with 3277, 11469, 21299 or 32767 32768ths, clamped, with no buffer in sight |
| Codec.DecoderFollowsEncoder | contrib/gsm610/rpe.c:432-479 | Closed loop: for any signal and any run of sub-frames, decoding what the encoder sent puts out, sample for sample, what the encoder itself reconstructed, and the histories stay equal |
| Codec.SubframeIsCoded | contrib/gsm610/rpe.c:432-479 | What the encoder rebuilds of a sub-frame misses it by exactly what the decoded pulses miss of the residual, where the residual did not saturate, if and only if the sum does not; the pulses on the grid are within half a step and one unit of the weighted residual and all others are zero |
| Codec.DecodedIsCoded | contrib/gsm610/rpe.c:432-479 | So is every sub-frame that the decoder puts out over a run |
| Codec.EncodeSubframeInPlace | contrib/gsm610/rpe.c:432-479 | The encoder's sub-frame: predictor, RPE encoder and update over one history |
| Codec.FramesAreSubframes | contrib/gsm610/decode.c:49-62 | A run of frames moves the long-term state as the run of its sub-frames does, four to a frame |
| Codec.FramesAreStages | contrib/gsm610/decode.c:37-63 | Decoding frame by frame is the same, in every sample put out and in the whole state, as running the long-term loop over all sub-frames, then the short-term filter over all frames, then the de-emphasis over all samples |
| Codec.DecoderRunHistory | contrib/gsm610/decode.c:36-63 | Over any run of Gsm_Decoder calls from gsm_create, the history is the last 120 reconstructed samples and nrp stays in 40..120 |
| Codec.DecodeSubframes | contrib/gsm610/decode.c:49-58 | The loop over one history buffer decodes the four sub-frames in sequence |
| Codec.Postprocessing | contrib/gsm610/decode.c:19-34 | Every sample put out is a multiple of 8 and within 8 below twice its de-emphasised sample m, clamped; m[k] - round(28180 * m[k - 1] / 32768) is the input sample if and only if the addition does not saturate, and msr carries the last m to the next frame |
| Codec.SamplesOfRun | contrib/gsm610/decode.c:19-63 | The same for all samples of a run of frames, m[-1] being the msr the run starts from |
| Codec.GsmDecoder | contrib/gsm610/decode.c:36-63 | One call transforms the decoder state and yields the frame as the value-level decoder does |
| GsmFrames.PackedFields | contrib/gsm610/gsm_decode.c:18-248 | Reading consecutive fields from the low end undoes packing them, for any field widths |
| GsmFrames.BitsConserved | contrib/gsm610/gsm_decode.c:18-248 | A sound statement list loses no bit: what came in was taken or is pending |
| GsmFrames.FramesAreSound | contrib/gsm610/gsm_decode.c:18-248 | Both unrolled branches are sound: they take the same 76 fields of 260 bits from 33 and 32 bytes, with exactly 4 bits carried from the first to the second |
| GsmFrames.Execute | contrib/gsm610/gsm_decode.c:23-136 | Carrying out a sound list yields the consecutive fields of the bytes so far; after every load the accumulator holds exactly the bits loaded and not yet taken, in no more than 16 bits |
| GsmFrames.WavUnpacker.Unpack | contrib/gsm610/gsm_decode.c:18-248 | Frame f of any run is read from bit 260 f of the run's bytes; frame_index and frame_chain carry the state |
| GsmFrames.RunFieldsStay | contrib/gsm610/gsm_decode.c:18-248 | Bytes that come later change no frame already read |
| GsmFrames.PlainFrameSound | contrib/gsm610/gsm_decode.c:249-354 | The statements for a plain frame cut the 264 bits without gap or overlap |
| GsmFrames.UnpackPlain | contrib/gsm610/gsm_decode.c:249-354 | A plain frame is accepted if and only if it starts with the magic nibble, and then its fields are the consecutive ones, highest bit first |
| BitAllocation.PaddingIsClamp | contrib/a52dec/bit_allocate.c:49-72 | For the indices of its 305 entries the padded backward table is the standard's table with the address clamped to 0..63 |
| BitAllocation.LatabIsStandard | contrib/a52dec/bit_allocate.c:80-102 | latab is the negated table 7.14 of ATSC A/52, entry by entry |
| BitAllocation.BandsAreStandard | contrib/a52dec/bit_allocate.c:74-78 | The bands are adjacent, 28 of one bin, seven of 3, six of 6, four of 12 and five of 24 |
| BitAllocation.CodesPacked | contrib/a52dec/bit_allocate.c:145-157 | The fields bai and chbai hold sdcycod, fdcycod, sgaincod, dbpbcod, floorcod and fsnroffst, fgaincod in the order of the stream, and shifts and masks take each of them out |
| BitAllocation.ParamsAreStandard | contrib/a52dec/bit_allocate.c:144-158 | For all codes the parameters the routine computes are those of section 7.2.2.1 of ATSC A/52 with its own positive tables: decays, gains, knee, floor, offset, and the hearing threshold of each band for each sample rate |
| BitAllocation.IndexIsNegatedAddress | contrib/a52dec/bit_allocate.c:115-124 | In the negated domain the index is exactly minus the unclamped address of section 7.2.2 of ATSC A/52 |
| BitAllocation.WidthsAgree | contrib/a52dec/bit_allocate.c:115-124 | Hence both rules pick the same width wherever the index is one of the table's |
| BitAllocation.StoredWidth | contrib/a52dec/bit_allocate.c:158 | So what the code stores for a bin, whatever lies around the table in memory, is the standard's width if its index is one of the table's |
| BitAllocation.LeakStep | contrib/a52dec/bit_allocate.c:105-113 | UPDATE_LEAK and the choice of the smaller leak negate one step of the standard's leaky integration and its excitation |
| BitAllocation.IntegrateBand | contrib/a52dec/bit_allocate.c:235-254 | The integration of a band's psd negates the standard's logarithmic addition over all its bins |
| BitAllocation.BandPsdAtLeast | contrib/a52dec/bit_allocate.c:235-254 | The integrated power is at least that of each of the band's bins |
| BitAllocation.SmoothIsTableSafe | contrib/a52dec/bit_allocate.c:237-254 | Exponents that never fall by more than three keep every latab index within 0..255 |
| BitAllocation.LatabOverrunIff | contrib/a52dec/bit_allocate.c:241-250 | In the case -1 of the switch the index is past the end of latab exactly for a fall of 512 |
| BitAllocation.TableSafeIff | contrib/a52dec/bit_allocate.c:237-254 | A range is unsafe if and only if in some bin of its bands the code reads latab[256] |
| BitAllocation.LatabOverrun | contrib/a52dec/bit_allocate.c:237-254 | It happens in a coupling range joined from two ranges whose exponents were sent in earlier blocks and are not sent again: each half is smooth, and where they meet inside band 45 the index is 256 |
| BitAllocation.OpeningLoop | contrib/a52dec/bit_allocate.c:168-184 | The opening loop allocates the bins before the leaky integration, as the standard's first phase does, and starts the leaks |
| BitAllocation.LeakLoop | contrib/a52dec/bit_allocate.c:186-217 | The two loops with compensation follow the standard's second phase |
| BitAllocation.TailLoop | contrib/a52dec/bit_allocate.c:219-228 | The tail, which lowers the compensation by 128 a bin, does at most two passes and agrees with the standard |
| BitAllocation.FillBand | contrib/a52dec/bit_allocate.c:259-265 | The do-while over a band stores at its first bin before it looks at the end |
| BitAllocation.BandLoop | contrib/a52dec/bit_allocate.c:232-266 | The band loop ends, with the band index below 50, and every band has what its index selects, also when it starts on an empty range |
| BitAllocation.BitAllocate | contrib/a52dec/bit_allocate.c:126-267 | Every bin from start to end - 1 whose index is one of the 305 of the table gets the width of section 7.2.2 of ATSC A/52, under the parameters that the standard derives from the codes in the fields; a bin whose index is outside gets what lies there; no other bin changes; an empty range counts as one bin |
| BitAllocation.NoDeltasAreZero | contrib/a52dec/bit_allocate.c:151-155 | The 50 entries that stand in for absent deltas are zero |
| TableLimits.OverrunIff | contrib/a52dec/bit_allocate.c:186-266 | In every phase after the opening loop the index is past the end of the table, above 148, if and only if some earlier band (or the start of a coupling channel), its level raised by the gain and by what has leaked away since, is still low enough in the negated domain to reach under the bin: an explicit condition on fields, exponents and leaks |
| TableLimits.UnderrunIff | contrib/a52dec/bit_allocate.c:168-184 | In the opening loop the index stays within -158..90; it is below -156 if and only if floor, gain, delta and both offsets are at their extremes and the bin has exponent 0 after a fall by exactly 2 one or two bins before and no rise since; then it is -157 or -158 |
| TableLimits.ContainedIff | contrib/a52dec/bit_allocate.c:126-267 | All lookups of a channel are inside the table if and only if there is no overrun in any bin and no underrun in bins 1 and 2 |
| TableLimits.LeakIsLoudest | contrib/a52dec/bit_allocate.c:105-113 | A leak is the minimum, over all bands since the leaks began and over the start, of level plus gain plus the decay since |
| TableLimits.IndexAboveIff | contrib/a52dec/bit_allocate.c:115-124 | COMPUTE_MASK and the exponent exceed a limit if and only if the mask before the knee is at most a threshold in which the term of dbknee appears |
| TableLimits.LevelAtLeast | contrib/a52dec/bit_allocate.c:235-255 | minpsd: no band of up to 24 bins integrates to less than -289 |
| TableLimits.LeakIndexAtMost | contrib/a52dec/bit_allocate.c:186-266 | Upper bounds for all legal fields, exponents, ranges and leaks: 160 while the bands have one bin, 169 in the band loop |
| TableLimits.SingleIndexAtMost | contrib/a52dec/bit_allocate.c:186-228 | For exponents whose neighbours differ by at most 2, as all freshly sent ones do, 157 is an upper limit in the bands of one bin, and the least one, since OverrunReached reaches it |
| TableLimits.BandIndexAtMost | contrib/a52dec/bit_allocate.c:232-266 | For the ranges that the decoder allocates 168 is an upper limit in the bands of several bins, whatever the exponents, and the least one, since BandOverrunReached reaches it |
| TableLimits.MaskBitsSuffice | contrib/a52dec/bit_allocate.c:115-124 | The bit mask of section 7.2.2.7 of ATSC A/52 keeps all that matters: no mask reaches 8192 above the floor, so the rule may round down to a multiple of 32 instead |
| TableLimits.OverrunNeeds | contrib/a52dec/bit_allocate.c:186-266 | There is no overrun with a coarse offset of 11 or more, nor in a bin whose exponent and delta sum to 22 or less |
| TableLimits.OverrunReached | contrib/a52dec/bit_allocate.c:262-263 | With smooth exponents and deltas that a stream can send the code reads entry 157 after the middle, nine past the end of the table |
| TableLimits.BandOverrunReached | contrib/a52dec/bit_allocate.c:262-263 | And in the band loop entry 168, twenty past the end |
| TableLimits.LeakIndexAtLeast | contrib/a52dec/bit_allocate.c:186-266 | In every phase that takes its mask from the leaks, for all legal parameters, the index is at least -156 |
| TableLimits.UnderrunReached | contrib/a52dec/bit_allocate.c:262-263 | An instance of the underrun with exponents and deltas that a stream can send: exponents 2, 0, 0 with extreme fields look up -158 |
| BitAllocation.CouplingChannelAdmitted | contrib/a52dec/parse.c:595-617 | The allocation admits every coupling range that the guard of a52_block lets through; the empty one, and only that, is allocated as one bin past its end |
| BitAllocation.FullBandwidthChannelValid | contrib/a52dec/parse.c:679-691 | Every range of a full-bandwidth channel is admitted |
| DeltaAllocation.ParseDeltba | contrib/a52dec/parse.c:266-291 | parse_deltba succeeds if and only if every segment is empty or ends before band 49, and then each band has the delta of the one segment it lies in and 0 elsewhere; otherwise it stops at the first segment that does not fit |
| DeltaAllocation.SegmentsDisjoint | contrib/a52dec/parse.c:266-291 | No band lies in two segments |
| DeltaAllocation.FitsIff | contrib/a52dec/parse.c:281 | A segment fits if and only if it covers no band from 49 on |
| DeltaAllocation.PaintedIsLegal | contrib/a52dec/parse.c:266-291 | What it leaves, on failure too, is within the -4..4 that bit allocation assumes |
| DeltaAllocation.SegmentRead | contrib/a52dec/parse.c:266-291 | Segments written in 5, 4 and 3 bits are read back as they were |
| DeltaAllocation.FlatIsSendable | contrib/a52dec/parse.c:266-291 | Four segments leave the same delta in all of the 49 bands that can have one |
| A52Reader.Reader.Get | contrib/a52dec/bitstream.h:39-51 | Any read of 1 to 32 bits returns the next field of the byte string, through the fast path or across a word |
| A52Reader.Reader.GetSigned | contrib/a52dec/bitstream.h:53-65 | The same in two's complement |
| A52Reader.Reader.constructor | contrib/a52dec/bitstream.c:34-42 | A frame may start at any byte of a word |
| A52Reader.AsrBits | contrib/a52dec/bitstream.h:53-65 | An arithmetic shift of the word in hand keeps the top bits with their sign |
| A52Reader.PayloadIsBytes | contrib/a52dec/bitstream.h:28-33 | What is read is the bytes of the buffer in order, the most significant bit of each one first |
| Exponents.LegalIff | contrib/a52dec/parse.c:206-264 | The code's running test means that every exponent is in 0..24; then neighbours differ by at most 2 |
| Exponents.StoredAt | contrib/a52dec/parse.c:206-264 | Exponent m + 1 stands at positions m * copies to m * copies + copies - 1 |
| Exponents.StoredAreSmooth | contrib/a52dec/parse.c:206-264 | All stored exponents are in 0..24 and each differs from the one before by at most 2, the absolute exponent included |
| Exponents.ExponentWritten | contrib/a52dec/parse.c:206-264 | Round trip: a smooth list of exponents, written as three differences in a seven-bit code, is read back as it was |
| Exponents.SmoothIsSent | contrib/a52dec/parse.c:206-264 | So every smooth list of legal exponents is stored by some stream, and parse_exponents succeeds on it |
| Exponents.ParseExponents | contrib/a52dec/parse.c:206-264 | parse_exponents succeeds if and only if every exponent of section 7.1.3 of ATSC A/52 is legal, and then has stored exactly those; on failure too nothing outside the range changes and nothing illegal is stored |
| Exponents.GroupsAreStandard | contrib/a52dec/parse.c:695-717 | The numbers of groups are those of the standard for strategies D15, D25 and D45, which store an exponent once, twice and four times |
| Exponents.ChannelGroupsCover | contrib/a52dec/parse.c:706-717 | The number of groups covers bins 1 to endmant - 1, by less than one group too many, inside the array |
| Exponents.CouplingGroupsFill | contrib/a52dec/parse.c:695-705 | The coupling groups fill the coupling range exactly |
| Exponents.StoredAreTableSafe | contrib/a52dec/parse.c:695-726 | Freshly sent exponents keep every latab index of bit allocation within 0..255 |
| Exponents.ChannelExponents | contrib/a52dec/parse.c:706-726 | A channel's exponents are read and stored, and on success the channel is ready for bit allocation |
| Exponents.CouplingExponents | contrib/a52dec/parse.c:695-705 | The same for the coupling channel |
| Mantissas.TotalBits | contrib/a52dec/parse.c:330-549 | The bits of any list of allocations are 5 ceil(n1/3) + 7 ceil(n2/3) + 7 ceil(n4/2) plus the plain widths |
| Mantissas.MantissaOfPrefix | contrib/a52dec/parse.c:330-549 | A mantissa does not depend on what is read later |
| Mantissas.AllocationIsBap | contrib/a52dec/bit_allocate.c:57-60 | As long as its lookups stay inside the table, bit allocation hands out only the widths that mantissa decoding knows |
| Mantissas.NextMantissaOf | contrib/a52dec/parse.c:348-421 | One pass of the switch yields the mantissa of the closed form (code word of the right group, right digit) and keeps the quantiser set holding exactly what was read and not used |
| Mantissas.CoeffGet | contrib/a52dec/parse.c:330-422 | A channel's mantissas are those of the closed form, from wherever the block has got to |
| Mantissas.BandReach | contrib/a52dec/parse.c:436-444 | The loop over the structure bits finds the end of a coupling band |
| Mantissas.CoeffGetCoupling | contrib/a52dec/parse.c:424-549 | The coupling bands tile the coupling range; each bin has its mantissa and the band whose coordinate scales it; in an empty range nothing is read |
| Mantissas.BlockMantissas | contrib/a52dec/parse.c:803-869 | Across all channels, coupling and LFE of a block, every mantissa is the digit that section 7.3.5 of ATSC A/52 assigns to it, bins above each range are zero, and exactly the bits of TotalBits are read |
| MantissaWriter.ThreeOfThree | contrib/a52dec/tables.h:49-72 | A word 9a + 3b + c of class -1 gives the levels a, b and c, in that order; level 0 is -2/3 of 32768 and neighbours are 65536 / 3 apart |
| MantissaWriter.ThreeOfFive | contrib/a52dec/tables.h:78-109 | A word 25a + 5b + c of class -2 gives the levels a, b and c of five |
| MantissaWriter.TwoOfEleven | contrib/a52dec/tables.h:122-166 | A word 11a + b of class -3 gives the levels a and b of eleven |
| MantissaWriter.MantissaRead | contrib/a52dec/parse.c:330-422 | Round trip: of any list of levels and words written in reading order, groups at their first member, every mantissa is read as it was meant |
| MantissaWriter.OrderOfBlock | contrib/a52dec/parse.c:803-869 | The reading order of a block: each channel up to its endmant, the coupling range behind the first coupled channel and nowhere else, the LFE channel last |
| MantissaWriter.BlockRead | contrib/a52dec/parse.c:803-869 | So it is in every channel, the coupling range and the LFE channel of a block that BlockMantissas has read |
| Crc.CrcLutIs | contrib/a52dec/crc.c:28-62 | Each of the 256 entries is eight shifts of its index with polynomial 0x8005 |
| Crc.Crc16Block | contrib/a52dec/crc.c:64-73 | The table-driven loop is the bit-serial register over all bits of the block |
| Crc.ChecksumCancels | contrib/a52dec/crc.c:64-73 | A message followed by its checksum has checksum 0, for every polynomial |
| Crc.SingleErrorDetected | contrib/a52dec/crc.c:64-73 | Changing any single bit of any message changes the checksum, for every polynomial with a constant term |
| Crc.BurstErrorDetected | contrib/a52dec/crc.c:64-73 | Changing anything inside a burst of up to sixteen bits of any message changes the checksum, for every polynomial with a constant term |
| Crc.DitherLutIs | contrib/a52dec/tables.h:215-248 | Each entry of the dither table is eight shifts of its index with 0xa011 |
| Crc.Dither.DitherGen | contrib/a52dec/parse.c:304-313 | The register makes eight shifts a call and, seeded with 1, never becomes 0 |
| Crc.TableG8Is | contrib/libfaad/bits.h:299-332 | Each entry of the DRM table is eight shifts of its index with the 8-bit polynomial |
| Crc.FaadCheckCrc | contrib/libfaad/bits.h:334-368 | The mixed byte and bit loop accepts if and only if the bit-serial register over all len bits equals the inverted byte sent; with an error pending the reader stands still between bytes, and the bits checked are those of the first byte over and over |
| DtsReader.KeptIsPayload | contrib/libdca/bitstream.c:51-67 | In all four formats, byte swapping and removal of the unused bits leave exactly a word's payload bits |
| DtsReader.PayloadOfPacked | contrib/libdca/bitstream.c:51-67 | Packing a payload in any of the four formats, whatever fills the unused bits, and taking it out again is the identity; so a 14-bits-in-16 stream reads like the 16-bit packing of the same payload |
| DtsReader.Reader.constructor | contrib/libdca/bitstream.c:37-49 | After initialisation nothing has been delivered |
| DtsReader.Reader.GetBh | contrib/libdca/bitstream.c:78-115 | A read across the end of a word, or across two ends of 28-bit words, returns the next bits of the payload |
| DtsReader.Reader.Get | contrib/libdca/bitstream.h:57-70 | Any read of 1 to 32 bits returns the next field of the payload |
| DtsReader.ReadFields | contrib/libdca/bitstream.h:57-70 | Any sequence of reads of 1 to 32 bits returns the consecutive fields of what the buffer begins with |
| DtsReader.PackingsReadAlike | contrib/libdca/bitstream.c:37-115 | A payload of any length, packed 16 in 16 and 14 in 16, in either byte order and padded with anything, gives the same results under every sequence of reads up to its end |
| Huffman.DecodedIff | contrib/libdca/tables_huffman.h:1050-1072 | With a prefix-free table, an entry's codeword is decoded to its value with exactly its bits if and only if no earlier entry is longer and no other length stands between it and the first entry of its length |
| Huffman.SortedIsReachable | contrib/libdca/tables_huffman.h:1050-1072 | In a table sorted by length that holds of every entry |
| Huffman.UnreachableGivesZero | contrib/libdca/tables_huffman.h:1050-1072 | The codeword of any other entry gives 0 after one bit more than the longest length |
| Huffman.DecodeExplained | contrib/libdca/tables_huffman.h:1050-1072 | On any bits decoding stops after at most one bit more than the longest length, with 0 or with the value of an entry whose codeword was read |
| Huffman.CodewordsDecode | contrib/libdca/tables_huffman.h:1050-1072 | Any concatenation of codewords decodes to exactly its values and uses exactly its bits |
| Huffman.InverseQ | contrib/libdca/tables_huffman.h:1050-1072 | The nested loops over the reader return the decoded value and move by exactly the bits used |
| Huffman.TransitionTables | contrib/libdca/tables_huffman.h:280-302 | The four tables of transition modes are prefix-free; two of them are sorted |
| Huffman.SortedTransitionModes | contrib/libdca/tables_huffman.h:280-302 | The sorted ones deliver every mode |
| Huffman.UnsortedTransitionModes | contrib/libdca/tables_huffman.h:286-296 | bitalloc_b_4 never delivers mode 3, bitalloc_c_4 never modes 2 and 3: their codewords give 0 after four bits |
| AacReader.WordWindow | contrib/libfaad/bits.h:94-150 | A word loaded whole or in part is a word of the zero-padded bit string |
| AacReader.BitFile.constructor | contrib/libfaad/bits.c:38-85 | An empty buffer is an error; otherwise reading starts at bit 0 |
| AacReader.BitFile.GetProcessedBits | contrib/libfaad/bits.c:93-96 | The position in bits, modulo 2^32 |
| AacReader.BitFile.ShowBits | contrib/libfaad/bits.h:152-163 | The next bits of the zero-padded string, within one word or across two |
| AacReader.BitFile.FlushBits | contrib/libfaad/bits.h:165-177 | The position moves by the bits flushed, and does not move after an error; loads stay inside the buffer |
| AacReader.BitFile.GetBits | contrib/libfaad/bits.h:180-196 | The next bits, and the position moves past them |
| AacReader.BitFile.Get1Bit | contrib/libfaad/bits.h:198-217 | One bit; it may leave the first word used up, and it moves even after an error while that word has bits |
| AacReader.BitFile.RewindBits | contrib/libfaad/bits.c:134-162 | The position is 0 again |
| AacReader.BitFile.ResetBits | contrib/libfaad/bits.c:165-202 | The position is the one asked for, for every target whose word starts inside the buffer or at its end |
| AacReader.SamePositionSameState | contrib/libfaad/bits.c:134-202 | The position determines every field |
| AacReader.ResetEqualsFlushes | contrib/libfaad/bits.c:134-202 | A reset to k leaves in every field what a rewind and any list of flushes that sum to k leave; with an error pending, which only the reset clears, that is so only for k = 0 |
| AacReader.BitFile.RewindAndFlush | contrib/libfaad/bits.c:134-162 | A rewind and any flushes move to the sum of the flushes, or to 0 with an error pending |
| AacReader.BitFile.ByteAlign | contrib/libfaad/bits.c:98-108 | On to the next byte boundary, by fewer than eight bits |
| AacReader.BitFile.GetBitBuffer | contrib/libfaad/bits.c:204-227 | The next bits as bytes, the last one padded with zeros on the right |

## Left out

- Codec.EncodeSubframeInPlace: code.c, preprocess.c and gsm_encode.c are not part of the repository, so the encoder's sub-frame is composed from the functions that are there, in the order their comments and prototypes give, and there is no frame-level encoder.
- LongTerm.NineLags: the source multiplies floats here; the model uses exact integers, since rounding is not the point of the search.
- LongTerm.CalculationOfTheLtpParameters: the variants with LTP_CUT, with FAST and with floating-point multiplication are not modelled.
- GsmFrames.Execute: the unrolled statements are data that a loop carries out; the fields come as one list in stream order instead of five arrays.
- GsmFrames.WavUnpacker.Unpack: wav_fmt, frame_index and frame_chain are kept in an object of their own, and the call of the decoder that follows is Codec.GsmDecoder.
- GsmFrames.UnpackPlain: the two parts of a field that crosses a byte are added, since they have no bit in common; the pointer's position after the last field is not observed.
- ShortTerm.GsmShortTermAnalysisFilter: the FAST variants of the filters work on floats and are not modelled.
- BitAllocation.BitAllocate: what lies around the table in memory is an arbitrary function of the index; an index of 256 into latab is excluded by the precondition TableSafe; the parameters that a52_block prepares are arguments; the standard's bit mask is stated as rounding down to a multiple of 32, which TableLimits.MaskBitsSuffice shows to be the same.
- TableLimits.LeakIndexAtMost: the bounds are for exponents and ranges that need not come from a stream; for those that do the least limits are those of SingleIndexAtMost and BandIndexAtMost.
- A52Reader.Reader.Get: the host is little-endian, the buffer is an array of whole words, and a read must leave at least one bit, because the reader fetches ahead; the first fetch, which shifts by 32 and drops the result, is written without that shift.
- Exponents.ParseExponents: the tables exp_1, exp_2 and exp_3 are given by the digits they list.
- Exponents.ChannelExponents: exponents that are reused after the coupling range has moved are not covered; the code does not check for this.
- Mantissas.CoeffGet: scaling by exponent and level is floating point and left out, and with it the noise in bins without bits, whose generator is Crc.Dither.
- Mantissas.BlockMantissas: scaling by exponent, gain and coupling coordinate, dither noise in bins without bits, rematrixing and the transform are floating point; the quantiser tables are given by the exact levels they list, as reals.
- Mantissas.CoeffGetCoupling: the mantissas and band numbers go to one array for all coupled channels.
- Crc.Dither.DitherGen: the cast to a signed 16-bit number is not modelled; that the generator runs through all non-zero states is not claimed.
- DtsReader.Reader.Get: the host is little-endian and the buffer starts on a word boundary; a read must leave at least one bit.
- Huffman.InverseQ: the buffer must hold one bit more than the longest codeword; the theorem is stated for any table and instantiated on the tables of transition modes only.
- AacReader.BitFile.ShowBits: a read of 32 bits with a used-up first word would shift by the word's width and is excluded.
- AacReader.BitFile.ResetBits: targets beyond the end of the buffer make the source's unsigned byte count wrap; they are excluded by the precondition.
- The reversed reader of libfaad, the HCR helpers, and the header and side-information parsers of all three decoders other than parse_exponents and parse_deltba.
- Downmixing, transforms, filter banks and all other floating-point code under contrib.
- Debug printing, memory allocation and release, and options that only select one of several variants.
- Everything outside contrib: the shims in lib, the command-line tools in misc, and the headers in include.
