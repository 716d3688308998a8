/**
 Bit allocation of AC-3 (bit_allocate.c; section 7.2.2 of ATSC A/52).

 The routine works on negated values: 128 * exp stands for the power 3072 - 128 * exp of
 the standard, thresholds and masks are complemented likewise, clamps are replaced by a
 padded table, and the four stages of the standard (band powers, excitation, mask,
 allocation) are fused into five loops.  `Ref...` functions state the standard's rule in
 positive powers, one band at a time; the methods are the loops of the source, and each
 is proved to leave exactly the allocation of the rule.
 */
module BitAllocation {
  import opened Bits
  import opened Powers

  // ------------------------------------------------------------------ tables

  /** Hearing thresholds, complemented, for the three sample rates. */
  const HTH_48000: seq<int> :=
    [1840, 1840, 1984, 2048, 2080, 2112, 2128, 2128, 2144, 2144] +
    [2144, 2144, 2144, 2160, 2160, 2160, 2176, 2176, 2192, 2192] +
    [2208, 2208, 2224, 2224, 2240, 2240, 2256, 2272, 2288, 2304] +
    [2320, 2320, 2320, 2320, 2304, 2288, 2240, 2160, 2080, 2016] +
    [1952, 1904, 1888, 1952, 1984, 1984, 1760, 1024, 960, 960]

  const HTH_44100: seq<int> :=
    [1808, 1808, 1952, 2032, 2080, 2096, 2112, 2128, 2128, 2144] +
    [2144, 2144, 2144, 2144, 2160, 2160, 2160, 2176, 2176, 2176] +
    [2192, 2192, 2208, 2208, 2224, 2224, 2240, 2240, 2272, 2288] +
    [2304, 2320, 2320, 2320, 2320, 2304, 2272, 2224, 2160, 2080] +
    [2016, 1968, 1888, 1904, 1952, 1984, 1920, 1488, 960, 960]

  const HTH_32000: seq<int> :=
    [1664, 1664, 1872, 1968, 2016, 2064, 2080, 2096, 2112, 2128] +
    [2128, 2128, 2144, 2144, 2144, 2144, 2144, 2144, 2144, 2144] +
    [2160, 2160, 2160, 2160, 2176, 2176, 2176, 2192, 2208, 2224] +
    [2240, 2256, 2272, 2288, 2304, 2320, 2320, 2320, 2304, 2288] +
    [2256, 2224, 2112, 2032, 1936, 1888, 1952, 1984, 1968, 1824]

  /** End of each band from the twentieth on. */
  const BNDTAB: seq<int> :=
    [21, 22, 23, 24, 25, 26, 27, 28, 31, 34,
     37, 40, 43, 46, 49, 55, 61, 67, 73, 79,
     85, 97, 109, 121, 133, 157, 181, 205, 229, 253]

  const SLOWGAIN: seq<int> := [0x540, 0x4d8, 0x478, 0x410]
  const DBPBTAB: seq<int> := [0xc00, 0x500, 0x300, 0x100]
  const FLOORTAB: seq<int> := [0x910, 0x950, 0x990, 0x9d0, 0xa10, 0xa90, 0xb10, 0x1400]

  /** latab, run by run. */
  function Latab(i: int): (r: int)
    requires 0 <= i < 256
    ensures -64 <= r <= 0
    ensures i == 255 ==> r == 0
  {
    if i < 12 then i - 64
    else if i < 14 then -52 else if i < 15 then -51 else if i < 16 then -50 else if i < 17 then -49
    else if i < 18 then -48 else if i < 20 then -47 else if i < 21 then -46 else if i < 22 then -45
    else if i < 24 then -44 else if i < 25 then -43 else if i < 26 then -42 else if i < 28 then -41
    else if i < 29 then -40 else if i < 30 then -39 else if i < 32 then -38 else if i < 33 then -37
    else if i < 35 then -36 else if i < 37 then -35 else if i < 38 then -34 else if i < 40 then -33
    else if i < 42 then -32 else if i < 43 then -31 else if i < 45 then -30 else if i < 47 then -29
    else if i < 49 then -28 else if i < 51 then -27 else if i < 53 then -26 else if i < 55 then -25
    else if i < 57 then -24 else if i < 59 then -23 else if i < 61 then -22 else if i < 64 then -21
    else if i < 66 then -20 else if i < 69 then -19 else if i < 72 then -18 else if i < 75 then -17
    else if i < 78 then -16 else if i < 81 then -15 else if i < 84 then -14 else if i < 88 then -13
    else if i < 92 then -12 else if i < 96 then -11 else if i < 101 then -10 else if i < 106 then -9
    else if i < 112 then -8 else if i < 118 then -7 else if i < 126 then -6 else if i < 134 then -5
    else if i < 145 then -4 else if i < 159 then -3 else if i < 178 then -2 else if i < 210 then -1
    else 0
  }

  /** Table 7.14 of the standard, by rows of 32: what two powers add up to above the larger
      one, by half of what lies between them. */
  function RefLatab(i: int): int
    requires 0 <= i < 256
  {
    if i < 32 then [64, 63, 62, 61, 60, 59, 58, 57, 56, 55, 54, 53, 52, 52, 51, 50, 49, 48, 47, 47, 46, 45, 44, 44, 43, 42, 41, 41, 40, 39, 38, 38][i]
    else if i < 64 then [37, 36, 36, 35, 35, 34, 33, 33, 32, 32, 31, 30, 30, 29, 29, 28, 28, 27, 27, 26, 26, 25, 25, 24, 24, 23, 23, 22, 22, 21, 21, 21][i - 32]
    else if i < 96 then [20, 20, 19, 19, 19, 18, 18, 18, 17, 17, 17, 16, 16, 16, 15, 15, 15, 14, 14, 14, 13, 13, 13, 13, 12, 12, 12, 12, 11, 11, 11, 11][i - 64]
    else if i < 128 then [10, 10, 10, 10, 10, 9, 9, 9, 9, 9, 8, 8, 8, 8, 8, 8, 7, 7, 7, 7, 7, 7, 6, 6, 6, 6, 6, 6, 6, 6, 5, 5][i - 96]
    else if i < 160 then [5, 5, 5, 5, 5, 5, 4, 4, 4, 4, 4, 4, 4, 4, 4, 4, 4, 3, 3, 3, 3, 3, 3, 3, 3, 3, 3, 3, 3, 3, 3, 2][i - 128]
    else if i < 192 then [2, 2, 2, 2, 2, 2, 2, 2, 2, 2, 2, 2, 2, 2, 2, 2, 2, 2, 1, 1, 1, 1, 1, 1, 1, 1, 1, 1, 1, 1, 1, 1][i - 160]
    else if i < 224 then [1, 1, 1, 1, 1, 1, 1, 1, 1, 1, 1, 1, 1, 1, 1, 1, 1, 1, 0, 0, 0, 0, 0, 0, 0, 0, 0, 0, 0, 0, 0, 0][i - 192]
    else 0
  }

  lemma LatabIsStandard(i: int)
    requires 0 <= i < 256
    ensures Latab(i) == -RefLatab(i)
  {
    hide Latab, RefLatab;
    if i < 32 {
      LatabRow0(i);
    } else if i < 64 {
      LatabRow1(i);
    } else if i < 96 {
      LatabRow2(i);
    } else if i < 128 {
      LatabRow3(i);
    } else if i < 160 {
      LatabRow4(i);
    } else if i < 192 {
      LatabRow5(i);
    } else {
      LatabRow6(i);
    }
  }

  lemma LatabRow0(i: int)
    requires 0 <= i < 32
    ensures Latab(i) == -RefLatab(i)
  {
  }

  lemma LatabRow1(i: int)
    requires 32 <= i < 64
    ensures Latab(i) == -RefLatab(i)
  {
  }

  lemma LatabRow2(i: int)
    requires 64 <= i < 96
    ensures Latab(i) == -RefLatab(i)
  {
  }

  lemma LatabRow3(i: int)
    requires 96 <= i < 128
    ensures Latab(i) == -RefLatab(i)
  {
  }

  lemma LatabRow4(i: int)
    requires 128 <= i < 160
    ensures Latab(i) == -RefLatab(i)
  {
  }

  lemma LatabRow5(i: int)
    requires 160 <= i < 192
    ensures Latab(i) == -RefLatab(i)
  {
  }

  lemma LatabRow6(i: int)
    requires 192 <= i < 256
    ensures Latab(i) == -RefLatab(i)
  {
  }

  /** The standard's table of mantissa widths, addresses 0 to 63. */
  function RefBaptab(address: int): int
    requires 0 <= address <= 63
  {
    if address < 1 then 0 else if address < 6 then -1 else if address < 8 then -2
    else if address < 11 then 3 else if address < 13 then -3 else if address < 15 then 4
    else if address < 19 then 5 else if address < 23 then 6 else if address < 27 then 7
    else if address < 31 then 8 else if address < 35 then 9 else if address < 39 then 10
    else if address < 43 then 11 else if address < 47 then 12 else if address < 55 then 14
    else 16
  }

  /** baptab, run by run: 93 entries of padding, the table backwards, 148 of padding. */
  function Baptab(i: int): int
    requires 0 <= i < 305
  {
    if i < 102 then 16 else if i < 110 then 14 else if i < 114 then 12 else if i < 118 then 11
    else if i < 122 then 10 else if i < 126 then 9 else if i < 130 then 8 else if i < 134 then 7
    else if i < 138 then 6 else if i < 142 then 5 else if i < 144 then 4 else if i < 146 then -3
    else if i < 149 then 3 else if i < 151 then -2 else if i < 156 then -1 else 0
  }

  /** The indices for which (baptab + 156)[i] is an entry of the table. */
  predicate InTable(i: int) { -156 <= i <= 148 }

  /** (baptab + 156)[i].  Outside the table the code reads what happens to lie there, which
      is all that `mem` stands for. */
  function Lookup(mem: int -> int, i: int): int {
    if InTable(i) then Baptab(156 + i) else mem(i)
  }

  /** Inside the table the padding takes the place of the clamp. */
  lemma PaddingIsClamp(i: int)
    requires InTable(i)
    ensures Baptab(156 + i) == RefBaptab(if -i < 0 then 0 else if -i > 63 then 63 else -i)
  {
  }

  // ------------------------------------------------------------------ parameters

  /** The fields of the stream that steer the allocation of one channel. */
  datatype Fields = Fields(fscod: int, halfrate: nat, bai: int, csnroffst: int, chbai: int, deltba: seq<int>)

  predicate ValidFields(f: Fields) {
    && 0 <= f.fscod <= 2 && f.halfrate <= 3 && 0 <= f.bai < 2048 && 0 <= f.csnroffst < 64 && 0 <= f.chbai < 128
    && |f.deltba| == 50 && forall i :: 0 <= i < 50 ==> -4 <= f.deltba[i] <= 4
  }

  /** What the routine computes from them before its loops. */
  datatype Params = Params(halfrate: nat, fdecay: int, fgain: int, sdecay: int, sgain: int, dbknee: int,
                           floor: int, snroffset: int, hth: seq<int>, deltba: seq<int>)

  predicate ValidParams(p: Params) {
    p.halfrate <= 3 && |p.hth| == 50 && |p.deltba| == 50
  }

  function HalvingFactor(halfrate: nat): (d: int)
    ensures d > 0
  {
    if halfrate == 0 then 1 else if halfrate == 1 then 2 else if halfrate == 2 then 4 else 8
  }

  function ParamsOf(f: Fields): (p: Params)
    requires ValidFields(f)
    ensures ValidParams(p)
  {
    var d := HalvingFactor(f.halfrate);
    var floor := FLOORTAB[f.bai % 8];
    Params(f.halfrate,
           (63 + 20 * (f.bai / 128 % 4)) / d,
           128 + 128 * (f.chbai % 8),
           (15 + 2 * (f.bai / 512)) / d,
           SLOWGAIN[f.bai / 32 % 4],
           DBPBTAB[f.bai / 8 % 4],
           floor,
           960 - 64 * f.csnroffst - 4 * (f.chbai / 8) + floor,
           if f.fscod == 0 then HTH_48000 else if f.fscod == 1 then HTH_44100 else HTH_32000,
           f.deltba)
  }

  function HearingIndex(p: Params, i: nat): (k: nat)
    requires i < 50
    ensures k < 50
  {
    i / HalvingFactor(p.halfrate)
  }

  /** The channel: the bins start to end - 1, the band that holds the first of them, and
      the leaks a coupling channel starts from, as positive powers. */
  datatype Channel = Channel(bndstart: nat, start: nat, end: nat, fast: int, slow: int)

  function BandStart(i: nat): nat
    requires i < 50
  {
    if i <= 20 then i else BNDTAB[i - 21] as nat
  }

  function BandEnd(i: nat): (e: nat)
    requires i < 50
    ensures e > BandStart(i)
  {
    if i < 20 then i + 1 else BNDTAB[i - 20] as nat
  }

  /** The bands of table 7.12: 28 of one bin, then seven of 3, six of 6, four of 12 and five
      of 24. */
  function BandWidth(i: nat): nat {
    if i < 28 then 1 else if i < 35 then 3 else if i < 41 then 6 else if i < 45 then 12 else 24
  }

  function WidthsBefore(i: nat): nat {
    if i == 0 then 0 else WidthsBefore(i - 1) + BandWidth(i - 1)
  }

  lemma {:induction false} BandsAreStandard(i: nat)
    requires i < 50
    ensures BandStart(i) == WidthsBefore(i) && BandEnd(i) == BandStart(i) + BandWidth(i)
  {
    if i > 0 {
      BandsAreStandard(i - 1);
      BandsAdjoin(i);
    }
  }

  lemma BandsAdjoin(i: nat)
    requires 0 < i < 50
    ensures BandStart(i) == BandEnd(i - 1) && BandEnd(i) == BandStart(i) + BandWidth(i)
  {
  }

  /** The channels the decoder allocates: LFE, full bandwidth, and coupling. */
  predicate ValidChannel(c: Channel) {
    && c.start < c.end <= 253
    && (c.start == 0 ==> c.bndstart == 0 && (c.end == 7 || c.end >= 37))
    && (c.start > 0 ==> 20 < c.bndstart < 50 && BandStart(c.bndstart) <= c.start < BandEnd(c.bndstart))
  }

  predicate ValidExponents(ex: seq<int>) {
    |ex| == 256 && forall k :: 0 <= k < 256 ==> 0 <= ex[k] <= 24
  }

  // ------------------------------------------------------------------ the standard's parameters

  /** The codes of the stream, one by one, with the legal deltas of the bands. */
  datatype Codes = Codes(fscod: nat, halfrate: nat, sdcycod: nat, fdcycod: nat, sgaincod: nat, dbpbcod: nat, floorcod: nat,
                         csnroffst: nat, fsnroffst: nat, fgaincod: nat, deltba: seq<int>)

  predicate ValidCodes(a: Codes) {
    && a.fscod <= 2 && a.halfrate <= 3 && a.sdcycod < 4 && a.fdcycod < 4 && a.sgaincod < 4 && a.dbpbcod < 4 && a.floorcod < 8
    && a.csnroffst < 64 && a.fsnroffst < 16 && a.fgaincod < 8
    && |a.deltba| == 50 && forall i :: 0 <= i < 50 ==> -4 <= a.deltba[i] <= 4
  }

  /** The decoder reads five of them as one field, and two as another. */
  function Packed(a: Codes): (f: Fields)
    requires ValidCodes(a)
    ensures ValidFields(f)
  {
    Fields(a.fscod, a.halfrate, 512 * a.sdcycod + 128 * a.fdcycod + 32 * a.sgaincod + 8 * a.dbpbcod + a.floorcod,
           a.csnroffst, 8 * a.fsnroffst + a.fgaincod, a.deltba)
  }

  /** The codes in the fields, as the shifts and masks of the source take them out. */
  function CodesOf(f: Fields): (a: Codes)
    requires ValidFields(f)
    ensures ValidCodes(a)
  {
    Codes(f.fscod, f.halfrate, f.bai / 512, f.bai / 128 % 4, f.bai / 32 % 4, f.bai / 8 % 4, f.bai % 8,
          f.csnroffst, f.chbai / 8, f.chbai % 8, f.deltba)
  }

  /** The fields hold the codes in the order in which the stream sends them. */
  lemma CodesPacked(a: Codes)
    requires ValidCodes(a)
    ensures CodesOf(Packed(a)) == a
    ensures BitsOf(Packed(a).bai, 11)
            == BitsOf(a.sdcycod, 2) + BitsOf(a.fdcycod, 2) + BitsOf(a.sgaincod, 2) + BitsOf(a.dbpbcod, 2) + BitsOf(a.floorcod, 3)
    ensures BitsOf(Packed(a).chbai, 7) == BitsOf(a.fsnroffst, 4) + BitsOf(a.fgaincod, 3)
  {
    hide BitsOf, CodesOf;
    JoinFive(a.sdcycod, a.fdcycod, a.sgaincod, a.dbpbcod, a.floorcod);
    JoinTwo(a.fsnroffst, a.fgaincod);
    CodesInside(a);
  }

  lemma CodesInside(a: Codes)
    requires ValidCodes(a)
    ensures CodesOf(Packed(a)) == a
  {
    FiveDigits(a.sdcycod, a.fdcycod, a.sgaincod, a.dbpbcod, a.floorcod);
  }

  lemma FiveDigits(a: int, b: int, c: int, d: int, e: int)
    requires 0 <= b < 4 && 0 <= c < 4 && 0 <= d < 4 && 0 <= e < 8
    ensures var x := 512 * a + 128 * b + 32 * c + 8 * d + e;
            x / 512 == a && x / 128 % 4 == b && x / 32 % 4 == c && x / 8 % 4 == d && x % 8 == e
  {
    var x := 512 * a + 128 * b + 32 * c + 8 * d + e;
    DivUnique(x, 512, a, 128 * b + 32 * c + 8 * d + e);
    DivUnique(x, 128, 4 * a + b, 32 * c + 8 * d + e);
    DivUnique(4 * a + b, 4, a, b);
    DivUnique(x, 32, 4 * (4 * a + b) + c, 8 * d + e);
    DivUnique(4 * (4 * a + b) + c, 4, 4 * a + b, c);
    DivUnique(x, 8, 4 * (16 * a + 4 * b + c) + d, e);
    DivUnique(4 * (16 * a + 4 * b + c) + d, 4, 16 * a + 4 * b + c, d);
  }

  lemma FieldsInside(f: Fields)
    requires ValidFields(f)
    ensures Packed(CodesOf(f)) == f
  {
    var x := f.bai;
    assert x / 512 == x / 128 / 4 by { QuarterOf(x, 128); }
    assert x / 128 == x / 32 / 4 by { QuarterOf(x, 32); }
    assert x / 32 == x / 8 / 4 by { QuarterOf(x, 8); }
  }

  lemma QuarterOf(x: int, d: int)
    requires d > 0
    ensures x / (4 * d) == x / d / 4
  {
    var q := x / d;
    assert x == (q / 4) * (4 * d) + ((q % 4) * d + x % d) by {
      assert x == q * d + x % d;
      assert q == 4 * (q / 4) + q % 4;
    }
    MulMonotonic(q % 4, 3, d);
    MulMonotonic(0, q % 4, d);
    DivUnique(x, 4 * d, q / 4, (q % 4) * d + x % d);
  }

  lemma JoinTwo(a: nat, b: nat)
    requires b < 8
    ensures BitsOf(8 * a + b, 7) == BitsOf(a, 4) + BitsOf(b, 3)
  {
    hide BitsOf, Pow2;
    SmallPowers();
    JoinBits(a, b, 4, 3);
  }

  lemma JoinFive(a: nat, b: nat, c: nat, d: nat, e: nat)
    requires b < 4 && c < 4 && d < 4 && e < 8
    ensures BitsOf(512 * a + 128 * b + 32 * c + 8 * d + e, 11) == BitsOf(a, 2) + BitsOf(b, 2) + BitsOf(c, 2) + BitsOf(d, 2) + BitsOf(e, 3)
  {
    hide BitsOf, Pow2;
    SmallPowers();
    JoinBits(a, b, 2, 2);
    JoinBits(4 * a + b, c, 4, 2);
    JoinBits(16 * a + 4 * b + c, d, 6, 2);
    JoinBits(64 * a + 16 * b + 4 * c + d, e, 8, 3);
  }

  /** Tables 7.6 to 7.11 of the standard. */
  const SLOW_DECAY: seq<int> := [0x0f, 0x11, 0x13, 0x15]
  const FAST_DECAY: seq<int> := [0x3f, 0x53, 0x67, 0x7b]
  const SLOW_GAIN: seq<int> := [0x540, 0x4d8, 0x478, 0x410]
  const DB_KNEE: seq<int> := [0x000, 0x700, 0x900, 0xb00]
  const FLOOR: seq<int> := [0x2f0, 0x2b0, 0x270, 0x230, 0x1f0, 0x170, 0x0f0, -0x800]
  const FAST_GAIN: seq<int> := [0x080, 0x100, 0x180, 0x200, 0x280, 0x300, 0x380, 0x400]

  /** Table 7.15: the power that can just be heard in a band, for 48, 44.1 and 32 kHz. */
  const QUIET_48000: seq<int> :=
    [0x4d0, 0x4d0, 0x440, 0x400, 0x3e0, 0x3c0, 0x3b0, 0x3b0, 0x3a0, 0x3a0] +
    [0x3a0, 0x3a0, 0x3a0, 0x390, 0x390, 0x390, 0x380, 0x380, 0x370, 0x370] +
    [0x360, 0x360, 0x350, 0x350, 0x340, 0x340, 0x330, 0x320, 0x310, 0x300] +
    [0x2f0, 0x2f0, 0x2f0, 0x2f0, 0x300, 0x310, 0x340, 0x390, 0x3e0, 0x420] +
    [0x460, 0x490, 0x4a0, 0x460, 0x440, 0x440, 0x520, 0x800, 0x840, 0x840]

  const QUIET_44100: seq<int> :=
    [0x4f0, 0x4f0, 0x460, 0x410, 0x3e0, 0x3d0, 0x3c0, 0x3b0, 0x3b0, 0x3a0] +
    [0x3a0, 0x3a0, 0x3a0, 0x3a0, 0x390, 0x390, 0x390, 0x380, 0x380, 0x380] +
    [0x370, 0x370, 0x360, 0x360, 0x350, 0x350, 0x340, 0x340, 0x320, 0x310] +
    [0x300, 0x2f0, 0x2f0, 0x2f0, 0x2f0, 0x300, 0x320, 0x350, 0x390, 0x3e0] +
    [0x420, 0x450, 0x4a0, 0x490, 0x460, 0x440, 0x480, 0x630, 0x840, 0x840]

  const QUIET_32000: seq<int> :=
    [0x580, 0x580, 0x4b0, 0x450, 0x420, 0x3f0, 0x3e0, 0x3d0, 0x3c0, 0x3b0] +
    [0x3b0, 0x3b0, 0x3a0, 0x3a0, 0x3a0, 0x3a0, 0x3a0, 0x3a0, 0x3a0, 0x3a0] +
    [0x390, 0x390, 0x390, 0x390, 0x380, 0x380, 0x380, 0x370, 0x360, 0x350] +
    [0x340, 0x330, 0x320, 0x310, 0x300, 0x2f0, 0x2f0, 0x2f0, 0x300, 0x310] +
    [0x330, 0x350, 0x3c0, 0x410, 0x470, 0x4a0, 0x460, 0x440, 0x450, 0x4e0]

  /** What the leaks lose from band to band, and how far they stay under the power. */
  datatype Leakage = Leakage(fdecay: int, fgain: int, sdecay: int, sgain: int)

  /** The parameters of the standard's rule, all of them powers or differences of powers:
      quiet has the hearing threshold of each band. */
  datatype Rule = Rule(leakage: Leakage, knee: int, floor: int, snroffset: int, quiet: seq<int>, deltba: seq<int>)

  predicate ValidRule(r: Rule) {
    |r.quiet| == 50 && |r.deltba| == 50
  }

  /** Section 7.2.2.1 of the standard.  A stream of half the rate, or of a quarter, leaks as
      much less in a band and has the thresholds of the bands that lie as much lower. */
  function StandardRule(a: Codes): (r: Rule)
    requires ValidCodes(a)
    ensures ValidRule(r)
  {
    Rule(Leakage(FAST_DECAY[a.fdcycod] / Pow2(a.halfrate), FAST_GAIN[a.fgaincod], SLOW_DECAY[a.sdcycod] / Pow2(a.halfrate), SLOW_GAIN[a.sgaincod]),
         DB_KNEE[a.dbpbcod], FLOOR[a.floorcod], ((a.csnroffst as int - 15) * 16 + a.fsnroffst) * 4,
         seq(50, i requires 0 <= i < 50 => QuietAt(Quiet(a.fscod), a.halfrate, i)), a.deltba)
  }

  function Quiet(fscod: nat): (q: seq<int>)
    ensures |q| == 50
  {
    if fscod == 0 then QUIET_48000 else if fscod == 1 then QUIET_44100 else QUIET_32000
  }

  function QuietAt(q: seq<int>, halfrate: nat, i: nat): int
    requires |q| == 50 && i < 50
  {
    DivStaysInside(i, Pow2(halfrate));
    q[i / Pow2(halfrate)]
  }

  /** The same parameters, from what the routine computes: thresholds, knee and floor are
      complements there, and the floor is part of the offset. */
  function LeakageOf(p: Params): Leakage { Leakage(p.fdecay, p.fgain, p.sdecay, p.sgain) }

  function RuleOf(p: Params): (r: Rule)
    requires ValidParams(p)
    ensures ValidRule(r)
  {
    Rule(LeakageOf(p), 3072 - p.dbknee, 3072 - p.floor, p.floor - p.snroffset,
         seq(50, i requires 0 <= i < 50 => 3072 - p.hth[HearingIndex(p, i)]), p.deltba)
  }

  /** The routine works with the standard's parameters, whatever the codes are. */
  lemma ParamsAreStandard(f: Fields)
    requires ValidFields(f)
    ensures RuleOf(ParamsOf(f)) == StandardRule(CodesOf(f))
  {
    var r, s := RuleOf(ParamsOf(f)), StandardRule(CodesOf(f));
    forall i | 0 <= i < 50
      ensures r.quiet[i] == s.quiet[i]
    {
      QuietIs(f, i);
    }
    assert r.quiet == s.quiet;
    ScalarsAreStandard(f);
    LeakageIsStandard(f);
  }

  lemma QuietIs(f: Fields, i: nat)
    requires ValidFields(f) && i < 50
    ensures RuleOf(ParamsOf(f)).quiet[i] == StandardRule(CodesOf(f)).quiet[i]
  {
    hide Pow2, ParamsOf, Quiet;
    HalvingIsPower(f.halfrate);
    DivStaysInside(i, Pow2(f.halfrate));
    HearingComplements(f);
  }

  lemma HearingComplements(f: Fields)
    requires ValidFields(f)
    ensures ParamsOf(f).halfrate == f.halfrate && Complements(ParamsOf(f).hth, Quiet(f.fscod))
  {
    hide Complements;
    Quiet48000();
    Quiet44100();
    Quiet32000();
  }

  lemma HalvingIsPower(halfrate: nat)
    requires halfrate <= 3
    ensures HalvingFactor(halfrate) == Pow2(halfrate)
  {
    SmallPowers();
  }

  lemma ScalarsAreStandard(f: Fields)
    requires ValidFields(f)
    ensures var r, s := RuleOf(ParamsOf(f)), StandardRule(CodesOf(f));
            r.knee == s.knee && r.floor == s.floor && r.snroffset == s.snroffset && r.deltba == s.deltba
  {
    hide Pow2;
  }

  lemma LeakageIsStandard(f: Fields)
    requires ValidFields(f)
    ensures RuleOf(ParamsOf(f)).leakage == StandardRule(CodesOf(f)).leakage
  {
    HalvingIsPower(f.halfrate);
    hide Pow2, Quiet;
  }

  predicate Complements(s: seq<int>, t: seq<int>) {
    |s| == |t| && forall i :: 0 <= i < |s| ==> s[i] == 3072 - t[i]
  }

  lemma Quiet48000()
    ensures Complements(HTH_48000, QUIET_48000)
  {
    forall i | 0 <= i < 50
      ensures HTH_48000[i] == 3072 - QUIET_48000[i]
    {
      if i < 20 {
        Quiet48000Low(i);
      } else {
        Quiet48000High(i);
      }
    }
  }

  lemma Quiet48000Low(i: nat)
    requires i < 20
    ensures HTH_48000[i] == 3072 - QUIET_48000[i]
  {
  }

  lemma Quiet48000High(i: nat)
    requires 20 <= i < 50
    ensures HTH_48000[i] == 3072 - QUIET_48000[i]
  {
  }

  lemma Quiet44100()
    ensures Complements(HTH_44100, QUIET_44100)
  {
    forall i | 0 <= i < 50
      ensures HTH_44100[i] == 3072 - QUIET_44100[i]
    {
      if i < 20 {
        Quiet44100Low(i);
      } else {
        Quiet44100High(i);
      }
    }
  }

  lemma Quiet44100Low(i: nat)
    requires i < 20
    ensures HTH_44100[i] == 3072 - QUIET_44100[i]
  {
  }

  lemma Quiet44100High(i: nat)
    requires 20 <= i < 50
    ensures HTH_44100[i] == 3072 - QUIET_44100[i]
  {
  }

  lemma Quiet32000()
    ensures Complements(HTH_32000, QUIET_32000)
  {
    forall i | 0 <= i < 50
      ensures HTH_32000[i] == 3072 - QUIET_32000[i]
    {
      if i < 20 {
        Quiet32000Low(i);
      } else {
        Quiet32000High(i);
      }
    }
  }

  lemma Quiet32000Low(i: nat)
    requires i < 20
    ensures HTH_32000[i] == 3072 - QUIET_32000[i]
  {
  }

  lemma Quiet32000High(i: nat)
    requires 20 <= i < 50
    ensures HTH_32000[i] == 3072 - QUIET_32000[i]
  {
  }

  // ------------------------------------------------------------------ the standard's rule

  function RefPsd(e: int): int { 3072 - 128 * e }

  function Max(a: int, b: int): int { if a >= b then a else b }
  function Min(a: int, b: int): int { if a <= b then a else b }

  /** Addition of two powers in the logarithmic domain. */
  function LogAdd(a: int, b: int): (r: int)
    ensures r >= a && r >= b
  {
    var c := a - b;
    var address := Min((if c < 0 then -c else c) / 2, 255);
    if c >= 0 then a - Latab(address) else b - Latab(address)
  }

  /** Power of the bins lo to hi - 1. */
  function RefBandPsd(ex: seq<int>, lo: nat, hi: nat): int
    requires lo < hi <= |ex|
  {
    if hi == lo + 1 then RefPsd(ex[lo]) else LogAdd(RefBandPsd(ex, lo, hi - 1), RefPsd(ex[hi - 1]))
  }

  /** Low-frequency compensation. */
  function CalcLowcomp(a: int, b0: int, b1: int, bin: nat): int {
    if bin < 7 then (if b0 + 256 == b1 then 384 else if b0 > b1 then Max(0, a - 64) else a)
    else if bin < 20 then (if b0 + 256 == b1 then 320 else if b0 > b1 then Max(0, a - 64) else a)
    else Max(0, a - 128)
  }

  /** The bins lo to hi - 1 that band i has in a range of bins. */
  function BandFrom(start: nat, i: nat): nat
    requires i < 50
  {
    if BandStart(i) > start then BandStart(i) else start
  }

  function BandTo(end: nat, i: nat): nat
    requires i < 50
  {
    if BandEnd(i) < end then BandEnd(i) else end
  }

  function Lo(c: Channel, i: nat): nat
    requires i < 50
  {
    BandFrom(c.start, i)
  }

  function Hi(c: Channel, i: nat): nat
    requires i < 50
  {
    BandTo(c.end, i)
  }

  /** The band takes part in the allocation of the channel. */
  predicate InChannel(c: Channel, i: nat) {
    c.bndstart <= i < 50 && BandStart(i) < c.end
  }

  /** Leaks and compensation after a band, with its excitation.  `begun` tells whether the
      leaky integration has begun; a full-bandwidth channel starts without it. */
  datatype Excitation = Excitation(fast: int, slow: int, lowcomp: int, begun: bool, excite: int)

  function RefStart(c: Channel): Excitation { Excitation(c.fast, c.slow, 0, c.start > 0, 0) }

  /** The excitation of band i, from the state the previous band left. */
  function RefStep(r: Leakage, ex: seq<int>, c: Channel, prev: Excitation, i: nat): Excitation
    requires ValidChannel(c) && InChannel(c, i) && |ex| == 256
  {
    BandInside(c, i);
    var psd := RefBandPsd(ex, Lo(c, i), Hi(c, i));
    var lowcomp := if c.start > 0 || i >= 22 then 0
                   else if c.end == 7 && i == 6 then prev.lowcomp
                   else CalcLowcomp(prev.lowcomp, psd, RefPsd(ex[i + 1]), i);
    if prev.begun then
      var fast := Max(prev.fast - r.fdecay, psd - r.fgain);
      var slow := Max(prev.slow - r.sdecay, psd - r.sgain);
      Excitation(fast, slow, lowcomp, true, Max(fast - lowcomp, slow))
    else
      Excitation(psd - r.fgain, psd - r.sgain, lowcomp,
                 i >= 6 || (i >= 2 && psd <= RefPsd(ex[i + 1])),
                 psd - r.fgain - lowcomp)
  }

  lemma BandInside(c: Channel, i: nat)
    requires ValidChannel(c) && InChannel(c, i)
    ensures Lo(c, i) < Hi(c, i) <= 253
    ensures c.start == 0 && i <= 20 ==> Lo(c, i) == i && Hi(c, i) == i + 1
  {
    BandsAscend(c.bndstart, i);
  }

  lemma {:induction false} BandsAscend(i: nat, j: nat)
    requires i <= j < 50
    ensures BandStart(i) <= BandStart(j) && BandEnd(i) <= BandEnd(j)
    ensures i < j ==> BandEnd(i) <= BandStart(j)
    decreases j
  {
    if i < j {
      BandsAscend(i, j - 1);
    }
  }

  /** The state after band i. */
  function RefBand(r: Leakage, ex: seq<int>, c: Channel, i: nat): Excitation
    requires ValidChannel(c) && InChannel(c, i) && |ex| == 256
    decreases i
  {
    if i == c.bndstart then RefStep(r, ex, c, RefStart(c), i)
    else
      BandsAscend(i - 1, i);
      RefStep(r, ex, c, RefBand(r, ex, c, i - 1), i)
  }

  /** The mask of a band, from its excitation and its power. */
  function RefMask(r: Rule, excite: int, psd: int, i: nat): int
    requires ValidRule(r) && i < 50
  {
    var raised := if psd < r.knee then excite + (r.knee - psd) / 4 else excite;
    var m := Max(raised, r.quiet[i]) + 128 * r.deltba[i];
    Max(m - r.snroffset - r.floor, 0) / 32 * 32 + r.floor
  }

  /** The unclamped address of a bin in the table of widths. */
  function RefAddress(e: int, mask: int): int { (RefPsd(e) - mask) / 32 }

  function RefWidth(e: int, mask: int): int {
    var a := RefAddress(e, mask);
    RefBaptab(if a < 0 then 0 else if a > 63 then 63 else a)
  }

  /** The width the standard's rule gives to bin k of band i. */
  function RefBap(r: Rule, ex: seq<int>, c: Channel, i: nat, k: nat): int
    requires ValidRule(r) && ValidChannel(c) && InChannel(c, i) && |ex| == 256 && k < 256
  {
    BandInside(c, i);
    RefWidth(ex[k], RefMask(r, RefBand(r.leakage, ex, c, i).excite, RefBandPsd(ex, Lo(c, i), Hi(c, i)), i))
  }

  // ------------------------------------------------------------------ the negated domain

  /** COMPUTE_MASK. */
  function ComputeMask(p: Params, mask: int, psd: int, i: nat): int
    requires ValidParams(p) && i < 50
  {
    var m0 := if psd > p.dbknee then mask - (psd - p.dbknee) / 4 else mask;
    var hth := p.hth[HearingIndex(p, i)];
    var m1 := if m0 > hth then hth else m0;
    var m2 := m1 - (p.snroffset + 128 * p.deltba[i]);
    var m3 := if m2 > 0 then 0 else (-m2) / 32;
    m3 - p.floor / 32
  }

  /** The index into the padded table is exactly minus the standard's unclamped address. */
  lemma IndexIsNegatedAddress(p: Params, excite: int, psd: int, i: nat, e: int)
    requires ValidParams(p) && i < 50
    ensures ComputeMask(p, 3072 - excite, 3072 - psd, i) + 4 * e == -RefAddress(e, RefMask(RuleOf(p), excite, psd, i))
  {
  }

  /** So both rules pick the same width wherever the index is one of the table's. */
  lemma WidthsAgree(p: Params, excite: int, psd: int, i: nat, e: int)
    requires ValidParams(p) && i < 50
    requires InTable(ComputeMask(p, 3072 - excite, 3072 - psd, i) + 4 * e)
    ensures Baptab(156 + ComputeMask(p, 3072 - excite, 3072 - psd, i) + 4 * e) == RefWidth(e, RefMask(RuleOf(p), excite, psd, i))
  {
    IndexIsNegatedAddress(p, excite, psd, i, e);
    PaddingIsClamp(ComputeMask(p, 3072 - excite, 3072 - psd, i) + 4 * e);
  }

  /** The index that the code computes for bin k of band i. */
  function IndexAt(p: Params, ex: seq<int>, c: Channel, i: nat, k: nat): int
    requires ValidParams(p) && ValidChannel(c) && InChannel(c, i) && |ex| == 256 && k < 256
  {
    BandInside(c, i);
    ComputeMask(p, 3072 - RefBand(LeakageOf(p), ex, c, i).excite, 3072 - RefBandPsd(ex, Lo(c, i), Hi(c, i)), i) + 4 * ex[k]
  }

  /** Whatever the code stores for a bin, it is the standard's width if the index is one of
      the table's. */
  lemma StoredWidth(mem: int -> int, p: Params, ex: seq<int>, c: Channel, i: nat, k: nat)
    requires ValidParams(p) && ValidChannel(c) && InChannel(c, i) && |ex| == 256 && k < 256
    requires InTable(IndexAt(p, ex, c, i, k))
    ensures Lookup(mem, IndexAt(p, ex, c, i, k)) == RefBap(RuleOf(p), ex, c, i, k)
  {
    hide RefBand, RefMask, ComputeMask, Baptab, RefWidth, RefBandPsd, BandStart, BandEnd, Lo, Hi;
    BandInside(c, i);
    WidthsAgree(p, RefBand(LeakageOf(p), ex, c, i).excite, RefBandPsd(ex, Lo(c, i), Hi(c, i)), i, ex[k]);
  }

  /** The state before band i. */
  function Prev(r: Leakage, ex: seq<int>, c: Channel, i: nat): Excitation
    requires ValidChannel(c) && |ex| == 256 && (i == c.bndstart || (i > c.bndstart && InChannel(c, i - 1)))
  {
    if i == c.bndstart then RefStart(c) else RefBand(r, ex, c, i - 1)
  }

  /** The leaks of the source are complements of those of the standard. */
  predicate Negates(fastleak: int, slowleak: int, r: Excitation) {
    fastleak == 3072 - r.fast && slowleak == 3072 - r.slow
  }

  lemma PrevOf(p: Params, ex: seq<int>, c: Channel, i: nat)
    requires ValidChannel(c) && InChannel(c, i) && |ex| == 256
    ensures i > c.bndstart ==> InChannel(c, i - 1)
    ensures RefBand(LeakageOf(p), ex, c, i) == RefStep(LeakageOf(p), ex, c, Prev(LeakageOf(p), ex, c, i), i)
  {
    if i > c.bndstart {
      BandsAscend(i - 1, i);
    }
  }

  /** UPDATE_LEAK and the choice of the smaller leak, against one step of the rule. */
  lemma LeakStep(p: Params, ex: seq<int>, c: Channel, i: nat, fastleak: int, slowleak: int, psd: int)
    requires ValidParams(p) && ValidChannel(c) && InChannel(c, i) && |ex| == 256
    requires i > c.bndstart ==> InChannel(c, i - 1)
    requires Prev(LeakageOf(p), ex, c, i).begun && Negates(fastleak, slowleak, Prev(LeakageOf(p), ex, c, i))
    requires Lo(c, i) < Hi(c, i) <= 256 && psd == 3072 - RefBandPsd(ex, Lo(c, i), Hi(c, i))
    ensures var r := RefBand(LeakageOf(p), ex, c, i);
            var fast, slow := Min(fastleak + p.fdecay, psd + p.fgain), Min(slowleak + p.sdecay, psd + p.sgain);
            && r.begun && Negates(fast, slow, r)
            && Min(fast + r.lowcomp, slow) == 3072 - r.excite
  {
    hide RefBandPsd, BandStart, BandEnd, CalcLowcomp, RefBand, Lo, Hi;
    PrevOf(p, ex, c, i);
  }

  // ------------------------------------------------------------------ the loops of the source

  /** Every bin of the bands before i has what its index selects, and nothing else has changed. */
  ghost predicate Allocated(mem: int -> int, p: Params, ex: seq<int>, c: Channel, bap: seq<int>, bap0: seq<int>, i: nat)
    requires ValidParams(p) && ValidChannel(c) && |ex| == 256
  {
    && |bap| == |bap0| == 256
    && (forall b: nat, k: nat :: b < i && InChannel(c, b) && Lo(c, b) <= k < Hi(c, b) && k < 256
                         ==> bap[k] == Lookup(mem, IndexAt(p, ex, c, b, k)))
    && (forall k: nat :: k < 256 && (k < c.start || c.end <= k) ==> bap[k] == bap0[k])
  }

  /** No bin of a band is exactly 512 below the power of the bins before it in the band,
      which would index latab with 256. */
  predicate TableSafe(ex: seq<int>, start: nat, end: nat)
    requires |ex| == 256 && end <= 256
  {
    forall i: nat, j: nat :: i < 50 && BandFrom(start, i) < j < BandTo(end, i)
                         ==> 128 * ex[j] - (3072 - RefBandPsd(ex, BandFrom(start, i), j)) != -512
  }

  lemma {:induction false} BandPsdAtLeast(ex: seq<int>, lo: nat, hi: nat, k: nat)
    requires lo <= k < hi <= |ex|
    ensures RefBandPsd(ex, lo, hi) >= RefPsd(ex[k])
    decreases hi
  {
    if k < hi - 1 {
      BandPsdAtLeast(ex, lo, hi - 1, k);
    }
  }

  /** Exponents whose neighbours fall by at most three are safe. */
  lemma SmoothIsTableSafe(ex: seq<int>, start: nat, end: nat)
    requires |ex| == 256 && end <= 256
    requires forall k: nat :: start < k < end ==> ex[k] >= ex[k - 1] - 3
    ensures TableSafe(ex, start, end)
  {
    forall i: nat, j: nat | i < 50 && BandFrom(start, i) < j < BandTo(end, i)
      ensures 128 * ex[j] - (3072 - RefBandPsd(ex, BandFrom(start, i), j)) != -512
    {
      BandPsdAtLeast(ex, BandFrom(start, i), j, j - 1);
    }
  }

  /** The index of the case -1 of the switch is past the end of latab exactly for a fall of 512. */
  lemma LatabOverrunIff(psd: int, next: int)
    requires (next - psd) / 512 == -1
    ensures 0 <= (psd - next) / 2 <= 256
    ensures (psd - next) / 2 == 256 <==> next - psd == -512
  {
  }

  /** At bin j of band i the code reads past the end of latab. */
  predicate ReadsPastLatab(ex: seq<int>, start: nat, i: nat, j: nat)
    requires i < 50 && BandFrom(start, i) < j < |ex|
  {
    var psd, next := 3072 - RefBandPsd(ex, BandFrom(start, i), j), 128 * ex[j];
    (next - psd) / 512 == -1 && (psd - next) / 2 == 256
  }

  lemma LatabFall(ex: seq<int>, start: nat, i: nat, j: nat)
    requires i < 50 && BandFrom(start, i) < j < |ex|
    ensures ReadsPastLatab(ex, start, i, j) <==> 128 * ex[j] - (3072 - RefBandPsd(ex, BandFrom(start, i), j)) == -512
  {
    hide RefBandPsd, BandFrom;
  }

  /** A range is unsafe exactly if some bin of its bands does. */
  lemma TableSafeIff(ex: seq<int>, start: nat, end: nat)
    requires |ex| == 256 && end <= 256
    ensures !TableSafe(ex, start, end)
            <==> exists i: nat, j: nat :: i < 50 && BandFrom(start, i) < j < BandTo(end, i) && j < |ex| && ReadsPastLatab(ex, start, i, j)
  {
    hide RefBandPsd, BandFrom, BandTo, ReadsPastLatab;
    forall i: nat, j: nat | i < 50 && BandFrom(start, i) < j < BandTo(end, i)
      ensures j < |ex|
      ensures ReadsPastLatab(ex, start, i, j) <==> 128 * ex[j] - (3072 - RefBandPsd(ex, BandFrom(start, i), j)) == -512
    {
      EndInside(end, i);
      LatabFall(ex, start, i, j);
    }
  }

  /** How that comes about: a coupling range from bin 133 to 156 that is joined from two
      ranges sent before, with the exponents of neither sent again.  Each half is smooth, but
      where they meet, inside band 45, the first integrates to 512 and the second begins with
      exponent 0. */
  lemma LatabOverrun(ex: seq<int>, fast: int, slow: int)
    requires |ex| == 256 && ex[133..146] == [5, 5, 5, 6, 6, 6, 6, 7, 7, 8, 8, 8, 0]
    ensures ValidChannel(Channel(45, 133, 157, fast, slow)) && BandFrom(133, 45) == 133 && BandTo(157, 45) == 157
    ensures ReadsPastLatab(ex, 133, 45, 145) && !TableSafe(ex, 133, 157)
  {
    var s := ex[133..146];
    assert forall k: nat :: k < 13 ==> ex[133 + k] == s[k];
    assert s[0] == 5 && s[1] == 5 && s[2] == 5 && s[3] == 6 && s[4] == 6 && s[5] == 6 && s[6] == 6;
    assert s[7] == 7 && s[8] == 7 && s[9] == 8 && s[10] == 8 && s[11] == 8 && s[12] == 0;
    assert BandFrom(133, 45) == 133 && BandTo(157, 45) == 157;
    LatabTrace(ex);
    TableSafeIff(ex, 133, 157);
  }

  lemma LatabTrace(ex: seq<int>)
    requires |ex| == 256 && ex[133] == 5 && ex[134] == 5 && ex[135] == 5 && ex[136] == 6 && ex[137] == 6 && ex[138] == 6
    requires ex[139] == 6 && ex[140] == 7 && ex[141] == 7 && ex[142] == 8 && ex[143] == 8 && ex[144] == 8
    ensures RefBandPsd(ex, 133, 145) == 3072 - 512
  {
    assert RefBandPsd(ex, 133, 134) == 2432;
    assert RefBandPsd(ex, 133, 135) == 2496;
    assert RefBandPsd(ex, 133, 136) == 2533;
    assert RefBandPsd(ex, 133, 137) == 2540;
    assert RefBandPsd(ex, 133, 138) == 2546;
    assert RefBandPsd(ex, 133, 139) == 2552;
    assert RefBandPsd(ex, 133, 140) == 2558;
    assert RefBandPsd(ex, 133, 141) == 2559;
    assert RefBandPsd(ex, 133, 142) == 2560;
    assert RefBandPsd(ex, 133, 143) == 2560;
    assert RefBandPsd(ex, 133, 144) == 2560;
    assert RefBandPsd(ex, 133, 145) == 2560;
  }

  /** One more bin of a band. */
  lemma IntegrateStep(ex: seq<int>, start: nat, end: nat, i: nat, j: nat)
    requires ValidExponents(ex) && end <= 256 && TableSafe(ex, start, end)
    requires i < 50 && BandFrom(start, i) < j < BandTo(end, i)
    ensures var psd, next := 3072 - RefBandPsd(ex, BandFrom(start, i), j), 128 * ex[j];
            && psd <= 3072 && 0 <= next <= 3072 && next - psd != -512
            && 3072 - LogAdd(3072 - psd, 3072 - next) == 3072 - RefBandPsd(ex, BandFrom(start, i), j + 1)
  {
    hide BandFrom, BandTo, LogAdd;
    EndInside(end, i);
    BandPsdAtLeast(ex, BandFrom(start, i), j, BandFrom(start, i));
  }

  /** The integration of one band: psd is lowered from bin to bin.  The first bin is read
      before the loop looks at the end of the band. */
  method IntegrateBand(exp: array<int>, startband: nat, endband: nat, ghost start: nat, ghost end: nat, ghost i: nat) returns (psd: int)
    requires exp.Length == 256 && ValidExponents(exp[..]) && end <= 256 && TableSafe(exp[..], start, end)
    requires i < 50 && startband == BandFrom(start, i) && startband < 256
    requires endband == BandTo(end, i)
    ensures psd == 3072 - RefBandPsd(exp[..], startband, if endband > startband then endband else startband + 1)
  {
    hide BandFrom, BandTo, TableSafe, LogAdd;
    ghost var ex := exp[..];
    EndInside(end, i);
    var j := startband;
    psd := 128 * exp[j];
    j := j + 1;
    while j < endband
      invariant startband < j <= 256 && (j <= endband || j == startband + 1)
      invariant psd == 3072 - RefBandPsd(ex, startband, j)
    {
      var next := 128 * exp[j];
      IntegrateStep(ex, start, end, i, j);
      psd := AddPower(psd, next);
      j := j + 1;
    }
  }

  lemma EndInside(end: nat, i: nat)
    requires i < 50 && end <= 256
    ensures BandTo(end, i) <= 256
  {
  }

  /** The switch on delta >> 9. */
  method AddPower(psd: int, next: int) returns (r: int)
    requires psd <= 3072 && 0 <= next <= 3072 && next - psd != -512
    ensures r == 3072 - LogAdd(3072 - psd, 3072 - next)
  {
    r := psd;
    var delta := next - psd;
    match delta / 512 {
      case -6 | -5 | -4 | -3 | -2 => r := next;
      case -1 => r := next + Latab((-delta) / 2);
      case 0 => r := psd + Latab(delta / 2);
      case _ =>
    }
  }

  /** The update of lowcomp in the loops over single bins. */
  function LowcompStep(lowcomp: int, e0: int, e1: int, peak: int): int {
    if e1 == e0 - 2 then peak else if lowcomp != 0 && e1 > e0 then lowcomp - 64 else lowcomp
  }

  /** It is the compensation of the standard, as long as lowcomp is a multiple of 64. */
  lemma LowcompAgrees(lowcomp: int, e0: int, e1: int, bin: nat)
    requires lowcomp >= 0 && lowcomp % 64 == 0 && bin < 20
    ensures var r := LowcompStep(lowcomp, e0, e1, if bin < 7 then 384 else 320);
            && r == CalcLowcomp(lowcomp, RefPsd(e0), RefPsd(e1), bin)
            && 0 <= r <= Max(lowcomp, 384) && r % 64 == 0
  {
  }

  /** Filling the bins of band i completes it. */
  lemma AllocatedExtend(mem: int -> int, p: Params, ex: seq<int>, c: Channel, before: seq<int>, after: seq<int>, bap0: seq<int>, i: nat)
    requires ValidParams(p) && ValidChannel(c) && |ex| == 256 && InChannel(c, i)
    requires Allocated(mem, p, ex, c, before, bap0, i) && |after| == 256
    requires forall k: nat :: k < 256 && (k < Lo(c, i) || Hi(c, i) <= k) ==> after[k] == before[k]
    requires forall k: nat :: Lo(c, i) <= k < Hi(c, i) && k < 256 ==> after[k] == Lookup(mem, IndexAt(p, ex, c, i, k))
    ensures Allocated(mem, p, ex, c, after, bap0, i + 1)
  {
    hide IndexAt, Lookup, BandStart, BandEnd;
    BandInside(c, i);
    forall b: nat, k: nat | b < i + 1 && InChannel(c, b) && Lo(c, b) <= k < Hi(c, b) && k < 256
      ensures after[k] == Lookup(mem, IndexAt(p, ex, c, b, k))
    {
      if b < i {
        BandsAscend(b, i);
      }
    }
  }

  /** The state between two bins of a full-bandwidth or LFE channel, once the leaky
      integration has begun. */
  ghost predicate Leaking(p: Params, ex: seq<int>, c: Channel, i: nat, lowcomp: int, fastleak: int, slowleak: int)
    requires ValidParams(p) && ValidChannel(c) && |ex| == 256
  {
    && c.start == 0 && 0 < i && InChannel(c, i - 1)
    && var r := RefBand(LeakageOf(p), ex, c, i - 1);
       r.begun && Negates(fastleak, slowleak, r) && lowcomp == r.lowcomp
  }

  /** psd, UPDATE_LEAK, COMPUTE_MASK and the store for one bin. */
  method LeakBin(mem: int -> int, p: Params, c: Channel, exp: array<int>, bap: array<int>, i: nat, lowcomp: int, fast0: int, slow0: int, ghost bap0: seq<int>)
    returns (fastleak: int, slowleak: int)
    requires ValidParams(p) && ValidChannel(c) && exp.Length == bap.Length == 256 && exp != bap
    requires c.start == 0 && 0 < i < 22 && InChannel(c, i) && InChannel(c, i - 1)
    requires RefBand(LeakageOf(p), exp[..], c, i - 1).begun && Negates(fast0, slow0, RefBand(LeakageOf(p), exp[..], c, i - 1))
    requires lowcomp == RefBand(LeakageOf(p), exp[..], c, i).lowcomp
    requires Allocated(mem, p, exp[..], c, bap[..], bap0, i)
    modifies bap
    ensures Allocated(mem, p, exp[..], c, bap[..], bap0, i + 1)
    ensures Leaking(p, exp[..], c, i + 1, lowcomp, fastleak, slowleak)
  {
    hide ComputeMask, Lookup, RefBand, Allocated, BandStart, BandEnd, Lo, Hi;
    ghost var ex, before := exp[..], bap[..];
    fastleak, slowleak := fast0, slow0;
    SingleBins(c, i);
    SingleBinIndex(p, ex, c, i);
    var psd := 128 * exp[i];
    fastleak := fastleak + p.fdecay;
    if fastleak > psd + p.fgain { fastleak := psd + p.fgain; }
    slowleak := slowleak + p.sdecay;
    if slowleak > psd + p.sgain { slowleak := psd + p.sgain; }
    var mask := if fastleak + lowcomp < slowleak then fastleak + lowcomp else slowleak;
    LeakStep(p, ex, c, i, fast0, slow0, psd);
    mask := ComputeMask(p, mask, psd, i);
    bap[i] := Lookup(mem, mask + 4 * exp[i]);
    AllocatedExtend(mem, p, ex, c, before, bap[..], bap0, i);
  }

  lemma SingleBinIndex(p: Params, ex: seq<int>, c: Channel, i: nat)
    requires ValidParams(p) && ValidChannel(c) && InChannel(c, i) && c.start == 0 && i < 28 && |ex| == 256
    ensures Lo(c, i) == i && Hi(c, i) == i + 1
    ensures RefBandPsd(ex, i, i + 1) == RefPsd(ex[i])
    ensures IndexAt(p, ex, c, i, i) == ComputeMask(p, 3072 - RefBand(LeakageOf(p), ex, c, i).excite, 128 * ex[i], i) + 4 * ex[i]
  {
    hide RefBand, ComputeMask;
    SingleBins(c, i);
  }

  /** The first 28 bands hold one bin each. */
  lemma SingleBins(c: Channel, i: nat)
    requires ValidChannel(c) && InChannel(c, i) && c.start == 0 && i < 28
    ensures Lo(c, i) == i && Hi(c, i) == i + 1
  {
  }

  /** What one pass of the opening loop has to compute. */
  lemma OpeningStep(p: Params, ex: seq<int>, c: Channel, i: nat)
    requires ValidParams(p) && ValidChannel(c) && c.start == 0 && i < 7 && InChannel(c, i) && ValidExponents(ex)
    requires i > 0 ==> InChannel(c, i - 1)
    requires var prev := Prev(LeakageOf(p), ex, c, i);
             !prev.begun && 0 <= prev.lowcomp <= 384 && prev.lowcomp % 64 == 0
    ensures var prev, r := Prev(LeakageOf(p), ex, c, i), RefBand(LeakageOf(p), ex, c, i);
            var psd := 128 * ex[i];
            && Negates(psd + p.fgain, psd + p.sgain, r)
            && r.lowcomp == (if i < c.end - 1 then LowcompStep(prev.lowcomp, ex[i], ex[i + 1], 384) else prev.lowcomp)
            && 0 <= r.lowcomp <= 384 && r.lowcomp % 64 == 0
            && r.begun == !(i + 1 < 3 || (i + 1 < 7 && ex[i + 1] > ex[i]))
            && psd + p.fgain + r.lowcomp == 3072 - r.excite
  {
    hide RefBand, LowcompStep, CalcLowcomp, BandStart, BandEnd;
    PrevOf(p, ex, c, i);
    SingleBinIndex(p, ex, c, i);
    LowcompAgrees(Prev(LeakageOf(p), ex, c, i).lowcomp, ex[i], ex[i + 1], i);
  }

  /** What the loops over single bins have to compute for lowcomp. */
  lemma LowcompFollows(p: Params, ex: seq<int>, c: Channel, i: nat)
    requires ValidParams(p) && ValidChannel(c) && c.start == 0 && 0 < i < 20 && InChannel(c, i) && InChannel(c, i - 1) && ValidExponents(ex)
    requires var prev := RefBand(LeakageOf(p), ex, c, i - 1);
             0 <= prev.lowcomp <= 384 && prev.lowcomp % 64 == 0
    ensures var prev, r := RefBand(LeakageOf(p), ex, c, i - 1), RefBand(LeakageOf(p), ex, c, i);
            && r.lowcomp == (if i < c.end - 1 then LowcompStep(prev.lowcomp, ex[i], ex[i + 1], if i < 7 then 384 else 320) else prev.lowcomp)
            && 0 <= r.lowcomp <= 384 && r.lowcomp % 64 == 0
  {
    hide RefBand, LowcompStep, CalcLowcomp, BandStart, BandEnd;
    PrevOf(p, ex, c, i);
    SingleBinIndex(p, ex, c, i);
    LowcompAgrees(RefBand(LeakageOf(p), ex, c, i - 1).lowcomp, ex[i], ex[i + 1], i);
    assert i >= 7 ==> c.end != 7;
  }

  /** The opening loop: the bins before the leaky integration begins. */
  method OpeningLoop(mem: int -> int, p: Params, c: Channel, exp: array<int>, bap: array<int>, ghost bap0: seq<int>)
    returns (i: nat, lowcomp: int, fastleak: int, slowleak: int)
    requires ValidParams(p) && ValidChannel(c) && c.start == 0 && exp.Length == bap.Length == 256 && exp != bap
    requires ValidExponents(exp[..]) && Allocated(mem, p, exp[..], c, bap[..], bap0, 0)
    modifies bap
    ensures 3 <= i <= 7 && Allocated(mem, p, exp[..], c, bap[..], bap0, i)
    ensures Leaking(p, exp[..], c, i, lowcomp, fastleak, slowleak) && 0 <= lowcomp <= 384 && lowcomp % 64 == 0
  {
    hide ComputeMask, Lookup, RefBand, Allocated, LowcompStep;
    ghost var ex := exp[..];
    var j := c.end - 1;
    var psd := 0;
    i, lowcomp := 0, 0;
    var more := true;
    while more
      invariant i <= 7 && exp[..] == ex && (more ==> i < 7)
      invariant i > 0 ==> InChannel(c, i - 1) && psd == 128 * ex[i - 1]
      invariant i > 0 ==> Negates(psd + p.fgain, psd + p.sgain, RefBand(LeakageOf(p), ex, c, i - 1))
      invariant Prev(LeakageOf(p), ex, c, i).begun == !more && lowcomp == Prev(LeakageOf(p), ex, c, i).lowcomp
      invariant 0 <= lowcomp <= 384 && lowcomp % 64 == 0
      invariant !more ==> i >= 3
      invariant Allocated(mem, p, ex, c, bap[..], bap0, i)
      decreases 7 - i, more
    {
      assert InChannel(c, i);
      OpeningStep(p, ex, c, i);
      SingleBinIndex(p, ex, c, i);
      ghost var before := bap[..];
      if i < j {
        lowcomp := LowcompStep(lowcomp, exp[i], exp[i + 1], 384);
      }
      psd := 128 * exp[i];
      var mask := psd + p.fgain + lowcomp;
      mask := ComputeMask(p, mask, psd, i);
      bap[i] := Lookup(mem, mask + 4 * exp[i]);
      AllocatedExtend(mem, p, ex, c, before, bap[..], bap0, i);
      i := i + 1;
      more := i < 3 || (i < 7 && exp[i] > exp[i - 1]);
    }
    fastleak := psd + p.fgain;
    slowleak := psd + p.sgain;
  }

  /** The loops over single bins up to bin 7, and from there up to bin 20. */
  method LeakLoop(mem: int -> int, p: Params, c: Channel, exp: array<int>, bap: array<int>, i0: nat, limit: nat, lowcomp0: int, fast0: int, slow0: int, ghost bap0: seq<int>)
    returns (i: nat, lowcomp: int, fastleak: int, slowleak: int)
    requires ValidParams(p) && ValidChannel(c) && exp.Length == bap.Length == 256 && exp != bap
    requires ValidExponents(exp[..]) && Allocated(mem, p, exp[..], c, bap[..], bap0, i0)
    requires Leaking(p, exp[..], c, i0, lowcomp0, fast0, slow0) && 0 <= lowcomp0 <= 384 && lowcomp0 % 64 == 0
    requires i0 <= limit && (limit == 7 || (limit == 20 && i0 == 7 && c.end >= 37))
    modifies bap
    ensures i == limit && Allocated(mem, p, exp[..], c, bap[..], bap0, i)
    ensures Leaking(p, exp[..], c, i, lowcomp, fastleak, slowleak) && 0 <= lowcomp <= 384 && lowcomp % 64 == 0
  {
    hide RefBand, Allocated, LowcompStep;
    ghost var ex := exp[..];
    i, lowcomp, fastleak, slowleak := i0, lowcomp0, fast0, slow0;
    var j := c.end - 1;
    while i < limit
      invariant i0 <= i <= limit && exp[..] == ex
      invariant Allocated(mem, p, ex, c, bap[..], bap0, i)
      invariant Leaking(p, ex, c, i, lowcomp, fastleak, slowleak) && 0 <= lowcomp <= 384 && lowcomp % 64 == 0
    {
      assert InChannel(c, i);
      LowcompFollows(p, ex, c, i);
      if i < j {
        lowcomp := LowcompStep(lowcomp, exp[i], exp[i + 1], if i < 7 then 384 else 320);
      }
      fastleak, slowleak := LeakBin(mem, p, c, exp, bap, i, lowcomp, fastleak, slowleak, bap0);
      i := i + 1;
    }
  }

  /** Bins 20 and 21: the compensation runs out in steps of 128, twice at most. */
  method TailLoop(mem: int -> int, p: Params, c: Channel, exp: array<int>, bap: array<int>, lowcomp0: int, fast0: int, slow0: int, ghost bap0: seq<int>)
    returns (i: nat, fastleak: int, slowleak: int)
    requires ValidParams(p) && ValidChannel(c) && exp.Length == bap.Length == 256 && exp != bap && c.end >= 37
    requires ValidExponents(exp[..]) && Allocated(mem, p, exp[..], c, bap[..], bap0, 20)
    requires Leaking(p, exp[..], c, 20, lowcomp0, fast0, slow0) && 0 <= lowcomp0 <= 384
    modifies bap
    ensures 20 <= i <= 22 && Allocated(mem, p, exp[..], c, bap[..], bap0, i)
    ensures exists lowcomp :: Leaking(p, exp[..], c, i, lowcomp, fastleak, slowleak) && 0 <= lowcomp <= 128
  {
    hide RefBand, Allocated, BandEnd;
    ghost var ex := exp[..];
    i, fastleak, slowleak := 20, fast0, slow0;
    var lowcomp := lowcomp0;
    while lowcomp > 128
      invariant 20 <= i <= 22 && exp[..] == ex && 0 <= lowcomp <= 384 - 128 * (i - 20)
      invariant Allocated(mem, p, ex, c, bap[..], bap0, i)
      invariant Leaking(p, ex, c, i, lowcomp, fastleak, slowleak)
      decreases lowcomp
    {
      assert InChannel(c, i);
      PrevOf(p, ex, c, i);
      lowcomp := lowcomp - 128;
      fastleak, slowleak := LeakBin(mem, p, c, exp, bap, i, lowcomp, fastleak, slowleak, bap0);
      i := i + 1;
    }
  }

  /** Whatever is left of the compensation has run out in the bands. */
  lemma BandsUncompensated(p: Params, ex: seq<int>, c: Channel, i: nat)
    requires ValidParams(p) && ValidChannel(c) && InChannel(c, i) && |ex| == 256
    requires i > c.bndstart ==> InChannel(c, i - 1)
    requires c.start > 0 || i >= 22 || (i >= 20 && 0 <= Prev(LeakageOf(p), ex, c, i).lowcomp <= 128)
    ensures RefBand(LeakageOf(p), ex, c, i).lowcomp == 0
  {
    hide RefBand, RefBandPsd;
    PrevOf(p, ex, c, i);
  }

  /** The bins of one band receive their widths; the first one does in any case.  j is
      where the code has got to. */
  method FillBand(mem: int -> int, exp: array<int>, bap: array<int>, startband: nat, endband: nat, mask: int) returns (j: nat)
    requires exp.Length == bap.Length == 256 && exp != bap && startband < 256 && endband <= 256
    modifies bap
    ensures j == if endband > startband then endband else startband + 1
    ensures forall k :: 0 <= k < 256 && (k < startband || j <= k) ==> bap[k] == old(bap[k])
    ensures forall k :: startband <= k < j ==> bap[k] == Lookup(mem, mask + 4 * exp[k])
  {
    hide Lookup;
    j := startband;
    var more := true;
    while more
      invariant startband <= j <= 256 && (more ==> j < 256 && (j == startband || j < endband))
      invariant !more ==> j == if endband > startband then endband else startband + 1
      invariant forall k :: 0 <= k < 256 && (k < startband || j <= k) ==> bap[k] == old(bap[k])
      invariant forall k :: startband <= k < j ==> bap[k] == Lookup(mem, mask + 4 * exp[k])
      decreases 257 - j, more
    {
      bap[j] := Lookup(mem, mask + 4 * exp[j]);
      j := j + 1;
      more := j < endband;
    }
  }

  /** What the last loop knows before band i: the leaks, and that no compensation is left. */
  ghost predicate Banding(p: Params, ex: seq<int>, c: Channel, i: nat, fastleak: int, slowleak: int)
    requires ValidParams(p) && ValidChannel(c) && |ex| == 256
  {
    && c.bndstart <= i && (i == c.bndstart || InChannel(c, i - 1))
    && Prev(LeakageOf(p), ex, c, i).begun && Negates(fastleak, slowleak, Prev(LeakageOf(p), ex, c, i))
    && (c.start > 0 || i >= 22 || (i >= 20 && 0 <= Prev(LeakageOf(p), ex, c, i).lowcomp <= 128))
  }

  /** The bins that are allocated.  The last loop tests its end after its first pass, so
      an empty range is treated like one of a single bin. */
  function Effective(c: Channel): Channel {
    if c.start == c.end then c.(end := c.end + 1) else c
  }

  /** One pass of the last loop, over a range that may be empty. */
  method AllocateBand(mem: int -> int, p: Params, c: Channel, exp: array<int>, bap: array<int>, i: nat, startband: nat, fast0: int, slow0: int, ghost bap0: seq<int>)
    returns (j: nat, fastleak: int, slowleak: int)
    requires ValidParams(p) && ValidChannel(Effective(c)) && exp.Length == bap.Length == 256 && exp != bap
    requires ValidExponents(exp[..]) && TableSafe(exp[..], c.start, c.end)
    requires InChannel(Effective(c), i) && startband == Lo(c, i) && Banding(p, exp[..], Effective(c), i, fast0, slow0)
    requires Allocated(mem, p, exp[..], Effective(c), bap[..], bap0, i)
    modifies bap
    ensures j == Hi(Effective(c), i) && Banding(p, exp[..], Effective(c), i + 1, fastleak, slowleak)
    ensures Allocated(mem, p, exp[..], Effective(c), bap[..], bap0, i + 1)
  {
    hide ComputeMask, Lookup, RefBand, RefBandPsd, Allocated, TableSafe, BandStart, BandEnd;
    ghost var ex, before, c' := exp[..], bap[..], Effective(c);
    fastleak, slowleak := fast0, slow0;
    BandInside(c', i);
    PrevOf(p, ex, c', i);
    var endband := if BandEnd(i) < c.end then BandEnd(i) else c.end;
    EndOfPass(c, i);
    var psd := IntegrateBand(exp, startband, endband, c.start, c.end, i);
    fastleak := fastleak + p.fdecay;
    if fastleak > psd + p.fgain { fastleak := psd + p.fgain; }
    slowleak := slowleak + p.sdecay;
    if slowleak > psd + p.sgain { slowleak := psd + p.sgain; }
    var mask := if fastleak < slowleak then fastleak else slowleak;
    BandsUncompensated(p, ex, c', i);
    LeakStep(p, ex, c', i, fast0, slow0, psd);
    mask := ComputeMask(p, mask, psd, i);
    j := FillBand(mem, exp, bap, startband, endband, mask);
    AllocatedExtend(mem, p, ex, c', before, bap[..], bap0, i);
  }

  /** Where one pass begins and where it has got to. */
  lemma EndOfPass(c: Channel, i: nat)
    requires ValidChannel(Effective(c)) && InChannel(Effective(c), i)
    ensures var e := BandTo(c.end, i);
            && Lo(Effective(c), i) == Lo(c, i) && (c.start == c.end ==> e == Lo(c, i))
            && Hi(Effective(c), i) == if e > Lo(c, i) then e else Lo(c, i) + 1
  {
    BandInside(Effective(c), i);
  }

  /** The loop over the bands. */
  method BandLoop(mem: int -> int, p: Params, c: Channel, exp: array<int>, bap: array<int>, i0: nat, fast0: int, slow0: int, ghost bap0: seq<int>)
    requires ValidParams(p) && ValidChannel(Effective(c)) && exp.Length == bap.Length == 256 && exp != bap
    requires ValidExponents(exp[..]) && TableSafe(exp[..], c.start, c.end)
    requires InChannel(Effective(c), i0) && Banding(p, exp[..], Effective(c), i0, fast0, slow0)
    requires Allocated(mem, p, exp[..], Effective(c), bap[..], bap0, i0)
    modifies bap
    ensures exists i: nat :: !InChannel(Effective(c), i) && i > c.bndstart && Allocated(mem, p, exp[..], Effective(c), bap[..], bap0, i)
  {
    hide RefBand, Allocated, TableSafe, Banding;
    ghost var ex, c' := exp[..], Effective(c);
    var i, fastleak, slowleak := i0, fast0, slow0;
    var j := Lo(c, i);
    var more := true;
    while more
      invariant c.bndstart <= i <= 50 && exp[..] == ex && Banding(p, ex, c', i, fastleak, slowleak)
      invariant Allocated(mem, p, ex, c', bap[..], bap0, i)
      invariant more ==> InChannel(c', i) && j == Lo(c, i)
      invariant !more ==> !InChannel(c', i) && i > c.bndstart
      decreases 50 - i, more
    {
      j, fastleak, slowleak := AllocateBand(mem, p, c, exp, bap, i, j, fastleak, slowleak, bap0);
      NextBand(c', i);
      BandInside(c', i);
      i := i + 1;
      more := j < c.end;
    }
  }

  /** Where a band ends the next one begins, and band 49 ends where every channel does. */
  lemma NextBand(c: Channel, i: nat)
    requires ValidChannel(c) && InChannel(c, i)
    ensures Hi(c, i) < c.end <==> InChannel(c, i + 1)
    ensures InChannel(c, i + 1) ==> Hi(c, i) == Lo(c, i + 1)
  {
    BandsAscend(c.bndstart, i);
    BandInside(c, i);
    if i < 49 {
      BandsAscend(i, i + 1);
      assert BandEnd(i) == BandStart(i + 1);
    }
  }

  /** The band of a bin. */
  function BandOf(c: Channel, k: nat, i: nat): (b: nat)
    requires ValidChannel(c) && InChannel(c, i) && Lo(c, i) <= k < c.end
    ensures InChannel(c, b) && Lo(c, b) <= k < Hi(c, b)
    decreases 50 - i
  {
    if k < Hi(c, i) then i
    else
      NextBand(c, i);
      BandOf(c, k, i + 1)
  }

  /** The width the standard's rule gives to bin k of the channel. */
  function RefBapAt(r: Rule, ex: seq<int>, c: Channel, k: nat): int
    requires ValidRule(r) && ValidChannel(c) && |ex| == 256 && c.start <= k < c.end
  {
    RefBap(r, ex, c, BandOf(c, k, c.bndstart), k)
  }

  /** The index of bin k of the channel. */
  function IndexOf(p: Params, ex: seq<int>, c: Channel, k: nat): int
    requires ValidParams(p) && ValidChannel(c) && |ex| == 256 && c.start <= k < c.end
  {
    IndexAt(p, ex, c, BandOf(c, k, c.bndstart), k)
  }

  /** a52_bit_allocate: when it returns, every bin of the channel whose index is one of the
      table's has the width of the standard's rule, a bin whose index is not has whatever
      lies there, and no other bin has changed.  An empty range is not left alone: its first
      bin is allocated. */
  method BitAllocate(mem: int -> int, f: Fields, c: Channel, exp: array<int>, bap: array<int>, fast0: int, slow0: int)
    requires ValidFields(f) && ValidChannel(Effective(c)) && exp.Length == bap.Length == 256 && exp != bap
    requires c.fast == 3072 - fast0 && c.slow == 3072 - slow0
    requires ValidExponents(exp[..]) && TableSafe(exp[..], c.start, c.end)
    modifies bap
    ensures var c', p := Effective(c), ParamsOf(f);
            forall k: nat :: c'.start <= k < c'.end
              ==> bap[k] == if InTable(IndexOf(p, exp[..], c', k)) then RefBapAt(StandardRule(CodesOf(f)), exp[..], c', k)
                            else mem(IndexOf(p, exp[..], c', k))
    ensures forall k: nat :: k < 256 && (k < Effective(c).start || Effective(c).end <= k) ==> bap[k] == old(bap[k])
  {
    hide RefBand, Banding, TableSafe;
    var p := ParamsOf(f);
    ParamsAreStandard(f);
    ghost var ex, bap0, c' := exp[..], bap[..], Effective(c);
    var i, fastleak, slowleak := c.bndstart, fast0, slow0;
    assert InChannel(c', i);
    if c.start == 0 {
      i, fastleak, slowleak := SingleBinPhases(mem, p, c, exp, bap, bap0);
      if c.end == 7 {
        Completed(mem, p, ex, c, bap[..], bap0, i);
        return;
      }
    } else {
      StartBanding(p, ex, c', fastleak, slowleak);
    }
    BandLoop(mem, p, c, exp, bap, i, fastleak, slowleak, bap0);
    ghost var last: nat :| !InChannel(c', last) && last > c.bndstart && Allocated(mem, p, ex, c', bap[..], bap0, last);
    Completed(mem, p, ex, c', bap[..], bap0, last);
  }

  lemma StartBanding(p: Params, ex: seq<int>, c: Channel, fastleak: int, slowleak: int)
    requires ValidParams(p) && ValidChannel(c) && |ex| == 256 && c.start > 0
    requires c.fast == 3072 - fastleak && c.slow == 3072 - slowleak
    ensures Banding(p, ex, c, c.bndstart, fastleak, slowleak)
  {
  }

  /** Once all bands are done, so are all bins. */
  lemma Completed(mem: int -> int, p: Params, ex: seq<int>, c: Channel, bap: seq<int>, bap0: seq<int>, i: nat)
    requires ValidParams(p) && ValidChannel(c) && |ex| == 256 && i > c.bndstart && !InChannel(c, i)
    requires Allocated(mem, p, ex, c, bap, bap0, i)
    ensures forall k: nat :: c.start <= k < c.end
              ==> bap[k] == if InTable(IndexOf(p, ex, c, k)) then RefBapAt(RuleOf(p), ex, c, k) else mem(IndexOf(p, ex, c, k))
    ensures forall k: nat :: k < 256 && (k < c.start || c.end <= k) ==> bap[k] == bap0[k]
  {
    hide RefBap, IndexAt;
    forall k: nat | c.start <= k < c.end
      ensures bap[k] == if InTable(IndexOf(p, ex, c, k)) then RefBapAt(RuleOf(p), ex, c, k) else mem(IndexOf(p, ex, c, k))
    {
      var b := BandOf(c, k, c.bndstart);
      if b >= i {
        BandsAscend(i, b);
      }
      if InTable(IndexAt(p, ex, c, b, k)) {
        StoredWidth(mem, p, ex, c, b, k);
      }
    }
  }

  /** The phases of a channel that starts at bin 0, up to the loop over bands. */
  method SingleBinPhases(mem: int -> int, p: Params, c: Channel, exp: array<int>, bap: array<int>, ghost bap0: seq<int>)
    returns (i: nat, fastleak: int, slowleak: int)
    requires ValidParams(p) && ValidChannel(c) && c.start == 0 && exp.Length == bap.Length == 256 && exp != bap
    requires ValidExponents(exp[..]) && bap[..] == bap0
    modifies bap
    ensures Allocated(mem, p, exp[..], c, bap[..], bap0, i)
    ensures c.end == 7 ==> i == 7
    ensures c.end != 7 ==> 20 <= i <= 22 && Banding(p, exp[..], c, i, fastleak, slowleak)
  {
    hide RefBand, IndexAt, Lookup;
    var lowcomp;
    i, lowcomp, fastleak, slowleak := OpeningLoop(mem, p, c, exp, bap, bap0);
    i, lowcomp, fastleak, slowleak := LeakLoop(mem, p, c, exp, bap, i, 7, lowcomp, fastleak, slowleak, bap0);
    if c.end == 7 {
      return;
    }
    i, lowcomp, fastleak, slowleak := LeakLoop(mem, p, c, exp, bap, i, 20, lowcomp, fastleak, slowleak, bap0);
    i, fastleak, slowleak := TailLoop(mem, p, c, exp, bap, lowcomp, fastleak, slowleak, bap0);
  }

  /** Deltas of a channel that sends none: the source points deltba into the padding. */
  lemma NoDeltasAreZero()
    ensures forall i: nat :: i < 50 ==> InTable(i) && Baptab(156 + i) == 0
  {
    forall i: nat | i < 50
      ensures InTable(i) && Baptab(156 + i) == 0
    {
      PaddingIsClamp(i);
    }
  }

  // ------------------------------------------------------------------ the channels of a block

  /** Start band of a coupling channel, by its first sub-band. */
  const COUPLING_BAND: seq<nat> := [31, 35, 37, 39, 41, 42, 43, 44, 45, 45, 46, 46, 47, 47, 48, 48]

  /** The coupling channel of a block.  The guard of the decoder lets an empty range pass.
      The allocation admits whatever the guard lets pass, but it treats the empty range as
      one bin, and that is the only range for which it goes past the end. */
  lemma CouplingChannelAdmitted(cplbegf: nat, cplendf: nat, fast: int, slow: int)
    requires cplbegf < 16 && cplendf < 16 && cplendf + 3 - cplbegf >= 0
    ensures var c := Channel(COUPLING_BAND[cplbegf], 12 * cplbegf + 37, 12 * cplendf + 73, fast, slow);
            && ValidChannel(Effective(c))
            && (Effective(c).end > c.end <==> cplendf + 3 == cplbegf)
            && (ValidChannel(c) <==> cplendf + 3 != cplbegf)
  {
  }

  /** A full-bandwidth channel is always valid, coupled or not. */
  lemma FullBandwidthChannelValid(chbwcod: nat, cplbegf: nat)
    requires chbwcod <= 60 && cplbegf < 16
    ensures ValidChannel(Channel(0, 0, 3 * chbwcod + 73, 0, 0))
    ensures ValidChannel(Channel(0, 0, 12 * cplbegf + 37, 0, 0))
  {
  }
}
