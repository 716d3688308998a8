/**
 The checksums and the noise generator: crc16_block and dither_gen of liba52, and
 faad_check_CRC of libfaad.  All three advance a shift register eight bits at a time by
 table.  The reference is the register that shifts one bit at a time; an 8-bit register is
 the upper half of a 16-bit one.
 */
module Crc {
  import opened Powers
  import opened Bits
  import opened Seqs
  import opened ByteStrings
  import AacReader

  // ------------------------------------------------------------------ the shift register

  function Xor(x: bv16, y: bv16): bv16 { x ^ y }

  function Up(x: bv16): bv16 { x << 1 }

  predicate Top(x: bv16) { x & 0x8000 != 0 }

  /** One shift; a bit that falls out at the top adds the polynomial. */
  function Step(x: bv16, poly: bv16): bv16 {
    if Top(x) then Xor(Up(x), poly) else Up(x)
  }

  function Steps(x: bv16, n: nat, poly: bv16): bv16
    decreases n
  {
    if n == 0 then x else Steps(Step(x, poly), n - 1, poly)
  }

  /** One shift with a message bit. */
  function BitStep(x: bv16, bit: bool, poly: bv16): bv16 {
    if Top(x) != bit then Xor(Up(x), poly) else Up(x)
  }

  /** The register after a message. */
  function Serial(x: bv16, bits: seq<bool>, poly: bv16): bv16
    decreases |bits|
  {
    if bits == [] then x else Serial(BitStep(x, bits[0], poly), bits[1..], poly)
  }

  lemma {:induction false} SerialJoin(x: bv16, a: seq<bool>, b: seq<bool>, poly: bv16)
    ensures Serial(x, a + b, poly) == Serial(Serial(x, a, poly), b, poly)
    decreases |a|
  {
    hide BitStep;
    if a == [] {
      assert a + b == b;
    } else {
      assert (a + b)[1..] == a[1..] + b;
      SerialJoin(BitStep(x, a[0], poly), a[1..], b, poly);
    }
  }

  // ------------------------------------------------------------------ laws of words

  lemma XorXor(a: bv16, b: bv16, c: bv16)
    ensures Xor(Xor(a, b), c) == (a ^ b) ^ c
  {
  }

  lemma XorOfXor(a: bv16, b: bv16, c: bv16)
    ensures Xor(a, Xor(b, c)) == a ^ (b ^ c)
  {
  }

  lemma XorSwap(a: bv16, b: bv16, c: bv16)
    ensures Xor(Xor(a, b), c) == Xor(Xor(a, c), b)
  {
    hide Xor;
    XorXor(a, b, c);
    XorXor(a, c, b);
  }

  lemma XorAssociative(a: bv16, b: bv16, c: bv16)
    ensures Xor(Xor(a, b), c) == Xor(a, Xor(b, c))
  {
    hide Xor;
    XorXor(a, b, c);
    XorOfXor(a, b, c);
  }

  lemma XorBack(b: bv16, c: bv16)
    ensures Xor(c, Xor(b, c)) == b
  {
    hide Xor;
    XorOfXor(c, b, c);
  }

  lemma XorTwice(a: bv16, b: bv16, c: bv16)
    ensures Xor(Xor(a, c), Xor(b, c)) == Xor(a, b)
  {
    hide Xor;
    XorAssociative(a, c, Xor(b, c));
    XorBack(b, c);
  }

  lemma XorZero(a: bv16)
    ensures Xor(a, a) == 0 && Xor(a, 0) == a && Xor(0, a) == a
  {
  }

  lemma UpLinear(x: bv16, y: bv16)
    ensures Up(Xor(x, y)) == Xor(Up(x), Up(y))
  {
  }

  lemma TopLinear(x: bv16, y: bv16)
    ensures Top(Xor(x, y)) <==> Top(x) != Top(y)
  {
  }

  lemma Cancel(a: bv16, b: bv16, c: bv16)
    requires Xor(a, c) == Xor(b, c)
    ensures a == b
  {
  }

  lemma UpInjective(a: bv16, b: bv16)
    requires Up(a) == Up(b) && (Top(a) <==> Top(b))
    ensures a == b
  {
  }

  /** What has been moved up is even; an odd polynomial is not. */
  lemma OddDiffers(a: bv16, b: bv16, poly: bv16)
    requires poly & 1 == 1
    ensures Xor(Up(a), poly) != Up(b)
  {
  }

  /** Shifting is linear. */
  lemma StepLinear(x: bv16, y: bv16, poly: bv16)
    ensures Step(Xor(x, y), poly) == Xor(Step(x, poly), Step(y, poly))
  {
    hide Xor, Up, Top;
    UpLinear(x, y);
    TopLinear(x, y);
    XorTwice(Up(x), Up(y), poly);
    XorSwap(Up(x), Up(y), poly);
    XorAssociative(Up(x), Up(y), poly);
  }

  lemma {:induction false} StepsLinear(x: bv16, y: bv16, n: nat, poly: bv16)
    ensures Steps(Xor(x, y), n, poly) == Xor(Steps(x, n, poly), Steps(y, n, poly))
    decreases n
  {
    hide Xor, Step;
    if n > 0 {
      StepLinear(x, y, poly);
      StepsLinear(Step(x, poly), Step(y, poly), n - 1, poly);
    }
  }

  // ------------------------------------------------------------------ bits one at a time, or a byte at once

  /** The n upper bits of a word, the highest first, and what remains when they are gone. */
  function TopBits(t: bv16, n: nat): seq<bool>
    decreases n
  {
    if n == 0 then [] else [Top(t)] + TopBits(Up(t), n - 1)
  }

  function Ups(t: bv16, n: nat): bv16
    decreases n
  {
    if n == 0 then t else Ups(Up(t), n - 1)
  }

  /** A bit that waits at the top of the rest of the message enters with the shift. */
  lemma EnterBit(x: bv16, t: bv16, poly: bv16)
    ensures Step(Xor(x, t), poly) == Xor(BitStep(x, Top(t), poly), Up(t))
  {
    hide Xor, Up, Top;
    UpLinear(x, t);
    TopLinear(x, t);
    XorSwap(Up(x), Up(t), poly);
  }

  lemma {:induction false} EnterBits(x: bv16, t: bv16, n: nat, poly: bv16)
    ensures Steps(Xor(x, t), n, poly) == Xor(Serial(x, TopBits(t, n), poly), Ups(t, n))
    decreases n
  {
    hide Xor, Up, Top, Step, BitStep;
    if n > 0 {
      EnterBit(x, t, poly);
      EnterBits(BitStep(x, Top(t), poly), Up(t), n - 1, poly);
      assert TopBits(t, n)[1..] == TopBits(Up(t), n - 1);
    }
  }

  /** The bits of a byte, the highest first. */
  function ByteBits(v: bv16): (s: seq<bool>)
    ensures |s| == 8
  {
    [v & 0x80 != 0, v & 0x40 != 0, v & 0x20 != 0, v & 0x10 != 0, v & 8 != 0, v & 4 != 0, v & 2 != 0, v & 1 != 0]
  }

  /** A byte in the upper half of a word. */
  function High(v: bv16): bv16 { v << 8 }

  lemma WaitingUps(v: bv16)
    ensures High(v) == v << 8 && Up(v << 8) == v << 9 && Up(v << 9) == v << 10 && Up(v << 10) == v << 11
    ensures Up(v << 11) == v << 12 && Up(v << 12) == v << 13 && Up(v << 13) == v << 14 && Up(v << 14) == v << 15
    ensures v <= 0xff ==> Up(v << 15) == 0
  {
  }

  lemma WaitingTops(v: bv16, t8: bv16, t9: bv16, t10: bv16, t11: bv16, t12: bv16, t13: bv16, t14: bv16, t15: bv16)
    requires v <= 0xff && t8 == v << 8 && t9 == v << 9 && t10 == v << 10 && t11 == v << 11
    requires t12 == v << 12 && t13 == v << 13 && t14 == v << 14 && t15 == v << 15
    ensures ByteBits(v) == [Top(t8), Top(t9)] + [Top(t10), Top(t11)] + [Top(t12), Top(t13)] + [Top(t14), Top(t15)]
  {
  }

  lemma TwoOnTop(t: bv16, n: nat)
    requires n >= 2
    ensures TopBits(t, n) == [Top(t), Top(Up(t))] + TopBits(Up(Up(t)), n - 2) && Ups(t, n) == Ups(Up(Up(t)), n - 2)
  {
    hide Up, Top;
    assert TopBits(Up(t), n - 1) == [Top(Up(t))] + TopBits(Up(Up(t)), n - 2);
  }

  lemma NothingOnTop(t: bv16)
    ensures TopBits(t, 0) == [] && Ups(t, 0) == t
  {
  }

  lemma ByteOnTop(v: bv16)
    requires v <= 0xff
    ensures TopBits(High(v), 8) == ByteBits(v) && Ups(High(v), 8) == 0
  {
    hide *;
    WaitingUps(v);
    var t0 := High(v);
    var t2 := Up(Up(t0));
    var t4 := Up(Up(t2));
    var t6 := Up(Up(t4));
    WaitingTops(v, t0, Up(t0), t2, Up(t2), t4, Up(t4), t6, Up(t6));
    TwoOnTop(t0, 8);
    TwoOnTop(t2, 6);
    TwoOnTop(t4, 4);
    TwoOnTop(t6, 2);
    NothingOnTop(0);
    FourPairs([Top(t0), Top(Up(t0))], [Top(t2), Top(Up(t2))], [Top(t4), Top(Up(t4))], [Top(t6), Top(Up(t6))]);
  }

  lemma FourPairs(a: seq<bool>, b: seq<bool>, c: seq<bool>, d: seq<bool>)
    ensures a + b + c + d == a + (b + (c + (d + [])))
  {
  }

  lemma ByteAtOnce(x: bv16, v: bv16, poly: bv16)
    requires v <= 0xff
    ensures Serial(x, ByteBits(v), poly) == Steps(Xor(x, High(v)), 8, poly)
  {
    hide *;
    ByteOnTop(v);
    EnterBits(x, High(v), 8, poly);
    XorZero(Serial(x, ByteBits(v), poly));
  }

  function Eight(x: bv16, poly: bv16): bv16 {
    Step(Step(Step(Step(Step(Step(Step(Step(x, poly), poly), poly), poly), poly), poly), poly), poly)
  }

  lemma EightSteps(x: bv16, poly: bv16)
    ensures Steps(x, 8, poly) == Eight(x, poly)
  {
    hide Step;
    TwoSteps(x, 8, poly);
    var x2 := Step(Step(x, poly), poly);
    TwoSteps(x2, 6, poly);
    var x4 := Step(Step(x2, poly), poly);
    TwoSteps(x4, 4, poly);
    TwoSteps(Step(Step(x4, poly), poly), 2, poly);
  }

  lemma TwoSteps(x: bv16, n: nat, poly: bv16)
    requires n >= 2
    ensures Steps(x, n, poly) == Steps(Step(Step(x, poly), poly), n - 2, poly)
  {
    hide Step;
    assert Steps(Step(x, poly), n - 1, poly) == Steps(Step(Step(x, poly), poly), n - 2, poly);
  }

  /** The low half only moves up. */
  lemma LowHalf(x: bv16, poly: bv16)
    requires x <= 0xff
    ensures Steps(x, 8, poly) == High(x)
  {
    EightSteps(x, poly);
    assert Step(x, poly) == x << 1 <= 0x1fe;
    assert Step(x << 1, poly) == x << 2 <= 0x3fc;
    assert Step(x << 2, poly) == x << 3 <= 0x7f8;
    assert Step(x << 3, poly) == x << 4 <= 0xff0;
    assert Step(x << 4, poly) == x << 5 <= 0x1fe0;
    assert Step(x << 5, poly) == x << 6 <= 0x3fc0;
    assert Step(x << 6, poly) == x << 7 <= 0x7f80;
    assert Step(x << 7, poly) == x << 8;
  }

  lemma StepKeepsNonzero(x: bv16, poly: bv16)
    requires poly & 1 == 1
    ensures x != 0 ==> Step(x, poly) != 0
  {
  }

  lemma {:induction false} StepsKeepNonzero(x: bv16, n: nat, poly: bv16)
    requires poly & 1 == 1
    ensures x != 0 ==> Steps(x, n, poly) != 0
    decreases n
  {
    hide Step;
    if n > 0 {
      StepKeepsNonzero(x, poly);
      StepsKeepNonzero(Step(x, poly), n - 1, poly);
    }
  }

  // ------------------------------------------------------------------ the tables

  /** Entry k of a row of sixteen. */
  function Pick(k: bv16, a0: bv16, a1: bv16, a2: bv16, a3: bv16, a4: bv16, a5: bv16, a6: bv16, a7: bv16,
                a8: bv16, a9: bv16, aA: bv16, aB: bv16, aC: bv16, aD: bv16, aE: bv16, aF: bv16): bv16 {
    if k == 0 then a0 else if k == 1 then a1 else if k == 2 then a2 else if k == 3 then a3
    else if k == 4 then a4 else if k == 5 then a5 else if k == 6 then a6 else if k == 7 then a7
    else if k == 8 then a8 else if k == 9 then a9 else if k == 10 then aA else if k == 11 then aB
    else if k == 12 then aC else if k == 13 then aD else if k == 14 then aE else aF
  }

  // crc_lut of liba52, a quarter of the table at a time.

  function CrcLut0(x: bv16): bv16 {
    if x >> 4 == 0 then
      Pick(x & 15, 0x0000, 0x8005, 0x800f, 0x000a, 0x801b, 0x001e, 0x0014, 0x8011,
           0x8033, 0x0036, 0x003c, 0x8039, 0x0028, 0x802d, 0x8027, 0x0022)
    else if x >> 4 == 1 then
      Pick(x & 15, 0x8063, 0x0066, 0x006c, 0x8069, 0x0078, 0x807d, 0x8077, 0x0072,
           0x0050, 0x8055, 0x805f, 0x005a, 0x804b, 0x004e, 0x0044, 0x8041)
    else if x >> 4 == 2 then
      Pick(x & 15, 0x80c3, 0x00c6, 0x00cc, 0x80c9, 0x00d8, 0x80dd, 0x80d7, 0x00d2,
           0x00f0, 0x80f5, 0x80ff, 0x00fa, 0x80eb, 0x00ee, 0x00e4, 0x80e1)
    else
      Pick(x & 15, 0x00a0, 0x80a5, 0x80af, 0x00aa, 0x80bb, 0x00be, 0x00b4, 0x80b1,
           0x8093, 0x0096, 0x009c, 0x8099, 0x0088, 0x808d, 0x8087, 0x0082)
  }

  function CrcLut1(x: bv16): bv16 {
    if x >> 4 == 4 then
      Pick(x & 15, 0x8183, 0x0186, 0x018c, 0x8189, 0x0198, 0x819d, 0x8197, 0x0192,
           0x01b0, 0x81b5, 0x81bf, 0x01ba, 0x81ab, 0x01ae, 0x01a4, 0x81a1)
    else if x >> 4 == 5 then
      Pick(x & 15, 0x01e0, 0x81e5, 0x81ef, 0x01ea, 0x81fb, 0x01fe, 0x01f4, 0x81f1,
           0x81d3, 0x01d6, 0x01dc, 0x81d9, 0x01c8, 0x81cd, 0x81c7, 0x01c2)
    else if x >> 4 == 6 then
      Pick(x & 15, 0x0140, 0x8145, 0x814f, 0x014a, 0x815b, 0x015e, 0x0154, 0x8151,
           0x8173, 0x0176, 0x017c, 0x8179, 0x0168, 0x816d, 0x8167, 0x0162)
    else
      Pick(x & 15, 0x8123, 0x0126, 0x012c, 0x8129, 0x0138, 0x813d, 0x8137, 0x0132,
           0x0110, 0x8115, 0x811f, 0x011a, 0x810b, 0x010e, 0x0104, 0x8101)
  }

  function CrcLut2(x: bv16): bv16 {
    if x >> 4 == 8 then
      Pick(x & 15, 0x8303, 0x0306, 0x030c, 0x8309, 0x0318, 0x831d, 0x8317, 0x0312,
           0x0330, 0x8335, 0x833f, 0x033a, 0x832b, 0x032e, 0x0324, 0x8321)
    else if x >> 4 == 9 then
      Pick(x & 15, 0x0360, 0x8365, 0x836f, 0x036a, 0x837b, 0x037e, 0x0374, 0x8371,
           0x8353, 0x0356, 0x035c, 0x8359, 0x0348, 0x834d, 0x8347, 0x0342)
    else if x >> 4 == 10 then
      Pick(x & 15, 0x03c0, 0x83c5, 0x83cf, 0x03ca, 0x83db, 0x03de, 0x03d4, 0x83d1,
           0x83f3, 0x03f6, 0x03fc, 0x83f9, 0x03e8, 0x83ed, 0x83e7, 0x03e2)
    else
      Pick(x & 15, 0x83a3, 0x03a6, 0x03ac, 0x83a9, 0x03b8, 0x83bd, 0x83b7, 0x03b2,
           0x0390, 0x8395, 0x839f, 0x039a, 0x838b, 0x038e, 0x0384, 0x8381)
  }

  function CrcLut3(x: bv16): bv16 {
    if x >> 4 == 12 then
      Pick(x & 15, 0x0280, 0x8285, 0x828f, 0x028a, 0x829b, 0x029e, 0x0294, 0x8291,
           0x82b3, 0x02b6, 0x02bc, 0x82b9, 0x02a8, 0x82ad, 0x82a7, 0x02a2)
    else if x >> 4 == 13 then
      Pick(x & 15, 0x82e3, 0x02e6, 0x02ec, 0x82e9, 0x02f8, 0x82fd, 0x82f7, 0x02f2,
           0x02d0, 0x82d5, 0x82df, 0x02da, 0x82cb, 0x02ce, 0x02c4, 0x82c1)
    else if x >> 4 == 14 then
      Pick(x & 15, 0x8243, 0x0246, 0x024c, 0x8249, 0x0258, 0x825d, 0x8257, 0x0252,
           0x0270, 0x8275, 0x827f, 0x027a, 0x826b, 0x026e, 0x0264, 0x8261)
    else
      Pick(x & 15, 0x0220, 0x8225, 0x822f, 0x022a, 0x823b, 0x023e, 0x0234, 0x8231,
           0x8213, 0x0216, 0x021c, 0x8219, 0x0208, 0x820d, 0x8207, 0x0202)
  }

  function CrcLut(x: bv16): bv16 {
    if x < 64 then CrcLut0(x) else if x < 128 then CrcLut1(x) else if x < 192 then CrcLut2(x) else CrcLut3(x)
  }

  lemma CrcLut0IsLow(x: bv16)
    requires x >> 5 == 0
    ensures CrcLut0(x) == Eight(High(x), 0x8005)
  {
  }

  lemma CrcLut0IsHigh(x: bv16)
    requires x >> 5 == 1
    ensures CrcLut0(x) == Eight(High(x), 0x8005)
  {
  }

  lemma CrcLut0Is(x: bv16)
    requires x >> 6 == 0
    ensures CrcLut0(x) == Eight(High(x), 0x8005)
  {
    hide CrcLut0, Eight, High, Upper;
    if x >> 5 == 0 {
      CrcLut0IsLow(x);
    } else {
      CrcLut0IsHigh(x);
    }
  }

  lemma CrcLut1Is(x: bv16)
    requires x >> 6 == 1
    ensures CrcLut1(x) == Eight(High(x), 0x8005)
  {
  }

  lemma CrcLut2Is(x: bv16)
    requires x >> 6 == 2
    ensures CrcLut2(x) == Eight(High(x), 0x8005)
  {
  }

  lemma CrcLut3Is(x: bv16)
    requires x >> 6 == 3
    ensures CrcLut3(x) == Eight(High(x), 0x8005)
  {
  }

  /** The table tabulates eight shifts of its index. */
  lemma CrcLutIs(x: bv16)
    requires x <= 0xff
    ensures CrcLut(x) == Eight(High(x), 0x8005)
  {
    hide CrcLut0, CrcLut1, CrcLut2, CrcLut3, Eight;
    if x < 64 {
      CrcLut0Is(x);
    } else if x < 128 {
      CrcLut1Is(x);
    } else if x < 192 {
      CrcLut2Is(x);
    } else {
      CrcLut3Is(x);
    }
  }

  // dither_lut of liba52, a quarter of the table at a time.

  function DitherLut0(x: bv16): bv16 {
    if x >> 4 == 0 then
      Pick(x & 15, 0x0000, 0xa011, 0xe033, 0x4022, 0x6077, 0xc066, 0x8044, 0x2055,
           0xc0ee, 0x60ff, 0x20dd, 0x80cc, 0xa099, 0x0088, 0x40aa, 0xe0bb)
    else if x >> 4 == 1 then
      Pick(x & 15, 0x21cd, 0x81dc, 0xc1fe, 0x61ef, 0x41ba, 0xe1ab, 0xa189, 0x0198,
           0xe123, 0x4132, 0x0110, 0xa101, 0x8154, 0x2145, 0x6167, 0xc176)
    else if x >> 4 == 2 then
      Pick(x & 15, 0x439a, 0xe38b, 0xa3a9, 0x03b8, 0x23ed, 0x83fc, 0xc3de, 0x63cf,
           0x8374, 0x2365, 0x6347, 0xc356, 0xe303, 0x4312, 0x0330, 0xa321)
    else
      Pick(x & 15, 0x6257, 0xc246, 0x8264, 0x2275, 0x0220, 0xa231, 0xe213, 0x4202,
           0xa2b9, 0x02a8, 0x428a, 0xe29b, 0xc2ce, 0x62df, 0x22fd, 0x82ec)
  }

  function DitherLut1(x: bv16): bv16 {
    if x >> 4 == 4 then
      Pick(x & 15, 0x8734, 0x2725, 0x6707, 0xc716, 0xe743, 0x4752, 0x0770, 0xa761,
           0x47da, 0xe7cb, 0xa7e9, 0x07f8, 0x27ad, 0x87bc, 0xc79e, 0x678f)
    else if x >> 4 == 5 then
      Pick(x & 15, 0xa6f9, 0x06e8, 0x46ca, 0xe6db, 0xc68e, 0x669f, 0x26bd, 0x86ac,
           0x6617, 0xc606, 0x8624, 0x2635, 0x0660, 0xa671, 0xe653, 0x4642)
    else if x >> 4 == 6 then
      Pick(x & 15, 0xc4ae, 0x64bf, 0x249d, 0x848c, 0xa4d9, 0x04c8, 0x44ea, 0xe4fb,
           0x0440, 0xa451, 0xe473, 0x4462, 0x6437, 0xc426, 0x8404, 0x2415)
    else
      Pick(x & 15, 0xe563, 0x4572, 0x0550, 0xa541, 0x8514, 0x2505, 0x6527, 0xc536,
           0x258d, 0x859c, 0xc5be, 0x65af, 0x45fa, 0xe5eb, 0xa5c9, 0x05d8)
  }

  function DitherLut2(x: bv16): bv16 {
    if x >> 4 == 8 then
      Pick(x & 15, 0xae79, 0x0e68, 0x4e4a, 0xee5b, 0xce0e, 0x6e1f, 0x2e3d, 0x8e2c,
           0x6e97, 0xce86, 0x8ea4, 0x2eb5, 0x0ee0, 0xaef1, 0xeed3, 0x4ec2)
    else if x >> 4 == 9 then
      Pick(x & 15, 0x8fb4, 0x2fa5, 0x6f87, 0xcf96, 0xefc3, 0x4fd2, 0x0ff0, 0xafe1,
           0x4f5a, 0xef4b, 0xaf69, 0x0f78, 0x2f2d, 0x8f3c, 0xcf1e, 0x6f0f)
    else if x >> 4 == 10 then
      Pick(x & 15, 0xede3, 0x4df2, 0x0dd0, 0xadc1, 0x8d94, 0x2d85, 0x6da7, 0xcdb6,
           0x2d0d, 0x8d1c, 0xcd3e, 0x6d2f, 0x4d7a, 0xed6b, 0xad49, 0x0d58)
    else
      Pick(x & 15, 0xcc2e, 0x6c3f, 0x2c1d, 0x8c0c, 0xac59, 0x0c48, 0x4c6a, 0xec7b,
           0x0cc0, 0xacd1, 0xecf3, 0x4ce2, 0x6cb7, 0xcca6, 0x8c84, 0x2c95)
  }

  function DitherLut3(x: bv16): bv16 {
    if x >> 4 == 12 then
      Pick(x & 15, 0x294d, 0x895c, 0xc97e, 0x696f, 0x493a, 0xe92b, 0xa909, 0x0918,
           0xe9a3, 0x49b2, 0x0990, 0xa981, 0x89d4, 0x29c5, 0x69e7, 0xc9f6)
    else if x >> 4 == 13 then
      Pick(x & 15, 0x0880, 0xa891, 0xe8b3, 0x48a2, 0x68f7, 0xc8e6, 0x88c4, 0x28d5,
           0xc86e, 0x687f, 0x285d, 0x884c, 0xa819, 0x0808, 0x482a, 0xe83b)
    else if x >> 4 == 14 then
      Pick(x & 15, 0x6ad7, 0xcac6, 0x8ae4, 0x2af5, 0x0aa0, 0xaab1, 0xea93, 0x4a82,
           0xaa39, 0x0a28, 0x4a0a, 0xea1b, 0xca4e, 0x6a5f, 0x2a7d, 0x8a6c)
    else
      Pick(x & 15, 0x4b1a, 0xeb0b, 0xab29, 0x0b38, 0x2b6d, 0x8b7c, 0xcb5e, 0x6b4f,
           0x8bf4, 0x2be5, 0x6bc7, 0xcbd6, 0xeb83, 0x4b92, 0x0bb0, 0xaba1)
  }

  function DitherLut(x: bv16): bv16 {
    if x < 64 then DitherLut0(x) else if x < 128 then DitherLut1(x) else if x < 192 then DitherLut2(x) else DitherLut3(x)
  }

  lemma DitherLut0IsLow(x: bv16)
    requires x >> 5 == 0
    ensures DitherLut0(x) == Eight(High(x), 0xa011)
  {
  }

  lemma DitherLut0IsHigh(x: bv16)
    requires x >> 5 == 1
    ensures DitherLut0(x) == Eight(High(x), 0xa011)
  {
  }

  lemma DitherLut0Is(x: bv16)
    requires x >> 6 == 0
    ensures DitherLut0(x) == Eight(High(x), 0xa011)
  {
    hide DitherLut0, Eight, High, Upper;
    if x >> 5 == 0 {
      DitherLut0IsLow(x);
    } else {
      DitherLut0IsHigh(x);
    }
  }

  lemma DitherLut1Is(x: bv16)
    requires x >> 6 == 1
    ensures DitherLut1(x) == Eight(High(x), 0xa011)
  {
  }

  lemma DitherLut2Is(x: bv16)
    requires x >> 6 == 2
    ensures DitherLut2(x) == Eight(High(x), 0xa011)
  {
  }

  lemma DitherLut3Is(x: bv16)
    requires x >> 6 == 3
    ensures DitherLut3(x) == Eight(High(x), 0xa011)
  {
  }

  /** The table tabulates eight shifts of its index. */
  lemma DitherLutIs(x: bv16)
    requires x <= 0xff
    ensures DitherLut(x) == Eight(High(x), 0xa011)
  {
    hide DitherLut0, DitherLut1, DitherLut2, DitherLut3, Eight;
    if x < 64 {
      DitherLut0Is(x);
    } else if x < 128 {
      DitherLut1Is(x);
    } else if x < 192 {
      DitherLut2Is(x);
    } else {
      DitherLut3Is(x);
    }
  }

  // crc_table_G8 of libfaad, a quarter of the table at a time.

  function TableG80(x: bv16): bv16 {
    if x >> 4 == 0 then
      Pick(x & 15, 0x00, 0x1d, 0x3a, 0x27, 0x74, 0x69, 0x4e, 0x53,
           0xe8, 0xf5, 0xd2, 0xcf, 0x9c, 0x81, 0xa6, 0xbb)
    else if x >> 4 == 1 then
      Pick(x & 15, 0xcd, 0xd0, 0xf7, 0xea, 0xb9, 0xa4, 0x83, 0x9e,
           0x25, 0x38, 0x1f, 0x02, 0x51, 0x4c, 0x6b, 0x76)
    else if x >> 4 == 2 then
      Pick(x & 15, 0x87, 0x9a, 0xbd, 0xa0, 0xf3, 0xee, 0xc9, 0xd4,
           0x6f, 0x72, 0x55, 0x48, 0x1b, 0x06, 0x21, 0x3c)
    else
      Pick(x & 15, 0x4a, 0x57, 0x70, 0x6d, 0x3e, 0x23, 0x04, 0x19,
           0xa2, 0xbf, 0x98, 0x85, 0xd6, 0xcb, 0xec, 0xf1)
  }

  function TableG81(x: bv16): bv16 {
    if x >> 4 == 4 then
      Pick(x & 15, 0x13, 0x0e, 0x29, 0x34, 0x67, 0x7a, 0x5d, 0x40,
           0xfb, 0xe6, 0xc1, 0xdc, 0x8f, 0x92, 0xb5, 0xa8)
    else if x >> 4 == 5 then
      Pick(x & 15, 0xde, 0xc3, 0xe4, 0xf9, 0xaa, 0xb7, 0x90, 0x8d,
           0x36, 0x2b, 0x0c, 0x11, 0x42, 0x5f, 0x78, 0x65)
    else if x >> 4 == 6 then
      Pick(x & 15, 0x94, 0x89, 0xae, 0xb3, 0xe0, 0xfd, 0xda, 0xc7,
           0x7c, 0x61, 0x46, 0x5b, 0x08, 0x15, 0x32, 0x2f)
    else
      Pick(x & 15, 0x59, 0x44, 0x63, 0x7e, 0x2d, 0x30, 0x17, 0x0a,
           0xb1, 0xac, 0x8b, 0x96, 0xc5, 0xd8, 0xff, 0xe2)
  }

  function TableG82(x: bv16): bv16 {
    if x >> 4 == 8 then
      Pick(x & 15, 0x26, 0x3b, 0x1c, 0x01, 0x52, 0x4f, 0x68, 0x75,
           0xce, 0xd3, 0xf4, 0xe9, 0xba, 0xa7, 0x80, 0x9d)
    else if x >> 4 == 9 then
      Pick(x & 15, 0xeb, 0xf6, 0xd1, 0xcc, 0x9f, 0x82, 0xa5, 0xb8,
           0x03, 0x1e, 0x39, 0x24, 0x77, 0x6a, 0x4d, 0x50)
    else if x >> 4 == 10 then
      Pick(x & 15, 0xa1, 0xbc, 0x9b, 0x86, 0xd5, 0xc8, 0xef, 0xf2,
           0x49, 0x54, 0x73, 0x6e, 0x3d, 0x20, 0x07, 0x1a)
    else
      Pick(x & 15, 0x6c, 0x71, 0x56, 0x4b, 0x18, 0x05, 0x22, 0x3f,
           0x84, 0x99, 0xbe, 0xa3, 0xf0, 0xed, 0xca, 0xd7)
  }

  function TableG83(x: bv16): bv16 {
    if x >> 4 == 12 then
      Pick(x & 15, 0x35, 0x28, 0x0f, 0x12, 0x41, 0x5c, 0x7b, 0x66,
           0xdd, 0xc0, 0xe7, 0xfa, 0xa9, 0xb4, 0x93, 0x8e)
    else if x >> 4 == 13 then
      Pick(x & 15, 0xf8, 0xe5, 0xc2, 0xdf, 0x8c, 0x91, 0xb6, 0xab,
           0x10, 0x0d, 0x2a, 0x37, 0x64, 0x79, 0x5e, 0x43)
    else if x >> 4 == 14 then
      Pick(x & 15, 0xb2, 0xaf, 0x88, 0x95, 0xc6, 0xdb, 0xfc, 0xe1,
           0x5a, 0x47, 0x60, 0x7d, 0x2e, 0x33, 0x14, 0x09)
    else
      Pick(x & 15, 0x7f, 0x62, 0x45, 0x58, 0x0b, 0x16, 0x31, 0x2c,
           0x97, 0x8a, 0xad, 0xb0, 0xe3, 0xfe, 0xd9, 0xc4)
  }

  function TableG8(x: bv16): bv16 {
    if x < 64 then TableG80(x) else if x < 128 then TableG81(x) else if x < 192 then TableG82(x) else TableG83(x)
  }

  lemma TableG80IsLow(x: bv16)
    requires x >> 5 == 0
    ensures TableG80(x) == Upper(Eight(High(x), 0x1d00))
  {
  }

  lemma TableG80IsHigh(x: bv16)
    requires x >> 5 == 1
    ensures TableG80(x) == Upper(Eight(High(x), 0x1d00))
  {
  }

  lemma TableG80Is(x: bv16)
    requires x >> 6 == 0
    ensures TableG80(x) == Upper(Eight(High(x), 0x1d00))
  {
    hide TableG80, Eight, High, Upper;
    if x >> 5 == 0 {
      TableG80IsLow(x);
    } else {
      TableG80IsHigh(x);
    }
  }

  lemma TableG81Is(x: bv16)
    requires x >> 6 == 1
    ensures TableG81(x) == Upper(Eight(High(x), 0x1d00))
  {
  }

  lemma TableG82Is(x: bv16)
    requires x >> 6 == 2
    ensures TableG82(x) == Upper(Eight(High(x), 0x1d00))
  {
  }

  lemma TableG83Is(x: bv16)
    requires x >> 6 == 3
    ensures TableG83(x) == Upper(Eight(High(x), 0x1d00))
  {
  }

  /** The table tabulates eight shifts of its index. */
  lemma TableG8Is(x: bv16)
    requires x <= 0xff
    ensures TableG8(x) == Upper(Eight(High(x), 0x1d00))
  {
    hide TableG80, TableG81, TableG82, TableG83, Eight;
    if x < 64 {
      TableG80Is(x);
    } else if x < 128 {
      TableG81Is(x);
    } else if x < 192 {
      TableG82Is(x);
    } else {
      TableG83Is(x);
    }
  }

  // ------------------------------------------------------------------ liba52: crc16_block

  /** The bits of a block of bytes. */
  function Message(data: seq<bv16>): seq<bool>
    decreases |data|
  {
    if data == [] then [] else Message(data[..|data| - 1]) + ByteBits(data[|data| - 1])
  }

  function Low(x: bv16): (r: bv16) ensures r <= 0xff { x & 0xff }

  function Upper(x: bv16): (r: bv16) ensures r <= 0xff { x >> 8 }

  lemma Halves(x: bv16, v: bv16)
    requires v <= 0xff
    ensures Xor(v, Upper(x)) <= 0xff
    ensures Xor(High(Xor(v, Upper(x))), Low(x)) == Xor(x, High(v)) && High(Low(x)) == High(x)
    ensures Xor(x, High(Upper(x))) == Low(x)
  {
  }

  /** A table entry and the low half moved up make eight steps. */
  lemma TableByte(x: bv16, v: bv16, entry: bv16, poly: bv16)
    requires v <= 0xff && entry == Eight(High(Xor(v, Upper(x))), poly)
    ensures Xor(entry, High(x)) == Serial(x, ByteBits(v), poly)
  {
    hide *;
    Halves(x, v);
    LowHalf(Low(x), poly);
    EightSteps(High(Xor(v, Upper(x))), poly);
    StepsLinear(High(Xor(v, Upper(x))), Low(x), 8, poly);
    ByteAtOnce(x, v, poly);
  }

  lemma {:induction false} MessageMore(data: seq<bv16>, i: nat)
    requires i < |data|
    ensures Message(data[..i + 1]) == Message(data[..i]) + ByteBits(data[i])
  {
    assert data[..i + 1][..i] == data[..i];
  }

  /** crc16_block is the bit-serial register with polynomial 0x8005, started at 0. */
  method Crc16Block(data: seq<bv16>) returns (state: bv16)
    requires forall i :: 0 <= i < |data| ==> data[i] <= 0xff
    ensures state == Serial(0, Message(data), 0x8005)
  {
    hide *;
    state := 0;
    var i := 0;
    NoMessage(data);
    while i < |data|
      invariant i <= |data| && state == Serial(0, Message(data[..i]), 0x8005)
    {
      Halves(state, data[i]);
      CrcLutIs(Xor(data[i], Upper(state)));
      TableByte(state, data[i], CrcLut(Xor(data[i], Upper(state))), 0x8005);
      SerialJoin(0, Message(data[..i]), ByteBits(data[i]), 0x8005);
      MessageMore(data, i);
      state := Xor(CrcLut(Xor(data[i], Upper(state))), High(state));
      i := i + 1;
    }
    assert data[..|data|] == data;
  }

  lemma NoMessage(data: seq<bv16>)
    ensures Serial(0, Message(data[..0]), 0x8005) == 0
  {
    assert data[..0] == [];
  }

  /** A block followed by its own checksum has checksum 0. */
  lemma ChecksumCancels(bits: seq<bool>, poly: bv16)
    ensures var x := Serial(0, bits, poly);
            Serial(0, bits + (ByteBits(Upper(x)) + ByteBits(Low(x))), poly) == 0
  {
    hide *;
    var x := Serial(0, bits, poly);
    SerialJoin(0, bits, ByteBits(Upper(x)) + ByteBits(Low(x)), poly);
    SerialJoin(x, ByteBits(Upper(x)), ByteBits(Low(x)), poly);
    Halves(x, 0);
    ByteAtOnce(x, Upper(x), poly);
    LowHalf(Low(x), poly);
    ByteAtOnce(High(x), Low(x), poly);
    XorZero(High(x));
    LowHalf(0, poly);
    assert High(0) == 0 by { HighZero(); }
  }

  lemma HighZero()
    ensures High(0) == 0
  {
  }

  /** With a polynomial that has a constant term, no shift forgets anything. */
  lemma BitStepInjective(x: bv16, y: bv16, bit: bool, p: bv16)
    requires p & 1 == 1 && BitStep(x, bit, p) == BitStep(y, bit, p)
    ensures x == y
  {
    hide Xor, Up, Top;
    OddDiffers(x, y, p);
    OddDiffers(y, x, p);
    if Top(x) != bit {
      Cancel(Up(x), Up(y), p);
    }
    UpInjective(x, y);
  }

  lemma BitMatters(x: bv16, bit: bool, p: bv16)
    requires p & 1 == 1
    ensures BitStep(x, bit, p) != BitStep(x, !bit, p)
  {
    hide Xor, Up, Top;
    OddDiffers(x, x, p);
  }

  lemma {:induction false} SerialInjective(x: bv16, y: bv16, bits: seq<bool>, p: bv16)
    requires p & 1 == 1 && Serial(x, bits, p) == Serial(y, bits, p)
    ensures x == y
    decreases |bits|
  {
    hide BitStep;
    if bits != [] {
      SerialInjective(BitStep(x, bits[0], p), BitStep(y, bits[0], p), bits[1..], p);
      BitStepInjective(x, y, bits[0], p);
    }
  }

  /** Every change of a single bit changes the checksum. */
  lemma SingleErrorDetected(x: bv16, a: seq<bool>, bit: bool, b: seq<bool>, p: bv16)
    requires p & 1 == 1
    ensures Serial(x, a + [bit] + b, p) != Serial(x, a + [!bit] + b, p)
  {
    hide *;
    SerialJoin(x, a + [bit], b, p);
    SerialJoin(x, a + [!bit], b, p);
    SerialJoin(x, a, [bit], p);
    SerialJoin(x, a, [!bit], p);
    var y := Serial(x, a, p);
    OneBitSerial(y, bit, p);
    OneBitSerial(y, !bit, p);
    BitMatters(y, bit, p);
    if Serial(x, a + [bit] + b, p) == Serial(x, a + [!bit] + b, p) {
      SerialInjective(BitStep(y, bit, p), BitStep(y, !bit, p), b, p);
    }
  }

  lemma OneBitSerial(x: bv16, bit: bool, p: bv16)
    ensures Serial(x, [bit], p) == BitStep(x, bit, p)
  {
    hide BitStep;
    assert [bit][1..] == [];
  }

  // Bursts: a change of up to sixteen neighbouring bits.

  /** The bits of w from the top are those of d, and there are no others. */
  predicate TopIs(w: bv16, d: seq<bool>)
    decreases |d|
  {
    if d == [] then w == 0 else (Top(w) == d[0]) && TopIs(Up(w), d[1..])
  }

  /** Bit k of a word. */
  function Mask(k: nat): bv16
    requires k <= 15
  {
    if k == 0 then 1 else if k == 1 then 2 else if k == 2 then 4 else if k == 3 then 8
    else if k == 4 then 0x10 else if k == 5 then 0x20 else if k == 6 then 0x40 else if k == 7 then 0x80
    else if k == 8 then 0x100 else if k == 9 then 0x200 else if k == 10 then 0x400 else if k == 11 then 0x800
    else if k == 12 then 0x1000 else if k == 13 then 0x2000 else if k == 14 then 0x4000 else 0x8000
  }

  function Both(x: bv16, y: bv16): bv16 { x & y }

  lemma MaskMovesUp(k: nat)
    requires k < 15
    ensures Mask(k + 1) == Up(Mask(k)) && !Top(Mask(k))
  {
  }

  lemma BitMovesUp(w: bv16, m: bv16)
    requires !Top(m) && Both(w, m) != 0
    ensures Both(Up(w), Up(m)) != 0
  {
  }

  lemma BothZero(m: bv16)
    ensures Both(0, m) == 0
  {
  }

  /** A bit that the shifts do not reach does not vanish. */
  lemma {:induction false} NoBitBelow(w: bv16, d: seq<bool>, k: nat)
    requires TopIs(w, d) && |d| + k <= 15
    ensures Both(w, Mask(k)) == 0
    decreases |d|
  {
    hide Mask, Up, Top, Both;
    if d == [] {
      BothZero(Mask(k));
    } else if Both(w, Mask(k)) != 0 {
      MaskMovesUp(k);
      BitMovesUp(w, Mask(k));
      NoBitBelow(Up(w), d[1..], k + 1);
    }
  }

  function Differences(a: seq<bool>, b: seq<bool>): (d: seq<bool>)
    requires |a| == |b|
    ensures |d| == |a|
  {
    seq(|a|, i requires 0 <= i < |a| => a[i] != b[i])
  }

  /** Two registers that took steps on different bits and differ by an even word stepped alike. */
  lemma SteppedAlike(x: bv16, z: bv16, a: bool, b: bool, p: bv16)
    requires p & 1 == 1 && Xor(BitStep(x, a, p), BitStep(z, b, p)) & 1 == 0
    ensures Top(Xor(x, z)) == (a != b)
    ensures Up(Xor(x, z)) == Xor(BitStep(x, a, p), BitStep(z, b, p))
  {
    hide Up, Xor, Top;
    TopLinear(x, z);
    UpLinear(x, z);
    OddWhenOneAdds(Up(x), Up(z), p);
    XorTwice(Up(x), Up(z), p);
    UpEven(x, z);
  }

  lemma UpEven(x: bv16, z: bv16)
    ensures Up(x) & 1 == 0 && Up(z) & 1 == 0
  {
  }

  lemma OddWhenOneAdds(x: bv16, z: bv16, p: bv16)
    requires p & 1 == 1
    ensures x & 1 == 0 && z & 1 == 0 ==> Xor(Xor(x, p), z) & 1 == 1 && Xor(x, Xor(z, p)) & 1 == 1
  {
  }

  lemma LowBit(w: bv16)
    ensures Both(w, Mask(0)) == w & 1
  {
  }

  /** If up to sixteen bits lead two registers to the same value, the registers differed in
      exactly the bits in which the messages differ. */
  lemma {:induction false} MeetingRegisters(x: bv16, z: bv16, a: seq<bool>, b: seq<bool>, p: bv16)
    requires p & 1 == 1 && |a| == |b| <= 16 && Serial(x, a, p) == Serial(z, b, p)
    ensures TopIs(Xor(x, z), Differences(a, b))
    decreases |a|
  {
    hide BitStep, Up, Top, Xor, Mask, Both;
    if a == [] {
      XorZero(x);
    } else {
      var x', z' := BitStep(x, a[0], p), BitStep(z, b[0], p);
      MeetingRegisters(x', z', a[1..], b[1..], p);
      assert Differences(a, b)[1..] == Differences(a[1..], b[1..]);
      NoBitBelow(Xor(x', z'), Differences(a[1..], b[1..]), 0);
      LowBit(Xor(x', z'));
      SteppedAlike(x, z, a[0], b[0], p);
    }
  }

  lemma {:induction false} NoDifference(d: seq<bool>)
    requires TopIs(0, d)
    ensures forall i :: 0 <= i < |d| ==> !d[i]
    decreases |d|
  {
    if d != [] {
      assert Up(0) == 0;
      NoDifference(d[1..]);
      assert forall i :: 1 <= i < |d| ==> d[i] == d[1..][i - 1];
    }
  }

  lemma SameBurst(x: bv16, a: seq<bool>, sent: seq<bool>, received: seq<bool>, b: seq<bool>, p: bv16)
    requires p & 1 == 1 && |sent| == |received| <= 16
    requires Serial(x, a + sent + b, p) == Serial(x, a + received + b, p)
    ensures sent == received
  {
    hide Serial, TopIs, Xor;
    SerialJoin(x, a + sent, b, p);
    SerialJoin(x, a + received, b, p);
    SerialInjective(Serial(x, a + sent, p), Serial(x, a + received, p), b, p);
    SerialJoin(x, a, sent, p);
    SerialJoin(x, a, received, p);
    var y := Serial(x, a, p);
    MeetingRegisters(y, y, sent, received, p);
    XorZero(y);
    NoDifference(Differences(sent, received));
    forall i | 0 <= i < |sent|
      ensures sent[i] == received[i]
    {
      assert !Differences(sent, received)[i];
    }
  }

  /** Every change inside a burst of up to sixteen bits changes the checksum, wherever the
      burst stands and whatever surrounds it. */
  lemma BurstErrorDetected(x: bv16, a: seq<bool>, sent: seq<bool>, received: seq<bool>, b: seq<bool>, p: bv16)
    requires p & 1 == 1 && |sent| == |received| <= 16 && sent != received
    ensures Serial(x, a + sent + b, p) != Serial(x, a + received + b, p)
  {
    hide *;
    if Serial(x, a + sent + b, p) == Serial(x, a + received + b, p) {
      SameBurst(x, a, sent, received, b, p);
    }
  }

  // ------------------------------------------------------------------ liba52: dither_gen

  /** The generator's register: seeded with 1 by a52_init, it never gets stuck at 0. */
  class Dither {
    var lfsr_state: bv16

    ghost predicate Valid()
      reads this
    {
      lfsr_state != 0
    }

    constructor ()
      ensures Valid() && lfsr_state == 1
    {
      lfsr_state := 1;
    }

    /** dither_gen: eight shifts of the register, which is also the value delivered (read as a signed 16-bit number). */
    method DitherGen() returns (nstate: bv16)
      requires Valid()
      modifies this
      ensures Valid() && lfsr_state == nstate == Steps(old(lfsr_state), 8, 0xa011)
    {
      hide Steps, DitherLut, Xor, High, Upper;
      DitherStep(lfsr_state);
      nstate := Xor(DitherLut(Upper(lfsr_state)), High(lfsr_state));
      lfsr_state := nstate;
    }
  }

  lemma DitherStep(x: bv16)
    ensures Xor(DitherLut(Upper(x)), High(x)) == Steps(x, 8, 0xa011)
    ensures x != 0 ==> Steps(x, 8, 0xa011) != 0
  {
    hide *;
    DitherLutIs(Upper(x));
    Halves(x, 0);
    XorZero(Upper(x));
    XorZero(x);
    HighZero();
    LowHalf(Low(x), 0xa011);
    EightSteps(High(Upper(x)), 0xa011);
    StepsLinear(High(Upper(x)), Low(x), 8, 0xa011);
    StepsKeepNonzero(x, 8, 0xa011) by { DitherPolynomialIsOdd(); }
  }

  lemma DitherPolynomialIsOdd()
    ensures 0xa011 as bv16 & 1 == 1
  {
  }

  // ------------------------------------------------------------------ libfaad: faad_check_CRC

  /** Eight bits as a machine word. */
  function FromBits(s: seq<bool>): bv16
    requires |s| == 8
  {
    (if s[0] then 0x80 else 0) | (if s[1] then 0x40 else 0) | (if s[2] then 0x20 else 0) | (if s[3] then 0x10 else 0)
    | (if s[4] then 8 else 0) | (if s[5] then 4 else 0) | (if s[6] then 2 else 0) | (if s[7] then 1 else 0)
  }

  lemma FromBitsIs(s: seq<bool>)
    requires |s| == 8
    ensures FromBits(s) <= 0xff && ByteBits(FromBits(s)) == s
  {
  }

  /** A byte read as a number, as a machine word. */
  function Byte(v: nat): bv16
    requires v < 256
  {
    FromBits(BitsOf(v, 8))
  }

  /** r = crc_table_G8[(r ^ byte) & 0xFF]. */
  lemma G8Byte(r: bv16, v: bv16)
    requires r <= 0xff && v <= 0xff
    ensures var t := TableG8(Low(Xor(r, v))); t <= 0xff && High(t) == Serial(High(r), ByteBits(v), 0x1d00)
  {
    hide *;
    G8Index(r, v);
    TableG8Is(Low(Xor(r, v)));
    EightSteps(High(Xor(r, v)), 0x1d00);
    EightOfHigh(Xor(r, v));
    ByteAtOnce(High(r), v, 0x1d00);
  }

  lemma G8Index(r: bv16, v: bv16)
    requires r <= 0xff && v <= 0xff
    ensures Low(Xor(r, v)) == Xor(r, v) <= 0xff && Xor(High(r), High(v)) == High(Xor(r, v))
  {
  }

  /** An 8-bit polynomial stays in the upper half. */
  lemma EightOfHigh(x: bv16)
    requires x <= 0xff
    ensures var e := Eight(High(x), 0x1d00); Upper(e) <= 0xff && High(Upper(e)) == e
  {
    hide Step, Upper;
    var x0 := High(x);
    var x1 := Step(x0, 0x1d00);
    var x2 := Step(x1, 0x1d00);
    var x3 := Step(x2, 0x1d00);
    var x4 := Step(x3, 0x1d00);
    var x5 := Step(x4, 0x1d00);
    var x6 := Step(x5, 0x1d00);
    var x7 := Step(x6, 0x1d00);
    assert x0 & 0xff == 0;
    StaysHigh(x0);
    StaysHigh(x1);
    StaysHigh(x2);
    StaysHigh(x3);
    StaysHigh(x4);
    StaysHigh(x5);
    StaysHigh(x6);
    StaysHigh(x7);
    UpperOnly(Step(x7, 0x1d00));
  }

  lemma UpperOnly(x: bv16)
    requires x & 0xff == 0
    ensures High(Upper(x)) == x
  {
  }

  lemma StaysHigh(x: bv16)
    requires x & 0xff == 0
    ensures Step(x, 0x1d00) & 0xff == 0
  {
  }

  /** r = ((r << 1) ^ ((bit ^ (r >> 7)) & 1) * GPOLY) & 0xFF, with GPOLY octal 0435. */
  function G8Bit(r: bv16, bit: bool): bv16 {
    ((r << 1) ^ (if bit != ((r >> 7) & 1 != 0) then 0x11d else 0)) & 0xff
  }

  lemma G8BitIs(r: bv16, bit: bool)
    requires r <= 0xff
    ensures G8Bit(r, bit) <= 0xff && High(G8Bit(r, bit)) == BitStep(High(r), bit, 0x1d00)
  {
  }

  /** r is the register after the bits s. */
  ghost predicate Checked(r: bv16, s: seq<bool>) {
    r <= 0xff && High(r) == Serial(0xff00, s, 0x1d00)
  }

  lemma CheckedByte(r: bv16, s: seq<bool>, w: seq<bool>, v: nat)
    requires Checked(r, s) && |w| == 8 && v == Val(w) && v < 256
    ensures Byte(v) <= 0xff && Checked(TableG8(Low(Xor(r, Byte(v)))), s + w)
  {
    hide TableG8, Serial, ByteBits, FromBits, Val, BitsOf, Xor, High, Low;
    FromBitsIs(BitsOf(v, 8));
    BitsOfVal(w);
    G8Byte(r, Byte(v));
    SerialJoin(0xff00, s, w, 0x1d00);
  }

  lemma CheckedBit(r: bv16, s: seq<bool>, w: seq<bool>, v: nat)
    requires Checked(r, s) && |w| == 1 && v == Val(w)
    ensures Checked(G8Bit(r, v % 2 == 1), s + w)
  {
    hide Serial, G8Bit, BitStep, High;
    assert w == [w[0]] && w[..0] == [];
    G8BitIs(r, w[0]);
    OneBitSerial(High(r), w[0], 0x1d00);
    SerialJoin(0xff00, s, w, 0x1d00);
  }

  lemma CheckBegins()
    ensures Checked(0xff, [])
  {
  }

  function Repeated(s: seq<bool>, n: nat): seq<bool> {
    if n == 0 then [] else Repeated(s, n - 1) + s
  }

  /** The bits that the check goes over: those after the first byte.  With an error pending
      the reader does not move from byte to byte, so it is the first byte over and over. */
  function CheckedBits(buffer: seq<byte>, error: bool, len: nat): seq<bool> {
    if error then Repeated(Window(buffer, 0, 8), len / 8) + Window(buffer, 0, len % 8) else Window(buffer, 8, len)
  }

  /** The next byte, and the next of the bits after the last whole byte. */
  lemma MoreBits(buffer: seq<byte>, error: bool, k: nat, j: nat)
    requires j < 8
    ensures CheckedBits(buffer, error, 0) == []
    ensures CheckedBits(buffer, error, 8 * k + 8)
            == CheckedBits(buffer, error, 8 * k) + Window(buffer, if error then 0 else 8 + 8 * k, 8)
    ensures j < 7 ==> CheckedBits(buffer, error, 8 * k + j + 1)
                      == CheckedBits(buffer, error, 8 * k + j) + Window(buffer, if error then j else 8 + 8 * k + j, 1)
  {
    hide Window;
    if error {
      DivUnique(8 * k, 8, k, 0);
      DivUnique(8 * k + 8, 8, k + 1, 0);
      DivUnique(8 * k + j, 8, k, j);
      assert Window(buffer, 0, 0) == [];
      if j < 7 {
        DivUnique(8 * k + j + 1, 8, k, j + 1);
        WindowJoin(buffer, 0, j, 1);
        Associative(Repeated(Window(buffer, 0, 8), k), Window(buffer, 0, j), Window(buffer, j, 1));
      }
    } else {
      WindowJoin(buffer, 8, 8 * k, 8);
      WindowJoin(buffer, 8, 8 * k + j, 1);
      assert Window(buffer, 8, 0) == [];
    }
  }

  /** One byte of the message. */
  method CheckOneByte(ld: AacReader.BitFile, r0: bv16, ghost k: nat) returns (r: bv16)
    requires ld.Valid() && ld.Position() == (if ld.error then 0 else 8 + 8 * k)
    requires Checked(r0, CheckedBits(ld.buffer, ld.error, 8 * k))
    modifies ld
    ensures ld.Valid() && ld.error == old(ld.error) && ld.Position() == (if ld.error then 0 else 8 + 8 * (k + 1))
    ensures Checked(r, CheckedBits(ld.buffer, ld.error, 8 * (k + 1)))
  {
    hide Serial, Byte, Window, Val, TableG8, Checked, CheckedBits, Xor, High, Low;
    ghost var w := Window(ld.buffer, ld.Position(), 8);
    ByteFits(w);
    MoreBits(ld.buffer, ld.error, k, 0);
    var v := ld.GetBits(8);
    CheckedByte(r0, CheckedBits(ld.buffer, ld.error, 8 * k), w, v);
    r := TableG8(Low(Xor(r0, Byte(v))));
  }

  /** One of the bits after the last whole byte. */
  method CheckOneBit(ld: AacReader.BitFile, r0: bv16, ghost k: nat, ghost j: nat) returns (r: bv16)
    requires ld.Valid() && j < 7 && ld.Position() == (if ld.error then j else 8 + 8 * k + j)
    requires Checked(r0, CheckedBits(ld.buffer, ld.error, 8 * k + j))
    modifies ld
    ensures ld.Valid() && ld.error == old(ld.error) && ld.Position() == (if ld.error then j + 1 else 8 + 8 * k + j + 1)
    ensures Checked(r, CheckedBits(ld.buffer, ld.error, 8 * k + (j + 1)))
  {
    hide Serial, Byte, Window, Val, G8Bit, Checked, CheckedBits, High;
    ghost var w := Window(ld.buffer, ld.Position(), 1);
    MoreBits(ld.buffer, ld.error, k, j);
    var v := ld.Get1Bit();
    CheckedBit(r0, CheckedBits(ld.buffer, ld.error, 8 * k + j), w, v);
    r := G8Bit(r0, v % 2 == 1);
  }

  /** The two loops: whole bytes by table, then the remaining bits one at a time. */
  method CheckMessage(ld: AacReader.BitFile, len: nat) returns (r: bv16)
    requires ld.Valid() && ld.Position() == if ld.error then 0 else 8
    modifies ld
    ensures ld.Valid() && ld.error == old(ld.error) && ld.Position() == if ld.error then len % 8 else 8 + len
    ensures Checked(r, CheckedBits(ld.buffer, ld.error, len))
  {
    hide Checked, CheckedBits, Window, Val;
    r := 0xff;
    var bytes, rem := len / 8, len % 8;
    ghost var k, j := 0, 0;
    CheckBegins();
    MoreBits(ld.buffer, ld.error, 0, 0);
    while bytes > 0
      invariant 0 <= bytes && k + bytes == len / 8 && ld.Valid() && ld.error == old(ld.error)
      invariant ld.Position() == if ld.error then 0 else 8 + 8 * k
      invariant Checked(r, CheckedBits(ld.buffer, ld.error, 8 * k))
    {
      r := CheckOneByte(ld, r, k);
      bytes, k := bytes - 1, k + 1;
    }
    while rem > 0
      invariant 0 <= rem && j + rem == len % 8 && ld.Valid() && ld.error == old(ld.error)
      invariant ld.Position() == if ld.error then j else 8 + 8 * k + j
      invariant Checked(r, CheckedBits(ld.buffer, ld.error, 8 * k + j))
    {
      r := CheckOneBit(ld, r, k, j);
      rem, j := rem - 1, j + 1;
    }
    assert 8 * k + j == len;
  }

  /**
   faad_check_CRC returns 0 if and only if the register over the len bits after the first
   byte equals that byte inverted; the rewind does not clear an error, and then other bits
   are checked.
   */
  method FaadCheckCrc(ld: AacReader.BitFile, len: nat) returns (code: nat)
    requires ld.Valid()
    modifies ld
    ensures ld.Valid() && ld.error == old(ld.error)
    ensures ld.Position() == if ld.error then len % 8 else 8 + len
    ensures code == 0 || code == 28
    ensures var sent := Val(Window(ld.buffer, 0, 8));
            sent < 256
            && (code == 0 <==> Serial(0xff00, CheckedBits(ld.buffer, ld.error, len), 0x1d00) == High(Low(!Byte(sent))))
  {
    hide Serial, Byte, Window, Val, Checked, CheckedBits, High;
    ld.RewindBits();
    ByteFits(Window(ld.buffer, 0, 8));
    var sent := ld.GetBits(8);
    var crc := Low(!Byte(sent));
    var r := CheckMessage(ld, len);
    Verdict(r, crc, CheckedBits(ld.buffer, ld.error, len));
    code := if r != crc then 28 else 0;
  }

  lemma ByteFits(s: seq<bool>)
    requires |s| == 8
    ensures Val(s) < 256
  {
    AacReader.ByteFromBits(s);
  }

  lemma Verdict(r: bv16, crc: bv16, s: seq<bool>)
    requires Checked(r, s) && crc <= 0xff
    ensures r == crc <==> Serial(0xff00, s, 0x1d00) == High(crc)
  {
    hide Serial;
  }
}
