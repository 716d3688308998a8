/**
 The two frame formats of GSM 06.10 full rate (gsm_decode.c).

 A WAV49 frame is 260 bits, fields packed from the least significant bit of each byte up;
 two frames make 65 bytes, and the decoder carries the 4 bits that the first, 33-byte half
 leaves over in frame_chain.  A plain frame is 33 bytes, a magic nibble and the same fields
 packed from the most significant bit down.

 The source unrolls both into some hundred statements.  Here those statements are a list
 that a loop carries out, and what makes the list right is a check on it: each byte is
 shifted past exactly the bits still pending, none is dropped, no field takes more than
 there is, and the 16-bit accumulator never overflows.
 */
module GsmFrames {
  import opened Powers
  import opened Bits
  import opened Seqs
  import opened ByteStrings

  /** The fields of a frame in order: eight LAR codes, then four sub-frames. */
  function FrameWidths(): seq<nat> {
    [6, 6, 5, 5, 4, 4, 3, 3] + SubframeWidths() + SubframeWidths() + SubframeWidths() + SubframeWidths()
  }

  /** Lag, gain, grid, block maximum, thirteen pulses. */
  function SubframeWidths(): seq<nat> {
    [7, 2, 2, 6] + [3, 3, 3, 3, 3, 3, 3, 3, 3, 3, 3, 3, 3]
  }

  function Sum(ws: seq<nat>): nat
    decreases |ws|
  {
    if ws == [] then 0 else Sum(ws[..|ws| - 1]) + ws[|ws| - 1]
  }

  lemma {:induction false} SumJoin(a: seq<nat>, b: seq<nat>)
    ensures Sum(a + b) == Sum(a) + Sum(b)
    decreases |b|
  {
    if b == [] {
      assert a + b == a;
    } else {
      assert (a + b)[..|a + b| - 1] == a + b[..|b| - 1];
      SumJoin(a, b[..|b| - 1]);
    }
  }

  // ------------------------------------------------------------------ fields of a number

  /** The bytes as one number, the first byte lowest. */
  function LittleEndian(c: seq<byte>): nat
    decreases |c|
  {
    if c == [] then 0 else LittleEndian(c[..|c| - 1]) + c[|c| - 1] * Pow2(8 * (|c| - 1))
  }

  /** w bits of x from bit o up. */
  function LsbField(x: nat, o: nat, w: nat): nat {
    x / Pow2(o) % Pow2(w)
  }

  /** Consecutive fields from bit o up. */
  function LsbFields(x: nat, o: nat, ws: seq<nat>): (fs: seq<nat>)
    ensures |fs| == |ws|
    decreases |ws|
  {
    if ws == [] then []
    else LsbFields(x, o, ws[..|ws| - 1]) + [LsbField(x, o + Sum(ws[..|ws| - 1]), ws[|ws| - 1])]
  }

  /** The number that these fields are packed into. */
  function Packed(vs: seq<nat>, ws: seq<nat>): nat
    requires |vs| == |ws|
    decreases |ws|
  {
    if ws == [] then 0
    else Packed(vs[..|vs| - 1], ws[..|ws| - 1]) + vs[|vs| - 1] * Pow2(Sum(ws[..|ws| - 1]))
  }

  predicate Fits(vs: seq<nat>, ws: seq<nat>) {
    |vs| == |ws| && forall i :: 0 <= i < |vs| ==> vs[i] < Pow2(ws[i])
  }

  /** Bits above a field do not matter to it. */
  lemma LsbFieldBelow(x: nat, y: nat, k: nat, o: nat, w: nat)
    requires o + w <= k
    ensures LsbField(x + y * Pow2(k), o, w) == LsbField(x, o, w)
  {
    hide Pow2;
    Pow2Add(o, k - o);
    Pow2Add(w, k - o - w);
    FieldBelow(x, y, Pow2(k), Pow2(o), Pow2(w), Pow2(k - o - w));
  }

  lemma FieldBelow(x: int, y: int, k: int, p: int, q: int, r: int)
    requires p >= 1 && q >= 1 && k == p * (q * r)
    ensures (x + y * k) / p % q == x / p % q
  {
    var z := y * r;
    assert y * k == (z * q) * p by { ProductTurned(y, p, q, r); }
    QuotientBelow(x, z * q, p);
    RemainderBelow(x / p, z, q);
  }

  lemma ProductTurned(y: int, p: int, q: int, r: int)
    ensures y * (p * (q * r)) == y * r * q * p
  {
  }

  lemma QuotientBelow(x: int, z: int, p: int)
    requires p >= 1
    ensures (x + z * p) / p == x / p + z
  {
    assert x == x / p * p + x % p;
    assert (x / p + z) * p == x / p * p + z * p;
    DivUnique(x + z * p, p, x / p + z, x % p);
  }

  lemma RemainderBelow(x: int, z: int, q: int)
    requires q >= 1
    ensures (x + z * q) % q == x % q
  {
    assert x == x / q * q + x % q;
    assert (x / q + z) * q == x / q * q + z * q;
    DivUnique(x + z * q, q, x / q + z, x % q);
  }

  lemma {:induction false} LsbFieldsBelow(x: nat, y: nat, k: nat, o: nat, ws: seq<nat>)
    requires o + Sum(ws) <= k
    ensures LsbFields(x + y * Pow2(k), o, ws) == LsbFields(x, o, ws)
    decreases |ws|
  {
    hide Pow2, LsbField;
    if ws != [] {
      LsbFieldsBelow(x, y, k, o, ws[..|ws| - 1]);
      LsbFieldBelow(x, y, k, o + Sum(ws[..|ws| - 1]), ws[|ws| - 1]);
    }
  }

  lemma {:induction false} PackedBound(vs: seq<nat>, ws: seq<nat>)
    requires Fits(vs, ws)
    ensures Packed(vs, ws) < Pow2(Sum(ws))
    decreases |ws|
  {
    hide Pow2;
    if ws == [] {
      assert Pow2(0) >= 1;
    } else {
      var a, w := Sum(ws[..|ws| - 1]), ws[|ws| - 1];
      PackedBound(vs[..|vs| - 1], ws[..|ws| - 1]);
      Pow2Add(a, w);
      AppendBelow(Packed(vs[..|vs| - 1], ws[..|ws| - 1]), vs[|vs| - 1], Pow2(a), Pow2(w));
    }
  }

  lemma AppendBelow(x: nat, v: nat, p: nat, q: nat)
    requires x < p && v < q
    ensures x + v * p < p * q
  {
    MulMonotonic(v + 1, q, p);
    assert (v + 1) * p == v * p + p;
  }

  /** Reading fields undoes packing them. */
  lemma {:induction false} PackedFields(vs: seq<nat>, ws: seq<nat>)
    requires Fits(vs, ws)
    ensures LsbFields(Packed(vs, ws), 0, ws) == vs
    decreases |ws|
  {
    hide Pow2;
    if ws != [] {
      var n := |ws| - 1;
      var x, a := Packed(vs[..n], ws[..n]), Sum(ws[..n]);
      PackedFields(vs[..n], ws[..n]);
      PackedBound(vs[..n], ws[..n]);
      LsbFieldsBelow(x, vs[n], a, 0, ws[..n]);
      DivUnique(x + vs[n] * Pow2(a), Pow2(a), vs[n], x);
      DivUnique(vs[n], Pow2(ws[n]), 0, vs[n]);
    }
  }

  lemma {:induction false} LittleEndianJoin(a: seq<byte>, b: seq<byte>)
    ensures LittleEndian(a + b) == LittleEndian(a) + LittleEndian(b) * Pow2(8 * |a|)
    decreases |b|
  {
    hide Pow2;
    if b == [] {
      assert a + b == a;
    } else {
      var front, n := b[..|b| - 1], |b| - 1;
      assert (a + b)[..|a + b| - 1] == a + front;
      LittleEndianJoin(a, front);
      Pow2Add(8 * n, 8 * |a|);
      ByteRaised(LittleEndian(front), b[n], Pow2(8 * n), Pow2(8 * |a|));
    }
  }

  lemma ByteRaised(x: int, v: int, p: int, q: int)
    ensures (x + v * p) * q == x * q + v * (p * q)
  {
  }

  lemma {:induction false} LittleEndianBound(c: seq<byte>)
    ensures LittleEndian(c) < Pow2(8 * |c|)
    decreases |c|
  {
    hide Pow2;
    if c == [] {
      assert Pow2(0) >= 1;
    } else {
      LittleEndianBound(c[..|c| - 1]);
      Pow2Add(8 * (|c| - 1), 8);
      Pow2Values();
      AppendBelow(LittleEndian(c[..|c| - 1]), c[|c| - 1], Pow2(8 * (|c| - 1)), 256);
    }
  }

  // ------------------------------------------------------------------ the WAV49 statements

  /**
   The statements from one byte to the next: the byte goes into the accumulator, either past
   the bits pending (sr |= *c++ << shift) or in place of them (sr = *c++), and then fields
   are taken from the low end (sr & mask, sr >>= width).
   */
  datatype Step = Or(shift: nat, fields: seq<nat>) | Set(fields: seq<nat>)

  /** How many bits are pending after a step, or -1 if it would lose or miss some. */
  function Next(step: Step, pending: int): int {
    var q := match step
      case Or(shift, _) => if pending == shift <= 8 then pending + 8 else -1
      case Set(_) => if pending == 0 then 8 else -1;
    if Sum(step.fields) <= q then q - Sum(step.fields) else -1
  }

  function After(prog: seq<Step>, pending: int): int
    decreases |prog|
  {
    if prog == [] then pending
    else
      var q := After(prog[..|prog| - 1], pending);
      if q < 0 then -1 else Next(prog[|prog| - 1], q)
  }

  function Widths(prog: seq<Step>): seq<nat>
    decreases |prog|
  {
    if prog == [] then [] else Widths(prog[..|prog| - 1]) + prog[|prog| - 1].fields
  }

  function OddHeader(): seq<Step> {
    [Set([6]), Or(2, [6]), Or(4, [5, 5]), Or(2, [4, 4]), Or(2, [3, 3])]
  }

  function OddSubframe(): seq<Step> {
    [Or(4, [7, 2, 2]), Or(1, [6, 3]), Set([3, 3]), Or(2, [3, 3, 3]), Or(1, [3, 3, 3]), Set([3, 3]), Or(2, [3, 3])]
  }

  /** The branch for frame_index 1: 33 bytes, 4 bits left over. */
  function OddFrame(): seq<Step> {
    OddHeader() + OddSubframe() + OddSubframe() + OddSubframe() + OddSubframe()
  }

  function EvenHeader(): seq<Step> {
    [Or(4, [6, 6]), Set([5]), Or(3, [5, 4]), Or(2, [4, 3, 3])]
  }

  function EvenSubframe(): seq<Step> {
    [Set([7]), Or(1, [2, 2]), Or(5, [6, 3, 3]), Or(1, [3, 3, 3]), Set([3, 3]), Or(2, [3, 3, 3]), Or(1, [3, 3, 3])]
  }

  /** The branch for frame_index 0: 32 bytes behind the 4 bits carried over, none left. */
  function EvenFrame(): seq<Step> {
    EvenHeader() + EvenSubframe() + EvenSubframe() + EvenSubframe() + EvenSubframe()
  }

  lemma {:induction false} WidthsJoin(a: seq<Step>, b: seq<Step>)
    ensures Widths(a + b) == Widths(a) + Widths(b)
    decreases |b|
  {
    if b == [] {
      assert a + b == a;
    } else {
      var n := |b| - 1;
      WidthsJoin(a, b[..n]);
      assert (a + b)[..|a + b| - 1] == a + b[..n] && (a + b)[|a + b| - 1] == b[n];
      Associative(Widths(a), Widths(b[..n]), b[n].fields);
    }
  }

  lemma {:induction false} AfterJoin(a: seq<Step>, b: seq<Step>, pending: int)
    ensures After(a, pending) >= 0 ==> After(a + b, pending) == After(b, After(a, pending))
    ensures Widths(a + b) == Widths(a) + Widths(b)
    decreases |b|
  {
    hide Next, Widths;
    WidthsJoin(a, b);
    if b == [] {
      assert a + b == a;
    } else {
      var n := |b| - 1;
      AfterJoin(a, b[..n], pending);
      assert (a + b)[..|a + b| - 1] == a + b[..n] && (a + b)[|a + b| - 1] == b[n];
    }
  }

  /** No bit is lost: what has come in has been taken or is pending. */
  lemma {:induction false} BitsConserved(prog: seq<Step>, pending: nat)
    requires After(prog, pending) >= 0
    ensures After(prog, pending) + Sum(Widths(prog)) == pending + 8 * |prog|
    decreases |prog|
  {
    if prog != [] {
      var n := |prog| - 1;
      BitsConserved(prog[..n], pending);
      SumJoin(Widths(prog[..n]), prog[n].fields);
    }
  }

  lemma OneStep(s: seq<Step>, i: nat, pending: int)
    requires i < |s|
    ensures var q := After(s[..i], pending);
            After(s[..i + 1], pending) == if q < 0 then -1 else Next(s[i], q)
    ensures Widths(s[..i + 1]) == Widths(s[..i]) + s[i].fields
  {
    assert s[..i + 1][..i] == s[..i];
  }

  /** The same for three steps. */
  lemma ThreeSteps(a: Step, b: Step, c: Step, pending: int)
    requires pending >= 0 && Next(a, pending) >= 0 && Next(b, Next(a, pending)) >= 0
    ensures After([a, b, c], pending) == Next(c, Next(b, Next(a, pending)))
    ensures Widths([a, b, c]) == a.fields + b.fields + c.fields
  {
    hide Next;
    var s := [a, b, c];
    OneStep(s, 0, pending);
    OneStep(s, 1, pending);
    OneStep(s, 2, pending);
    assert s[..0] == [] && s[..3] == s;
  }

  lemma JustOneStep(a: Step, pending: int)
    requires pending >= 0
    ensures After([a], pending) == Next(a, pending) && Widths([a]) == a.fields
  {
    hide Next;
    OneStep([a], 0, pending);
    assert [a][..0] == [] && [a][..1] == [a];
  }

  lemma SumOfFew(a: nat, b: nat, c: nat)
    ensures Sum([a]) == a && Sum([a, b]) == a + b && Sum([a, b, c]) == a + b + c
  {
    assert [a][..0] == [] && [a, b][..1] == [a] && [a, b, c][..2] == [a, b];
  }

  lemma OddHeaderSound()
    ensures After(OddHeader(), 0) == 4 && Widths(OddHeader()) == [6, 6, 5, 5, 4, 4, 3, 3]
  {
    hide Sum;
    var s := OddHeader();
    SumOfFew(6, 0, 0);
    SumOfFew(5, 5, 0);
    SumOfFew(4, 4, 0);
    SumOfFew(3, 3, 0);
    OneStep(s, 0, 0);
    OneStep(s, 1, 0);
    OneStep(s, 2, 0);
    OneStep(s, 3, 0);
    OneStep(s, 4, 0);
    assert s[..0] == [] && s[..5] == s;
  }

  lemma OddSubframeSound()
    ensures After(OddSubframe(), 4) == 4 && Widths(OddSubframe()) == SubframeWidths()
  {
    hide After, Widths, Sum;
    SumOfFew(7, 2, 2);
    SumOfFew(6, 3, 0);
    SumOfFew(3, 3, 3);
    var a, b, c := [Or(4, [7, 2, 2]), Or(1, [6, 3]), Set([3, 3])], [Or(2, [3, 3, 3]), Or(1, [3, 3, 3]), Set([3, 3])], [Or(2, [3, 3])];
    ThreeSteps(Or(4, [7, 2, 2]), Or(1, [6, 3]), Set([3, 3]), 4);
    ThreeSteps(Or(2, [3, 3, 3]), Or(1, [3, 3, 3]), Set([3, 3]), 2);
    JustOneStep(Or(2, [3, 3]), 2);
    AfterJoin(a, b, 4);
    AfterJoin(a + b, c, 4);
    assert OddSubframe() == a + b + c;
  }

  lemma EvenHeaderSound()
    ensures After(EvenHeader(), 4) == 0 && Widths(EvenHeader()) == [6, 6, 5, 5, 4, 4, 3, 3]
  {
    hide Sum;
    var s := EvenHeader();
    SumOfFew(6, 6, 0);
    SumOfFew(5, 4, 0);
    SumOfFew(4, 3, 3);
    OneStep(s, 0, 4);
    OneStep(s, 1, 4);
    OneStep(s, 2, 4);
    OneStep(s, 3, 4);
    assert s[..0] == [] && s[..4] == s;
  }

  lemma EvenSubframeSound()
    ensures After(EvenSubframe(), 0) == 0 && Widths(EvenSubframe()) == SubframeWidths()
  {
    hide After, Widths, Sum;
    SumOfFew(7, 0, 0);
    SumOfFew(2, 2, 0);
    SumOfFew(6, 3, 3);
    SumOfFew(3, 3, 3);
    var a, b, c := [Set([7]), Or(1, [2, 2]), Or(5, [6, 3, 3])], [Or(1, [3, 3, 3]), Set([3, 3]), Or(2, [3, 3, 3])], [Or(1, [3, 3, 3])];
    ThreeSteps(Set([7]), Or(1, [2, 2]), Or(5, [6, 3, 3]), 0);
    ThreeSteps(Or(1, [3, 3, 3]), Set([3, 3]), Or(2, [3, 3, 3]), 1);
    JustOneStep(Or(1, [3, 3, 3]), 1);
    AfterJoin(a, b, 0);
    AfterJoin(a + b, c, 0);
    assert EvenSubframe() == a + b + c;
  }

  lemma FourTimes(header: seq<Step>, sub: seq<Step>, p0: int, p: int)
    requires After(header, p0) == p >= 0 && After(sub, p) == p
    ensures var prog := header + sub + sub + sub + sub;
            && After(prog, p0) == p
            && Widths(prog) == Widths(header) + Widths(sub) + Widths(sub) + Widths(sub) + Widths(sub)
  {
    hide After, Widths;
    AfterJoin(header, sub, p0);
    AfterJoin(header + sub, sub, p0);
    AfterJoin(header + sub + sub, sub, p0);
    AfterJoin(header + sub + sub + sub, sub, p0);
  }

  /** Both branches of the source are sound; 33 and 32 bytes make twice 260 bits, 4 of them carried over. */
  lemma FramesAreSound()
    ensures After(OddFrame(), 0) == 4 && Widths(OddFrame()) == FrameWidths() && |OddFrame()| == 33
    ensures After(EvenFrame(), 4) == 0 && Widths(EvenFrame()) == FrameWidths() && |EvenFrame()| == 32
    ensures Sum(FrameWidths()) == 260 && |FrameWidths()| == 76
  {
    hide After, Widths, Sum;
    OddHeaderSound();
    OddSubframeSound();
    EvenHeaderSound();
    EvenSubframeSound();
    FourTimes(OddHeader(), OddSubframe(), 0, 4);
    FourTimes(EvenHeader(), EvenSubframe(), 4, 0);
    BitsConserved(OddFrame(), 0);
  }

  // ------------------------------------------------------------------ carrying them out

  lemma DivideTwice(x: int, p: int, q: int)
    requires x >= 0 && p >= 1 && q >= 1
    ensures p * q >= 1 && x / p / q == x / (p * q)
  {
    MulMonotonic(1, q, p);
    var a, r := x / p, x % p;
    var b, t := a / q, a % q;
    assert x == (b * q + t) * p + r == b * (q * p) + (t * p + r);
    MulMonotonic(t + 1, q, p);
    assert (t + 1) * p == t * p + p;
    MulMonotonic(0, t, p);
    assert b * (q * p) == b * (p * q);
    DivUnique(x, p * q, b, t * p + r);
  }

  lemma ShiftTwice(x: nat, o: nat, w: nat)
    ensures x / Pow2(o) / Pow2(w) == x / Pow2(o + w)
  {
    hide Pow2;
    Pow2Add(o, w);
    DivideTwice(x, Pow2(o), Pow2(w));
  }

  /** The take statements after a byte. */
  method TakeFields(sr0: nat, ws: seq<nat>, ghost x: nat, ghost o: nat) returns (fields: seq<nat>, sr: nat)
    requires sr0 == x / Pow2(o)
    ensures fields == LsbFields(x, o, ws) && sr == x / Pow2(o + Sum(ws)) && sr <= sr0
  {
    hide Pow2, LsbField;
    fields, sr := [], sr0;
    var j := 0;
    while j < |ws|
      invariant j <= |ws| && sr == x / Pow2(o + Sum(ws[..j])) && fields == LsbFields(x, o, ws[..j]) && sr <= sr0
    {
      assert ws[..j + 1][..j] == ws[..j];
      ShiftTwice(x, o + Sum(ws[..j]), ws[j]);
      assert sr % Pow2(ws[j]) == LsbField(x, o + Sum(ws[..j]), ws[j]) by { LsbFieldIs(x, o + Sum(ws[..j]), ws[j]); }
      fields := fields + [sr % Pow2(ws[j])];
      DivStaysInside(sr, Pow2(ws[j]));
      sr := sr / Pow2(ws[j]);
      j := j + 1;
    }
    assert ws[..|ws|] == ws;
  }

  lemma LsbFieldIs(x: nat, o: nat, w: nat)
    ensures LsbField(x, o, w) == x / Pow2(o) % Pow2(w)
  {
  }

  /** A byte that comes in behind the bits pending stands right above them. */
  lemma LoadByte(c: seq<byte>, b: byte, o: nat)
    requires o <= 8 * |c|
    ensures LittleEndian(c) / Pow2(o) < Pow2(8 * |c| - o)
    ensures LittleEndian(c + [b]) / Pow2(o) == LittleEndian(c) / Pow2(o) + b * Pow2(8 * |c| - o)
    ensures LittleEndian(c + [b]) == LittleEndian(c) + b * Pow2(8 * |c|)
  {
    hide Pow2;
    var k := 8 * |c|;
    assert (c + [b])[..|c|] == c;
    Pow2Add(o, k - o);
    assert b * Pow2(k) == b * Pow2(k - o) * Pow2(o) by { ProductShuffled(b, Pow2(k), Pow2(o), Pow2(k - o)); }
    QuotientBelow(LittleEndian(c), b * Pow2(k - o), Pow2(o));
    LittleEndianBound(c);
    QuotientBound(LittleEndian(c), Pow2(o), Pow2(k - o));
  }

  lemma ProductShuffled(b: int, k: int, p: int, q: int)
    requires k == p * q
    ensures b * k == b * q * p
  {
  }

  lemma QuotientBound(x: nat, p: nat, q: nat)
    requires p >= 1 && x < p * q
    ensures x / p < q
  {
    MulMonotonic(q, x / p, p);
  }

  /** The accumulator after a byte has come in: 16 bits are enough. */
  method LoadStep(step: Step, sr0: nat, b: byte, ghost c: seq<byte>, ghost o: nat) returns (sr: nat)
    requires o <= 8 * |c| && Next(step, 8 * |c| - o) >= 0 && sr0 == LittleEndian(c) / Pow2(o)
    ensures sr == LittleEndian(c + [b]) / Pow2(o) < 65536
  {
    hide Pow2, LittleEndian, Sum;
    ghost var q := 8 * |c| - o;
    LoadByte(c, b, o);
    LoadBound(sr0, b, q);
    match step {
      case Or(shift, _) =>
        MultipleMod(b, Pow2(shift));
        sr := Bits.Or(b * Pow2(shift), sr0, shift);
      case Set(_) =>
        assert Pow2(0) == 1 by { SmallPowers(); }
        sr := b;
    }
  }

  lemma LoadBound(sr: nat, b: byte, q: nat)
    requires q <= 8 && sr < Pow2(q)
    ensures 0 <= b * Pow2(q) < 65536 && sr + b * Pow2(q) < 65536
  {
    hide Pow2;
    Pow2Monotonic(q, 8);
    Pow2Values();
    AppendBelow(sr, b, Pow2(q), 256);
    MulMonotonic(0, b, Pow2(q));
  }

  lemma {:induction false} LsbFieldsJoin(x: nat, o: nat, a: seq<nat>, b: seq<nat>)
    ensures LsbFields(x, o, a + b) == LsbFields(x, o, a) + LsbFields(x, o + Sum(a), b)
    decreases |b|
  {
    hide LsbField;
    if b == [] {
      assert a + b == a;
    } else {
      var n := |b| - 1;
      assert (a + b)[..|a + b| - 1] == a + b[..n];
      LsbFieldsJoin(x, o, a, b[..n]);
      SumJoin(a, b[..n]);
    }
  }

  /** The fields that a program has taken so far, out of all bytes so far. */
  ghost predicate Taken(fields: seq<nat>, sr: nat, c: seq<byte>, o: nat, ws: seq<nat>) {
    && o + Sum(ws) <= 8 * |c|
    && fields == LsbFields(LittleEndian(c), o, ws) && sr == LittleEndian(c) / Pow2(o + Sum(ws))
  }

  lemma TakenMore(fields: seq<nat>, sr: nat, c: seq<byte>, o: nat, ws: seq<nat>, b: byte, more: seq<nat>, fields': seq<nat>, sr': nat)
    requires Taken(fields, sr, c, o, ws) && o + Sum(ws) + Sum(more) <= 8 * |c| + 8
    requires fields' == LsbFields(LittleEndian(c + [b]), o + Sum(ws), more)
    requires sr' == LittleEndian(c + [b]) / Pow2(o + Sum(ws) + Sum(more))
    ensures Taken(fields + fields', sr', c + [b], o, ws + more)
  {
    hide Pow2, LittleEndian, LsbFields, Sum;
    SumJoin(ws, more);
    LoadByte(c, b, o + Sum(ws));
    LsbFieldsBelow(LittleEndian(c), b, 8 * |c|, o, ws);
    LsbFieldsJoin(LittleEndian(c + [b]), o, ws, more);
  }

  /** The accumulator after each of the first n loads: what has been loaded and not yet
      taken, in no more than 16 bits. */
  ghost predicate Loads(loaded: seq<nat>, prog: seq<Step>, before: seq<byte>, frame: seq<byte>, o: nat, n: nat)
    requires n <= |prog| == |frame|
  {
    && |loaded| == n
    && (forall i :: 0 <= i < n ==> loaded[i] < 65536)
    && (forall i :: 0 <= i < n ==> loaded[i] == LittleEndian(before + frame[..i + 1]) / Pow2(o + Sum(Widths(prog[..i]))))
  }

  lemma LoadsMore(loaded: seq<nat>, sr: nat, prog: seq<Step>, before: seq<byte>, frame: seq<byte>, o: nat, n: nat)
    requires n < |prog| == |frame| && Loads(loaded, prog, before, frame, o, n) && sr < 65536
    requires sr == LittleEndian(before + frame[..n + 1]) / Pow2(o + Sum(Widths(prog[..n])))
    ensures Loads(loaded + [sr], prog, before, frame, o, n + 1)
  {
    hide LittleEndian, Pow2, Sum, Widths;
  }

  /** The statements of one branch.  The accumulator never leaves 16 bits. */
  method Execute(prog: seq<Step>, frame: seq<byte>, sr0: nat, ghost before: seq<byte>, ghost o: nat)
    returns (fields: seq<nat>, sr: nat, ghost loaded: seq<nat>)
    requires |prog| == |frame| && o <= 8 * |before| && After(prog, 8 * |before| - o) >= 0
    requires sr0 == LittleEndian(before) / Pow2(o)
    ensures Taken(fields, sr, before + frame, o, Widths(prog))
    ensures Loads(loaded, prog, before, frame, o, |prog|)
    ensures sr0 < 65536 ==> sr < 65536
  {
    hide Pow2, LittleEndian, LsbFields, Sum, Next, Taken, After, Widths, Loads;
    fields, sr, loaded := [], sr0, [];
    var i := 0;
    TakenNothing(sr, before, o, prog, frame);
    NoLoads(prog, before, frame, o);
    while i < |prog|
      invariant i <= |prog| && Taken(fields, sr, before + frame[..i], o, Widths(prog[..i]))
      invariant Loads(loaded, prog, before, frame, o, i) && (sr0 < 65536 ==> sr < 65536)
    {
      ghost var c, ws := before + frame[..i], Widths(prog[..i]);
      StepIsSound(prog, i, 8 * |before| - o);
      PendingIs(prog, i, before, frame, o);
      TakenMeans(fields, sr, c, o, ws);
      sr := LoadStep(prog[i], sr, frame[i], c, o + Sum(ws));
      assert c + [frame[i]] == before + frame[..i + 1];
      LoadsMore(loaded, sr, prog, before, frame, o, i);
      loaded := loaded + [sr];
      var more;
      more, sr := TakeFields(sr, prog[i].fields, LittleEndian(c + [frame[i]]), o + Sum(ws));
      StepFits(prog[i], 8 * |c| - o - Sum(ws));
      TakenMore(fields, LittleEndian(c) / Pow2(o + Sum(ws)), c, o, ws, frame[i], prog[i].fields, more, sr);
      fields := fields + more;
      OneStep(prog, i, 8 * |before| - o);
      i := i + 1;
    }
    assert prog[..|prog|] == prog && before + frame[..|prog|] == before + frame;
  }

  lemma NoLoads(prog: seq<Step>, before: seq<byte>, frame: seq<byte>, o: nat)
    requires |prog| == |frame|
    ensures Loads([], prog, before, frame, o, 0)
  {
  }

  lemma TakenNothing(sr: nat, c: seq<byte>, o: nat, prog: seq<Step>, frame: seq<byte>)
    requires o <= 8 * |c| && sr == LittleEndian(c) / Pow2(o)
    ensures Taken([], sr, c + frame[..0], o, Widths(prog[..0]))
  {
    assert c + frame[..0] == c && prog[..0] == [];
  }

  lemma TakenMeans(fields: seq<nat>, sr: nat, c: seq<byte>, o: nat, ws: seq<nat>)
    requires Taken(fields, sr, c, o, ws)
    ensures o + Sum(ws) <= 8 * |c| && sr == LittleEndian(c) / Pow2(o + Sum(ws))
  {
  }

  lemma StepFits(step: Step, pending: int)
    requires Next(step, pending) >= 0
    ensures Sum(step.fields) <= pending + 8
  {
  }

  /** Each step of a sound program is sound where it stands. */
  lemma {:induction false} StepIsSound(prog: seq<Step>, i: nat, pending: int)
    requires i < |prog| && After(prog, pending) >= 0
    ensures After(prog[..i], pending) >= 0 && Next(prog[i], After(prog[..i], pending)) >= 0
    decreases |prog|
  {
    hide Next;
    var n := |prog| - 1;
    if i < n {
      StepIsSound(prog[..n], i, pending);
      assert prog[..n][..i] == prog[..i];
    }
  }

  lemma PendingIs(prog: seq<Step>, i: nat, before: seq<byte>, frame: seq<byte>, o: nat)
    requires i <= |prog| == |frame| && o <= 8 * |before| && After(prog[..i], 8 * |before| - o) >= 0
    ensures After(prog[..i], 8 * |before| - o) == 8 * |before + frame[..i]| - o - Sum(Widths(prog[..i]))
  {
    hide Sum, After, Widths;
    BitsConserved(prog[..i], 8 * |before| - o);
  }

  // ------------------------------------------------------------------ WAV49 runs

  /** Frame f of a run: the fields from bit 260 f of all its bytes. */
  function RunFields(stream: seq<byte>, f: nat): seq<nat> {
    LsbFields(LittleEndian(stream), 260 * f, FrameWidths())
  }

  /** What comes later in the run changes no frame. */
  lemma RunFieldsStay(stream: seq<byte>, later: seq<byte>, f: nat)
    requires 260 * (f + 1) <= 8 * |stream|
    ensures RunFields(stream + later, f) == RunFields(stream, f)
  {
    hide Pow2, Sum, LsbFields;
    FramesAreSound();
    LittleEndianJoin(stream, later);
    LsbFieldsBelow(LittleEndian(stream), LittleEndian(later), 8 * |stream|, 260 * f, FrameWidths());
  }

  /** The two fields of gsm_state that gsm_decode keeps from frame to frame in WAV49 mode. */
  class WavUnpacker {
    var frame_index: bool
    var frame_chain: nat

    /** After f frames of a run, read from these bytes: 65 for each two frames, 33 for one more, of which 4 bits are carried. */
    ghost predicate Valid(bytes: seq<byte>, f: nat)
      reads this
    {
      && |bytes| == 65 * (f / 2) + (if f % 2 == 1 then 33 else 0)
      && frame_index == (f % 2 == 1)
      && (frame_index ==> frame_chain == LittleEndian(bytes) / Pow2(260 * f))
    }

    constructor ()
      ensures Valid([], 0)
    {
      frame_index, frame_chain := false, 0;
    }

    /** gsm_decode in WAV49 mode, up to the call of the decoder: 33 and 32 bytes in turn. */
    method Unpack(frame: seq<byte>, ghost before: seq<byte>, ghost f: nat) returns (fields: seq<nat>)
      requires Valid(before, f) && |frame| == (if frame_index then 32 else 33)
      modifies this
      ensures Valid(before + frame, f + 1) && fields == RunFields(before + frame, f)
    {
      hide Pow2, LittleEndian, LsbFields, Sum, After, Widths, FrameWidths, OddFrame, EvenFrame, Taken;
      FramesAreSound();
      LittleEndianBound(before);
      ghost var o := 260 * f;
      frame_index := !frame_index;
      if frame_index {
        DivUnique(LittleEndian(before), Pow2(o), 0, LittleEndian(before));
        var sr;
        ghost var loaded;
        fields, sr, loaded := Execute(OddFrame(), frame, 0, before, o);
        TakenMeans(fields, sr, before + frame, o, FrameWidths());
        TakenFields(fields, sr, before + frame, o, FrameWidths());
        ChainFits(before + frame, o + 260);
        frame_chain := sr % 16;
      } else {
        var sr;
        ghost var loaded;
        fields, sr, loaded := Execute(EvenFrame(), frame, frame_chain, before, o);
        TakenFields(fields, sr, before + frame, o, FrameWidths());
      }
    }
  }

  lemma TakenFields(fields: seq<nat>, sr: nat, c: seq<byte>, o: nat, ws: seq<nat>)
    requires Taken(fields, sr, c, o, ws)
    ensures fields == LsbFields(LittleEndian(c), o, ws)
  {
  }

  lemma ChainFits(c: seq<byte>, o: nat)
    requires o + 4 == 8 * |c|
    ensures LittleEndian(c) / Pow2(o) < 16
  {
    hide Pow2, LittleEndian;
    LittleEndianBound(c);
    Pow2Add(o, 4);
    Pow2Values();
    QuotientBound(LittleEndian(c), Pow2(o), 16);
  }

  // ------------------------------------------------------------------ the plain frame

  /**
   A field of the plain format.  Inside: (*c >> shift) & mask, with or without going on to
   the next byte.  Across: (*c++ & mask) << low | (*c >> 8 - low) & mask.
   */
  datatype Cut = Inside(shift: nat, width: nat, next: bool) | Across(high: nat, low: nat)

  function CutWidth(cut: Cut): nat {
    match cut
    case Inside(_, width, _) => width
    case Across(high, low) => high + low
  }

  /** The bit position after a cut, or -1 if it leaves a gap, overlaps, or leaves its byte. */
  function CutAfter(cut: Cut, at: int): int {
    if at < 0 then -1 else
    match cut
    case Inside(shift, width, next) =>
      if width >= 1 && at % 8 + width + shift == 8 && next == (shift == 0) then at + width else -1
    case Across(high, low) =>
      if at % 8 + high == 8 && 1 <= low < 8 then at + high + low else -1
  }

  function CutsAfter(cuts: seq<Cut>, at: int): int
    decreases |cuts|
  {
    if cuts == [] then at else CutAfter(cuts[|cuts| - 1], CutsAfter(cuts[..|cuts| - 1], at))
  }

  function CutWidths(cuts: seq<Cut>): (ws: seq<nat>)
    ensures |ws| == |cuts|
    decreases |cuts|
  {
    if cuts == [] then [] else CutWidths(cuts[..|cuts| - 1]) + [CutWidth(cuts[|cuts| - 1])]
  }

  function PlainHeader(): seq<Cut> {
    [Across(4, 2), Inside(0, 6, true), Inside(3, 5, false), Across(3, 2), Inside(2, 4, false), Across(2, 2)]
    + [Inside(3, 3, false), Inside(0, 3, true)]
  }

  function PlainSubframe(): seq<Cut> {
    PlainParameters() + PlainPulses() + MorePulses() + LastPulses()
  }

  function PlainParameters(): seq<Cut> { [Inside(1, 7, false), Across(1, 1), Inside(5, 2, false), Across(5, 1)] }
  function PlainPulses(): seq<Cut> { [Inside(4, 3, false), Inside(1, 3, false), Across(1, 2), Inside(3, 3, false), Inside(0, 3, true)] }
  function MorePulses(): seq<Cut> { [Inside(5, 3, false), Inside(2, 3, false), Across(2, 1), Inside(4, 3, false)] }
  function LastPulses(): seq<Cut> { [Inside(1, 3, false), Across(1, 2), Inside(3, 3, false), Inside(0, 3, true)] }

  /** The statements for a plain frame.  (After the very last field the source leaves the pointer where it is.) */
  function PlainFrame(): seq<Cut> {
    PlainHeader() + PlainSubframe() + PlainSubframe() + PlainSubframe() + PlainSubframe()
  }

  lemma OneCut(cuts: seq<Cut>, i: nat, at: int)
    requires i < |cuts|
    ensures CutsAfter(cuts[..i + 1], at) == CutAfter(cuts[i], CutsAfter(cuts[..i], at))
    ensures CutWidths(cuts[..i + 1]) == CutWidths(cuts[..i]) + [CutWidth(cuts[i])]
  {
    assert cuts[..i + 1][..i] == cuts[..i];
  }

  lemma {:induction false} CutsJoin(a: seq<Cut>, b: seq<Cut>, at: int)
    ensures CutsAfter(a + b, at) == CutsAfter(b, CutsAfter(a, at))
    ensures CutWidths(a + b) == CutWidths(a) + CutWidths(b)
    decreases |b|
  {
    hide CutAfter, CutWidth;
    if b == [] {
      assert a + b == a;
    } else {
      var n := |b| - 1;
      CutsJoin(a, b[..n], at);
      assert (a + b)[..|a + b| - 1] == a + b[..n];
      Associative(CutWidths(a), CutWidths(b[..n]), [CutWidth(b[n])]);
    }
  }

  lemma FewCuts(cuts: seq<Cut>, at: int)
    ensures |cuts| == 4 ==>
              && CutsAfter(cuts, at) == CutAfter(cuts[3], CutAfter(cuts[2], CutAfter(cuts[1], CutAfter(cuts[0], at))))
              && CutWidths(cuts) == [CutWidth(cuts[0]), CutWidth(cuts[1]), CutWidth(cuts[2]), CutWidth(cuts[3])]
    ensures |cuts| == 5 ==>
              && CutsAfter(cuts, at) == CutAfter(cuts[4], CutAfter(cuts[3], CutAfter(cuts[2], CutAfter(cuts[1], CutAfter(cuts[0], at)))))
              && CutWidths(cuts) == [CutWidth(cuts[0]), CutWidth(cuts[1]), CutWidth(cuts[2]), CutWidth(cuts[3]), CutWidth(cuts[4])]
  {
    hide CutAfter, CutWidth;
    if |cuts| >= 4 {
      OneCut(cuts, 0, at);
      OneCut(cuts, 1, at);
      OneCut(cuts, 2, at);
      OneCut(cuts, 3, at);
      assert cuts[..0] == [] && (|cuts| == 4 ==> cuts[..4] == cuts);
    }
    if |cuts| == 5 {
      OneCut(cuts, 4, at);
      assert cuts[..5] == cuts;
    }
  }

  lemma InsideHere(at: nat, shift: nat, width: nat)
    requires width >= 1 && at % 8 + width + shift == 8
    ensures CutAfter(Inside(shift, width, shift == 0), at) == at + width
    ensures (at + width) % 8 == (if shift == 0 then 0 else at % 8 + width)
  {
  }

  lemma AcrossHere(at: nat, high: nat, low: nat)
    requires at % 8 + high == 8 && 1 <= low < 8
    ensures CutAfter(Across(high, low), at) == at + high + low && (at + high + low) % 8 == low
  {
  }

  lemma PlainHeaderSound()
    ensures CutsAfter(PlainHeader(), 4) == 40 && CutWidths(PlainHeader()) == [6, 6, 5, 5, 4, 4, 3, 3]
  {
    hide CutsAfter, CutWidths, CutAfter;
    var s := PlainHeader();
    var a, b := s[..4], s[4..];
    assert s == a + b;
    CutsJoin(a, b, 4);
    FewCuts(a, 4);
    FewCuts(b, 26);
    AcrossHere(4, 4, 2);
    InsideHere(10, 0, 6);
    InsideHere(16, 3, 5);
    AcrossHere(21, 3, 2);
    InsideHere(26, 2, 4);
    AcrossHere(30, 2, 2);
    InsideHere(34, 3, 3);
    InsideHere(37, 0, 3);
  }

  lemma PlainParametersSound(at: nat)
    requires at % 8 == 0
    ensures CutsAfter(PlainParameters(), at) == at + 17 && CutWidths(PlainParameters()) == [7, 2, 2, 6]
  {
    hide CutsAfter, CutWidths, CutAfter;
    FewCuts(PlainParameters(), at);
    InsideHere(at, 1, 7);
    AcrossHere(at + 7, 1, 1);
    InsideHere(at + 9, 5, 2);
    AcrossHere(at + 11, 5, 1);
  }

  lemma PlainPulsesSound(at: nat)
    requires at % 8 == 1
    ensures CutsAfter(PlainPulses(), at) == at + 15 && CutWidths(PlainPulses()) == [3, 3, 3, 3, 3]
  {
    hide CutsAfter, CutWidths, CutAfter;
    FewCuts(PlainPulses(), at);
    InsideHere(at, 4, 3);
    InsideHere(at + 3, 1, 3);
    AcrossHere(at + 6, 1, 2);
    InsideHere(at + 9, 3, 3);
    InsideHere(at + 12, 0, 3);
  }

  lemma MorePulsesSound(at: nat)
    requires at % 8 == 0
    ensures CutsAfter(MorePulses(), at) == at + 12 && CutWidths(MorePulses()) == [3, 3, 3, 3]
  {
    hide CutsAfter, CutWidths, CutAfter;
    FewCuts(MorePulses(), at);
    InsideHere(at, 5, 3);
    InsideHere(at + 3, 2, 3);
    AcrossHere(at + 6, 2, 1);
    InsideHere(at + 9, 4, 3);
  }

  lemma LastPulsesSound(at: nat)
    requires at % 8 == 4
    ensures CutsAfter(LastPulses(), at) == at + 12 && CutWidths(LastPulses()) == [3, 3, 3, 3]
  {
    hide CutsAfter, CutWidths, CutAfter;
    FewCuts(LastPulses(), at);
    InsideHere(at, 1, 3);
    AcrossHere(at + 3, 1, 2);
    InsideHere(at + 6, 3, 3);
    InsideHere(at + 9, 0, 3);
  }

  lemma PlainSubframeSound(at: nat)
    requires at % 8 == 0
    ensures CutsAfter(PlainSubframe(), at) == at + 56 && CutWidths(PlainSubframe()) == SubframeWidths()
  {
    hide CutsAfter, CutWidths, PlainParameters, PlainPulses, MorePulses, LastPulses;
    var a, b, c, d := PlainParameters(), PlainPulses(), MorePulses(), LastPulses();
    CutsJoin(a, b, at);
    CutsJoin(a + b, c, at);
    CutsJoin(a + b + c, d, at);
    PlainParametersSound(at);
    PlainPulsesSound(at + 17);
    MorePulsesSound(at + 32);
    LastPulsesSound(at + 44);
  }

  /** The cuts follow one another from the nibble after the magic to the end of the 33 bytes. */
  lemma PlainFrameSound()
    ensures CutsAfter(PlainFrame(), 4) == 264 && CutWidths(PlainFrame()) == FrameWidths()
  {
    hide CutsAfter, CutWidths, PlainHeader, PlainSubframe, SubframeWidths;
    var h, s := PlainHeader(), PlainSubframe();
    PlainHeaderSound();
    PlainSubframeSound(40);
    PlainSubframeSound(96);
    PlainSubframeSound(152);
    PlainSubframeSound(208);
    CutsJoin(h, s, 4);
    CutsJoin(h + s, s, 4);
    CutsJoin(h + s + s, s, 4);
    CutsJoin(h + s + s + s, s, 4);
  }

  /** Consecutive fields from bit at on, each with its highest bit first. */
  function MsbFields(c: seq<byte>, at: nat, ws: seq<nat>): (fs: seq<nat>)
    ensures |fs| == |ws|
    decreases |ws|
  {
    if ws == [] then []
    else MsbFields(c, at, ws[..|ws| - 1]) + [Val(Window(c, at + Sum(ws[..|ws| - 1]), ws[|ws| - 1]))]
  }

  /** A field inside one byte. */
  lemma InsideIs(c: seq<byte>, i: nat, shift: nat, width: nat)
    requires i < |c| && shift + width <= 8
    ensures c[i] / Pow2(shift) % Pow2(width) == Val(Window(c, 8 * i + 8 - shift - width, width))
  {
    hide Val, Pow2, BitsOf, Window;
    var s := BitsOf(c[i], 8);
    ByteWindow(c, i);
    WindowSlice(c, 8 * i, 8, 8 - shift - width, 8 - shift);
    ValOfBits(c[i], 8);
    assert c[i] % Pow2(8) == c[i] by { Pow2Values(); }
    ValSplit(s, shift);
    var t := s[..8 - shift];
    ValSplit(t, width);
    assert t[|t| - width..] == s[8 - shift - width..8 - shift];
  }

  /** A field across two bytes. */
  lemma AcrossIs(c: seq<byte>, i: nat, high: nat, low: nat)
    requires i + 1 < |c| && high <= 8 && 1 <= low <= 8
    ensures c[i] % Pow2(high) * Pow2(low) + c[i + 1] / Pow2(8 - low) % Pow2(low)
         == Val(Window(c, 8 * i + 8 - high, high + low))
  {
    hide Val, Pow2, Window;
    InsideIs(c, i, 0, high);
    assert c[i] / Pow2(0) == c[i] by { SmallPowers(); }
    InsideIs(c, i + 1, 8 - low, low);
    WindowJoin(c, 8 * i + 8 - high, high, low);
    ValJoin(Window(c, 8 * i + 8 - high, high), Window(c, 8 * (i + 1), low));
  }

  /** The value of one statement. */
  method TakeCut(c: seq<byte>, i: nat, cut: Cut, ghost at: nat) returns (v: nat, i': nat)
    requires i == at / 8 && 0 <= CutAfter(cut, at) <= 8 * |c|
    ensures v == Val(Window(c, at, CutWidth(cut))) && 8 * i' <= CutAfter(cut, at) < 8 * i' + 8
  {
    hide Val, Pow2, Window;
    match cut {
      case Inside(shift, width, next) =>
        InsideIs(c, i, shift, width);
        v := c[i] / Pow2(shift) % Pow2(width);
        i' := if next then i + 1 else i;
      case Across(high, low) =>
        AcrossIs(c, i, high, low);
        v := c[i] % Pow2(high) * Pow2(low) + c[i + 1] / Pow2(8 - low) % Pow2(low);
        i' := i + 1;
    }
  }

  /** Cuts before the end do not go past it. */
  lemma {:induction false} CutsAdvance(cuts: seq<Cut>, i: nat, at: int)
    requires i <= |cuts| && CutsAfter(cuts, at) >= 0 && at >= 0
    ensures 0 <= CutsAfter(cuts[..i], at) <= CutsAfter(cuts, at)
    ensures CutsAfter(cuts[..i], at) == at + Sum(CutWidths(cuts[..i]))
    decreases |cuts|
  {
    if i < |cuts| {
      CutsAdvance(cuts[..|cuts| - 1], i, at);
      assert cuts[..|cuts| - 1][..i] == cuts[..i];
    } else if i > 0 {
      assert cuts[..i] == cuts;
      CutsAdvance(cuts[..i - 1], i - 1, at);
      assert cuts[..i - 1][..i - 1] == cuts[..i - 1];
      assert CutWidths(cuts)[..i - 1] == CutWidths(cuts[..i - 1]);
    }
  }

  /** gsm_decode on a plain frame, up to the call of the decoder: without the magic nibble nothing is decoded. */
  method UnpackPlain(c: seq<byte>) returns (ok: bool, fields: seq<nat>)
    requires |c| == 33
    ensures ok <==> Val(Window(c, 0, 4)) == 0xD
    ensures ok ==> fields == MsbFields(c, 4, FrameWidths())
  {
    hide Val, Pow2, Window, MsbFields, CutsAfter, CutAfter, CutWidth, CutWidths, PlainFrame, FrameWidths, Sum;
    fields := [];
    InsideIs(c, 0, 4, 4);
    Pow2Values();
    ok := c[0] / 16 % 16 == 0xD;
    if !ok {
      return;
    }
    PlainFrameSound();
    var prog := PlainFrame();
    var n, i := 0, 0;
    NoFields(c, 4, prog);
    while n < |prog|
      invariant n <= |prog| && 8 * i <= CutsAfter(prog[..n], 4) < 8 * i + 8
      invariant fields == MsbFields(c, 4, CutWidths(prog[..n]))
    {
      CutsAdvance(prog, n, 4);
      CutsAdvance(prog, n + 1, 4);
      OneCut(prog, n, 4);
      ghost var at: nat := CutsAfter(prog[..n], 4);
      assert i == at / 8;
      var v;
      v, i := TakeCut(c, i, prog[n], at);
      OneField(c, 4, CutWidths(prog[..n]), CutWidth(prog[n]));
      fields := fields + [v];
      n := n + 1;
    }
    assert prog[..|prog|] == prog;
  }

  lemma NoFields(c: seq<byte>, at: nat, cuts: seq<Cut>)
    ensures MsbFields(c, at, CutWidths(cuts[..0])) == [] && CutsAfter(cuts[..0], at) == at
  {
    assert cuts[..0] == [];
  }

  lemma OneField(c: seq<byte>, at: nat, ws: seq<nat>, w: nat)
    ensures MsbFields(c, at, ws + [w]) == MsbFields(c, at, ws) + [Val(Window(c, at + Sum(ws), w))]
  {
    assert (ws + [w])[..|ws|] == ws;
  }
}
