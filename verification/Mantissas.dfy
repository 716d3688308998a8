/**
 Mantissa decoding of liba52 (coeff_get, coeff_get_coupling and their use in a52_block,
 parse.c): sections 7.3.3 and 7.3.5 of ATSC A/52.  Mantissas of three, five and eleven
 levels share code words, three or two at a time; the code word stands where the first of
 its mantissas is due, and the others may come much later, in another channel.  The code
 keeps them in a quantizer set that lives through the whole block.

 The reference is a closed form over the list of bit allocation values in reading order:
 which code word an entry belongs to, where that word stands, and which digit is meant.
 A mantissa is the dequantised value before it is scaled by exponent and gain; a bin
 without bits is 0, as without dither.
 */
module Mantissas {
  import opened Powers
  import opened Bits
  import opened Seqs
  import A52 = A52Reader
  import D = DtsReader
  import BA = BitAllocation

  /** What bit allocation hands out: negative for the shared classes. */
  predicate Bap(b: int) {
    -3 <= b <= 16 && b != 1 && b != 2
  }

  predicate Baps(s: seq<int>) {
    forall i :: 0 <= i < |s| ==> Bap(s[i])
  }

  /** Bit allocation hands out nothing else, as long as its lookups stay inside the table. */
  lemma AllocationIsBap(mem: int -> int, p: BA.Params, ex: seq<int>, c: BA.Channel, k: nat)
    requires BA.ValidParams(p) && BA.ValidChannel(c) && |ex| == 256 && c.start <= k < c.end
    ensures Bap(BA.RefBapAt(BA.RuleOf(p), ex, c, k))
    ensures BA.InTable(BA.IndexOf(p, ex, c, k)) ==> Bap(BA.Lookup(mem, BA.IndexOf(p, ex, c, k)))
  {
    hide BA.RefMask, BA.RefAddress, BA.RefBand, BA.BandOf, BA.IndexAt;
  }

  function GroupSize(b: int): (g: nat)
    ensures g >= 1
  {
    if b == -1 || b == -2 then 3 else if b == -3 then 2 else 1
  }

  function CodeBits(b: int): (n: nat)
    requires Bap(b)
    ensures n <= 16 && (n == 0 <==> b == 0)
  {
    if b == -1 then 5 else if b == -2 || b == -3 then 7 else b
  }

  // ------------------------------------------------------------------ the closed form

  /** How many of the first n entries are of class c. */
  function Count(baps: seq<int>, n: nat, c: int): (k: nat)
    requires n <= |baps|
  {
    if n == 0 then 0 else Count(baps, n - 1, c) + if baps[n - 1] == c then 1 else 0
  }

  /** Entry j is the first of its group, and its code word stands here. */
  predicate Leads(baps: seq<int>, j: nat)
    requires j < |baps|
  {
    Count(baps, j, baps[j]) % GroupSize(baps[j]) == 0
  }

  /** How many bits the first n entries take. */
  function Offset(baps: seq<int>, n: nat): (k: nat)
    requires n <= |baps| && Baps(baps)
  {
    if n == 0 then 0 else Offset(baps, n - 1) + if Leads(baps, n - 1) then CodeBits(baps[n - 1]) else 0
  }

  /** The last entry of class c before n that leads its group. */
  function Leader(baps: seq<int>, n: nat, c: int): (j: nat)
    requires n <= |baps|
    ensures n == 0 || j < n
  {
    if n == 0 then 0
    else if baps[n - 1] == c && Leads(baps, n - 1) then n - 1
    else Leader(baps, n - 1, c)
  }

  /** n bits from bit p on. */
  function Field(bits: seq<bool>, p: int, n: nat): seq<bool> {
    if 0 <= p && p + n <= |bits| then bits[p..p + n] else []
  }

  /** Level d of L evenly spaced ones around 0. */
  function Level(d: nat, L: nat): real
    requires L > 0
  {
    (2 * d - (L - 1)) as real * 32768.0 / L as real
  }

  /** Mantissa r of a code word; the code words that no mantissas have give 0. */
  function Dequantised(b: int, code: nat, r: nat): real {
    if b == -1 && code < 27 then Level(if r == 0 then code / 9 else if r == 1 then code / 3 % 3 else code % 3, 3)
    else if b == -2 && code < 125 then Level(if r == 0 then code / 25 else if r == 1 then code / 5 % 5 else code % 5, 5)
    else if b == -3 && code < 121 then Level(if r == 0 then code / 11 else code % 11, 11)
    else if b == 3 && code < 7 then Level(code, 7)
    else if b == 4 && code < 15 then Level(code, 15)
    else 0.0
  }

  /** The code word that the entries of class c before n belong to last. */
  function LastCode(bits: seq<bool>, start: int, baps: seq<int>, n: nat, c: int): nat
    requires n <= |baps| && Bap(c) && Baps(baps)
  {
    Val(Field(bits, start + Offset(baps, Leader(baps, n, c)), CodeBits(c)))
  }

  /** The mantissa of entry k, for entries whose bits begin at bit start. */
  function Mantissa(bits: seq<bool>, start: int, baps: seq<int>, k: nat): real
    requires k < |baps| && Baps(baps)
  {
    var b := baps[k];
    if b >= 5 then (A52.SignedVal(Field(bits, start + Offset(baps, k), b)) * Pow2(16 - b)) as real
    else Dequantised(b, LastCode(bits, start, baps, k + 1, b), Count(baps, k, b) % GroupSize(b))
  }

  /** The mantissas of n entries from entry k on. */
  function MantissasFrom(bits: seq<bool>, start: int, baps: seq<int>, k: nat, n: nat): (s: seq<real>)
    requires k + n <= |baps| && Baps(baps)
    ensures |s| == n
  {
    seq(n, j requires 0 <= j < n => Mantissa(bits, start, baps, k + j))
  }

  lemma MantissasMore(bits: seq<bool>, start: int, baps: seq<int>, k: nat, n: nat)
    requires k + n < |baps| && Baps(baps)
    ensures MantissasFrom(bits, start, baps, k, n + 1) == MantissasFrom(bits, start, baps, k, n) + [Mantissa(bits, start, baps, k + n)]
  {
  }

  lemma NoMantissas(bits: seq<bool>, start: int, baps: seq<int>, k: nat)
    requires k <= |baps| && Baps(baps)
    ensures MantissasFrom(bits, start, baps, k, 0) == []
  {
  }

  // ------------------------------------------------------------------ laws of the closed form

  /** What comes later changes nothing. */
  lemma {:induction false} Prefix(a: seq<int>, b: seq<int>, n: nat, c: int)
    requires n <= |a| && Baps(a + b)
    ensures Baps(a)
    ensures Count(a + b, n, c) == Count(a, n, c)
    ensures Offset(a + b, n) == Offset(a, n)
    ensures Leader(a + b, n, c) == Leader(a, n, c)
  {
    assert forall i :: 0 <= i < |a| ==> (a + b)[i] == a[i];
    if n > 0 {
      Prefix(a, b, n - 1, c);
      Prefix(a, b, n - 1, a[n - 1]);
    }
  }

  lemma MantissaOfPrefix(bits: seq<bool>, start: int, a: seq<int>, b: seq<int>, k: nat)
    requires k < |a| && Baps(a + b)
    ensures Baps(a)
    ensures Mantissa(bits, start, a + b, k) == Mantissa(bits, start, a, k)
  {
    hide Count, Offset, Leader, Leads, Field, Dequantised, Val;
    Prefix(a, b, k, a[k]);
    Prefix(a, b, k + 1, a[k]);
    var l := Leader(a, k + 1, a[k]);
    Prefix(a, b, l, a[k]);
    assert (a + b)[k] == a[k];
  }

  /** Groups are full but for the last one. */
  function Groups(n: nat, g: nat): nat
    requires g >= 1
  {
    (n + g - 1) / g
  }

  /** The bits of the entries that share no code word. */
  function PlainBits(baps: seq<int>, n: nat): nat
    requires n <= |baps| && Baps(baps)
  {
    if n == 0 then 0 else PlainBits(baps, n - 1) + if baps[n - 1] >= 0 then CodeBits(baps[n - 1]) else 0
  }

  /** The total number of bits: one word for each group begun, in each shared class. */
  lemma {:induction false} TotalBits(baps: seq<int>, n: nat)
    requires n <= |baps| && Baps(baps)
    ensures Offset(baps, n) == 5 * Groups(Count(baps, n, -1), 3) + 7 * Groups(Count(baps, n, -2), 3)
                             + 7 * Groups(Count(baps, n, -3), 2) + PlainBits(baps, n)
  {
    hide Groups;
    if n == 0 {
      GroupsBegin();
    } else {
      TotalBits(baps, n - 1);
      var b := baps[n - 1];
      GroupsGrow(Count(baps, n - 1, b));
      if b == -1 {
      } else if b == -2 {
      } else if b == -3 {
      } else {
        assert Leads(baps, n - 1);
      }
    }
  }

  lemma GroupsBegin()
    ensures Groups(0, 3) == 0 && Groups(0, 2) == 0
  {
  }

  lemma GroupsGrow(n: nat)
    ensures Groups(n + 1, 3) == Groups(n, 3) + if n % 3 == 0 then 1 else 0
    ensures Groups(n + 1, 2) == Groups(n, 2) + if n % 2 == 0 then 1 else 0
  {
  }

  // ------------------------------------------------------------------ the quantizer set

  /** quantizer_set_t: mantissas that have been read and are not yet due. */
  class QuantizerSet {
    var q1: array<real>
    var q2: array<real>
    var q4: real
    var q1_ptr: int
    var q2_ptr: int
    var q4_ptr: int

    ghost predicate Valid()
      reads this
    {
      q1.Length == 2 && q2.Length == 2 && q1 != q2
    }

    ghost function Contents(): Held
      reads this, q1, q2
    {
      Held(q1[..], q1_ptr, q2[..], q2_ptr, q4, q4_ptr)
    }

    constructor ()
      ensures Valid() && fresh(q1) && fresh(q2)
      ensures forall bits, start :: Holds(Contents(), bits, start, [])
    {
      q1, q2 := new real[2], new real[2];
      q4 := 0.0;
      q1_ptr, q2_ptr, q4_ptr := -1, -1, -1;
    }
  }

  /** What a pair holds after n mantissas of a class of three to a word, the last word being code. */
  ghost predicate HoldsThree(q: seq<real>, ptr: int, b: int, n: nat, code: nat) {
    && |q| == 2
    && ptr == (if n % 3 == 0 then -1 else 2 - n % 3)
    && (n % 3 == 1 ==> q[1] == Dequantised(b, code, 1))
    && (n % 3 != 0 ==> q[0] == Dequantised(b, code, 2))
  }

  ghost predicate HoldsTwo(q: real, ptr: int, n: nat, code: nat) {
    && ptr == (if n % 2 == 0 then -1 else 0)
    && (n % 2 != 0 ==> q == Dequantised(-3, code, 1))
  }

  /** The contents of a quantizer set. */
  datatype Held = Held(q1: seq<real>, p1: int, q2: seq<real>, p2: int, q4: real, p4: int)

  /** It holds exactly the mantissas that the entries so far have read and not used. */
  ghost predicate Holds(h: Held, bits: seq<bool>, start: int, baps: seq<int>) {
    && Baps(baps)
    && HoldsThree(h.q1, h.p1, -1, Count(baps, |baps|, -1), LastCode(bits, start, baps, |baps|, -1))
    && HoldsThree(h.q2, h.p2, -2, Count(baps, |baps|, -2), LastCode(bits, start, baps, |baps|, -2))
    && HoldsTwo(h.q4, h.p4, Count(baps, |baps|, -3), LastCode(bits, start, baps, |baps|, -3))
  }

  /** Appending an entry leaves what was counted before it. */
  lemma Grown(baps: seq<int>, b: int, c: int)
    requires Bap(b) && Bap(c) && Baps(baps)
    ensures Baps(baps + [b])
    ensures var n, more := |baps|, baps + [b];
            && more[n] == b && Count(more, n, c) == Count(baps, n, c)
            && Count(more, n + 1, c) == Count(baps, n, c) + (if b == c then 1 else 0)
            && Offset(more, n) == Offset(baps, n) && Leader(more, n, c) == Leader(baps, n, c)
            && Leads(more, n) == (Count(baps, n, b) % GroupSize(b) == 0)
  {
    hide Offset, Leader, Bap;
    var n, more := |baps|, baps + [b];
    assert more[n] == b && forall i :: 0 <= i < n ==> more[i] == baps[i];
    Prefix(baps, [b], n, c);
    Prefix(baps, [b], n, b);
  }

  lemma GrownOffset(baps: seq<int>, b: int)
    requires Bap(b) && Baps(baps)
    ensures Baps(baps + [b])
    ensures Offset(baps + [b], |baps| + 1)
         == Offset(baps, |baps|) + (if Count(baps, |baps|, b) % GroupSize(b) == 0 then CodeBits(b) else 0)
  {
    hide Count, Leads, Leader, Bap, GroupSize, CodeBits;
    Grown(baps, b, b);
  }

  /** An entry of another class, or one inside a group, leaves the last code word of a class; a leading one brings its own. */
  lemma GrownCode(bits: seq<bool>, start: int, baps: seq<int>, b: int, c: int)
    requires Bap(b) && Bap(c) && Baps(baps)
    ensures Baps(baps + [b])
    ensures LastCode(bits, start, baps + [b], |baps| + 1, c)
         == if b == c && Count(baps, |baps|, c) % GroupSize(c) == 0 then Val(Field(bits, start + Offset(baps, |baps|), CodeBits(c)))
            else LastCode(bits, start, baps, |baps|, c)
  {
    hide Val, Field, Bap, CodeBits, GroupSize, Count, Offset, Leads;
    Grown(baps, b, c);
    Grown(baps, b, b);
    Prefix(baps, [b], Leader(baps, |baps|, c), c);
  }

  /** The mantissa of the entry that comes next. */
  lemma NextMantissa(bits: seq<bool>, start: int, baps: seq<int>, b: int)
    requires Bap(b) && Baps(baps)
    ensures Baps(baps + [b])
    ensures var n := |baps|;
            var field := Field(bits, start + Offset(baps, n), CodeBits(b));
            Mantissa(bits, start, baps + [b], n)
            == if b >= 5 then (A52.SignedVal(field) * Pow2(16 - b)) as real
               else Dequantised(b, if Count(baps, n, b) % GroupSize(b) == 0 then Val(field) else LastCode(bits, start, baps, n, b),
                                Count(baps, n, b) % GroupSize(b))
  {
    hide Val, Pow2, Field, Dequantised, Count, Offset, Leader, LastCode, A52.SignedVal;
    Grown(baps, b, b);
    GrownCode(bits, start, baps, b, b);
  }

  // ------------------------------------------------------------------ one mantissa

  /** After a class has been served from its pair. */
  lemma ServedThree(q: seq<real>, ptr: int, b: int, n: nat, code: nat)
    requires HoldsThree(q, ptr, b, n, code) && ptr >= 0
    ensures ptr < 2 && q[ptr] == Dequantised(b, code, n % 3) && n % 3 != 0
    ensures HoldsThree(q, ptr - 1, b, n + 1, code)
  {
    hide Dequantised;
    assert n % 3 == 1 ==> (n + 1) % 3 == 2;
    assert n % 3 == 2 ==> (n + 1) % 3 == 0;
  }

  /** After a code word has been read for it. */
  lemma FilledThree(q: seq<real>, ptr: int, b: int, n: nat, last: nat, code: nat)
    requires HoldsThree(q, ptr, b, n, last) && ptr < 0
    ensures n % 3 == 0 && HoldsThree([Dequantised(b, code, 2), Dequantised(b, code, 1)], 1, b, n + 1, code)
  {
    hide Dequantised;
    assert (n + 1) % 3 == 1;
  }

  lemma ServedTwo(q: real, ptr: int, n: nat, code: nat)
    requires HoldsTwo(q, ptr, n, code)
    ensures ptr == 0 ==> n % 2 == 1 && q == Dequantised(-3, code, n % 2) && HoldsTwo(q, -1, n + 1, code)
    ensures ptr != 0 ==> n % 2 == 0
  {
    hide Dequantised;
    assert n % 2 == 1 ==> (n + 1) % 2 == 0;
  }

  lemma FilledTwo(n: nat, code: nat)
    requires n % 2 == 0
    ensures HoldsTwo(Dequantised(-3, code, 1), 0, n + 1, code)
  {
    hide Dequantised;
    assert (n + 1) % 2 == 1;
  }

  /** The code word that entry b, coming after these, belongs to. */
  function CodeFor(bits: seq<bool>, start: int, baps: seq<int>, b: int): nat
    requires Bap(b) && Baps(baps)
  {
    if Count(baps, |baps|, b) % GroupSize(b) == 0 then Val(Field(bits, start + Offset(baps, |baps|), CodeBits(b)))
    else LastCode(bits, start, baps, |baps|, b)
  }

  /** The set is right after one more entry if the class concerned was served and the others were left alone. */
  lemma HoldsMore(h: Held, h': Held, bits: seq<bool>, start: int, baps: seq<int>, b: int)
    requires Holds(h, bits, start, baps) && Bap(b)
    requires if b == -1 then HoldsThree(h'.q1, h'.p1, -1, Count(baps, |baps|, -1) + 1, CodeFor(bits, start, baps, -1))
             else h'.q1 == h.q1 && h'.p1 == h.p1
    requires if b == -2 then HoldsThree(h'.q2, h'.p2, -2, Count(baps, |baps|, -2) + 1, CodeFor(bits, start, baps, -2))
             else h'.q2 == h.q2 && h'.p2 == h.p2
    requires if b == -3 then HoldsTwo(h'.q4, h'.p4, Count(baps, |baps|, -3) + 1, CodeFor(bits, start, baps, -3))
             else h'.q4 == h.q4 && h'.p4 == h.p4
    ensures Holds(h', bits, start, baps + [b])
  {
    hide HoldsThree, HoldsTwo, LastCode, Val, Field, Offset, Count, CodeBits, GroupSize;
    Grown(baps, b, -1);
    Grown(baps, b, -2);
    Grown(baps, b, -3);
    GrownCode(bits, start, baps, b, -1);
    GrownCode(bits, start, baps, b, -2);
    GrownCode(bits, start, baps, b, -3);
  }

  /** A mantissa of a class of three to a word: the same text serves classes -1 and -2. */
  method NextOfThree(state: A52.Reader, q: array<real>, ptr0: int, b: int, ghost n: nat, ghost last: nat)
    returns (m: real, ptr: int)
    requires state.Valid() && q.Length == 2 && (b == -1 || b == -2) && HoldsThree(q[..], ptr0, b, n, last)
    requires 0 <= state.Position() && state.Position() + (if n % 3 == 0 then CodeBits(b) else 0) < |state.All()|
    modifies state, q
    ensures state.Valid()
    ensures var code := if n % 3 == 0 then Val(Field(state.All(), old(state.Position()), CodeBits(b))) else last;
            m == Dequantised(b, code, n % 3) && HoldsThree(q[..], ptr, b, n + 1, code)
    ensures state.Position() == old(state.Position()) + if n % 3 == 0 then CodeBits(b) else 0
  {
    hide Val, Pow2, Dequantised, D.Payload, D.WordBits;
    if ptr0 >= 0 {
      ServedThree(q[..], ptr0, b, n, last);
      m := q[ptr0];
      ptr := ptr0 - 1;
    } else {
      var code := state.Get(CodeBits(b));
      FilledThree(q[..], ptr0, b, n, last, code);
      q[0] := Dequantised(b, code, 2);
      q[1] := Dequantised(b, code, 1);
      assert q[..] == [Dequantised(b, code, 2), Dequantised(b, code, 1)];
      m := Dequantised(b, code, 0);
      ptr := 1;
    }
  }

  /** A mantissa of the class of two to a word. */
  method NextOfTwo(state: A52.Reader, q: real, ptr0: int, ghost n: nat, ghost last: nat) returns (m: real, held: real, ptr: int)
    requires state.Valid() && HoldsTwo(q, ptr0, n, last)
    requires 0 <= state.Position() && state.Position() + (if n % 2 == 0 then 7 else 0) < |state.All()|
    modifies state
    ensures state.Valid()
    ensures var code := if n % 2 == 0 then Val(Field(state.All(), old(state.Position()), 7)) else last;
            m == Dequantised(-3, code, n % 2) && HoldsTwo(held, ptr, n + 1, code)
    ensures state.Position() == old(state.Position()) + if n % 2 == 0 then 7 else 0
  {
    hide Val, Pow2, Dequantised, D.Payload, D.WordBits;
    ServedTwo(q, ptr0, n, last);
    if ptr0 == 0 {
      m, held, ptr := q, q, -1;
    } else {
      var code := state.Get(7);
      FilledTwo(n, code);
      m, held, ptr := Dequantised(-3, code, 0), Dequantised(-3, code, 1), 0;
    }
  }

  /** The cases without sharing: no bits, a table, or a number in two's complement. */
  method PlainMantissa(state: A52.Reader, bapi: nat) returns (m: real)
    requires state.Valid() && Bap(bapi)
    requires 0 <= state.Position() && state.Position() + bapi < |state.All()|
    modifies state
    ensures state.Valid() && state.Position() == old(state.Position()) + bapi
    ensures var field := Field(state.All(), old(state.Position()), bapi);
            m == if bapi >= 5 then (A52.SignedVal(field) * Pow2(16 - bapi)) as real else Dequantised(bapi, Val(field), 0)
  {
    hide Val, Pow2, D.Payload, D.WordBits, A52.SignedVal, Level;
    if bapi == 0 {
      m := 0.0;
    } else if bapi <= 4 {
      var code := state.Get(bapi);
      m := Dequantised(bapi, code, 0);
    } else {
      var v := state.GetSigned(bapi);
      m := (v * Pow2(16 - bapi)) as real;
    }
  }

  /** The switch that coeff_get and coeff_get_coupling share: the mantissa of the next entry. */
  method NextMantissaOf(state: A52.Reader, quant: QuantizerSet, bapi: int, ghost start: int, ghost seen: seq<int>) returns (m: real)
    requires state.Valid() && quant.Valid() && Baps(seen + [bapi]) && Bap(bapi) && Holds(quant.Contents(), state.All(), start, seen)
    requires 0 <= state.Position() == start + Offset(seen, |seen|) && start + Offset(seen + [bapi], |seen| + 1) < |state.All()|
    modifies state, quant`q1_ptr, quant`q2_ptr, quant`q4_ptr, quant`q4, quant.q1, quant.q2
    ensures state.Valid() && quant.Valid() && Holds(quant.Contents(), state.All(), start, seen + [bapi])
    ensures m == Mantissa(state.All(), start, seen + [bapi], |seen|)
    ensures state.Position() == start + Offset(seen + [bapi], |seen| + 1)
  {
    hide Val, Pow2, Dequantised, D.Payload, D.WordBits, HoldsThree, HoldsTwo, Count, Offset, LastCode, Leader, Leads, Mantissa, A52.SignedVal;
    ghost var h, bits := quant.Contents(), state.All();
    NextMantissa(bits, start, seen, bapi);
    GrownOffset(seen, bapi);
    if bapi == -1 {
      var ptr;
      m, ptr := NextOfThree(state, quant.q1, quant.q1_ptr, -1, Count(seen, |seen|, -1), LastCode(bits, start, seen, |seen|, -1));
      quant.q1_ptr := ptr;
    } else if bapi == -2 {
      var ptr;
      m, ptr := NextOfThree(state, quant.q2, quant.q2_ptr, -2, Count(seen, |seen|, -2), LastCode(bits, start, seen, |seen|, -2));
      quant.q2_ptr := ptr;
    } else if bapi == -3 {
      var held, ptr;
      m, held, ptr := NextOfTwo(state, quant.q4, quant.q4_ptr, Count(seen, |seen|, -3), LastCode(bits, start, seen, |seen|, -3));
      quant.q4 := held;
      quant.q4_ptr := ptr;
    } else {
      m := PlainMantissa(state, bapi);
    }
    HoldsMore(h, quant.Contents(), bits, start, seen, bapi);
  }

  // ------------------------------------------------------------------ a channel

  lemma BapsSplit(a: seq<int>, b: seq<int>)
    requires Baps(a + b)
    ensures Baps(a) && Baps(b)
  {
    hide Bap;
    assert forall i :: 0 <= i < |a| ==> a[i] == (a + b)[i];
    assert forall i :: 0 <= i < |b| ==> b[i] == (a + b)[|a| + i];
  }

  lemma {:induction false} OffsetGrows(a: seq<int>, b: seq<int>)
    requires Baps(a + b)
    ensures Baps(a) && Offset(a, |a|) <= Offset(a + b, |a + b|)
    decreases |b|
  {
    hide Count, Leads;
    BapsSplit(a, b);
    if b == [] {
      assert a + b == a;
    } else {
      BapsSplit(a + b[..|b| - 1], b[|b| - 1..]);
      var front := b[..|b| - 1];
      assert a + b == (a + front) + [b[|b| - 1]];
      OffsetGrows(a, front);
      Prefix(a + front, [b[|b| - 1]], |a + front|, 0);
    }
  }

  /** How a list is taken apart at the entry that is due. */
  lemma Due(seen: seq<int>, bap: seq<int>, from: nat, i: nat, end: nat)
    requires from <= i < end <= |bap|
    ensures seen + bap[from..i + 1] == (seen + bap[from..i]) + [bap[i]]
    ensures seen + bap[from..end] == (seen + bap[from..i + 1]) + bap[i + 1..end]
    ensures |seen + bap[from..i]| == |seen| + i - from
  {
  }

  /** The reading position and the quantizer set after bin i of a run that began at bin from. */
  ghost predicate ReadTo(h: Held, position: int, bits: seq<bool>, start: int, seen: seq<int>, bap: seq<int>, from: nat, i: nat) {
    && from <= i <= |bap| && Baps(seen + bap[from..i])
    && Holds(h, bits, start, seen + bap[from..i])
    && position == start + Offset(seen + bap[from..i], |seen| + i - from) >= 0
  }

  /** One step of a reading loop. */
  method Step(state: A52.Reader, quant: QuantizerSet, bap: seq<int>, ghost from: nat, i: nat, ghost end: nat,
              ghost start: int, ghost seen: seq<int>) returns (m: real)
    requires i < end <= |bap| && state.Valid() && quant.Valid()
    requires ReadTo(quant.Contents(), state.Position(), state.All(), start, seen, bap, from, i)
    requires Baps(seen + bap[from..end]) && start + Offset(seen + bap[from..end], |seen| + end - from) < |state.All()|
    modifies state, quant`q1_ptr, quant`q2_ptr, quant`q4_ptr, quant`q4, quant.q1, quant.q2
    ensures state.Valid() && quant.Valid()
    ensures ReadTo(quant.Contents(), state.Position(), state.All(), start, seen, bap, from, i + 1)
    ensures m == Mantissa(state.All(), start, seen + bap[from..end], |seen| + i - from)
  {
    hide Offset, Holds, Mantissa, Bap, D.Payload, D.WordBits;
    Due(seen, bap, from, i, end);
    ghost var now := seen + bap[from..i];
    OffsetGrows(now + [bap[i]], bap[i + 1..end]);
    OffsetGrows(now, [bap[i]]);
    assert Bap(bap[i]) by { assert (now + [bap[i]])[|now|] == bap[i]; }
    m := NextMantissaOf(state, quant, bap[i], start, now);
    MantissaOfPrefix(state.All(), start, now + [bap[i]], bap[i + 1..end], |now|);
  }

  lemma ReadNothing(h: Held, position: int, bits: seq<bool>, start: int, seen: seq<int>, bap: seq<int>, from: nat)
    requires from <= |bap| && Baps(seen) && Holds(h, bits, start, seen) && position == start + Offset(seen, |seen|) >= 0
    ensures ReadTo(h, position, bits, start, seen, bap, from, from)
  {
    assert seen + bap[from..from] == seen;
  }

  lemma ReadAll(h: Held, position: int, bits: seq<bool>, start: int, seen: seq<int>, bap: seq<int>, from: nat, i: nat)
    requires ReadTo(h, position, bits, start, seen, bap, from, i)
    ensures Baps(seen + bap[from..i]) && Holds(h, bits, start, seen + bap[from..i])
    ensures position == start + Offset(seen + bap[from..i], |seen + bap[from..i]|) >= 0
  {
  }

  /** coeff_get: the mantissas of one channel, from where the block's reading has got to. */
  method CoeffGet(state: A52.Reader, coeff: array<real>, base: nat, bap: seq<int>, quant: QuantizerSet, end: nat,
                  ghost start: int, ghost seen: seq<int>)
    requires end <= |bap| && base + end <= coeff.Length && coeff != quant.q1 && coeff != quant.q2
    requires state.Valid() && quant.Valid() && Baps(seen + bap[0..end])
    requires ReadTo(quant.Contents(), state.Position(), state.All(), start, seen, bap, 0, 0)
    requires start + Offset(seen + bap[0..end], |seen| + end) < |state.All()|
    modifies state, coeff, quant`q1_ptr, quant`q2_ptr, quant`q4_ptr, quant`q4, quant.q1, quant.q2
    ensures state.Valid() && quant.Valid()
    ensures ReadTo(quant.Contents(), state.Position(), state.All(), start, seen, bap, 0, end)
    ensures coeff[base..base + end] == MantissasFrom(state.All(), start, seen + bap[0..end], |seen|, end)
    ensures forall j :: 0 <= j < coeff.Length && (j < base || base + end <= j) ==> coeff[j] == old(coeff[j])
  {
    hide Offset, Holds, ReadTo, Mantissa, MantissasFrom, Bap, Baps, D.Payload, D.WordBits, Val;
    ghost var total := seen + bap[0..end];
    NoMantissas(state.All(), start, total, |seen|);
    var i := 0;
    while i < end
      invariant i <= end && state.Valid() && quant.Valid()
      invariant ReadTo(quant.Contents(), state.Position(), state.All(), start, seen, bap, 0, i)
      invariant coeff[base..base + i] == MantissasFrom(state.All(), start, total, |seen|, i)
      invariant forall j :: 0 <= j < coeff.Length && (j < base || base + end <= j) ==> coeff[j] == old(coeff[j])
    {
      var m := Step(state, quant, bap, 0, i, end, start, seen);
      MantissasMore(state.All(), start, total, |seen|, i);
      ghost var done := coeff[base..base + i];
      coeff[base + i] := m;
      assert coeff[base..base + (i + 1)] == done + [m];
      i := i + 1;
    }
  }

  // ------------------------------------------------------------------ the coupling channel

  /** Bit t of the coupling band structure joins subband t + 1 to subband t. */
  function Joins(x: nat, t: nat): (b: nat)
    ensures b < 2
  {
    x / Pow2(t) % 2
  }

  /** The band of subband s: as many fewer as have been joined before. */
  function BandOf(x: nat, s: nat): int {
    if s == 0 then 0 else BandOf(x, s - 1) + 1 - Joins(x, s - 1)
  }

  /** The band of bin j, for a range that begins at bin from. */
  function BinBand(x: nat, from: nat, j: nat): int
    requires from <= j
  {
    BandOf(x, (j - from) / 12)
  }

  lemma HalveStructure(x: nat, t: nat)
    ensures x / Pow2(t) / 2 == x / Pow2(t + 1)
  {
    hide Pow2;
    Pow2Add(t, 1);
    assert Pow2(1) == 2 by { SmallPowers(); }
    var p := Pow2(t);
    var q, r := x / p, x % p;
    ProductOfTwo(q, p);
    DivUnique(x, p * 2, q / 2, q % 2 * p + r);
  }

  lemma ProductOfTwo(q: nat, p: nat)
    requires p >= 1
    ensures q * p == q / 2 * (p * 2) + q % 2 * p && 0 <= q % 2 * p <= p
  {
    assert q == q / 2 * 2 + q % 2;
    assert q * p == (q / 2 * 2 + q % 2) * p == q / 2 * 2 * p + q % 2 * p;
    MulMonotonic(q % 2, 1, p);
    MulMonotonic(0, q % 2, p);
  }

  /** A structure of n subbands has no bit from n - 1 on. */
  lemma NoBitBeyond(x: nat, n: nat, t: nat)
    requires x < Pow2(n) && n <= t
    ensures x / Pow2(t) == 0
  {
    hide Pow2;
    Pow2Monotonic(n, t);
    DivUnique(x, Pow2(t), 0, x);
  }

  /** The inner loop over the structure: how far the band that begins with subband s reaches. */
  method BandReach(cplbndstrc0: nat, i: nat, ghost x: nat, ghost s: nat, ghost n: nat)
    returns (i_end: nat, cplbndstrc: nat, ghost e: nat)
    requires s < n && x < Pow2(n - 1) && cplbndstrc0 == x / Pow2(s)
    ensures i < i_end <= i + 12 * (n - s) && (i_end - i) % 12 == 0 && cplbndstrc == x / Pow2(s + (i_end - i) / 12)
    ensures s < e <= n && i_end == i + 12 * (e - s) && cplbndstrc == x / Pow2(e)
    ensures forall t: nat :: s <= t < e ==> BandOf(x, t) == BandOf(x, s)
    ensures BandOf(x, e) == BandOf(x, s) + 1
  {
    hide Pow2;
    i_end, cplbndstrc, e := i + 12, cplbndstrc0, s;
    while cplbndstrc % 2 == 1
      invariant s <= e < n && i_end == i + 12 * (e + 1 - s) && cplbndstrc == x / Pow2(e)
      invariant forall t: nat :: s <= t <= e ==> BandOf(x, t) == BandOf(x, s)
      decreases n - e
    {
      if e >= n - 1 {
        NoBitBeyond(x, n - 1, e);
        assert false;
      }
      HalveStructure(x, e);
      cplbndstrc := cplbndstrc / 2;
      i_end := i_end + 12;
      e := e + 1;
    }
    HalveStructure(x, e);
    cplbndstrc := cplbndstrc / 2;
    e := e + 1;
  }

  /** The decoder reads a bit for each of the n subbands but the last; the range may be empty. */
  predicate Structured(x: nat, n: nat) {
    x < Pow2(if n == 0 then 0 else n - 1)
  }

  /** What the coupling loops have done up to bin i. */
  ghost predicate Coupled(cplcoeff: seq<real>, band: seq<int>, bits: seq<bool>, start: int, total: seq<int>, k: nat, from: nat, i: nat, x: nat)
  {
    && from <= i <= |cplcoeff| && i <= |band| && Baps(total) && k + i - from <= |total|
    && cplcoeff[from..i] == MantissasFrom(bits, start, total, k, i - from)
    && forall j: nat :: from <= j < i ==> band[j] == BinBand(x, from, j)
  }

  lemma CoupledMore(c: seq<real>, band: seq<int>, c': seq<real>, band': seq<int>, bits: seq<bool>, start: int, total: seq<int>,
                    k: nat, from: nat, i: nat, x: nat)
    requires Coupled(c, band, bits, start, total, k, from, i, x) && k + i - from < |total|
    requires i < |c| == |c'| && i < |band| == |band'|
    requires c' == c[i := Mantissa(bits, start, total, k + i - from)] && band' == band[i := BinBand(x, from, i)]
    ensures Coupled(c', band', bits, start, total, k, from, i + 1, x)
  {
    hide Mantissa, MantissasFrom, BinBand, Baps;
    MantissasMore(bits, start, total, k, i - from);
    assert c'[from..i + 1] == c[from..i] + [c'[i]];
  }

  /** The bins of one coupling band. */
  method CoupledBand(state: A52.Reader, cplcoeff: array<real>, band: array<int>, bap: seq<int>, quant: QuantizerSet,
                     i0: nat, i_end: nat, bnd: int, ghost from: nat, ghost end: nat, ghost x: nat, ghost start: int, ghost seen: seq<int>)
    requires from <= i0 <= i_end <= end <= |bap| && end <= cplcoeff.Length && end <= band.Length
    requires cplcoeff != quant.q1 && cplcoeff != quant.q2 && state.Valid() && quant.Valid()
    requires ReadTo(quant.Contents(), state.Position(), state.All(), start, seen, bap, from, i0)
    requires Baps(seen + bap[from..end]) && start + Offset(seen + bap[from..end], |seen| + end - from) < |state.All()|
    requires Coupled(cplcoeff[..], band[..], state.All(), start, seen + bap[from..end], |seen|, from, i0, x)
    requires forall j: nat :: i0 <= j < i_end ==> BinBand(x, from, j) == bnd
    modifies state, cplcoeff, band, quant`q1_ptr, quant`q2_ptr, quant`q4_ptr, quant`q4, quant.q1, quant.q2
    ensures state.Valid() && quant.Valid()
    ensures ReadTo(quant.Contents(), state.Position(), state.All(), start, seen, bap, from, i_end)
    ensures Coupled(cplcoeff[..], band[..], state.All(), start, seen + bap[from..end], |seen|, from, i_end, x)
  {
    hide Offset, Holds, ReadTo, Mantissa, MantissasFrom, Bap, Baps, Coupled, BinBand, D.Payload, D.WordBits, Val;
    ghost var total := seen + bap[from..end];
    var i := i0;
    while i < i_end
      invariant i0 <= i <= i_end && state.Valid() && quant.Valid()
      invariant ReadTo(quant.Contents(), state.Position(), state.All(), start, seen, bap, from, i)
      invariant Coupled(cplcoeff[..], band[..], state.All(), start, total, |seen|, from, i, x)
    {
      ghost var c, b := cplcoeff[..], band[..];
      var m := Step(state, quant, bap, from, i, end, start, seen);
      cplcoeff[i] := m;
      band[i] := bnd;
      assert cplcoeff[..] == c[i := m] && band[..] == b[i := BinBand(x, from, i)];
      CoupledMore(c, b, cplcoeff[..], band[..], state.All(), start, total, |seen|, from, i, x);
      i := i + 1;
    }
  }

  /** Which bins lie in the subbands s to e - 1. */
  lemma BinsOfBand(x: nat, s: nat, e: nat, from: nat, bnd: int)
    requires forall t: nat :: s <= t < e ==> BandOf(x, t) == bnd
    ensures forall j: nat :: from + 12 * s <= j < from + 12 * e ==> BinBand(x, from, j) == bnd
  {
    hide BandOf;
    forall j: nat | from + 12 * s <= j < from + 12 * e
      ensures BinBand(x, from, j) == bnd
    {
      var t := (j - from) / 12;
      assert s <= t < e;
    }
  }

  /**
   coeff_get_coupling: the mantissas of the coupling range, each with the band whose
   coordinate scales it; the bands fill the range exactly, and their number is returned.  In
   an empty range nothing is read and there is no band.
   */
  method CoeffGetCoupling(state: A52.Reader, cplcoeff: array<real>, band: array<int>, bap: seq<int>, quant: QuantizerSet,
                          cplstrtmant: nat, cplendmant: nat, cplbndstrc0: nat, ghost n: nat, ghost start: int, ghost seen: seq<int>)
    returns (bnd: int)
    requires cplendmant == cplstrtmant + 12 * n && Structured(cplbndstrc0, n)
    requires cplendmant <= |bap| && cplendmant <= cplcoeff.Length && cplendmant <= band.Length
    requires cplcoeff != quant.q1 && cplcoeff != quant.q2 && state.Valid() && quant.Valid()
    requires ReadTo(quant.Contents(), state.Position(), state.All(), start, seen, bap, cplstrtmant, cplstrtmant)
    requires Baps(seen + bap[cplstrtmant..cplendmant])
    requires start + Offset(seen + bap[cplstrtmant..cplendmant], |seen| + cplendmant - cplstrtmant) < |state.All()|
    modifies state, cplcoeff, band, quant`q1_ptr, quant`q2_ptr, quant`q4_ptr, quant`q4, quant.q1, quant.q2
    ensures state.Valid() && quant.Valid()
    ensures ReadTo(quant.Contents(), state.Position(), state.All(), start, seen, bap, cplstrtmant, cplendmant)
    ensures Coupled(cplcoeff[..], band[..], state.All(), start, seen + bap[cplstrtmant..cplendmant], |seen|, cplstrtmant, cplendmant, cplbndstrc0)
    ensures bnd == BandOf(cplbndstrc0, n)
    ensures n == 0 ==> bnd == 0 && state.Position() == old(state.Position())
  {
    hide Offset, Holds, ReadTo, Mantissa, MantissasFrom, Bap, Baps, Coupled, D.Payload, D.WordBits, Val, Pow2;
    ghost var x, s := cplbndstrc0, 0;
    var i, cplbndstrc := cplstrtmant, cplbndstrc0;
    bnd := 0;
    StartCoupled(cplcoeff[..], band[..], state.All(), start, seen + bap[cplstrtmant..cplendmant], |seen|, cplstrtmant, x);
    while i < cplendmant
      invariant s <= n && i == cplstrtmant + 12 * s && cplbndstrc == x / Pow2(s) && bnd == BandOf(x, s)
      invariant s == 0 ==> state.Position() == old(state.Position()) && bnd == 0
      invariant state.Valid() && quant.Valid()
      invariant ReadTo(quant.Contents(), state.Position(), state.All(), start, seen, bap, cplstrtmant, i)
      invariant Coupled(cplcoeff[..], band[..], state.All(), start, seen + bap[cplstrtmant..cplendmant], |seen|, cplstrtmant, i, x)
      decreases n - s
    {
      var i_end, rest;
      ghost var e;
      i_end, rest, e := BandReach(cplbndstrc, i, x, s, n);
      BinsOfBand(x, s, e, cplstrtmant, bnd);
      CoupledBand(state, cplcoeff, band, bap, quant, i, i_end, bnd, cplstrtmant, cplendmant, x, start, seen);
      i, cplbndstrc, bnd, s := i_end, rest, bnd + 1, e;
    }
  }

  lemma StartCoupled(c: seq<real>, band: seq<int>, bits: seq<bool>, start: int, total: seq<int>, k: nat, from: nat, x: nat)
    requires Baps(total) && k <= |total| && from <= |c| && from <= |band|
    ensures Coupled(c, band, bits, start, total, k, from, from, x) && x / Pow2(0) == x && BandOf(x, 0) == 0
  {
    NoMantissas(bits, start, total, k);
  }

  // ------------------------------------------------------------------ a block

  /** The mantissa part of a block: bit allocation and ranges of all channels.  n counts the coupling subbands. */
  datatype Block = Block(endmant: seq<nat>, baps: seq<seq<int>>, coupled: seq<bool>,
                         cplbap: seq<int>, cplstrtmant: nat, n: nat, cplbndstrc: nat, lfe: seq<int>)
  {
    predicate Valid() {
      && |endmant| == |baps| == |coupled| <= 5
      && (forall i :: 0 <= i < |baps| ==> endmant[i] <= 253 && |baps[i]| == 256 && Baps(baps[i]))
      && (true in coupled ==> cplstrtmant + 12 * n <= 253 && |cplbap| == 256 && Baps(cplbap) && Structured(cplbndstrc, n))
      && (lfe == [] || |lfe| == 7) && Baps(lfe)
    }

    function Cplendmant(): nat { cplstrtmant + 12 * n }
  }

  /** Channel i is the first coupled one. */
  predicate First(b: Block, i: nat)
    requires b.Valid() && i < |b.coupled|
  {
    b.coupled[i] && forall j :: 0 <= j < i ==> !b.coupled[j]
  }

  /** What is read for channel i: its own range, and the coupling range after the first coupled one. */
  function ChannelOrder(b: Block, i: nat): seq<int>
    requires b.Valid() && i < |b.baps|
  {
    CouplingAfter(b, i, b.baps[i][0..b.endmant[i]])
  }

  function CouplingAfter(b: Block, i: nat, s: seq<int>): seq<int>
    requires b.Valid() && i < |b.baps|
  {
    if First(b, i) then s + b.cplbap[b.cplstrtmant..b.Cplendmant()] else s
  }

  /** The reading order of the first i channels. */
  function Order(b: Block, i: nat): seq<int>
    requires b.Valid() && i <= |b.baps|
  {
    if i == 0 then [] else Order(b, i - 1) + ChannelOrder(b, i - 1)
  }

  /** The reading order of the block. */
  function Total(b: Block): (s: seq<int>)
    requires b.Valid()
    ensures Baps(s)
  {
    OrderIsLegal(b, |b.baps|);
    BapsJoin(Order(b, |b.baps|), b.lfe);
    Order(b, |b.baps|) + b.lfe
  }

  lemma {:induction false} OrderExtends(b: Block, i: nat, m: nat) returns (rest: seq<int>)
    requires b.Valid() && i <= m <= |b.baps|
    ensures Order(b, m) == Order(b, i) + rest
    decreases m
  {
    hide ChannelOrder;
    if i == m {
      rest := [];
    } else {
      var r := OrderExtends(b, i, m - 1);
      rest := r + ChannelOrder(b, m - 1);
      Associative(Order(b, i), r, ChannelOrder(b, m - 1));
    }
  }

  lemma {:induction false} OrderIsLegal(b: Block, i: nat)
    requires b.Valid() && i <= |b.baps|
    ensures Baps(Order(b, i))
  {
    if i > 0 {
      OrderIsLegal(b, i - 1);
      ChannelIsLegal(b, i - 1);
      BapsJoin(Order(b, i - 1), ChannelOrder(b, i - 1));
    }
  }

  lemma BapsJoin(s: seq<int>, t: seq<int>)
    requires Baps(s) && Baps(t)
    ensures Baps(s + t)
  {
    hide Bap;
  }

  lemma ChannelIsLegal(b: Block, i: nat)
    requires b.Valid() && i < |b.baps|
    ensures Baps(b.baps[i][0..b.endmant[i]]) && Baps(ChannelOrder(b, i))
    ensures b.coupled[i] ==> Baps(b.cplbap[b.cplstrtmant..b.Cplendmant()])
  {
    hide Bap, Pow2;
  }

  lemma {:induction false} MantissasFromPrefix(bits: seq<bool>, start: int, a: seq<int>, b: seq<int>, k: nat, n: nat)
    requires k + n <= |a| && Baps(a + b)
    decreases n
    ensures Baps(a) && MantissasFrom(bits, start, a + b, k, n) == MantissasFrom(bits, start, a, k, n)
  {
    hide Mantissa, MantissasFrom, Bap, Baps;
    BapsSplit(a, b);
    if n == 0 {
      NoMantissas(bits, start, a, k);
      NoMantissas(bits, start, a + b, k);
    } else {
      MantissasFromPrefix(bits, start, a, b, k, n - 1);
      MantissaOfPrefix(bits, start, a, b, k + n - 1);
      MantissasMore(bits, start, a, k, n - 1);
      MantissasMore(bits, start, a + b, k, n - 1);
    }
  }

  lemma CoupledPrefix(c: seq<real>, band: seq<int>, bits: seq<bool>, start: int, a: seq<int>, b: seq<int>, k: nat, from: nat, i: nat, x: nat)
    requires Coupled(c, band, bits, start, a, k, from, i, x) && Baps(a + b)
    ensures Coupled(c, band, bits, start, a + b, k, from, i, x)
  {
    hide MantissasFrom, BinBand, Bap;
    MantissasFromPrefix(bits, start, a, b, k, i - from);
  }

  /** The reading has got to the end of these entries. */
  ghost predicate Cursor(h: Held, position: int, bits: seq<bool>, start: int, seen: seq<int>) {
    Baps(seen) && Holds(h, bits, start, seen) && position == start + Offset(seen, |seen|) >= 0
  }

  lemma CursorStarts(h: Held, position: int, bits: seq<bool>, start: int, seen: seq<int>, bap: seq<int>, from: nat)
    requires Cursor(h, position, bits, start, seen) && from <= |bap|
    ensures ReadTo(h, position, bits, start, seen, bap, from, from)
  {
    ReadNothing(h, position, bits, start, seen, bap, from);
  }

  lemma CursorEnds(h: Held, position: int, bits: seq<bool>, start: int, seen: seq<int>, bap: seq<int>, from: nat, i: nat)
    requires ReadTo(h, position, bits, start, seen, bap, from, i)
    ensures Cursor(h, position, bits, start, seen + bap[from..i])
  {
    ReadAll(h, position, bits, start, seen, bap, from, i);
  }

  /** coeff_get between two points of the block's reading order; rest is what the block reads after it. */
  method RangeOfBlock(state: A52.Reader, coeff: array<real>, base: nat, bap: seq<int>, quant: QuantizerSet, end: nat,
                      ghost start: int, ghost seen: seq<int>, ghost rest: seq<int>)
    requires end <= |bap| && base + end <= coeff.Length && coeff != quant.q1 && coeff != quant.q2
    requires state.Valid() && quant.Valid() && Cursor(quant.Contents(), state.Position(), state.All(), start, seen)
    requires Baps(seen + bap[0..end] + rest)
    requires start + Offset(seen + bap[0..end] + rest, |seen + bap[0..end] + rest|) < |state.All()|
    modifies state, coeff, quant`q1_ptr, quant`q2_ptr, quant`q4_ptr, quant`q4, quant.q1, quant.q2
    ensures state.Valid() && quant.Valid()
    ensures Cursor(quant.Contents(), state.Position(), state.All(), start, seen + bap[0..end])
    ensures coeff[base..base + end] == MantissasFrom(state.All(), start, seen + bap[0..end] + rest, |seen|, end)
    ensures forall j :: 0 <= j < coeff.Length && (j < base || base + end <= j) ==> coeff[j] == old(coeff[j])
  {
    hide *;
    ghost var total := seen + bap[0..end];
    CursorStarts(quant.Contents(), state.Position(), state.All(), start, seen, bap, 0);
    OffsetGrows(total, rest);
    assert |total| == |seen| + end;
    CoeffGet(state, coeff, base, bap, quant, end, start, seen);
    CursorEnds(quant.Contents(), state.Position(), state.All(), start, seen, bap, 0, end);
    MantissasFromPrefix(state.All(), start, total, rest, |seen|, end);
  }

  /** coeff_get_coupling in the same way. */
  method CouplingOfBlock(state: A52.Reader, cplcoeff: array<real>, band: array<int>, b: Block, quant: QuantizerSet,
                         ghost start: int, ghost seen: seq<int>, ghost rest: seq<int>)
    requires b.Valid() && true in b.coupled && cplcoeff.Length == band.Length == 256
    requires cplcoeff != quant.q1 && cplcoeff != quant.q2
    requires state.Valid() && quant.Valid() && Cursor(quant.Contents(), state.Position(), state.All(), start, seen)
    requires Baps(seen + b.cplbap[b.cplstrtmant..b.Cplendmant()] + rest)
    requires start + Offset(seen + b.cplbap[b.cplstrtmant..b.Cplendmant()] + rest, |seen + b.cplbap[b.cplstrtmant..b.Cplendmant()] + rest|) < |state.All()|
    modifies state, cplcoeff, band, quant`q1_ptr, quant`q2_ptr, quant`q4_ptr, quant`q4, quant.q1, quant.q2
    ensures state.Valid() && quant.Valid()
    ensures Cursor(quant.Contents(), state.Position(), state.All(), start, seen + b.cplbap[b.cplstrtmant..b.Cplendmant()])
    ensures Coupled(cplcoeff[..], band[..], state.All(), start, seen + b.cplbap[b.cplstrtmant..b.Cplendmant()] + rest, |seen|,
                    b.cplstrtmant, b.Cplendmant(), b.cplbndstrc)
  {
    hide Offset, Holds, ReadTo, Mantissa, MantissasFrom, Bap, Baps, Coupled, Cursor, D.Payload, D.WordBits, Val, Pow2;
    ghost var from, to := b.cplstrtmant, b.Cplendmant();
    ghost var total := seen + b.cplbap[from..to];
    CursorStarts(quant.Contents(), state.Position(), state.All(), start, seen, b.cplbap, from);
    OffsetGrows(total, rest);
    assert |total| == |seen| + to - from;
    var bnd := CoeffGetCoupling(state, cplcoeff, band, b.cplbap, quant, b.cplstrtmant, b.Cplendmant(), b.cplbndstrc, b.n, start, seen);
    CursorEnds(quant.Contents(), state.Position(), state.All(), start, seen, b.cplbap, from, to);
    CoupledPrefix(cplcoeff[..], band[..], state.All(), start, total, rest, |seen|, from, to, b.cplbndstrc);
  }

  /** Where the bins that no mantissa is for begin. */
  function Top(b: Block, i: nat): nat
    requires b.Valid() && i < |b.baps|
    ensures Top(b, i) <= 253
  {
    if b.coupled[i] then b.Cplendmant() else b.endmant[i]
  }

  /** How many of a channel's mantissas stand: the zeros come last. */
  function Kept(b: Block, i: nat): nat
    requires b.Valid() && i < |b.baps|
    ensures Kept(b, i) <= b.endmant[i] <= 253
  {
    if Top(b, i) < b.endmant[i] then Top(b, i) else b.endmant[i]
  }

  /** The 256 bins of channel i as the block leaves them: its mantissas first, zeros from the top on. */
  ghost predicate ChannelDone(bins: seq<real>, b: Block, i: nat, bits: seq<bool>, start: int)
    requires b.Valid() && i < |b.baps|
  {
    && |bins| == 256 && |Order(b, i)| + b.endmant[i] <= |Total(b)|
    && bins[..Kept(b, i)] == MantissasFrom(bits, start, Total(b), |Order(b, i)|, Kept(b, i))
    && forall j :: Top(b, i) <= j < 256 ==> bins[j] == 0.0
  }

  lemma MantissasTaken(bits: seq<bool>, start: int, baps: seq<int>, k: nat, n: nat, m: nat)
    requires m <= n && k + n <= |baps| && Baps(baps)
    ensures MantissasFrom(bits, start, baps, k, n)[..m] == MantissasFrom(bits, start, baps, k, m)
  {
    hide Mantissa, Bap, Baps;
  }

  lemma CouplingTail(b: Block, i: nat) returns (tail: seq<int>)
    requires b.Valid() && i < |b.baps|
    ensures forall s :: CouplingAfter(b, i, s) == s + tail
    ensures First(b, i) ==> true in b.coupled && tail == b.cplbap[b.cplstrtmant..b.Cplendmant()]
    ensures !First(b, i) ==> tail == []
  {
    hide Bap, Baps, Pow2;
    assert First(b, i) ==> b.coupled[i];
    tail := if First(b, i) then b.cplbap[b.cplstrtmant..b.Cplendmant()] else [];
  }

  lemma FourJoined(a: seq<int>, b: seq<int>, c: seq<int>, d: seq<int>, e: seq<int>)
    ensures ((a + (b + c)) + d) + e == (a + b) + (c + d + e)
    ensures a + (b + c) == (a + b) + c
  {
  }

  /** The total, taken apart around channel i. */
  lemma Around(b: Block, i: nat) returns (tail: seq<int>, rest: seq<int>)
    requires b.Valid() && i < |b.baps|
    ensures Total(b) == Order(b, i) + b.baps[i][0..b.endmant[i]] + (tail + rest)
    ensures Order(b, i + 1) == Order(b, i) + b.baps[i][0..b.endmant[i]] + tail
    ensures First(b, i) ==> true in b.coupled && tail == b.cplbap[b.cplstrtmant..b.Cplendmant()]
    ensures !First(b, i) ==> tail == []
  {
    hide Bap, Baps, First, CouplingAfter;
    var r := OrderExtends(b, i + 1, |b.baps|);
    var own := b.baps[i][0..b.endmant[i]];
    tail := CouplingTail(b, i);
    rest := r + b.lfe;
    FourJoined(Order(b, i), own, tail, r, b.lfe);
    Associative(tail, r, b.lfe);
  }

  function NoBins(n: nat): (s: seq<real>)
    ensures |s| == n
  {
    seq(n, _ => 0.0)
  }

  /** The frame of a method that writes one channel's bins. */
  ghost predicate SameOutside(now: seq<real>, was: seq<real>, from: nat, to: nat) {
    |now| == |was| && forall j :: 0 <= j < |was| && (j < from || to <= j) ==> now[j] == was[j]
  }

  /** The bits of one channel, and after the first coupled one those of the coupling channel. */
  method ReadChannel(state: A52.Reader, samples: array<real>, at: nat, b: Block, i: nat, done_cpl: bool, quant: QuantizerSet,
                     cplcoeff: array<real>, band: array<int>, ghost start: int) returns (j: nat)
    requires b.Valid() && i < |b.baps| && at + 256 <= samples.Length && cplcoeff.Length == band.Length == 256
    requires samples != cplcoeff && quant.q1 !in {samples, cplcoeff} && quant.q2 !in {samples, cplcoeff}
    requires done_cpl <==> exists j :: 0 <= j < i && b.coupled[j]
    requires state.Valid() && quant.Valid() && start + Offset(Total(b), |Total(b)|) < |state.All()|
    requires Cursor(quant.Contents(), state.Position(), state.All(), start, Order(b, i))
    modifies state, samples, cplcoeff, band, quant`q1_ptr, quant`q2_ptr, quant`q4_ptr, quant`q4, quant.q1, quant.q2
    ensures state.Valid() && quant.Valid() && j == Top(b, i)
    ensures Cursor(quant.Contents(), state.Position(), state.All(), start, Order(b, i + 1))
    ensures |Order(b, i)| + b.endmant[i] <= |Total(b)|
    ensures samples[at..at + b.endmant[i]] == MantissasFrom(state.All(), start, Total(b), |Order(b, i)|, b.endmant[i])
    ensures SameOutside(samples[..], old(samples[..]), at, at + 256)
    ensures CouplingDone(cplcoeff[..], band[..], old(cplcoeff[..]), old(band[..]), b, i, state.All(), start)
  {
    hide Offset, Holds, ReadTo, Mantissa, MantissasFrom, Bap, Baps, Coupled, Cursor, D.Payload, D.WordBits, Val, Pow2, Order, Total, CouplingAfter;
    ghost var tail, rest := Around(b, i);
    ghost var seen, own := Order(b, i), b.baps[i][0..b.endmant[i]];
    RangeOfBlock(state, samples, at, b.baps[i], quant, b.endmant[i], start, seen, tail + rest);
    j := b.endmant[i];
    if b.coupled[i] {
      if !done_cpl {
        assert First(b, i);
        Associative(seen + own, tail, rest);
        CouplingOfBlock(state, cplcoeff, band, b, quant, start, seen + own, rest);
      }
      j := b.Cplendmant();
    }
    assert !First(b, i) ==> seen + own + tail == seen + own;
  }

  /** What the first coupled channel leaves for the coupling range, and the others leave alone. */
  ghost predicate CouplingDone(c: seq<real>, band: seq<int>, c0: seq<real>, band0: seq<int>, b: Block, i: nat, bits: seq<bool>, start: int)
    requires b.Valid() && i < |b.baps|
  {
    if First(b, i) then Coupled(c, band, bits, start, Total(b), |Order(b, i)| + b.endmant[i], b.cplstrtmant, b.Cplendmant(), b.cplbndstrc)
    else c == c0 && band == band0
  }

  /** One channel of the block: its bits, then zeros up to bin 255. */
  method ChannelMantissas(state: A52.Reader, samples: array<real>, at: nat, b: Block, i: nat, done_cpl: bool, quant: QuantizerSet,
                          cplcoeff: array<real>, band: array<int>, ghost start: int)
    requires b.Valid() && i < |b.baps| && at + 256 <= samples.Length && cplcoeff.Length == band.Length == 256
    requires samples != cplcoeff && quant.q1 !in {samples, cplcoeff} && quant.q2 !in {samples, cplcoeff}
    requires done_cpl <==> exists j :: 0 <= j < i && b.coupled[j]
    requires state.Valid() && quant.Valid() && start + Offset(Total(b), |Total(b)|) < |state.All()|
    requires Cursor(quant.Contents(), state.Position(), state.All(), start, Order(b, i))
    modifies state, samples, cplcoeff, band, quant`q1_ptr, quant`q2_ptr, quant`q4_ptr, quant`q4, quant.q1, quant.q2
    ensures state.Valid() && quant.Valid()
    ensures Cursor(quant.Contents(), state.Position(), state.All(), start, Order(b, i + 1))
    ensures ChannelDone(samples[at..at + 256], b, i, state.All(), start) && SameOutside(samples[..], old(samples[..]), at, at + 256)
    ensures CouplingDone(cplcoeff[..], band[..], old(cplcoeff[..]), old(band[..]), b, i, state.All(), start)
  {
    hide *;
    var j := ReadChannel(state, samples, at, b, i, done_cpl, quant, cplcoeff, band, start);
    ghost var filled := samples[..];
    ZeroFrom(samples, at, j);
    FinishedChannel(samples[..], filled, at, b, i, state.All(), start);
    SameTwice(samples[..], filled, old(samples[..]), at, at + 256);
  }

  lemma SameTwice(c: seq<real>, b: seq<real>, a: seq<real>, from: nat, to: nat)
    requires SameOutside(c, b, from, to) && SameOutside(b, a, from, to)
    ensures SameOutside(c, a, from, to)
  {
  }

  /** The zeros above a channel's range. */
  method ZeroFrom(samples: array<real>, at: nat, from: nat)
    requires from <= 256 && at + 256 <= samples.Length
    modifies samples
    ensures samples[..] == old(samples[..at + from]) + NoBins(256 - from) + old(samples[at + 256..])
  {
    var j := from;
    while j < 256
      invariant from <= j <= 256
      invariant samples[..] == old(samples[..at + from]) + NoBins(j - from) + old(samples[at + j..])
    {
      ghost var was := samples[..];
      samples[at + j] := 0.0;
      assert samples[..] == was[at + j := 0.0];
      j := j + 1;
    }
  }

  lemma FinishedChannel(now: seq<real>, filled: seq<real>, at: nat, b: Block, i: nat, bits: seq<bool>, start: int)
    requires b.Valid() && i < |b.baps| && at + 256 <= |filled|
    requires now == filled[..at + Top(b, i)] + NoBins(256 - Top(b, i)) + filled[at + 256..]
    requires |Order(b, i)| + b.endmant[i] <= |Total(b)|
    requires filled[at..at + b.endmant[i]] == MantissasFrom(bits, start, Total(b), |Order(b, i)|, b.endmant[i])
    ensures |now| == |filled| && ChannelDone(now[at..at + 256], b, i, bits, start) && SameOutside(now, filled, at, at + 256)
  {
    hide Mantissa, MantissasFrom, Total, Order, Bap, Baps, Pow2;
    var k := Kept(b, i);
    MantissasTaken(bits, start, Total(b), |Order(b, i)|, b.endmant[i], k);
    assert now[at..at + 256][..k] == filled[at..at + b.endmant[i]][..k];
  }

  /** Where a channel's bins begin: the LFE channel, if it is output, comes first. */
  function Base(lfeOut: bool, i: nat): nat { 256 * i + if lfeOut then 256 else 0 }

  /** Where the LFE mantissas go: if the channel is not output, to a scratch area. */
  function LfeBase(lfeOut: bool): nat { if lfeOut then 0 else 1280 }

  /** The first n channels are done. */
  ghost predicate ChannelsDone(samples: seq<real>, lfeOut: bool, b: Block, n: nat, bits: seq<bool>, start: int)
    requires b.Valid() && n <= |b.baps| && |samples| == 3072
  {
    forall k: nat :: k < n ==> ChannelDone(samples[Base(lfeOut, k)..Base(lfeOut, k) + 256], b, k, bits, start)
  }

  /** So is the coupling channel, if one of them is coupled. */
  ghost predicate CouplingRange(c: seq<real>, band: seq<int>, b: Block, n: nat, bits: seq<bool>, start: int)
    requires b.Valid() && n <= |b.baps|
  {
    forall k: nat :: k < n && First(b, k) ==>
      Coupled(c, band, bits, start, Total(b), |Order(b, k)| + b.endmant[k], b.cplstrtmant, b.Cplendmant(), b.cplbndstrc)
  }

  lemma OneMoreChannel(now: seq<real>, was: seq<real>, lfeOut: bool, b: Block, n: nat, bits: seq<bool>, start: int)
    requires b.Valid() && n < |b.baps| && |was| == 3072 && ChannelsDone(was, lfeOut, b, n, bits, start)
    requires SameOutside(now, was, Base(lfeOut, n), Base(lfeOut, n) + 256)
    requires ChannelDone(now[Base(lfeOut, n)..Base(lfeOut, n) + 256], b, n, bits, start)
    ensures ChannelsDone(now, lfeOut, b, n + 1, bits, start)
  {
    hide ChannelDone;
    forall k: nat | k < n
      ensures ChannelDone(now[Base(lfeOut, k)..Base(lfeOut, k) + 256], b, k, bits, start)
    {
      Apart(now, was, Base(lfeOut, n), Base(lfeOut, n) + 256, Base(lfeOut, k), Base(lfeOut, k) + 256);
    }
  }

  lemma Apart(now: seq<real>, was: seq<real>, from: nat, to: nat, lo: nat, hi: nat)
    requires SameOutside(now, was, from, to) && lo <= hi <= |was| && (hi <= from || to <= lo)
    ensures |now| == |was| && now[lo..hi] == was[lo..hi]
  {
  }

  lemma OneMoreCoupling(c: seq<real>, band: seq<int>, c0: seq<real>, band0: seq<int>, b: Block, n: nat, bits: seq<bool>, start: int)
    requires b.Valid() && n < |b.baps| && CouplingRange(c0, band0, b, n, bits, start)
    requires CouplingDone(c, band, c0, band0, b, n, bits, start)
    ensures CouplingRange(c, band, b, n + 1, bits, start)
  {
    hide Coupled, Total, Order;
    if First(b, n) {
      assert forall k: nat :: k < n ==> !First(b, k);
    }
  }

  lemma BlockBegins(b: Block, samples: seq<real>, lfeOut: bool, c: seq<real>, band: seq<int>, h: Held, position: int, bits: seq<bool>)
    requires b.Valid() && |samples| == 3072 && Holds(h, bits, position, []) && position >= 0
    ensures ChannelsDone(samples, lfeOut, b, 0, bits, position) && CouplingRange(c, band, b, 0, bits, position)
    ensures Cursor(h, position, bits, position, Order(b, 0))
  {
  }

  /** The loop of a52_block over the full-bandwidth channels. */
  method FullBandwidthChannels(state: A52.Reader, samples: array<real>, b: Block, lfeOut: bool, quant: QuantizerSet,
                               cplcoeff: array<real>, band: array<int>, ghost start: int)
    requires b.Valid() && samples.Length == 3072 && cplcoeff.Length == band.Length == 256 && samples != cplcoeff
    requires quant.q1 !in {samples, cplcoeff} && quant.q2 !in {samples, cplcoeff}
    requires state.Valid() && quant.Valid() && start + Offset(Total(b), |Total(b)|) < |state.All()|
    requires Holds(quant.Contents(), state.All(), start, []) && 0 <= start == state.Position()
    modifies state, samples, cplcoeff, band, quant`q1_ptr, quant`q2_ptr, quant`q4_ptr, quant`q4, quant.q1, quant.q2
    ensures state.Valid() && quant.Valid()
    ensures Cursor(quant.Contents(), state.Position(), state.All(), start, Order(b, |b.baps|))
    ensures ChannelsDone(samples[..], lfeOut, b, |b.baps|, state.All(), start)
    ensures CouplingRange(cplcoeff[..], band[..], b, |b.baps|, state.All(), start)
  {
    hide Offset, Holds, Bap, Baps, ChannelsDone, CouplingRange, CouplingDone, ChannelDone, Cursor, SameOutside, D.Payload, D.WordBits, Val, Pow2, Order, Total, First;
    ghost var bits := state.All();
    var done_cpl, i := false, 0;
    BlockBegins(b, samples[..], lfeOut, cplcoeff[..], band[..], quant.Contents(), start, bits);
    while i < |b.baps|
      invariant i <= |b.baps| && state.Valid() && quant.Valid()
      invariant done_cpl <==> exists j :: 0 <= j < i && b.coupled[j]
      invariant Cursor(quant.Contents(), state.Position(), bits, start, Order(b, i))
      invariant ChannelsDone(samples[..], lfeOut, b, i, bits, start)
      invariant CouplingRange(cplcoeff[..], band[..], b, i, bits, start)
    {
      ghost var was, c0, band0 := samples[..], cplcoeff[..], band[..];
      ChannelMantissas(state, samples, Base(lfeOut, i), b, i, done_cpl, quant, cplcoeff, band, start);
      OneMoreChannel(samples[..], was, lfeOut, b, i, bits, start);
      OneMoreCoupling(cplcoeff[..], band[..], c0, band0, b, i, bits, start);
      done_cpl := done_cpl || b.coupled[i];
      i := i + 1;
    }
  }

  /** What the block leaves: each channel, the coupling range and the LFE channel, out of one reading order. */
  ghost predicate BlockDone(samples: seq<real>, c: seq<real>, band: seq<int>, b: Block, lfeOut: bool, bits: seq<bool>, start: int)
    requires b.Valid() && |samples| == 3072
  {
    && ChannelsDone(samples, lfeOut, b, |b.baps|, bits, start)
    && CouplingRange(c, band, b, |b.baps|, bits, start)
    && samples[LfeBase(lfeOut)..LfeBase(lfeOut) + |b.lfe|] == MantissasFrom(bits, start, Total(b), |Order(b, |b.baps|)|, |b.lfe|)
    && (lfeOut && b.lfe != [] ==> samples[|b.lfe|..256] == NoBins(256 - |b.lfe|))
  }

  /**
   The mantissa part of a52_block.  Every mantissa is the digit of the code word that the
   closed form names, in whichever channel that word was read, and the bits read are those
   of TotalBits.
   */
  method BlockMantissas(state: A52.Reader, samples: array<real>, b: Block, lfeOut: bool, cplcoeff: array<real>, band: array<int>)
    requires b.Valid() && samples.Length == 3072 && cplcoeff.Length == band.Length == 256 && samples != cplcoeff
    requires state.Valid() && 0 <= state.Position() && state.Position() + Offset(Total(b), |Total(b)|) < |state.All()|
    modifies state, samples, cplcoeff, band
    ensures state.Valid() && state.Position() == old(state.Position()) + Offset(Total(b), |Total(b)|)
    ensures BlockDone(samples[..], cplcoeff[..], band[..], b, lfeOut, state.All(), old(state.Position()))
  {
    hide Offset, Holds, Mantissa, MantissasFrom, Bap, Baps, ChannelsDone, CouplingRange, D.Payload, D.WordBits, Val, Pow2, Order, First;
    ghost var start, bits := state.Position(), state.All();
    var quant := new QuantizerSet();
    FullBandwidthChannels(state, samples, b, lfeOut, quant, cplcoeff, band, start);
    ghost var was, seen := samples[..], Order(b, |b.baps|);
    assert b.lfe[0..|b.lfe|] == b.lfe && seen + b.lfe + [] == Total(b);
    var at := LfeBase(lfeOut);
    RangeOfBlock(state, samples, at, b.lfe, quant, |b.lfe|, start, seen, []);
    ghost var read := samples[..];
    ChannelsKept(read, was, lfeOut, b, bits, start, at, at + |b.lfe|);
    if lfeOut && b.lfe != [] {
      ZeroFrom(samples, 0, |b.lfe|);
      assert samples[..|b.lfe|] == read[..|b.lfe|];
      ChannelsKept(samples[..], read, lfeOut, b, bits, start, 0, 256);
    }
  }

  lemma ChannelsKept(now: seq<real>, was: seq<real>, lfeOut: bool, b: Block, bits: seq<bool>, start: int, from: nat, to: nat)
    requires b.Valid() && |was| == 3072 && ChannelsDone(was, lfeOut, b, |b.baps|, bits, start)
    requires SameOutside(now, was, from, to) && (if lfeOut then to <= 256 else 1280 <= from)
    ensures |now| == 3072 && ChannelsDone(now, lfeOut, b, |b.baps|, bits, start)
  {
    hide ChannelDone;
    forall k: nat | k < |b.baps|
      ensures ChannelDone(now[Base(lfeOut, k)..Base(lfeOut, k) + 256], b, k, bits, start)
    {
      Apart(now, was, from, to, Base(lfeOut, k), Base(lfeOut, k) + 256);
    }
  }
}
