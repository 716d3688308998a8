/**
 Writing the mantissas of a block (section 7.3 of ATSC A/52), against the reader of
 Mantissas.dfy.

 The entries of a shared class are numbered, and the word of a group is written where its
 first entry stands, from the digits of the entries that carry the group's numbers.  The
 levels are given as even steps upwards from the lowest one.  Whatever is written comes
 out of the reader as it was.
 */
module MantissaWriter {
  import opened Powers
  import opened Bits
  import opened Mantissas
  import A52 = A52Reader

  // ------------------------------------------------------------------ levels and digits

  /** Level d of L: the lowest is -(L - 1) * 32768 / L, neighbours are 65536 / L apart. */
  function EvenLevel(L: nat, d: nat): real
    requires L > 0
  {
    if d == 0 then -((L - 1) as real * 32768.0 / L as real) else EvenLevel(L, d - 1) + 65536.0 / L as real
  }

  /** How many levels a class has. */
  function Levels(b: int): nat {
    if b == -1 then 3 else if b == -2 then 5 else if b == -3 then 11 else if b == 3 then 7 else if b == 4 then 15 else 1
  }

  /** What can be sent as a mantissa of a class: the number of a level, or a word of b bits. */
  predicate Sendable(b: int, x: int) {
    Bap(b) && if b >= 5 then -(Pow2(b - 1) as int) <= x < Pow2(b - 1) else 0 <= x < Levels(b)
  }

  /** The coefficient that is meant. */
  function Meant(b: int, x: int): real
    requires Sendable(b, x)
  {
    if b == 0 then 0.0 else if b >= 5 then (x * Pow2(16 - b)) as real else EvenLevel(Levels(b), x)
  }

  lemma {:induction false} LevelIsEven(L: nat, d: nat)
    requires L in {3, 5, 7, 11, 15}
    ensures Level(d, L) == EvenLevel(L, d)
  {
    if d > 0 {
      LevelIsEven(L, d - 1);
      LevelStep(L, d);
    } else {
      LowestLevel(L);
    }
  }

  lemma LevelStep(L: nat, d: nat)
    requires L in {3, 5, 7, 11, 15} && d > 0
    ensures Level(d, L) == Level(d - 1, L) + 65536.0 / L as real
  {
  }

  lemma LowestLevel(L: nat)
    requires L in {3, 5, 7, 11, 15}
    ensures Level(0, L) == -((L - 1) as real * 32768.0 / L as real)
  {
  }

  /** A word of three digits gives their levels back, the first digit first. */
  lemma ThreeOfThree(a: nat, b: nat, c: nat)
    requires a < 3 && b < 3 && c < 3
    ensures var w := 9 * a + 3 * b + c;
            && w < 32 && Dequantised(-1, w, 0) == EvenLevel(3, a)
            && Dequantised(-1, w, 1) == EvenLevel(3, b) && Dequantised(-1, w, 2) == EvenLevel(3, c)
  {
    hide Level, EvenLevel;
    LevelIsEven(3, a);
    LevelIsEven(3, b);
    LevelIsEven(3, c);
    Digits(3, a, b, c);
  }

  lemma ThreeOfFive(a: nat, b: nat, c: nat)
    requires a < 5 && b < 5 && c < 5
    ensures var w := 25 * a + 5 * b + c;
            && w < 128 && Dequantised(-2, w, 0) == EvenLevel(5, a)
            && Dequantised(-2, w, 1) == EvenLevel(5, b) && Dequantised(-2, w, 2) == EvenLevel(5, c)
  {
    hide Level, EvenLevel;
    LevelIsEven(5, a);
    LevelIsEven(5, b);
    LevelIsEven(5, c);
    Digits(5, a, b, c);
  }

  lemma Digits(L: nat, a: nat, b: nat, c: nat)
    requires (L == 3 || L == 5) && a < L && b < L && c < L
    ensures var w := L * L * a + L * b + c; w < L * L * L && w / (L * L) == a && w / L % L == b && w % L == c
  {
    if L == 3 {
      assert (9 * a + 3 * b + c) / 3 == 3 * a + b;
    } else {
      assert (25 * a + 5 * b + c) / 5 == 5 * a + b;
    }
  }

  lemma TwoOfEleven(a: nat, b: nat)
    requires a < 11 && b < 11
    ensures var w := 11 * a + b; w < 128 && Dequantised(-3, w, 0) == EvenLevel(11, a) && Dequantised(-3, w, 1) == EvenLevel(11, b)
  {
    hide Level, EvenLevel;
    LevelIsEven(11, a);
    LevelIsEven(11, b);
  }

  lemma OneDigit(a: nat)
    ensures a < 7 ==> Dequantised(3, a, 0) == EvenLevel(7, a)
    ensures a < 15 ==> Dequantised(4, a, 0) == EvenLevel(15, a)
  {
    hide Level, EvenLevel;
    LevelIsEven(7, a);
    LevelIsEven(15, a);
  }

  // ------------------------------------------------------------------ the writer

  predicate AllSendable(baps: seq<int>, v: seq<int>) {
    |v| == |baps| && forall i :: 0 <= i < |baps| ==> Sendable(baps[i], v[i])
  }

  lemma SendableBaps(baps: seq<int>, v: seq<int>)
    requires AllSendable(baps, v)
    ensures Baps(baps)
  {
    hide Bap, Levels, Pow2;
  }

  /** What entry number m of class c carries; the last group is filled up with zeros. */
  function Carried(baps: seq<int>, v: seq<int>, n: nat, c: int, m: nat): int
    requires n <= |baps| == |v|
  {
    if n == 0 then 0
    else if baps[n - 1] == c && Count(baps, n - 1, c) == m then v[n - 1]
    else Carried(baps, v, n - 1, c, m)
  }

  /** The word that is written where entry j stands, if it leads a group. */
  function GroupWord(baps: seq<int>, v: seq<int>, j: nat): int
    requires j < |baps| == |v|
  {
    var b, n, m := baps[j], |baps|, Count(baps, j, baps[j]);
    if b == -1 then 9 * Carried(baps, v, n, b, m) + 3 * Carried(baps, v, n, b, m + 1) + Carried(baps, v, n, b, m + 2)
    else if b == -2 then 25 * Carried(baps, v, n, b, m) + 5 * Carried(baps, v, n, b, m + 1) + Carried(baps, v, n, b, m + 2)
    else if b == -3 then 11 * Carried(baps, v, n, b, m) + Carried(baps, v, n, b, m + 1)
    else v[j]
  }

  /** Entries share a word by threes in classes -1 and -2, by twos in class -3. */
  predicate Begins(baps: seq<int>, j: nat)
    requires j < |baps|
  {
    var m := Count(baps, j, baps[j]);
    if baps[j] == -1 || baps[j] == -2 then m % 3 == 0 else if baps[j] == -3 then m % 2 == 0 else true
  }

  /** The bits written for entry j. */
  function EntryBits(baps: seq<int>, v: seq<int>, j: nat): seq<bool>
    requires AllSendable(baps, v) && j < |baps|
  {
    var b := baps[j];
    if !Begins(baps, j) || b == 0 then []
    else if b >= 5 then BitsOf(Wrapped(v[j], b), b)
    else BitsOf(NonNegative(GroupWord(baps, v, j)), if b == -1 then 5 else if b < 0 then 7 else b)
  }

  /** Two's complement in b bits. */
  function Wrapped(x: int, b: nat): nat
    requires b >= 1 && -(Pow2(b - 1) as int) <= x
  {
    if x < 0 then Pow2(b) + x else x
  }

  function NonNegative(x: int): nat { if x < 0 then 0 else x }

  function Written(baps: seq<int>, v: seq<int>, n: nat): seq<bool>
    requires AllSendable(baps, v) && n <= |baps|
  {
    if n == 0 then [] else Written(baps, v, n - 1) + EntryBits(baps, v, n - 1)
  }

  // ------------------------------------------------------------------ what was written where

  lemma EntryIsWide(baps: seq<int>, v: seq<int>, j: nat)
    requires AllSendable(baps, v) && j < |baps|
    ensures Baps(baps) && |EntryBits(baps, v, j)| == if Leads(baps, j) then CodeBits(baps[j]) else 0
  {
    hide Count, GroupWord, BitsOf, Pow2;
    SendableBaps(baps, v);
    assert Sendable(baps[j], v[j]);
  }

  lemma {:induction false} WrittenToOffset(baps: seq<int>, v: seq<int>, n: nat)
    requires AllSendable(baps, v) && n <= |baps|
    ensures Baps(baps) && |Written(baps, v, n)| == Offset(baps, n)
  {
    hide EntryBits, Leads;
    SendableBaps(baps, v);
    if n > 0 {
      WrittenToOffset(baps, v, n - 1);
      EntryIsWide(baps, v, n - 1);
    }
  }

  lemma WrittenStep(baps: seq<int>, v: seq<int>, j: nat)
    requires AllSendable(baps, v) && j < |baps|
    ensures Written(baps, v, j + 1) == Written(baps, v, j) + EntryBits(baps, v, j)
  {
    hide EntryBits;
  }

  lemma {:induction false} WrittenExtends(baps: seq<int>, v: seq<int>, j: nat, n: nat)
    requires AllSendable(baps, v) && j < n <= |baps|
    ensures var w := Written(baps, v, n);
            Written(baps, v, j + 1) <= w
    decreases n
  {
    hide EntryBits;
    if j + 1 < n {
      WrittenExtends(baps, v, j, n - 1);
    }
  }

  /** These bits hold what the writer wrote, from bit start on. */
  ghost predicate Sent(bits: seq<bool>, start: int, baps: seq<int>, v: seq<int>) {
    && AllSendable(baps, v) && 0 <= start && start + |Written(baps, v, |baps|)| <= |bits|
    && bits[start..start + |Written(baps, v, |baps|)|] == Written(baps, v, |baps|)
  }

  /** They do if the written bits stand there, whatever comes before and after them. */
  lemma WrittenIsSent(before: seq<bool>, baps: seq<int>, v: seq<int>, after: seq<bool>)
    requires AllSendable(baps, v)
    ensures Sent(before + Written(baps, v, |baps|) + after, |before|, baps, v)
  {
    var w := Written(baps, v, |baps|);
    assert (before + w + after)[|before|..|before| + |w|] == w;
  }

  /** So the field where entry j stands is what was written for it. */
  lemma FieldWritten(bits: seq<bool>, start: int, baps: seq<int>, v: seq<int>, j: nat)
    requires Sent(bits, start, baps, v) && j < |baps|
    ensures Baps(baps) && (Leads(baps, j) ==> Field(bits, start + Offset(baps, j), CodeBits(baps[j])) == EntryBits(baps, v, j))
  {
    hide Written, EntryBits, Leads, Offset, AllSendable, Baps, CodeBits;
    SendableBaps(baps, v);
    EntryIsWide(baps, v, j);
    WrittenToOffset(baps, v, j);
    WrittenExtends(baps, v, j, |baps|);
    var w, o, e := Written(baps, v, |baps|), Offset(baps, j), EntryBits(baps, v, j);
    WrittenStep(baps, v, j);
    if Leads(baps, j) {
      SliceIs(bits, start, w, Written(baps, v, j), e);
    }
  }

  lemma SliceIs(bits: seq<bool>, start: int, w: seq<bool>, before: seq<bool>, e: seq<bool>)
    requires 0 <= start && start + |w| <= |bits| && bits[start..start + |w|] == w && before + e <= w
    ensures bits[start + |before|..start + |before| + |e|] == e
  {
    assert forall i :: 0 <= i < |w| ==> bits[start + i] == w[i];
    assert forall i :: 0 <= i < |e| ==> w[|before| + i] == (before + e)[|before| + i] == e[i];
  }

  // ------------------------------------------------------------------ who leads whom

  lemma {:induction false} CountMonotone(baps: seq<int>, j: nat, n: nat, c: int)
    requires j <= n <= |baps|
    ensures Count(baps, j, c) <= Count(baps, n, c)
    decreases n
  {
    if j < n {
      CountMonotone(baps, j, n - 1, c);
    }
  }

  /** The number of an entry finds it. */
  lemma {:induction false} CarriedIs(baps: seq<int>, v: seq<int>, n: nat, k: nat)
    requires k < n <= |baps| == |v|
    ensures Carried(baps, v, n, baps[k], Count(baps, k, baps[k])) == v[k]
    decreases n
  {
    if k < n - 1 {
      CarriedIs(baps, v, n - 1, k);
      CountMonotone(baps, k + 1, n - 1, baps[k]);
    }
  }

  lemma {:induction false} CarriedInRange(baps: seq<int>, v: seq<int>, n: nat, c: int, m: nat)
    requires AllSendable(baps, v) && n <= |baps| && -3 <= c < 0
    ensures 0 <= Carried(baps, v, n, c, m) < Levels(c)
  {
    hide Count, Pow2;
    if n > 0 {
      CarriedInRange(baps, v, n - 1, c, m);
      assert Sendable(baps[n - 1], v[n - 1]);
    }
  }

  /** The leader of the entries before n carries the group's first number. */
  lemma {:induction false} LeaderIs(baps: seq<int>, n: nat, c: int)
    requires n <= |baps| && Count(baps, n, c) > 0
    ensures var l, g := Leader(baps, n, c), GroupSize(c);
            l < n && baps[l] == c && Leads(baps, l) && Count(baps, l, c) == (Count(baps, n, c) - 1) / g * g
  {
    hide Leads;
    var g := GroupSize(c);
    if baps[n - 1] == c {
      var m := Count(baps, n - 1, c);
      LeadsIff(baps, n - 1);
      if m % g == 0 {
        assert m == m / g * g;
      } else {
        LeaderIs(baps, n - 1, c);
        SameGroup(m, g);
      }
    } else {
      LeaderIs(baps, n - 1, c);
    }
  }

  lemma LeadsIff(baps: seq<int>, j: nat)
    requires j < |baps|
    ensures Leads(baps, j) <==> Count(baps, j, baps[j]) % GroupSize(baps[j]) == 0
  {
  }

  lemma SameGroup(m: nat, g: nat)
    requires g > 0 && m % g != 0
    ensures m > 0 && (m - 1) / g == m / g
  {
    DivUnique(m - 1, g, m / g, m % g - 1);
  }

  // ------------------------------------------------------------------ reading what was written

  lemma ValOfSmall(x: nat, n: nat)
    requires x < Pow2(n)
    ensures Val(BitsOf(x, n)) == x
  {
    hide Pow2, Val, BitsOf;
    ValOfBits(x, n);
    DivUnique(x, Pow2(n), 0, x);
  }

  lemma SignedOfBits(x: int, b: nat)
    requires b >= 1 && -(Pow2(b - 1) as int) <= x < Pow2(b - 1)
    ensures A52.SignedVal(BitsOf(Wrapped(x, b), b)) == x
  {
    hide Pow2, Val, BitsOf;
    assert Pow2(b) == 2 * Pow2(b - 1) by { Pow2Add(1, b - 1); SmallPowers(); }
    var w := Wrapped(x, b);
    ValOfSmall(w, b);
    TopBit(BitsOf(w, b));
  }

  /** The first bit tells the upper half of the numbers. */
  lemma TopBit(s: seq<bool>)
    requires s != []
    ensures s[0] <==> Val(s) >= Pow2(|s| - 1)
  {
    hide Pow2, Val;
    ValSplit(s, |s| - 1);
    ValBound(s[1..]);
    A52.OneBit(s[0]);
    var p, q := Pow2(|s| - 1), Val(s) / Pow2(|s| - 1);
    assert s[..|s| - (|s| - 1)] == [s[0]];
    assert Val(s) == q * p + Val(s) % p;
  }

  lemma GroupWordFits(baps: seq<int>, v: seq<int>, j: nat)
    requires AllSendable(baps, v) && j < |baps| && -3 <= baps[j] <= 4
    ensures 0 <= GroupWord(baps, v, j)
    ensures GroupWord(baps, v, j) < if baps[j] == -1 then 32 else if baps[j] < 0 then 128 else if baps[j] == 3 then 8 else if baps[j] == 4 then 16 else 1
  {
    hide Carried, Count, Pow2;
    var m := Count(baps, j, baps[j]);
    assert Sendable(baps[j], v[j]);
    if baps[j] < 0 {
      CarriedInRange(baps, v, |baps|, baps[j], m);
      CarriedInRange(baps, v, |baps|, baps[j], m + 1);
      CarriedInRange(baps, v, |baps|, baps[j], m + 2);
    }
  }

  /** The code word that a leading entry's bits are read as. */
  lemma WordRead(bits: seq<bool>, start: int, baps: seq<int>, v: seq<int>, j: nat)
    requires Sent(bits, start, baps, v) && j < |baps| && Leads(baps, j) && -3 <= baps[j] <= 4 && baps[j] != 0
    ensures Baps(baps) && Val(Field(bits, start + Offset(baps, j), CodeBits(baps[j]))) == GroupWord(baps, v, j)
  {
    hide Sent, GroupWord, Count, Val, BitsOf, Offset, Field, Bap;
    SendableList(bits, start, baps, v);
    FieldWritten(bits, start, baps, v, j);
    GroupWordFits(baps, v, j);
    SmallPowers();
    assert Pow2(7) == 128 by { Pow2Add(6, 1); }
    EntryIsWord(baps, v, j);
    ValOfSmall(GroupWord(baps, v, j), CodeBits(baps[j]));
  }

  lemma EntryIsWord(baps: seq<int>, v: seq<int>, j: nat)
    requires AllSendable(baps, v) && j < |baps| && Leads(baps, j) && -3 <= baps[j] <= 4 && baps[j] != 0
    requires GroupWord(baps, v, j) >= 0
    ensures Bap(baps[j]) && EntryBits(baps, v, j) == BitsOf(GroupWord(baps, v, j), CodeBits(baps[j]))
  {
    hide GroupWord, Count, BitsOf, Pow2;
    assert Sendable(baps[j], v[j]);
  }

  /** Every mantissa that was written is read as it was meant. */
  lemma MantissaRead(bits: seq<bool>, start: int, baps: seq<int>, v: seq<int>, k: nat)
    requires Sent(bits, start, baps, v) && k < |baps|
    ensures Baps(baps) && Sendable(baps[k], v[k]) && Mantissa(bits, start, baps, k) == Meant(baps[k], v[k])
  {
    hide Written, Count, Val, Pow2, Offset, Field, Leader, Dequantised, EvenLevel, A52.SignedVal;
    SendableBaps(baps, v);
    assert Sendable(baps[k], v[k]);
    var b := baps[k];
    if b >= 5 {
      FieldWritten(bits, start, baps, v, k);
      SignedOfBits(v[k], b);
    } else if b == 0 {
      NothingRead(LastCode(bits, start, baps, k + 1, 0), Count(baps, k, 0) % GroupSize(0));
    } else if b > 0 {
      LeaderItself(baps, k);
      WordRead(bits, start, baps, v, k);
      OneDigit(v[k]);
    } else {
      SharedRead(bits, start, baps, v, k);
    }
  }

  lemma NothingRead(code: nat, r: nat)
    ensures Dequantised(0, code, r) == 0.0
  {
  }

  lemma LeaderItself(baps: seq<int>, k: nat)
    requires k < |baps| && baps[k] > 0
    ensures Leads(baps, k) && Leader(baps, k + 1, baps[k]) == k && Count(baps, k, baps[k]) % GroupSize(baps[k]) == 0
  {
  }

  lemma SharedRead(bits: seq<bool>, start: int, baps: seq<int>, v: seq<int>, k: nat)
    requires Sent(bits, start, baps, v) && k < |baps| && -3 <= baps[k] < 0
    ensures Baps(baps) && Mantissa(bits, start, baps, k) == EvenLevel(Levels(baps[k]), NonNegative(v[k]))
  {
    hide Written, Count, Val, Pow2, Offset, Field, Leader, Leads, Dequantised, EvenLevel, A52.SignedVal, Carried;
    SendableBaps(baps, v);
    assert Sendable(baps[k], v[k]);
    var b, m, g := baps[k], Count(baps, k, baps[k]), GroupSize(baps[k]);
    CountNext(baps, k);
    LeaderIs(baps, k + 1, b);
    var l := Leader(baps, k + 1, b);
    WordRead(bits, start, baps, v, l);
    CarriedIs(baps, v, |baps|, k);
    var first := m / g * g;
    assert m == first + m % g;
    var x0, x1, x2 := Carried(baps, v, |baps|, b, first), Carried(baps, v, |baps|, b, first + 1), Carried(baps, v, |baps|, b, first + 2);
    CarriedInRange(baps, v, |baps|, b, first);
    CarriedInRange(baps, v, |baps|, b, first + 1);
    CarriedInRange(baps, v, |baps|, b, first + 2);
    if b == -3 {
      TwoOfEleven(x0, x1);
    } else if b == -2 {
      ThreeOfFive(x0, x1, x2);
    } else {
      ThreeOfThree(x0, x1, x2);
    }
  }

  lemma CountNext(baps: seq<int>, k: nat)
    requires k < |baps|
    ensures Count(baps, k + 1, baps[k]) == Count(baps, k, baps[k]) + 1
  {
  }

  /** Coefficients are the ones that were meant. */
  ghost predicate Returned(out: seq<real>, baps: seq<int>, v: seq<int>) {
    |out| == |baps| == |v| && forall j: nat :: j < |baps| ==> Sendable(baps[j], v[j]) && out[j] == Meant(baps[j], v[j])
  }

  /** The same for a stretch of the list. */
  lemma StretchRead(bits: seq<bool>, start: int, baps: seq<int>, v: seq<int>, from: nat, n: nat)
    requires Sent(bits, start, baps, v) && from + n <= |baps|
    ensures Baps(baps) && |v| == |baps| && Returned(MantissasFrom(bits, start, baps, from, n), baps[from..from + n], v[from..from + n])
  {
    hide Sent, Mantissa, Sendable, Meant;
    SendableList(bits, start, baps, v);
    SendableBaps(baps, v);
    forall j: nat | j < n
      ensures Sendable(baps[from + j], v[from + j]) && MantissasFrom(bits, start, baps, from, n)[j] == Meant(baps[from + j], v[from + j])
    {
      MantissaRead(bits, start, baps, v, from + j);
    }
  }

  lemma SendableList(bits: seq<bool>, start: int, baps: seq<int>, v: seq<int>)
    requires Sent(bits, start, baps, v)
    ensures AllSendable(baps, v)
  {
  }

  // ------------------------------------------------------------------ a block

  /** Bin j of channel i comes at this place of the reading order. */
  lemma PlaceOfBin(b: Block, i: nat)
    requires b.Valid() && i < |b.baps|
    ensures var k := |Order(b, i)|;
            && k + b.endmant[i] <= |Total(b)|
            && Total(b)[k..k + b.endmant[i]] == b.baps[i][0..b.endmant[i]]
    ensures First(b, i) ==> var k := |Order(b, i)| + b.endmant[i];
            && b.Cplendmant() <= |b.cplbap| && k + 12 * b.n <= |Total(b)|
            && Total(b)[k..k + 12 * b.n] == b.cplbap[b.cplstrtmant..b.Cplendmant()]
  {
    hide Total, Order, Baps, Bap, Pow2, First;
    var tail, rest := Around(b, i);
    if First(b, i) {
      CoupledInside(b, i);
    }
    Shape(Total(b), Order(b, i), b.baps[i][0..b.endmant[i]], tail, rest);
  }

  /** The reading order: the channels one after the other, the coupling range behind the first
      coupled one, and the LFE channel at the end. */
  lemma OrderOfBlock(b: Block, i: nat)
    requires b.Valid() && i < |b.baps|
    ensures |Order(b, 0)| == 0 && |Total(b)| == |Order(b, |b.baps|)| + |b.lfe|
    ensures |Order(b, i + 1)| == |Order(b, i)| + b.endmant[i] + if First(b, i) then 12 * b.n else 0
    ensures First(b, i) <==> b.coupled[i] && true !in b.coupled[..i]
  {
    hide Order, Baps, Bap, Pow2;
    NothingBefore(b);
    var tail, rest := Around(b, i);
    if First(b, i) {
      CoupledInside(b, i);
    }
  }

  lemma NothingBefore(b: Block)
    requires b.Valid()
    ensures Order(b, 0) == []
  {
  }

  lemma CoupledInside(b: Block, i: nat)
    requires b.Valid() && i < |b.baps| && First(b, i)
    ensures b.Cplendmant() <= |b.cplbap|
  {
  }

  lemma Shape(total: seq<int>, a: seq<int>, own: seq<int>, tail: seq<int>, rest: seq<int>)
    requires total == a + own + (tail + rest)
    ensures |a| + |own| + |tail| <= |total|
    ensures total[|a|..|a| + |own|] == own && total[|a| + |own|..|a| + |own| + |tail|] == tail
  {
  }

  /** Channel i has the mantissas that were written for it, at their places in the order. */
  ghost predicate ChannelReturned(samples: seq<real>, lfeOut: bool, b: Block, i: nat, v: seq<int>)
    requires b.Valid() && i < |b.baps| && |samples| == 3072
  {
    var k, n := |Order(b, i)|, Kept(b, i);
    k + n <= |v| && Returned(samples[Base(lfeOut, i)..Base(lfeOut, i) + n], b.baps[i][..n], v[k..k + n])
  }

  /** So has the coupling channel, which is read after channel i. */
  ghost predicate CouplingReturned(c: seq<real>, b: Block, i: nat, v: seq<int>)
    requires b.Valid() && i < |b.baps|
  {
    var k, from, to := |Order(b, i)| + b.endmant[i], b.cplstrtmant, b.Cplendmant();
    to <= |c| && to <= |b.cplbap| && k + 12 * b.n <= |v| && Returned(c[from..to], b.cplbap[from..to], v[k..k + 12 * b.n])
  }

  /** The levels that an encoder writes in reading order come out of BlockMantissas as they
      were, in every channel. */
  lemma BlockRead(samples: seq<real>, c: seq<real>, band: seq<int>, b: Block, lfeOut: bool, bits: seq<bool>, start: int, v: seq<int>)
    requires b.Valid() && |samples| == 3072 && BlockDone(samples, c, band, b, lfeOut, bits, start) && Sent(bits, start, Total(b), v)
    ensures forall i: nat :: i < |b.baps| ==> ChannelReturned(samples, lfeOut, b, i, v)
    ensures forall i: nat :: i < |b.baps| && First(b, i) ==> CouplingReturned(c, b, i, v)
    ensures |v| >= |b.lfe| && Returned(samples[LfeBase(lfeOut)..LfeBase(lfeOut) + |b.lfe|], b.lfe, v[|v| - |b.lfe|..])
  {
    hide Sent, Order, MantissasFrom, Baps, Bap, First, ChannelReturned, CouplingReturned, Coupled, ChannelDone, Pow2, Returned;
    forall i: nat | i < |b.baps|
      ensures ChannelReturned(samples, lfeOut, b, i, v)
      ensures First(b, i) ==> CouplingReturned(c, b, i, v)
    {
      ChannelRead(samples, lfeOut, b, i, bits, start, v);
      if First(b, i) {
        CouplingRead(c, band, b, i, bits, start, v);
      }
    }
    LengthOf(bits, start, Total(b), v);
    StretchRead(bits, start, Total(b), v, |Order(b, |b.baps|)|, |b.lfe|);
    assert Total(b)[|Order(b, |b.baps|)|..|Order(b, |b.baps|)| + |b.lfe|] == b.lfe;
    assert v[|Order(b, |b.baps|)|..|Order(b, |b.baps|)| + |b.lfe|] == v[|v| - |b.lfe|..];
  }

  lemma LengthOf(bits: seq<bool>, start: int, baps: seq<int>, v: seq<int>)
    requires Sent(bits, start, baps, v)
    ensures |v| == |baps|
  {
  }

  lemma ChannelRead(samples: seq<real>, lfeOut: bool, b: Block, i: nat, bits: seq<bool>, start: int, v: seq<int>)
    requires b.Valid() && i < |b.baps| && |samples| == 3072 && Sent(bits, start, Total(b), v)
    requires ChannelDone(samples[Base(lfeOut, i)..Base(lfeOut, i) + 256], b, i, bits, start)
    ensures ChannelReturned(samples, lfeOut, b, i, v)
  {
    hide Sent, Order, Total, MantissasFrom, Baps, Bap, First, Pow2, Returned;
    var k, n, at := |Order(b, i)|, Kept(b, i), Base(lfeOut, i);
    PlaceOfBin(b, i);
    StretchRead(bits, start, Total(b), v, k, n);
    SliceOfSlices(Total(b), k, b.endmant[i], n);
    assert samples[at..at + 256][..n] == samples[at..at + n];
    assert b.baps[i][0..b.endmant[i]][..n] == b.baps[i][..n];
  }

  lemma SliceOfSlices(s: seq<int>, k: nat, m: nat, n: nat)
    requires n <= m && k + m <= |s|
    ensures s[k..k + m][..n] == s[k..k + n]
  {
  }

  lemma CouplingRead(c: seq<real>, band: seq<int>, b: Block, i: nat, bits: seq<bool>, start: int, v: seq<int>)
    requires b.Valid() && i < |b.baps| && First(b, i) && Sent(bits, start, Total(b), v)
    requires Coupled(c, band, bits, start, Total(b), |Order(b, i)| + b.endmant[i], b.cplstrtmant, b.Cplendmant(), b.cplbndstrc)
    ensures CouplingReturned(c, b, i, v)
  {
    hide Sent, Order, Total, MantissasFrom, Baps, Bap, First, Pow2, Returned, BinBand;
    var k := |Order(b, i)| + b.endmant[i];
    PlaceOfBin(b, i);
    StretchRead(bits, start, Total(b), v, k, 12 * b.n);
  }
}
