/**
 Exponent decoding of liba52 (parse_exponents and its three uses in a52_block, parse.c):
 section 7.1.3 of ATSC A/52.  Each 7-bit code holds three differences between -2 and 2;
 each resulting exponent is stored once, twice or four times.
 */
module Exponents {
  import opened Powers
  import opened Bits
  import opened Seqs
  import A52 = A52Reader
  import BA = BitAllocation
  import D = DtsReader

  // ------------------------------------------------------------------ the standard's rule

  /** The k-th difference in a code; the three reserved codes give 25, as exp_1, exp_2 and exp_3 do. */
  function Difference(code: nat, k: nat): (d: int)
    requires code < 128 && k < 3
    ensures -2 <= d <= 2 || d == 25
  {
    if code >= 125 then 25
    else if k == 0 then code / 25 - 2
    else if k == 1 then code / 5 % 5 - 2
    else code % 5 - 2
  }

  /** Code g of a run of 7-bit codes that starts at bit p. */
  function Code(bits: seq<bool>, p: nat, g: nat): (c: nat)
    requires p + 7 * g + 7 <= |bits|
    ensures c < 128
  {
    ValBound(bits[p + 7 * g..p + 7 * g + 7]);
    assert Pow2(7) == 128;
    Val(bits[p + 7 * g..p + 7 * g + 7])
  }

  /** The n-th exponent after the absolute one: all differences so far added up. */
  function Exponent(bits: seq<bool>, p: nat, absolute: int, n: nat): int
    requires p + 7 * ((n + 2) / 3) <= |bits|
  {
    if n == 0 then absolute
    else Exponent(bits, p, absolute, n - 1) + Difference(Code(bits, p, (n - 1) / 3), (n - 1) % 3)
  }

  /** How often each exponent is stored under strategies D15, D25 and D45. */
  function Copies(expstr: nat): (c: nat)
    requires 1 <= expstr <= 3
  {
    if expstr == 1 then 1 else if expstr == 2 then 2 else 4
  }

  function Repeated(v: int, c: nat): (s: seq<int>)
    ensures |s| == c
  {
    seq(c, _ => v)
  }

  /** The exponents 1 to n, each stored c times. */
  function Stored(bits: seq<bool>, p: nat, absolute: int, c: nat, n: nat): (s: seq<int>)
    requires p + 7 * ((n + 2) / 3) <= |bits|
    ensures |s| == n * c
  {
    if n == 0 then [] else Stored(bits, p, absolute, c, n - 1) + Repeated(Exponent(bits, p, absolute, n), c)
  }

  /** All of them are legal. */
  predicate Legal(bits: seq<bool>, p: nat, absolute: int, n: nat)
    requires p + 7 * ((n + 2) / 3) <= |bits|
  {
    n > 0 ==> Legal(bits, p, absolute, n - 1) && 0 <= Exponent(bits, p, absolute, n) <= 24
  }

  /** Legal is what its name says, for each exponent, and then no code is reserved. */
  lemma {:induction false} LegalIff(bits: seq<bool>, p: nat, absolute: int, n: nat)
    requires p + 7 * ((n + 2) / 3) <= |bits| && absolute >= 0
    ensures Legal(bits, p, absolute, n) <==> forall m: nat :: 1 <= m <= n ==> 0 <= Exponent(bits, p, absolute, m) <= 24
    ensures Legal(bits, p, absolute, n) ==> forall m: nat :: 1 <= m <= n ==> -2 <= Exponent(bits, p, absolute, m) - Exponent(bits, p, absolute, m - 1) <= 2
  {
    hide Code, Difference;
    if n > 0 {
      LegalIff(bits, p, absolute, n - 1);
      var before := Exponent(bits, p, absolute, n - 1);
      assert Legal(bits, p, absolute, n - 1) ==> before >= 0;
      assert before >= 0 && Exponent(bits, p, absolute, n) <= 24 ==> Exponent(bits, p, absolute, n) - before <= 2;
      assert Exponent(bits, p, absolute, n) - before >= -2;
    }
  }

  /** Where an exponent is stored. */
  lemma {:induction false} StoredAt(bits: seq<bool>, p: nat, absolute: int, c: nat, n: nat, m: nat, r: nat)
    requires p + 7 * ((n + 2) / 3) <= |bits| && m < n && r < c
    ensures m * c + r < n * c && Stored(bits, p, absolute, c, n)[m * c + r] == Exponent(bits, p, absolute, m + 1)
  {
    hide Exponent;
    GroupsFit(m, n, c);
    if m < n - 1 {
      StoredAt(bits, p, absolute, c, n - 1, m, r);
    }
  }

  /** Stored exponents lie in 0..24, and neighbours differ by at most 2; so do the absolute exponent and the first. */
  ghost predicate Smooth(s: seq<int>) {
    forall i :: 0 < i < |s| ==> -2 <= s[i] - s[i - 1] <= 2
  }

  lemma {:induction false} StoredAreSmooth(bits: seq<bool>, p: nat, absolute: int, c: nat, n: nat)
    requires p + 7 * ((n + 2) / 3) <= |bits| && absolute >= 0 && c > 0 && Legal(bits, p, absolute, n)
    ensures var s := Stored(bits, p, absolute, c, n);
            && (forall i :: 0 <= i < |s| ==> 0 <= s[i] <= 24)
            && Smooth([absolute] + s)
            && (n > 0 ==> |s| > 0 && s[|s| - 1] == Exponent(bits, p, absolute, n))
  {
    hide Exponent;
    if n == 0 {
      assert Exponent(bits, p, absolute, 0) == absolute by { LegalZero(bits, p, absolute); }
    } else {
      StoredAreSmooth(bits, p, absolute, c, n - 1);
      LegalIff(bits, p, absolute, n);
      LegalZero(bits, p, absolute);
      var s, e := Stored(bits, p, absolute, c, n - 1), Exponent(bits, p, absolute, n);
      assert Stored(bits, p, absolute, c, n) == s + Repeated(e, c);
      SmoothExtended([absolute] + s, e, c);
      Associative([absolute], s, Repeated(e, c));
    }
  }

  // ------------------------------------------------------------------ writing exponents

  /** An encoder's code for the three differences of group g. */
  function GroupCode(ex: seq<int>, g: nat): (c: nat)
    requires 3 * g + 3 < |ex| && Smooth(ex)
    ensures c < 125
    ensures forall k: nat :: k < 3 ==> Difference(c, k) == ex[3 * g + k + 1] - ex[3 * g + k]
  {
    var d0, d1, d2 := ex[3 * g + 1] - ex[3 * g], ex[3 * g + 2] - ex[3 * g + 1], ex[3 * g + 3] - ex[3 * g + 2];
    DigitsOfCode(d0 + 2, d1 + 2, d2 + 2);
    25 * (d0 + 2) + 5 * (d1 + 2) + d2 + 2
  }

  lemma DigitsOfCode(a: int, b: int, c: int)
    requires 0 <= a <= 4 && 0 <= b <= 4 && 0 <= c <= 4
    ensures var code := 25 * a + 5 * b + c; code / 25 == a && code / 5 % 5 == b && code % 5 == c
  {
  }

  /** The first n groups, seven bits each. */
  function GroupsBits(ex: seq<int>, n: nat): (b: seq<bool>)
    requires 3 * n < |ex| && Smooth(ex)
    ensures |b| == 7 * n
  {
    if n == 0 then [] else GroupsBits(ex, n - 1) + BitsOf(GroupCode(ex, n - 1), 7)
  }

  lemma {:induction false} CodeWritten(ex: seq<int>, n: nat, g: nat)
    requires 3 * n < |ex| && Smooth(ex) && g < n
    ensures Code(GroupsBits(ex, n), 0, g) == GroupCode(ex, g)
  {
    hide BitsOf, Val, GroupCode, Smooth;
    var front, last := GroupsBits(ex, n - 1), BitsOf(GroupCode(ex, n - 1), 7);
    if g < n - 1 {
      CodeWritten(ex, n - 1, g);
      assert (front + last)[7 * g..7 * g + 7] == front[7 * g..7 * g + 7];
    } else {
      JoinSplit(front, last);
      assert (front + last)[7 * g..7 * g + 7] == last;
      ValOfBits(GroupCode(ex, g), 7);
      assert Pow2(7) == 128;
    }
  }

  lemma {:induction false} ExponentWritten(ex: seq<int>, n: nat, bits: seq<bool>, m: nat)
    requires 3 * n < |ex| && Smooth(ex) && bits == GroupsBits(ex, n) && m <= 3 * n && 7 * ((m + 2) / 3) <= |bits|
    ensures Exponent(bits, 0, ex[0], m) == ex[m]
    decreases m
  {
    hide Code, Difference, GroupsBits, Smooth;
    if m > 0 {
      var g, k := (m - 1) / 3, (m - 1) % 3;
      ExponentWritten(ex, n, bits, m - 1);
      CodeWritten(ex, n, g);
      assert Difference(GroupCode(ex, g), k) == ex[3 * g + k + 1] - ex[3 * g + k];
    }
  }

  /** What was written is what is stored: every smooth list of legal exponents can be sent. */
  lemma {:induction false} SmoothIsSent(ex: seq<int>, n: nat, bits: seq<bool>, m: nat)
    requires 3 * n < |ex| && Smooth(ex) && bits == GroupsBits(ex, n) && m <= 3 * n && 7 * ((m + 2) / 3) <= |bits|
    requires forall i :: 0 <= i < |ex| ==> 0 <= ex[i] <= 24
    ensures Legal(bits, 0, ex[0], m)
    ensures Stored(bits, 0, ex[0], 1, m) == ex[1..m + 1]
    decreases m
  {
    hide Exponent, GroupsBits, Smooth;
    if m > 0 {
      SmoothIsSent(ex, n, bits, m - 1);
      ExponentWritten(ex, n, bits, m);
      assert ex[1..m + 1] == ex[1..m] + [ex[m]];
      assert Repeated(ex[m], 1) == [ex[m]];
    }
  }

  /** Exponents that a stream can send for a full-bandwidth channel: a four-bit absolute
      exponent and groups that store the rest. */
  ghost predicate Sendable(ex: seq<int>, endmant: nat)
  {
    && ChannelEnd(endmant) && |ex| == 256 && 0 <= ex[0] < 16
    && exists bits: seq<bool> ::
         SentBy(bits, ex, ChannelGroups(endmant, 1))
  }

  ghost predicate SentBy(bits: seq<bool>, ex: seq<int>, n: nat) {
    && |bits| == 7 * n && 3 * n < |ex|
    && Legal(bits, 0, ex[0], 3 * n) && Stored(bits, 0, ex[0], 1, 3 * n) == ex[1..3 * n + 1]
  }

  lemma SmoothIsSendable(ex: seq<int>, endmant: nat)
    requires |ex| == 256 && Smooth(ex) && (forall i :: 0 <= i < 256 ==> 0 <= ex[i] <= 24) && ex[0] < 16 && ChannelEnd(endmant)
    ensures Sendable(ex, endmant)
  {
    ChannelGroupsCover(endmant, 1);
    hide SentBy, Smooth, ChannelEnd, ChannelGroups;
    var n := ChannelGroups(endmant, 1);
    GroupsAreSent(ex, n);
  }

  lemma GroupsAreSent(ex: seq<int>, n: nat)
    requires 3 * n < |ex| && Smooth(ex) && forall i :: 0 <= i < |ex| ==> 0 <= ex[i] <= 24
    ensures SentBy(GroupsBits(ex, n), ex, n)
  {
    hide Legal, Stored, Smooth;
    assert (3 * n + 2) / 3 == n;
    SmoothIsSent(ex, n, GroupsBits(ex, n), 3 * n);
  }

  lemma LegalZero(bits: seq<bool>, p: nat, absolute: int)
    requires p <= |bits|
    ensures Exponent(bits, p, absolute, 0) == absolute
  {
  }

  lemma SmoothExtended(s: seq<int>, e: int, c: nat)
    requires s != [] && Smooth(s) && -2 <= e - s[|s| - 1] <= 2
    ensures Smooth(s + Repeated(e, c))
  {
  }

  // ------------------------------------------------------------------ parse_exponents

  /** One exponent: the 8-bit sum is checked, then stored as often as the strategy says. */
  method StoreExponent(expstr: nat, exponent0: nat, delta: int, dest: array<int>, at: nat) returns (failed: bool, exponent: nat)
    requires 1 <= expstr <= 3 && exponent0 <= 30 && (-2 <= delta <= 2 || delta == 25)
    requires at + Copies(expstr) <= dest.Length
    modifies dest
    ensures failed <==> !(0 <= exponent0 + delta <= 24)
    ensures failed ==> dest[..] == old(dest[..])
    ensures !failed ==> exponent == exponent0 + delta
    ensures !failed ==> dest[..] == old(dest[..at]) + Repeated(exponent, Copies(expstr)) + old(dest[at + Copies(expstr)..])
  {
    ghost var was := dest[..];
    exponent := (exponent0 + delta) % 256;
    if exponent > 24 {
      return true, exponent;
    }
    failed := false;
    var i := at;
    if expstr == 3 {
      dest[i] := exponent;
      dest[i + 1] := exponent;
      i := i + 2;
    }
    if expstr >= 2 {
      dest[i] := exponent;
      i := i + 1;
    }
    dest[i] := exponent;
    assert dest[..] == was[..at] + Repeated(exponent, Copies(expstr)) + was[at + Copies(expstr)..];
  }

  /** Nothing outside [at, end) has changed. */
  ghost predicate Outside(now: seq<int>, was: seq<int>, at: int, end: int) {
    && |now| == |was|
    && forall i :: 0 <= i < |was| && (i < at || i >= end) ==> now[i] == was[i]
  }

  ghost predicate Filled(now: seq<int>, was: seq<int>, at: nat, s: seq<int>) {
    && at + |s| <= |was| && now == was[..at] + s + was[at + |s|..]
  }

  lemma FillMore(now: seq<int>, was: seq<int>, at: nat, s: seq<int>, t: seq<int>, next: seq<int>)
    requires Filled(now, was, at, s) && at + |s| + |t| <= |was|
    requires next == now[..at + |s|] + t + now[at + |s| + |t|..]
    ensures Filled(next, was, at, s + t)
  {
    assert now[..at + |s|] == was[..at] + s;
    assert now[at + |s| + |t|..] == was[at + |s| + |t|..];
  }

  lemma GroupsFit(n: nat, m: nat, c: nat)
    requires n < m
    ensures (n + 1) * c == n * c + c <= m * c
  {
    MulMonotonic(n + 1, m, c);
  }

  lemma CodeIs(bits: seq<bool>, p: nat, g: nat, exps: nat)
    requires p + 7 * g + 7 <= |bits| && exps == Val(bits[p + 7 * g..p + 7 * g + 7])
    ensures exps == Code(bits, p, g)
  {
  }

  lemma StartStored(bits: seq<bool>, p: nat, absolute: nat, c: nat, was: seq<int>, at: nat)
    requires p <= |bits| && at <= |was| && absolute <= 30
    ensures Progress(bits, p, absolute, c, 0, was, at, was, at, absolute)
  {
    SplitJoin(was, at);
  }

  lemma NextStored(bits: seq<bool>, p: nat, absolute: int, c: nat, g: nat, k: nat)
    requires p + 7 * g + 7 <= |bits| && k < 3
    ensures Exponent(bits, p, absolute, 3 * g + k + 1) == Exponent(bits, p, absolute, 3 * g + k) + Difference(Code(bits, p, g), k)
    ensures Stored(bits, p, absolute, c, 3 * g + k + 1)
         == Stored(bits, p, absolute, c, 3 * g + k) + Repeated(Exponent(bits, p, absolute, 3 * g + k + 1), c)
    ensures Legal(bits, p, absolute, 3 * g + k + 1)
            <==> Legal(bits, p, absolute, 3 * g + k) && 0 <= Exponent(bits, p, absolute, 3 * g + k + 1) <= 24
  {
    hide Code, Difference;
    assert (3 * g + k) / 3 == g && (3 * g + k) % 3 == k;
  }

  lemma {:induction false} IllegalLater(bits: seq<bool>, p: nat, absolute: int, n: nat, m: nat)
    requires p + 7 * ((m + 2) / 3) <= |bits| && n <= m
    ensures Legal(bits, p, absolute, m) ==> Legal(bits, p, absolute, n)
    decreases m
  {
    if n < m {
      IllegalLater(bits, p, absolute, n, m - 1);
    }
  }

  lemma KeepsValid(now: seq<int>, at: nat, v: int, c: nat, next: seq<int>)
    requires at + c <= |now| && next == now[..at] + Repeated(v, c) + now[at + c..] && 0 <= v <= 24
    ensures BA.ValidExponents(now) ==> BA.ValidExponents(next)
  {
  }

  /** After n exponents of a run: all were legal, the last one is in hand, and all are stored. */
  ghost predicate Progress(bits: seq<bool>, p: nat, absolute: nat, c: nat, n: nat, was: seq<int>, at: nat,
                           now: seq<int>, to: nat, exponent: nat)
  {
    && p + 7 * ((n + 2) / 3) <= |bits| && exponent <= 30
    && Legal(bits, p, absolute, n) && exponent == Exponent(bits, p, absolute, n)
    && to == at + |Stored(bits, p, absolute, c, n)|
    && Filled(now, was, at, Stored(bits, p, absolute, c, n))
  }

  /** The k-th exponent of group g. */
  method GroupStep(expstr: nat, exponent0: nat, exps: nat, k: nat, dest: array<int>, to: nat, ghost at: nat,
                   ghost bits: seq<bool>, ghost p: nat, ghost absolute: nat, ghost g: nat, ghost was: seq<int>)
    returns (failed: bool, exponent: nat)
    requires 1 <= expstr <= 3 && exps < 128 && k < 3 && p + 7 * g + 7 <= |bits| && exps == Code(bits, p, g)
    requires |was| == dest.Length && to + Copies(expstr) <= dest.Length
    requires Progress(bits, p, absolute, Copies(expstr), 3 * g + k, was, at, dest[..], to, exponent0)
    modifies dest
    ensures failed ==> !Legal(bits, p, absolute, 3 * g + k + 1) && dest[..] == old(dest[..])
    ensures !failed ==> Progress(bits, p, absolute, Copies(expstr), 3 * g + k + 1, was, at, dest[..], to + Copies(expstr), exponent)
    ensures BA.ValidExponents(old(dest[..])) ==> BA.ValidExponents(dest[..])
  {
    hide *;
    ghost var now := dest[..];
    assert exponent0 <= 30 by { ProgressMeans(bits, p, absolute, Copies(expstr), 3 * g + k, was, at, now, to, exponent0, to); }
    failed, exponent := StoreExponent(expstr, exponent0, Difference(exps, k), dest, to);
    NextIllegal(bits, p, absolute, Copies(expstr), g, k, was, at, now, to, exponent0);
    if !failed {
      NextProgress(bits, p, absolute, Copies(expstr), g, k, was, at, now, to, exponent0, dest[..]);
      KeepsValid(now, to, exponent, Copies(expstr), dest[..]);
    }
  }

  lemma NextIllegal(bits: seq<bool>, p: nat, absolute: nat, c: nat, g: nat, k: nat, was: seq<int>, at: nat,
                    now: seq<int>, to: nat, exponent0: nat)
    requires k < 3 && p + 7 * g + 7 <= |bits| && Progress(bits, p, absolute, c, 3 * g + k, was, at, now, to, exponent0)
    ensures var e := exponent0 + Difference(Code(bits, p, g), k);
            Legal(bits, p, absolute, 3 * g + k + 1) <==> 0 <= e <= 24
  {
    hide Code, Difference, Legal, Exponent, Stored, Filled;
    NextStored(bits, p, absolute, c, g, k);
  }

  lemma NextProgress(bits: seq<bool>, p: nat, absolute: nat, c: nat, g: nat, k: nat, was: seq<int>, at: nat,
                     now: seq<int>, to: nat, exponent0: nat, next: seq<int>)
    requires k < 3 && p + 7 * g + 7 <= |bits| && Progress(bits, p, absolute, c, 3 * g + k, was, at, now, to, exponent0)
    requires to + c <= |was| == |now| && 0 <= exponent0 + Difference(Code(bits, p, g), k) <= 24
    requires next == now[..to] + Repeated(exponent0 + Difference(Code(bits, p, g), k), c) + now[to + c..]
    ensures Progress(bits, p, absolute, c, 3 * g + k + 1, was, at, next, to + c, exponent0 + Difference(Code(bits, p, g), k))
  {
    hide Code, Difference, Legal, Exponent, Stored, Filled, Repeated;
    var e := exponent0 + Difference(Code(bits, p, g), k);
    NextStored(bits, p, absolute, c, g, k);
    FillMore(now, was, at, Stored(bits, p, absolute, c, 3 * g + k), Repeated(e, c), next);
  }

  /** The three exponents of group g. */
  method GroupOfThree(expstr: nat, exponent0: nat, exps: nat, dest: array<int>, to: nat, ghost at: nat,
                      ghost bits: seq<bool>, ghost p: nat, ghost absolute: nat, ghost g: nat, ghost was: seq<int>)
    returns (failed: bool, exponent: nat)
    requires 1 <= expstr <= 3 && exps < 128 && p + 7 * g + 7 <= |bits| && exps == Code(bits, p, g)
    requires |was| == dest.Length && to + 3 * Copies(expstr) <= dest.Length
    requires Progress(bits, p, absolute, Copies(expstr), 3 * g, was, at, dest[..], to, exponent0)
    modifies dest
    ensures failed ==> !Legal(bits, p, absolute, 3 * g + 3) && Outside(dest[..], was, at, to + 3 * Copies(expstr))
    ensures !failed ==> Progress(bits, p, absolute, Copies(expstr), 3 * (g + 1), was, at, dest[..], to + 3 * Copies(expstr), exponent)
    ensures BA.ValidExponents(old(dest[..])) ==> BA.ValidExponents(dest[..])
  {
    hide Progress, Code, Copies, Legal, Outside, Filled, Stored, BA.ValidExponents;
    failed, exponent := GroupStep(expstr, exponent0, exps, 0, dest, to, at, bits, p, absolute, g, was);
    if failed {
      IllegalLater(bits, p, absolute, 3 * g + 1, 3 * g + 3);
      ProgressMeans(bits, p, absolute, Copies(expstr), 3 * g, was, at, dest[..], to, exponent0, to + 3 * Copies(expstr));
      return;
    }
    var second := exponent;
    failed, exponent := GroupStep(expstr, second, exps, 1, dest, to + Copies(expstr), at, bits, p, absolute, g, was);
    if failed {
      IllegalLater(bits, p, absolute, 3 * g + 2, 3 * g + 3);
      ProgressMeans(bits, p, absolute, Copies(expstr), 3 * g + 1, was, at, dest[..], to + Copies(expstr), second, to + 3 * Copies(expstr));
      return;
    }
    var third := exponent;
    failed, exponent := GroupStep(expstr, third, exps, 2, dest, to + 2 * Copies(expstr), at, bits, p, absolute, g, was);
    if failed {
      ProgressMeans(bits, p, absolute, Copies(expstr), 3 * g + 2, was, at, dest[..], to + 2 * Copies(expstr), third, to + 3 * Copies(expstr));
    }
  }

  /** What parse_exponents leaves when it has read from bit p on. */
  ghost predicate Parsed(bits: seq<bool>, p: int, c: nat, ngrps: nat, absolute: nat, at: nat, failed: bool,
                         now: seq<int>, was: seq<int>, end: int)
  {
    && 0 <= p && p + 7 * ngrps <= |bits|
    && if failed then !Legal(bits, p, absolute, 3 * ngrps)
       else Legal(bits, p, absolute, 3 * ngrps) && end == p + 7 * ngrps && Filled(now, was, at, Stored(bits, p, absolute, c, 3 * ngrps))
  }

  /** parse_exponents: it succeeds exactly when every exponent is legal, and then has stored them all. */
  method ParseExponents(state: A52.Reader, expstr: nat, ngrps: nat, absolute: nat, dest: array<int>, at: nat) returns (failed: bool)
    requires state.Valid() && 1 <= expstr <= 3 && absolute <= 30
    requires at + ngrps * (3 * Copies(expstr)) <= dest.Length
    requires 0 <= state.Position() && state.Position() + 7 * ngrps < |state.All()|
    modifies state, dest
    ensures state.Valid()
    ensures Parsed(state.All(), old(state.Position()), Copies(expstr), ngrps, absolute, at, failed, dest[..], old(dest[..]), state.Position())
    ensures Outside(dest[..], old(dest[..]), at, at + ngrps * (3 * Copies(expstr)))
    ensures BA.ValidExponents(old(dest[..])) ==> BA.ValidExponents(dest[..])
  {
    hide *;
    ghost var bits, p, was := state.All(), state.Position(), dest[..];
    var exponent, size := absolute, 3 * Copies(expstr);
    var g, to := 0, at;
    StartStored(bits, p, absolute, Copies(expstr), was, at);
    while g < ngrps
      invariant g <= ngrps && state.Valid() && state.Position() == p + 7 * g
      invariant to == at + g * size
      invariant Progress(bits, p, absolute, Copies(expstr), 3 * g, was, at, dest[..], to, exponent)
      invariant BA.ValidExponents(was) ==> BA.ValidExponents(dest[..])
    {
      var exps := state.Get(7);
      CodeIs(bits, p, g, exps);
      GroupsFit(g, ngrps, size);
      failed, exponent := GroupOfThree(expstr, exponent, exps, dest, to, at, bits, p, absolute, g, was);
      if failed {
        FailedParse(bits, p, Copies(expstr), g, ngrps, absolute, at, dest[..], was, to + size, state.Position());
        return;
      }
      to := to + size;
      g := g + 1;
    }
    failed := false;
    ProgressMeans(bits, p, absolute, Copies(expstr), 3 * ngrps, was, at, dest[..], to, exponent, to);
    assert Parsed(bits, p, Copies(expstr), ngrps, absolute, at, false, dest[..], was, state.Position()) by {
      SucceededParse(bits, p, Copies(expstr), ngrps, absolute, at, dest[..], was, state.Position());
    }
  }

  lemma FailedParse(bits: seq<bool>, p: int, c: nat, g: nat, ngrps: nat, absolute: nat, at: nat, now: seq<int>, was: seq<int>, to: nat, end: int)
    requires 0 <= p && p + 7 * ngrps <= |bits| && g < ngrps && !Legal(bits, p, absolute, 3 * g + 3)
    requires Outside(now, was, at, to) && to <= at + ngrps * (3 * c)
    ensures Parsed(bits, p, c, ngrps, absolute, at, true, now, was, end)
    ensures Outside(now, was, at, at + ngrps * (3 * c))
  {
    hide Legal, Stored, Filled;
    IllegalLater(bits, p, absolute, 3 * g + 3, 3 * ngrps);
  }

  lemma SucceededParse(bits: seq<bool>, p: int, c: nat, ngrps: nat, absolute: nat, at: nat, now: seq<int>, was: seq<int>, end: int)
    requires 0 <= p && p + 7 * ngrps <= |bits| && Legal(bits, p, absolute, 3 * ngrps) && end == p + 7 * ngrps
    requires Filled(now, was, at, Stored(bits, p, absolute, c, 3 * ngrps))
    ensures Parsed(bits, p, c, ngrps, absolute, at, false, now, was, end)
  {
    hide Legal, Stored, Filled;
  }

  lemma ProgressMeans(bits: seq<bool>, p: nat, absolute: nat, c: nat, n: nat, was: seq<int>, at: nat,
                      now: seq<int>, to: nat, exponent: nat, end: nat)
    requires Progress(bits, p, absolute, c, n, was, at, now, to, exponent) && to <= end
    ensures Legal(bits, p, absolute, n) && Filled(now, was, at, Stored(bits, p, absolute, c, n)) && Outside(now, was, at, end)
    ensures exponent <= 30
  {
  }

  // ------------------------------------------------------------------ the channels of a block

  /** endmant of a full-bandwidth channel, coupled or not. */
  predicate ChannelEnd(endmant: nat) {
    || (exists chbwcod: nat :: chbwcod <= 60 && endmant == chbwcod * 3 + 73)
    || (exists cplbegf: nat :: cplbegf < 16 && endmant == cplbegf * 12 + 37)
  }

  /** nchgrps in a52_block. */
  function ChannelGroups(endmant: nat, expstr: nat): nat
    requires endmant >= 4 && 1 <= expstr <= 3
  {
    (endmant + 3 * Copies(expstr) - 4) / (3 * Copies(expstr))
  }

  /** ncplgrps in a52_block. */
  function CouplingGroups(cplstrtmant: nat, cplendmant: nat, expstr: nat): nat
    requires cplstrtmant <= cplendmant && 1 <= expstr <= 3
  {
    (cplendmant - cplstrtmant) / (3 * Copies(expstr))
  }

  /** The numbers of groups that the standard gives for D15, D25 and D45, where an exponent
      stands for one, two and four bins. */
  lemma GroupsAreStandard(start: nat, end: nat)
    requires 4 <= end && start <= end
    ensures Copies(1) == 1 && Copies(2) == 2 && Copies(3) == 4
    ensures ChannelGroups(end, 1) == (end - 1) / 3 && ChannelGroups(end, 2) == (end - 1 + 3) / 6 && ChannelGroups(end, 3) == (end - 1 + 9) / 12
    ensures CouplingGroups(start, end, 1) == (end - start) / 3 && CouplingGroups(start, end, 2) == (end - start) / 6
    ensures CouplingGroups(start, end, 3) == (end - start) / 12
  {
  }

  lemma CoverBy(e: nat)
    requires 37 <= e <= 253 && e % 3 == 1
    ensures var n := (e + 3 - 4) / 3; e <= 1 + n * 3 < e + 3
    ensures var n := (e + 6 - 4) / 6; e <= 1 + n * 6 < e + 6
    ensures var n := (e + 12 - 4) / 12; e <= 1 + n * 12 < e + 12 && n <= 21
  {
  }

  /** The groups reach the last bin needed, no further than one group past it, and stay inside the array. */
  lemma ChannelGroupsCover(endmant: nat, expstr: nat)
    requires ChannelEnd(endmant) && 1 <= expstr <= 3
    ensures var size := ChannelGroups(endmant, expstr) * (3 * Copies(expstr));
            endmant <= 1 + size < endmant + 3 * Copies(expstr) && 1 + size <= 256
  {
    assert 37 <= endmant <= 253 && endmant % 3 == 1;
    CoverBy(endmant);
  }

  /** The coupling groups fill the coupling range exactly. */
  lemma CouplingGroupsFill(cplbegf: nat, cplendf: nat, expstr: nat)
    requires cplbegf < 16 && cplendf < 16 && cplendf + 3 >= cplbegf && 1 <= expstr <= 3
    ensures var start, end := cplbegf * 12 + 37, cplendf * 12 + 73;
            start <= end <= 253 && start + CouplingGroups(start, end, expstr) * (3 * Copies(expstr)) == end
  {
    var n := cplendf + 3 - cplbegf;
    if expstr == 1 {
    } else if expstr == 2 {
    } else {
    }
  }

  /** Freshly stored exponents make the integration of bit allocation safe. */
  lemma StoredAreTableSafe(ex: seq<int>, start: nat, end: nat, absolute: int, s: seq<int>)
    requires |ex| == 256 && end <= 256 && Smooth([absolute] + s)
    requires (end <= start + |s| && start + |s| <= 256 && ex[start..start + |s|] == s)
          || (start == 0 && end <= 1 + |s| <= 256 && ex[..1 + |s|] == [absolute] + s)
    ensures BA.TableSafe(ex, start, end)
  {
    var t := [absolute] + s;
    forall k: nat | start < k < end
      ensures ex[k] >= ex[k - 1] - 3
    {
      if start == 0 && end <= 1 + |s| <= 256 && ex[..1 + |s|] == t {
        assert ex[k] == t[k] && ex[k - 1] == t[k - 1];
      } else {
        var i := k - start;
        assert ex[k] == ex[start..start + |s|][i] == t[i + 1];
        assert ex[k - 1] == ex[start..start + |s|][i - 1] == t[i];
      }
    }
    BA.SmoothIsTableSafe(ex, start, end);
  }

  /** A channel's exponents as read from bit q on: the absolute one, then the groups. */
  ghost predicate ChannelRead(bits: seq<bool>, q: int, expstr: nat, endmant: nat, failed: bool, now: seq<int>, was: seq<int>, end: int)
    requires 1 <= expstr <= 3 && endmant >= 4
  {
    var n := ChannelGroups(endmant, expstr);
    && 0 <= q && q + 4 + 7 * n <= |bits| && |was| > 0
    && var absolute := Val(bits[q..q + 4]);
    if failed then !Legal(bits, q + 4, absolute, 3 * n)
    else
      && Legal(bits, q + 4, absolute, 3 * n) && end == q + 4 + 7 * n
      && Filled(now, was[0 := absolute], 1, Stored(bits, q + 4, absolute, Copies(expstr), 3 * n))
  }

  /**
   The exponents of a full-bandwidth or LFE channel (LFE: D15, endmant 7), without the two
   bits of gainrng that follow the former.  On success the channel is ready for bit
   allocation; a failed block leaves the exponents legal.
   */
  method ChannelExponents(state: A52.Reader, expstr: nat, endmant: nat, exp: array<int>) returns (failed: bool)
    requires state.Valid() && 1 <= expstr <= 3 && exp.Length == 256 && (ChannelEnd(endmant) || (endmant == 7 && expstr == 1))
    requires endmant >= 4 && 0 <= state.Position() && state.Position() + 4 + 7 * ChannelGroups(endmant, expstr) < |state.All()|
    modifies state, exp
    ensures state.Valid() && (BA.ValidExponents(old(exp[..])) ==> BA.ValidExponents(exp[..]))
    ensures ChannelRead(state.All(), old(state.Position()), expstr, endmant, failed, exp[..], old(exp[..]), state.Position())
    ensures !failed ==> BA.TableSafe(exp[..], 0, endmant)
  {
    hide Val, Pow2, Stored, Legal, ChannelEnd, ChannelGroups, Copies, Filled, BA.ValidExponents, BA.TableSafe, D.Payload, D.WordBits;
    SizeOf(endmant, expstr);
    assert Pow2(4) == 16 by { Pow2Values(); }
    var nchgrps := ChannelGroups(endmant, expstr);
    ghost var was, p := exp[..], state.Position() + 4;
    var absolute := state.Get(4);
    exp[0] := absolute;
    ZeroKeepsValid(was, absolute);
    assert exp[..] == was[0 := absolute];
    failed := ParseExponents(state, expstr, nchgrps, absolute, exp, 1);
    if !failed {
      FreshChannelIsSafe(state.All(), p, absolute, expstr, nchgrps, exp[..], was, endmant);
    }
  }

  lemma SizeOf(endmant: nat, expstr: nat)
    requires 1 <= expstr <= 3 && (ChannelEnd(endmant) || (endmant == 7 && expstr == 1))
    ensures endmant >= 4
    ensures var size := ChannelGroups(endmant, expstr) * (3 * Copies(expstr)); endmant <= 1 + size <= 256
  {
    if endmant != 7 {
      ChannelGroupsCover(endmant, expstr);
    }
  }

  lemma FreshChannelIsSafe(bits: seq<bool>, p: nat, absolute: int, expstr: nat, n: nat, now: seq<int>, was: seq<int>, endmant: nat)
    requires p + 7 * n <= |bits| && 1 <= expstr <= 3 && absolute >= 0 && Legal(bits, p, absolute, 3 * n)
    requires |was| == 256 && endmant <= 1 + n * (3 * Copies(expstr)) <= 256
    requires Filled(now, was[0 := absolute], 1, Stored(bits, p, absolute, Copies(expstr), 3 * n))
    ensures BA.TableSafe(now, 0, endmant)
  {
    hide Stored, Legal, BA.TableSafe, Copies, Exponent, Smooth, Filled;
    var s := Stored(bits, p, absolute, Copies(expstr), 3 * n);
    assert Copies(expstr) > 0 by { CopiesPositive(expstr); }
    StoredAreSmooth(bits, p, absolute, Copies(expstr), 3 * n);
    assert |s| == n * (3 * Copies(expstr));
    FilledStart(now, was, absolute, s);
    StoredAreTableSafe(now, 0, endmant, absolute, s);
  }

  lemma ZeroKeepsValid(was: seq<int>, absolute: int)
    requires 0 <= absolute < 16 && |was| > 0
    ensures BA.ValidExponents(was) ==> BA.ValidExponents(was[0 := absolute])
  {
  }

  lemma FilledStart(now: seq<int>, was: seq<int>, absolute: int, s: seq<int>)
    requires |was| > 0 && Filled(now, was[0 := absolute], 1, s)
    ensures now[..1 + |s|] == [absolute] + s && |was| == |now|
  {
  }

  /** The coupling channel's exponents as read from bit q on. */
  ghost predicate CouplingRead(bits: seq<bool>, q: int, expstr: nat, start: nat, stop: nat, failed: bool, now: seq<int>, end: int)
    requires 1 <= expstr <= 3 && start <= stop
  {
    var n := CouplingGroups(start, stop, expstr);
    && 0 <= q && q + 4 + 7 * n <= |bits| && stop <= |now|
    && var absolute := 2 * Val(bits[q..q + 4]);
    if failed then !Legal(bits, q + 4, absolute, 3 * n)
    else
      && Legal(bits, q + 4, absolute, 3 * n) && end == q + 4 + 7 * n
      && now[start..stop] == Stored(bits, q + 4, absolute, Copies(expstr), 3 * n)
  }

  /** The exponents of the coupling channel; the absolute exponent is even and is not stored itself. */
  method CouplingExponents(state: A52.Reader, expstr: nat, cplbegf: nat, cplendf: nat, exp: array<int>) returns (failed: bool)
    requires state.Valid() && 1 <= expstr <= 3 && exp.Length == 256
    requires cplbegf < 16 && cplendf < 16 && cplendf + 3 >= cplbegf && 0 <= state.Position()
    requires state.Position() + 4 + 7 * CouplingGroups(cplbegf * 12 + 37, cplendf * 12 + 73, expstr) < |state.All()|
    modifies state, exp
    ensures state.Valid() && (BA.ValidExponents(old(exp[..])) ==> BA.ValidExponents(exp[..]))
    ensures Outside(exp[..], old(exp[..]), cplbegf * 12 + 37, cplendf * 12 + 73)
    ensures CouplingRead(state.All(), old(state.Position()), expstr, cplbegf * 12 + 37, cplendf * 12 + 73, failed, exp[..], state.Position())
    ensures !failed ==> BA.TableSafe(exp[..], cplbegf * 12 + 37, cplendf * 12 + 73)
  {
    hide Val, Pow2, Stored, Legal, CouplingGroups, Copies, Filled, Outside, BA.ValidExponents, BA.TableSafe, D.Payload, D.WordBits;
    var cplstrtmant, cplendmant := cplbegf * 12 + 37, cplendf * 12 + 73;
    CouplingGroupsFill(cplbegf, cplendf, expstr);
    assert Pow2(4) == 16 by { Pow2Values(); }
    var ncplgrps := CouplingGroups(cplstrtmant, cplendmant, expstr);
    ghost var was, p := exp[..], state.Position() + 4;
    var cplabsexp := state.Get(4);
    cplabsexp := 2 * cplabsexp;
    failed := ParseExponents(state, expstr, ncplgrps, cplabsexp, exp, cplstrtmant);
    if !failed {
      FreshCouplingIsSafe(state.All(), p, cplabsexp, expstr, ncplgrps, exp[..], was, cplstrtmant, cplendmant);
    }
  }

  lemma FreshCouplingIsSafe(bits: seq<bool>, p: nat, absolute: int, expstr: nat, n: nat, now: seq<int>, was: seq<int>, start: nat, end: nat)
    requires p + 7 * n <= |bits| && 1 <= expstr <= 3 && absolute >= 0 && Legal(bits, p, absolute, 3 * n)
    requires |was| == 256 && end == start + n * (3 * Copies(expstr)) <= 256
    requires Filled(now, was, start, Stored(bits, p, absolute, Copies(expstr), 3 * n))
    ensures |now| == 256 && now[start..end] == Stored(bits, p, absolute, Copies(expstr), 3 * n) && BA.TableSafe(now, start, end)
  {
    hide Stored, Legal, BA.TableSafe, Copies, Exponent, Smooth, Filled;
    var s := Stored(bits, p, absolute, Copies(expstr), 3 * n);
    assert Copies(expstr) > 0 by { CopiesPositive(expstr); }
    StoredAreSmooth(bits, p, absolute, Copies(expstr), 3 * n);
    FilledMiddle(now, was, start, s);
    assert |s| == n * (3 * Copies(expstr)) by { ThreeTimes(n, Copies(expstr)); }
    StoredAreTableSafe(now, start, end, absolute, s);
  }

  lemma ThreeTimes(n: int, c: int)
    ensures 3 * n * c == n * (3 * c)
  {
  }

  lemma CopiesPositive(expstr: nat)
    requires 1 <= expstr <= 3
    ensures Copies(expstr) > 0
  {
  }

  lemma FilledMiddle(now: seq<int>, was: seq<int>, at: nat, s: seq<int>)
    requires Filled(now, was, at, s)
    ensures |now| == |was| && now[at..at + |s|] == s
  {
  }
}
