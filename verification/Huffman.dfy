/**
 The prefix decoder of the DTS decoder (InverseQ in tables_huffman.h).  A table is a list
 of entries that ends with an entry of length 0; the decoder takes one bit at a time and
 looks up, for each length, the entries of that length.

 The search passes over shorter entries only from the front, so an entry is found exactly
 when nothing before it is longer and nothing of another length stands between it and the
 first entry of its length.  That condition holds for every entry of a table sorted by
 length; two of the four tables of transition modes are not sorted, and entries of
 theirs are never decoded.
 */
module Huffman {
  import opened Powers
  import opened Bits
  import opened Seqs
  import opened DtsReader

  datatype Entry = Entry(length: nat, code: nat, value: int)

  /** The outcome of one decoding: a value and the number of bits taken, or too few bits. */
  datatype Outcome = Symbol(value: int, used: nat) | Short

  /** Entries of positive length whose codes have that many bits, then the terminator. */
  predicate Table(t: seq<Entry>) {
    && t != [] && t[|t| - 1].length == 0
    && forall i :: 0 <= i < |t| - 1 ==> t[i].length > 0 && t[i].code < Pow2(t[i].length)
  }

  function Codeword(e: Entry): (s: seq<bool>)
    ensures |s| == e.length
  {
    BitsOf(e.code, e.length)
  }

  ghost predicate PrefixFree(t: seq<Entry>)
    requires Table(t)
  {
    forall i, j :: 0 <= i < |t| - 1 && 0 <= j < |t| - 1 && i != j ==> !(Codeword(t[i]) <= Codeword(t[j]))
  }

  predicate Sorted(t: seq<Entry>)
    requires Table(t)
  {
    forall i, j :: 0 <= i < j < |t| - 1 ==> t[i].length <= t[j].length
  }

  /** No earlier entry is longer, and the entries from the first of this length on are all of this length. */
  predicate Reachable(t: seq<Entry>, k: nat)
    requires k < |t|
  {
    && (forall i :: 0 <= i < k ==> t[i].length <= t[k].length)
    && (forall i, j :: 0 <= i < j <= k && t[i].length == t[k].length ==> t[j].length == t[k].length)
  }

  lemma SortedIsReachable(t: seq<Entry>, k: nat)
    requires Table(t) && Sorted(t) && k < |t| - 1
    ensures Reachable(t, k)
  {
    forall i, j | 0 <= i < j <= k && t[i].length == t[k].length
      ensures t[j].length == t[k].length
    {
      assert t[i].length <= t[j].length;
      assert j < k ==> t[j].length <= t[k].length;
    }
  }

  function MaxLength(t: seq<Entry>): (m: nat)
    ensures forall i :: 0 <= i < |t| ==> t[i].length <= m
    ensures m == 0 || exists i :: 0 <= i < |t| && t[i].length == m
    decreases |t|
  {
    if t == [] then 0
    else
      var m, l := MaxLength(t[..|t| - 1]), t[|t| - 1].length;
      assert forall i :: 0 <= i < |t| - 1 ==> t[i] == t[..|t| - 1][i];
      assert l > m ==> t[|t| - 1].length == l;
      if l > m then l else m
  }

  // ------------------------------------------------------------------ what the loops compute

  /** The first inner loop: pass over the entries shorter than n. */
  function Skip(t: seq<Entry>, n: nat, j: nat): (r: nat)
    requires Table(t) && j < |t|
    ensures j <= r < |t| && (t[r].length == 0 || t[r].length >= n)
    ensures forall i :: j <= i < r ==> 0 < t[i].length < n
    decreases |t| - j
  {
    if t[j].length != 0 && t[j].length < n then Skip(t, n, j + 1) else j
  }

  /** The second inner loop: the first entry from j on that is of another length or has this code. */
  function Match(t: seq<Entry>, n: nat, code: nat, j: nat): (r: nat)
    requires Table(t) && j < |t| && n > 0
    ensures j <= r < |t| && (t[r].length != n || t[r].code == code)
    ensures forall i :: j <= i < r ==> t[i].length == n && t[i].code != code
    decreases |t| - j
  {
    if t[j].length == n && t[j].code != code then Match(t, n, code, j + 1) else j
  }

  /** InverseQ on a bit string of which the first n bits have been taken in vain. */
  function Decode(t: seq<Entry>, bits: seq<bool>, n: nat): Outcome
    requires Table(t)
    decreases |bits| - n
  {
    if |bits| <= n then Short
    else
      var j := Skip(t, n + 1, 0);
      if t[j].length == 0 then Symbol(0, n + 1)
      else
        var m := Match(t, n + 1, Val(bits[..n + 1]), j);
        if t[m].length == n + 1 then Symbol(t[m].value, n + 1) else Decode(t, bits, n + 1)
  }

  // ------------------------------------------------------------------ which entries are decoded

  /** The entry that a length finds is reachable, and its codeword is what has been read. */
  lemma FoundIsReachable(t: seq<Entry>, bits: seq<bool>, n: nat, m: nat)
    requires Table(t) && 0 < n <= |bits| && m == Match(t, n, Val(bits[..n]), Skip(t, n, 0)) && t[m].length == n
    ensures m < |t| - 1 && Reachable(t, m) && Codeword(t[m]) == bits[..n]
  {
    hide Val, Pow2, BitsOf;
    BitsOfVal(bits[..n]);
    var j := Skip(t, n, 0);
    assert forall i :: 0 <= i < j ==> t[i].length < n;
    assert forall i :: j <= i <= m ==> t[i].length == n;
  }

  /** A reachable entry is where its own codeword leads. */
  lemma ReachableIsFound(t: seq<Entry>, bits: seq<bool>, k: nat)
    requires Table(t) && PrefixFree(t) && k < |t| - 1 && Reachable(t, k) && Codeword(t[k]) <= bits
    ensures var n := t[k].length; Match(t, n, Val(bits[..n]), Skip(t, n, 0)) == k
  {
    hide Val, Pow2, BitsOf;
    var n := t[k].length;
    var j := Skip(t, n, 0);
    assert bits[..n] == Codeword(t[k]);
    ValOfBits(t[k].code, n);
    SmallMod(t[k].code, Pow2(n));
    var m := Match(t, n, Val(bits[..n]), j);
    assert j <= k;
    assert forall i :: j <= i <= k ==> t[i].length == n;
    assert m <= k;
    assert Codeword(t[m]) == Codeword(t[k]);
  }

  lemma SmallMod(x: nat, p: nat)
    requires x < p
    ensures x % p == x
  {
    DivUnique(x, p, 0, x);
  }

  /** Shorter than its codeword, a reachable entry's bits match nothing. */
  lemma NoEarlierMatch(t: seq<Entry>, bits: seq<bool>, k: nat, n: nat)
    requires Table(t) && PrefixFree(t) && k < |t| - 1 && Codeword(t[k]) <= bits
    requires 0 < n < t[k].length
    ensures Skip(t, n, 0) <= k && t[Match(t, n, Val(bits[..n]), Skip(t, n, 0))].length != n
  {
    hide Val, Pow2, Codeword, Reachable;
    var m := Match(t, n, Val(bits[..n]), Skip(t, n, 0));
    var a, b, found := Codeword(t[m]), Codeword(t[k]), t[m].length == n;
    if found {
      FoundIsReachable(t, bits, n, m);
    }
    assert found ==> a <= b;
  }

  lemma {:induction false} ReachableDecodes(t: seq<Entry>, bits: seq<bool>, k: nat, n: nat)
    requires Table(t) && PrefixFree(t) && k < |t| - 1 && Reachable(t, k) && Codeword(t[k]) <= bits
    requires n < t[k].length
    ensures Decode(t, bits, n) == Symbol(t[k].value, t[k].length)
    decreases t[k].length - n
  {
    hide Val, Pow2, BitsOf, Codeword, Reachable, PrefixFree;
    var j := Skip(t, n + 1, 0);
    assert j <= k;
    if n + 1 == t[k].length {
      ReachableIsFound(t, bits, k);
    } else {
      NoEarlierMatch(t, bits, k, n + 1);
      ReachableDecodes(t, bits, k, n + 1);
    }
  }

  /**
   On any bits, decoding ends after at most one bit more than the longest length, and either
   it gives 0 after exactly that many bits or it gives the value of a reachable entry whose
   codeword is what was read.
   */
  ghost predicate Explained(t: seq<Entry>, bits: seq<bool>, o: Outcome)
    requires Table(t)
  {
    match o
    case Short => |bits| <= MaxLength(t)
    case Symbol(v, u) =>
      || (u == MaxLength(t) + 1 <= |bits| && v == 0)
      || (u <= MaxLength(t) && exists m: nat :: Decodes(t, bits, m, u) && t[m].value == v)
  }

  ghost predicate Decodes(t: seq<Entry>, bits: seq<bool>, m: nat, u: nat)
    requires Table(t)
  {
    m < |t| - 1 && Reachable(t, m) && u == t[m].length <= |bits| && Codeword(t[m]) == bits[..u]
  }

  lemma SkipEnds(t: seq<Entry>, n: nat)
    requires Table(t) && n > 0
    ensures t[Skip(t, n, 0)].length == 0 <==> MaxLength(t) < n
  {
    var j := Skip(t, n, 0);
    if t[j].length == 0 {
      assert j == |t| - 1;
    }
  }

  lemma {:induction false} DecodeExplained(t: seq<Entry>, bits: seq<bool>, n: nat)
    requires Table(t) && n <= MaxLength(t)
    ensures Explained(t, bits, Decode(t, bits, n))
    decreases |bits| - n
  {
    hide Val, Pow2, Codeword, Reachable, MaxLength;
    if n < |bits| {
      SkipEnds(t, n + 1);
      var j := Skip(t, n + 1, 0);
      if t[j].length != 0 {
        var m := Match(t, n + 1, Val(bits[..n + 1]), j);
        if t[m].length == n + 1 {
          FoundIsReachable(t, bits, n + 1, m);
          assert Decodes(t, bits, m, n + 1);
        } else {
          DecodeExplained(t, bits, n + 1);
        }
      }
    }
  }

  lemma OnlyItself(t: seq<Entry>, k: nat, rest: seq<bool>, m: nat, u: nat)
    requires Table(t) && PrefixFree(t) && k < |t| - 1 && Decodes(t, Codeword(t[k]) + rest, m, u)
    ensures m == k
  {
    hide Codeword, Reachable;
    var bits := Codeword(t[k]) + rest;
    var a, b := Codeword(t[m]), Codeword(t[k]);
    assert b == bits[..|b|];
    assert a <= b || b <= a;
  }

  /** An entry's codeword is decoded to its value, taking exactly its bits, if and only if the entry is reachable. */
  lemma DecodedIff(t: seq<Entry>, k: nat, rest: seq<bool>)
    requires Table(t) && PrefixFree(t) && k < |t| - 1
    ensures Decode(t, Codeword(t[k]) + rest, 0) == Symbol(t[k].value, t[k].length) <==> Reachable(t, k)
  {
    hide Val, Pow2, Codeword, Reachable, PrefixFree, Decode;
    var bits := Codeword(t[k]) + rest;
    assert Codeword(t[k]) <= bits;
    if Decode(t, bits, 0) == Symbol(t[k].value, t[k].length) {
      DecodeExplained(t, bits, 0);
      var m: nat :| Decodes(t, bits, m, t[k].length);
      OnlyItself(t, k, rest, m, t[k].length);
    } else if Reachable(t, k) {
      ReachableDecodes(t, bits, k, 0);
    }
  }

  /** An unreachable entry's codeword, with enough bits after it, gives 0 after one bit more than the longest length. */
  lemma UnreachableGivesZero(t: seq<Entry>, k: nat, rest: seq<bool>)
    requires Table(t) && PrefixFree(t) && k < |t| - 1
    requires t[k].length + |rest| > MaxLength(t)
    ensures !Reachable(t, k) ==> Decode(t, Codeword(t[k]) + rest, 0) == Symbol(0, MaxLength(t) + 1)
  {
    hide Val, Pow2, Codeword, Reachable, MaxLength, PrefixFree, Decode;
    var bits := Codeword(t[k]) + rest;
    DecodeExplained(t, bits, 0);
    var o := Decode(t, bits, 0);
    if o != Symbol(0, MaxLength(t) + 1) {
      var m: nat :| Decodes(t, bits, m, o.used);
      OnlyItself(t, k, rest, m, o.used);
    }
  }

  // ------------------------------------------------------------------ sequences of codewords

  /** The codewords of the entries ks, one after another. */
  function Encode(t: seq<Entry>, ks: seq<nat>): seq<bool>
    requires forall i :: 0 <= i < |ks| ==> ks[i] < |t|
  {
    if ks == [] then [] else Codeword(t[ks[0]]) + Encode(t, ks[1..])
  }

  function Values(t: seq<Entry>, ks: seq<nat>): (vs: seq<int>)
    requires forall i :: 0 <= i < |ks| ==> ks[i] < |t|
    ensures |vs| == |ks|
  {
    seq(|ks|, i requires 0 <= i < |ks| => t[ks[i]].value)
  }

  /** n decodings, one after another: the values, and the bits that are left, if there were enough. */
  function DecodeMany(t: seq<Entry>, bits: seq<bool>, n: nat): (r: (seq<int>, seq<bool>))
    requires Table(t)
    decreases n
  {
    if n == 0 then ([], bits)
    else
      var o := Decode(t, bits, 0);
      if o.Short? || o.used > |bits| then ([], bits)
      else
        var r := DecodeMany(t, bits[o.used..], n - 1);
        ([o.value] + r.0, r.1)
  }

  /** Concatenated codewords of a prefix-free table sorted by length decode to exactly their values and use exactly their bits. */
  lemma {:induction false} CodewordsDecode(t: seq<Entry>, ks: seq<nat>, rest: seq<bool>)
    requires Table(t) && PrefixFree(t)
    requires forall i :: 0 <= i < |ks| ==> ks[i] < |t| - 1 && Reachable(t, ks[i])
    ensures DecodeMany(t, Encode(t, ks) + rest, |ks|) == (Values(t, ks), rest)
    decreases |ks|
  {
    hide Codeword, Reachable, Decode, PrefixFree;
    if ks == [] {
      assert Encode(t, ks) + rest == rest;
    } else {
      var c, tail := Codeword(t[ks[0]]), Encode(t, ks[1..]) + rest;
      assert Encode(t, ks) + rest == c + tail by { Associative(c, Encode(t, ks[1..]), rest); }
      ReachableDecodes(t, c + tail, ks[0], 0) by { FirstIsPrefix(t, ks[0], tail); }
      JoinSplit(c, tail);
      CodewordsDecode(t, ks[1..], rest);
      assert Values(t, ks) == [t[ks[0]].value] + Values(t, ks[1..]);
    }
  }

  lemma FirstIsPrefix(t: seq<Entry>, k: nat, tail: seq<bool>)
    requires Table(t) && k < |t| - 1
    ensures Codeword(t[k]) <= Codeword(t[k]) + tail && t[k].length > 0
  {
  }

  // ------------------------------------------------------------------ InverseQ

  /** InverseQ: what it returns and how far it reads are those of Decode on the payload that follows. */
  method InverseQ(state: Reader, huff: seq<Entry>) returns (result: int)
    requires state.Valid() && Table(huff) && state.Position() + MaxLength(huff) + 1 < |state.All()|
    modifies state
    ensures state.Valid()
    ensures old(state.Position()) < state.Position() <= old(state.Position()) + MaxLength(huff) + 1
    ensures Decode(huff, state.All()[old(state.Position())..], 0)
         == Symbol(result, state.Position() - old(state.Position()))
  {
    hide *;
    ghost var start := state.Position();
    assert start >= 0 by { state.Window(); }
    ghost var bits := state.All()[start..];
    var value: nat, length: nat := 0, 0;
    EmptyVal();
    assert bits[..0] == [];
    while true
      invariant state.Valid() && length <= MaxLength(huff) && state.Position() == start + length
      invariant value == Val(bits[..length])
      invariant Decode(huff, bits, 0) == Decode(huff, bits, length)
      decreases MaxLength(huff) - length
    {
      var bit := state.Get(1);
      NextBit(state.All(), start, length, bit);
      DecodeStep(huff, bits, length);
      length := length + 1;
      value := 2 * value + bit;
      var j := PassShorter(huff, length);
      SkipEnds(huff, length);
      if huff[j].length == 0 {
        return 0;
      }
      j := FindCode(huff, length, value, j);
      if huff[j].length == length {
        return huff[j].value;
      }
    }
  }

  /** One pass of the outer loop. */
  lemma DecodeStep(t: seq<Entry>, bits: seq<bool>, n: nat)
    requires Table(t) && n < |bits|
    ensures var j := Skip(t, n + 1, 0);
            && (t[j].length == 0 ==> Decode(t, bits, n) == Symbol(0, n + 1))
            && (t[j].length != 0 ==>
                  var m := Match(t, n + 1, Val(bits[..n + 1]), j);
                  Decode(t, bits, n) == if t[m].length == n + 1 then Symbol(t[m].value, n + 1) else Decode(t, bits, n + 1))
  {
    hide Val, Skip, Match;
  }

  /** The first inner loop. */
  method PassShorter(huff: seq<Entry>, length: nat) returns (j: nat)
    requires Table(huff)
    ensures j == Skip(huff, length, 0)
  {
    hide Table;
    Ending(huff);
    j := 0;
    while huff[j].length != 0 && huff[j].length < length
      invariant j < |huff| && Skip(huff, length, 0) == Skip(huff, length, j)
      decreases |huff| - j
    {
      j := j + 1;
    }
  }

  /** The second inner loop: it stops at an entry of this length only if the code is the one wanted. */
  method FindCode(huff: seq<Entry>, length: nat, value: nat, start: nat) returns (j: nat)
    requires Table(huff) && start < |huff| && length > 0
    ensures j == Match(huff, length, value, start)
  {
    hide Table;
    Ending(huff);
    j := start;
    while huff[j].length == length
      invariant j < |huff| && Match(huff, length, value, start) == Match(huff, length, value, j)
      decreases |huff| - j
    {
      if huff[j].code == value {
        return;
      }
      j := j + 1;
    }
  }

  lemma Ending(t: seq<Entry>)
    requires Table(t)
    ensures t != [] && forall j :: 0 <= j < |t| && t[j].length != 0 ==> j + 1 < |t|
  {
  }

  lemma NextBit(all: seq<bool>, start: nat, n: nat, bit: nat)
    requires start + n < |all| && bit == Val(all[start + n..start + n + 1])
    ensures Val(all[start..][..n + 1]) == 2 * Val(all[start..][..n]) + bit
  {
    hide Pow2;
    var s := all[start..];
    assert s[..n + 1][..n] == s[..n] && s[..n + 1][n] == s[n];
    assert all[start + n..start + n + 1] == [s[n]];
    assert [s[n]][..0] == [];
  }

  // ------------------------------------------------------------------ some tables

  /** One codeword is no prefix of another, told from the numbers. */
  lemma NotPrefix(a: Entry, b: Entry)
    requires a.code < Pow2(a.length) && b.code < Pow2(b.length)
    requires a.length <= b.length ==> b.code / Pow2(b.length - a.length) != a.code
    ensures !(Codeword(a) <= Codeword(b))
  {
    hide Val, Pow2, BitsOf;
    if a.length <= b.length {
      ValOfBits(a.code, a.length);
      ValOfBits(b.code, b.length);
      SmallMod(a.code, Pow2(a.length));
      SmallMod(b.code, Pow2(b.length));
      ValSplit(Codeword(b), b.length - a.length);
      assert |Codeword(b)| - (b.length - a.length) == a.length;
      var start := Codeword(b)[..a.length];
      assert Codeword(a) <= Codeword(b) ==> Codeword(a) == start;
    }
  }

  /** The same for a whole table. */
  predicate CodesDiffer(t: seq<Entry>)
    requires Table(t)
  {
    forall i, j :: 0 <= i < |t| - 1 && 0 <= j < |t| - 1 && i != j && t[i].length <= t[j].length
      ==> t[j].code / Pow2(t[j].length - t[i].length) != t[i].code
  }

  lemma DifferentCodesArePrefixFree(t: seq<Entry>)
    requires Table(t) && CodesDiffer(t)
    ensures PrefixFree(t)
  {
    hide Codeword, Pow2;
    forall i, j | 0 <= i < |t| - 1 && 0 <= j < |t| - 1 && i != j
      ensures !(Codeword(t[i]) <= Codeword(t[j]))
    {
      NotPrefix(t[i], t[j]);
    }
  }

  function BitallocA4(): seq<Entry> { [Entry(1, 0, 0), Entry(2, 2, 1), Entry(3, 6, 2), Entry(3, 7, 3), Entry(0, 0, 0)] }
  function BitallocB4(): seq<Entry> { [Entry(2, 2, 0), Entry(3, 6, 1), Entry(3, 7, 2), Entry(1, 0, 3), Entry(0, 0, 0)] }
  function BitallocC4(): seq<Entry> { [Entry(3, 6, 0), Entry(3, 7, 1), Entry(1, 0, 2), Entry(2, 2, 3), Entry(0, 0, 0)] }
  function BitallocD4(): seq<Entry> { [Entry(2, 0, 0), Entry(2, 1, 1), Entry(2, 2, 2), Entry(2, 3, 3), Entry(0, 0, 0)] }

  lemma TableA4()
    ensures Table(BitallocA4()) && CodesDiffer(BitallocA4())
  {
    hide Pow2;
    SmallPowers();
    var t := BitallocA4();
    assert |t| == 5;
    assert Table(t);
  }

  lemma TableB4()
    ensures Table(BitallocB4()) && CodesDiffer(BitallocB4())
  {
    hide Pow2;
    SmallPowers();
    var t := BitallocB4();
    assert |t| == 5;
    assert Table(t);
  }

  lemma TableC4()
    ensures Table(BitallocC4()) && CodesDiffer(BitallocC4())
  {
    hide Pow2;
    SmallPowers();
    var t := BitallocC4();
    assert |t| == 5;
    assert Table(t);
  }

  lemma TableD4()
    ensures Table(BitallocD4()) && CodesDiffer(BitallocD4())
  {
    hide Pow2;
    SmallPowers();
    var t := BitallocD4();
    assert |t| == 5;
    assert Table(t);
  }

  /** The four tables of transition modes are prefix-free; the first and the last are sorted. */
  lemma TransitionTables()
    ensures Table(BitallocA4()) && PrefixFree(BitallocA4()) && Sorted(BitallocA4())
    ensures Table(BitallocB4()) && PrefixFree(BitallocB4())
    ensures Table(BitallocC4()) && PrefixFree(BitallocC4())
    ensures Table(BitallocD4()) && PrefixFree(BitallocD4()) && Sorted(BitallocD4())
  {
    hide Pow2, PrefixFree, CodesDiffer;
    TableA4();
    TableB4();
    TableC4();
    TableD4();
    DifferentCodesArePrefixFree(BitallocA4());
    DifferentCodesArePrefixFree(BitallocB4());
    DifferentCodesArePrefixFree(BitallocC4());
    DifferentCodesArePrefixFree(BitallocD4());
  }

  /** The sorted tables deliver every transition mode from its own codeword. */
  lemma SortedTransitionModes(k: nat, rest: seq<bool>)
    requires k < 4
    ensures Decode(BitallocA4(), Codeword(BitallocA4()[k]) + rest, 0) == Symbol(k, BitallocA4()[k].length)
    ensures Decode(BitallocD4(), Codeword(BitallocD4()[k]) + rest, 0) == Symbol(k, 2)
  {
    hide Pow2, PrefixFree, Codeword, Decode, Reachable;
    TransitionTables();
    SortedIsReachable(BitallocA4(), k);
    SortedIsReachable(BitallocD4(), k);
    DecodedIff(BitallocA4(), k, rest);
    DecodedIff(BitallocD4(), k, rest);
  }

  /** bitalloc_b_4 delivers all but mode 3, bitalloc_c_4 only modes 0 and 1; the other codewords give 0 after four bits. */
  lemma UnsortedTransitionModes(k: nat, rest: seq<bool>)
    requires k < 4
    ensures var t := BitallocB4();
            && (Decode(t, Codeword(t[k]) + rest, 0) == Symbol(k, t[k].length) <==> k != 3)
            && (k == 3 && |rest| >= 3 ==> Decode(t, Codeword(t[k]) + rest, 0) == Symbol(0, 4))
    ensures var t := BitallocC4();
            && (Decode(t, Codeword(t[k]) + rest, 0) == Symbol(k, t[k].length) <==> k <= 1)
            && (k >= 2 && |rest| >= 3 ==> Decode(t, Codeword(t[k]) + rest, 0) == Symbol(0, 4))
  {
    hide Pow2, PrefixFree, Codeword, Decode, Reachable, MaxLength;
    TransitionTables();
    ReachableModes(k);
    DecodedIff(BitallocB4(), k, rest);
    DecodedIff(BitallocC4(), k, rest);
    if |rest| >= 3 {
      UnreachableGivesZero(BitallocB4(), k, rest);
      UnreachableGivesZero(BitallocC4(), k, rest);
    }
  }

  lemma ReachableModes(k: nat)
    requires k < 4
    ensures Reachable(BitallocB4(), k) <==> k != 3
    ensures Reachable(BitallocC4(), k) <==> k <= 1
    ensures MaxLength(BitallocB4()) == 3 && MaxLength(BitallocC4()) == 3
  {
    hide MaxLength, Reachable;
    var b, c := BitallocB4(), BitallocC4();
    LongestIs(b, 1, 3);
    LongestIs(c, 0, 3);
    if k == 3 {
      UnreachableAfterLonger(b, 3, 0);
      UnreachableAfterLonger(c, 3, 0);
    } else if k == 2 {
      ReachableIfSorted(b, 2);
      UnreachableAfterLonger(c, 2, 0);
    } else {
      ReachableIfSorted(b, k);
      ReachableIfSorted(c, k);
    }
  }

  lemma ReachableIfSorted(t: seq<Entry>, k: nat)
    requires k < |t| && forall i, j :: 0 <= i < j <= k ==> t[i].length <= t[j].length
    ensures Reachable(t, k)
  {
  }

  lemma LongestIs(t: seq<Entry>, i: nat, m: nat)
    requires i < |t| && t[i].length == m && forall j :: 0 <= j < |t| ==> t[j].length <= m
    ensures MaxLength(t) == m
  {
  }

  lemma UnreachableAfterLonger(t: seq<Entry>, k: nat, i: nat)
    requires i < k < |t| && t[i].length > t[k].length
    ensures !Reachable(t, k)
  {
  }
}
