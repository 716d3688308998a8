/**
 Delta bit allocation (parse_deltba in parse.c; section 7.2.2.6 of ATSC A/52): up to eight
 segments, each an offset from the end of the one before, a length and a delta.  The deltas
 go to the 50 bands that BitAllocation reads them from.
 */
module DeltaAllocation {
  import opened Powers
  import opened Bits
  import A52 = A52Reader
  import BA = BitAllocation
  import D = DtsReader

  /** Segment k of a list whose first segment starts at bit q takes twelve bits. */
  predicate HasSegment(bits: seq<bool>, q: nat, k: nat) {
    q + 12 * k + 12 <= |bits|
  }

  function Offset(bits: seq<bool>, q: nat, k: nat): nat
    requires HasSegment(bits, q, k)
  {
    Val(bits[q + 12 * k..q + 12 * k + 5])
  }

  function Len(bits: seq<bool>, q: nat, k: nat): nat
    requires HasSegment(bits, q, k)
  {
    Val(bits[q + 12 * k + 5..q + 12 * k + 9])
  }

  /** The codes 0 to 7 stand for -4 to -1 and 1 to 4; there is no delta of zero. */
  function Delta(bits: seq<bool>, q: nat, k: nat): int
    requires HasSegment(bits, q, k)
  {
    var code := Val(bits[q + 12 * k + 9..q + 12 * k + 12]);
    if code >= 4 then code - 3 else code - 4
  }

  /** Where the first k segments end. */
  function End(bits: seq<bool>, q: nat, k: nat): nat
    requires k > 0 ==> HasSegment(bits, q, k - 1)
  {
    if k == 0 then 0 else End(bits, q, k - 1) + Offset(bits, q, k - 1) + Len(bits, q, k - 1)
  }

  /** Band b lies in segment k. */
  predicate Covers(bits: seq<bool>, q: nat, k: nat, b: int)
    requires HasSegment(bits, q, k)
  {
    End(bits, q, k) + Offset(bits, q, k) <= b < End(bits, q, k + 1)
  }

  /** The segment is empty or ends before the last band, which therefore never has a delta. */
  predicate Fits(bits: seq<bool>, q: nat, k: nat)
    requires HasSegment(bits, q, k)
  {
    Len(bits, q, k) == 0 || End(bits, q, k + 1) < 50
  }

  /** A segment fits exactly when none of the bands it covers is band 49 or beyond. */
  lemma FitsIff(bits: seq<bool>, q: nat, k: nat)
    requires HasSegment(bits, q, k)
    ensures Fits(bits, q, k) <==> forall b: int :: Covers(bits, q, k, b) ==> b < 49
  {
    hide Offset, Len;
    if Len(bits, q, k) > 0 {
      var last := End(bits, q, k + 1) - 1;
      assert last >= 49 ==> Covers(bits, q, k, last);
    }
  }

  lemma {:induction false} EndAscends(bits: seq<bool>, q: nat, j: nat, k: nat)
    requires j <= k && (k > 0 ==> HasSegment(bits, q, k - 1))
    ensures End(bits, q, j) <= End(bits, q, k)
  {
    if j < k {
      EndAscends(bits, q, j, k - 1);
    }
  }

  /** No band lies in two segments. */
  lemma SegmentsDisjoint(bits: seq<bool>, q: nat, j: nat, k: nat, b: int)
    requires j < k && HasSegment(bits, q, k) && Covers(bits, q, j, b)
    ensures !Covers(bits, q, k, b) && b < End(bits, q, k)
  {
    EndAscends(bits, q, j + 1, k);
  }

  /** Every band has the delta of the segment it lies in among the first n, or 0. */
  ghost predicate Painted(deltba: seq<int>, bits: seq<bool>, q: nat, n: nat)
    requires n > 0 ==> HasSegment(bits, q, n - 1)
  {
    && |deltba| == 50
    && (forall k: nat, b :: k < n && 0 <= b < 50 && Covers(bits, q, k, b) ==> deltba[b] == Delta(bits, q, k))
    && (forall b :: 0 <= b < 50 ==> deltba[b] == 0 || exists k: nat :: k < n && Covers(bits, q, k, b))
  }

  lemma PaintSegment(before: seq<int>, after: seq<int>, bits: seq<bool>, q: nat, n: nat)
    requires HasSegment(bits, q, n) && Painted(before, bits, q, n) && |after| == 50
    requires forall b :: 0 <= b < 50 ==> after[b] == if Covers(bits, q, n, b) then Delta(bits, q, n) else before[b]
    ensures Painted(after, bits, q, n + 1)
  {
    hide Delta, Covers;
    forall k: nat, b | k < n + 1 && 0 <= b < 50 && Covers(bits, q, k, b)
      ensures after[b] == Delta(bits, q, k)
    {
      if k < n {
        SegmentsDisjoint(bits, q, k, n, b);
      }
    }
  }

  lemma DeltaRange(bits: seq<bool>, q: nat, k: nat)
    requires HasSegment(bits, q, k)
    ensures -4 <= Delta(bits, q, k) <= 4 && Delta(bits, q, k) != 0
    ensures Len(bits, q, k) < 16 && Offset(bits, q, k) < 32
  {
    hide Val;
    ValBound(bits[q + 12 * k + 9..q + 12 * k + 12]);
    ValBound(bits[q + 12 * k + 5..q + 12 * k + 9]);
    ValBound(bits[q + 12 * k..q + 12 * k + 5]);
    SmallPowers();
  }

  // ------------------------------------------------------------------ writing segments

  /** A segment as an encoder chooses it. */
  datatype Segment = Segment(offset: nat, len: nat, delta: int)

  predicate Codable(s: Segment) {
    s.offset < 32 && s.len < 16 && -4 <= s.delta <= 4 && s.delta != 0
  }

  function SegmentBits(s: Segment): (b: seq<bool>)
    requires Codable(s)
    ensures |b| == 12
  {
    BitsOf(s.offset, 5) + BitsOf(s.len, 4) + BitsOf(if s.delta > 0 then s.delta + 3 else s.delta + 4, 3)
  }

  function SegmentsBits(ss: seq<Segment>): (b: seq<bool>)
    requires forall k :: 0 <= k < |ss| ==> Codable(ss[k])
    ensures |b| == 12 * |ss|
    decreases |ss|
  {
    if ss == [] then [] else SegmentsBits(ss[..|ss| - 1]) + SegmentBits(ss[|ss| - 1])
  }

  lemma {:induction false} SegmentAt(ss: seq<Segment>, k: nat)
    requires (forall k :: 0 <= k < |ss| ==> Codable(ss[k])) && k < |ss|
    ensures SegmentsBits(ss)[12 * k..12 * k + 12] == SegmentBits(ss[k])
    decreases |ss|
  {
    hide SegmentBits;
    var front, last := SegmentsBits(ss[..|ss| - 1]), SegmentBits(ss[|ss| - 1]);
    if k < |ss| - 1 {
      SegmentAt(ss[..|ss| - 1], k);
      assert (front + last)[12 * k..12 * k + 12] == front[12 * k..12 * k + 12];
    }
  }

  lemma ThreeParts(bits: seq<bool>, at: nat, a: seq<bool>, b: seq<bool>, c: seq<bool>)
    requires at + 12 <= |bits| && |a| == 5 && |b| == 4 && |c| == 3 && bits[at..at + 12] == a + b + c
    ensures bits[at..at + 5] == a && bits[at + 5..at + 9] == b && bits[at + 9..at + 12] == c
  {
    var w := bits[at..at + 12];
    assert forall i :: 0 <= i < 12 ==> bits[at + i] == w[i];
    assert forall i :: 0 <= i < 5 ==> w[i] == a[i];
    assert forall i :: 0 <= i < 4 ==> w[5 + i] == b[i];
    assert forall i :: 0 <= i < 3 ==> w[9 + i] == c[i];
  }

  lemma FieldWritten(x: nat, n: nat)
    requires (n == 3 && x < 8) || (n == 4 && x < 16) || (n == 5 && x < 32)
    ensures Val(BitsOf(x, n)) == x
  {
    hide Val, BitsOf;
    SmallPowers();
    ValOfBits(x, n);
  }

  lemma CodeOfDelta(s: Segment)
    requires Codable(s)
    ensures var code := if s.delta > 0 then s.delta + 3 else s.delta + 4;
            0 <= code < 8 && s.delta == code - if code >= 4 then 3 else 4
  {
  }

  lemma FieldsRead(bits: seq<bool>, k: nat, at: nat, s: Segment)
    requires Codable(s) && at == 12 * k && at + 12 <= |bits| && bits[at..at + 12] == SegmentBits(s)
    ensures HasSegment(bits, 0, k) && Offset(bits, 0, k) == s.offset && Len(bits, 0, k) == s.len && Delta(bits, 0, k) == s.delta
  {
    var code := if s.delta > 0 then s.delta + 3 else s.delta + 4;
    CodeOfDelta(s);
    hide Val, BitsOf, Offset, Len, Delta;
    FieldWritten(s.offset, 5);
    FieldWritten(s.len, 4);
    FieldWritten(code, 3);
    SegmentFields(bits, 0, k, at);
    ThreeParts(bits, at, BitsOf(s.offset, 5), BitsOf(s.len, 4), BitsOf(code, 3));
  }

  /** What was written is what is read. */
  lemma SegmentRead(ss: seq<Segment>, k: nat)
    requires (forall i :: 0 <= i < |ss| ==> Codable(ss[i])) && k < |ss|
    ensures var bits := SegmentsBits(ss);
            && HasSegment(bits, 0, k) && Offset(bits, 0, k) == ss[k].offset && Len(bits, 0, k) == ss[k].len
            && Delta(bits, 0, k) == ss[k].delta
  {
    hide SegmentsBits, SegmentBits, Offset, Len, Delta;
    SegmentAt(ss, k);
    FieldsRead(SegmentsBits(ss), k, 12 * k, ss[k]);
  }

  /** Deltas that a stream can send: some list of one to eight segments leaves them. */
  ghost predicate Sendable(deltba: seq<int>) {
    exists bits: seq<bool>, n: nat :: 1 <= n <= 8 && SentBy(deltba, bits, n)
  }

  ghost predicate SentBy(deltba: seq<int>, bits: seq<bool>, n: nat) {
    |bits| == 12 * n && (forall k: nat :: k < n ==> Fits(bits, 0, k)) && Painted(deltba, bits, 0, n)
  }

  /** The same delta in every band that can have one. */
  function FlatDeltas(delta: int): (s: seq<int>)
    ensures |s| == 50
  {
    seq(50, b => if b < 49 then delta else 0)
  }

  lemma FlatIsSendable(delta: int)
    requires -4 <= delta <= 4 && delta != 0
    ensures Sendable(FlatDeltas(delta))
  {
    var ss := [Segment(0, 15, delta), Segment(0, 15, delta), Segment(0, 15, delta), Segment(0, 4, delta)];
    var bits := SegmentsBits(ss);
    forall k: nat | k < 4
      ensures HasSegment(bits, 0, k) && Offset(bits, 0, k) == ss[k].offset && Len(bits, 0, k) == ss[k].len
      ensures Delta(bits, 0, k) == delta
    {
      SegmentRead(ss, k);
      assert ss[k].delta == delta;
    }
    hide SegmentsBits, Offset, Len, Delta;
    FlatEnds(bits, ss, delta);
    FlatPainted(bits, delta);
    assert SentBy(FlatDeltas(delta), bits, 4);
  }

  lemma FlatEnds(bits: seq<bool>, ss: seq<Segment>, delta: int)
    requires ss == [Segment(0, 15, delta), Segment(0, 15, delta), Segment(0, 15, delta), Segment(0, 4, delta)] && |bits| == 48
    requires forall k: nat :: k < 4 ==> HasSegment(bits, 0, k) && Offset(bits, 0, k) == ss[k].offset && Len(bits, 0, k) == ss[k].len
    ensures End(bits, 0, 0) == 0 && End(bits, 0, 1) == 15 && End(bits, 0, 2) == 30 && End(bits, 0, 3) == 45 && End(bits, 0, 4) == 49
    ensures forall k: nat :: k < 4 ==> Offset(bits, 0, k) == 0 && Fits(bits, 0, k)
  {
    hide Offset, Len;
    assert Offset(bits, 0, 0) == 0 && Offset(bits, 0, 1) == 0 && Offset(bits, 0, 2) == 0 && Offset(bits, 0, 3) == 0;
    assert Len(bits, 0, 0) == 15 && Len(bits, 0, 1) == 15 && Len(bits, 0, 2) == 15 && Len(bits, 0, 3) == 4;
  }

  lemma FlatPainted(bits: seq<bool>, delta: int)
    requires |bits| == 48 && forall k: nat :: k < 4 ==> HasSegment(bits, 0, k) && Offset(bits, 0, k) == 0 && Delta(bits, 0, k) == delta
    requires End(bits, 0, 0) == 0 && End(bits, 0, 1) == 15 && End(bits, 0, 2) == 30 && End(bits, 0, 3) == 45 && End(bits, 0, 4) == 49
    ensures Painted(FlatDeltas(delta), bits, 0, 4)
  {
    hide Offset, Delta, End;
    forall k: nat, b | k < 4 && 0 <= b < 50 && Covers(bits, 0, k, b)
      ensures FlatDeltas(delta)[b] == Delta(bits, 0, k)
    {
      assert k == 0 || k == 1 || k == 2 || k == 3;
    }
    forall b | 0 <= b < 50
      ensures FlatDeltas(delta)[b] == 0 || exists k: nat :: k < 4 && Covers(bits, 0, k, b)
    {
      var k: nat := if b < 15 then 0 else if b < 30 then 1 else if b < 45 then 2 else 3;
      assert b < 49 ==> Covers(bits, 0, k, b);
    }
  }

  /** What is painted is what bit allocation demands of its deltas. */
  lemma PaintedIsLegal(deltba: seq<int>, bits: seq<bool>, q: nat, n: nat, f: BA.Fields)
    requires (n > 0 ==> HasSegment(bits, q, n - 1)) && Painted(deltba, bits, q, n)
    requires BA.ValidFields(f.(deltba := seq(50, _ => 0)))
    ensures BA.ValidFields(f.(deltba := deltba))
  {
    hide Delta, Covers;
    forall b | 0 <= b < 50
      ensures -4 <= deltba[b] <= 4
    {
      if deltba[b] != 0 {
        var k: nat :| k < n && Covers(bits, q, k, b);
        DeltaRange(bits, q, k);
      }
    }
  }

  /** The three fields of a segment. */
  method ReadSegment(state: A52.Reader, ghost q: nat, ghost k: nat) returns (offset: nat, deltlen: nat, delta: int)
    requires state.Valid() && state.Position() == q + 12 * k && q + 12 * k + 12 < |state.All()|
    modifies state
    ensures state.Valid() && state.Position() == q + 12 * k + 12 && HasSegment(state.All(), q, k)
    ensures offset == Offset(state.All(), q, k) && deltlen == Len(state.All(), q, k) && delta == Delta(state.All(), q, k)
  {
    ghost var bits, at := state.All(), state.Position();
    SegmentFields(bits, q, k, at);
    hide Val, Pow2, D.Payload, D.WordBits, Offset, Len, Delta;
    offset := state.Get(5);
    deltlen := state.Get(4);
    delta := state.Get(3);
    delta := delta - if delta >= 4 then 3 else 4;
  }

  lemma SegmentFields(bits: seq<bool>, q: nat, k: nat, at: int)
    requires HasSegment(bits, q, k) && at == q + 12 * k
    ensures Offset(bits, q, k) == Val(bits[at..at + 5]) && Len(bits, q, k) == Val(bits[at + 5..at + 9])
    ensures var code := Val(bits[at + 9..at + 12]); Delta(bits, q, k) == code - if code >= 4 then 3 else 4
  {
  }

  /** The inner loop: deltlen bands from j on receive the delta. */
  method FillSegment(deltba: array<int>, j0: nat, deltlen: nat, delta: int) returns (j: nat)
    requires deltba.Length == 50 && j0 + deltlen < 50
    modifies deltba
    ensures j == j0 + deltlen
    ensures forall b :: 0 <= b < 50 ==> deltba[b] == if j0 <= b < j then delta else old(deltba[b])
  {
    j := j0;
    var left := deltlen;
    while left > 0
      invariant 0 <= left <= deltlen && j == j0 + deltlen - left
      invariant forall b :: 0 <= b < 50 ==> deltba[b] == if j0 <= b < j then delta else old(deltba[b])
    {
      left := left - 1;
      deltba[j] := delta;
      j := j + 1;
    }
  }

  /** memset. */
  method Clear(deltba: array<int>)
    requires deltba.Length == 50
    modifies deltba
    ensures deltba[..] == seq(50, _ => 0)
  {
    for i := 0 to 50
      invariant forall b :: 0 <= b < i ==> deltba[b] == 0
    {
      deltba[i] := 0;
    }
  }

  /** One segment: it is read, and painted if it fits. */
  method ParseSegment(state: A52.Reader, deltba: array<int>, j0: nat, ghost q: nat, ghost k: nat) returns (failed: bool, j: nat)
    requires state.Valid() && state.Position() == q + 12 * k && q + 12 * k + 12 < |state.All()|
    requires deltba.Length == 50 && j0 == End(state.All(), q, k) && Painted(deltba[..], state.All(), q, k)
    modifies state, deltba
    ensures state.Valid() && state.Position() == q + 12 * (k + 1) && (failed <==> !Fits(state.All(), q, k))
    ensures if failed then Painted(deltba[..], state.All(), q, k)
            else j == End(state.All(), q, k + 1) && Painted(deltba[..], state.All(), q, k + 1)
  {
    hide Val, Pow2, D.Payload, Offset, Len, Delta, Painted;
    ghost var bits, before := state.All(), deltba[..];
    var offset, deltlen, delta := ReadSegment(state, q, k);
    j := j0 + offset;
    failed := false;
    if deltlen != 0 {
      if j + deltlen >= 50 {
        failed := true;
        return;
      }
      j := FillSegment(deltba, j, deltlen, delta);
    }
    PaintSegment(before, deltba[..], bits, q, k);
  }

  /** The outcome of n segments that begin at bit q: all fit, or the first that does not is
      where the parser stops. */
  ghost predicate Parsed(bits: seq<bool>, q: nat, n: nat, failed: bool, done: nat, position: int, deltba: seq<int>)
    requires q + 12 * n <= |bits|
  {
    && done <= n && (failed <==> done < n)
    && (forall k: nat :: k < done ==> Fits(bits, q, k))
    && (failed ==> !Fits(bits, q, done))
    && position == q + 12 * (if failed then done + 1 else n)
    && Painted(deltba, bits, q, done)
  }

  /** What the loop knows after `done` of n segments. */
  ghost predicate Progress(bits: seq<bool>, q: nat, n: nat, done: nat, position: int, j: int, deltba: seq<int>)
    requires q + 12 * n <= |bits|
  {
    && done <= n && (forall k: nat :: k < done ==> Fits(bits, q, k))
    && position == q + 12 * done && j == End(bits, q, done) && Painted(deltba, bits, q, done)
  }

  lemma ProgressBegins(bits: seq<bool>, q: nat, n: nat)
    requires q + 12 * n <= |bits|
    ensures Progress(bits, q, n, 0, q, 0, seq(50, _ => 0))
  {
  }

  lemma Progressed(bits: seq<bool>, q: nat, n: nat, done: nat, failed: bool, position: int, j: int, before: seq<int>, deltba: seq<int>, j0: int)
    requires q + 12 * n <= |bits| && done < n && Progress(bits, q, n, done, q + 12 * done, j0, before)
    requires position == q + 12 * (done + 1) && (failed <==> !Fits(bits, q, done))
    requires if failed then Painted(deltba, bits, q, done)
             else j == End(bits, q, done + 1) && Painted(deltba, bits, q, done + 1)
    ensures if failed then Parsed(bits, q, n, true, done, position, deltba)
            else Progress(bits, q, n, done + 1, position, j, deltba)
  {
    hide Painted, Fits, End;
  }

  lemma AllParsed(bits: seq<bool>, q: nat, n: nat, position: int, j: int, deltba: seq<int>)
    requires q + 12 * n <= |bits| && Progress(bits, q, n, n, position, j, deltba)
    ensures Parsed(bits, q, n, false, n, position, deltba)
  {
    hide Painted, Fits, End;
  }

  /** The loop over the segments. */
  method ParseSegments(state: A52.Reader, deltba: array<int>, count: nat, ghost q: nat) returns (failed: bool, ghost done: nat)
    requires state.Valid() && q + 12 * (count + 1) < |state.All()| && deltba.Length == 50
    requires Progress(state.All(), q, count + 1, 0, state.Position(), 0, deltba[..])
    modifies state, deltba
    ensures state.Valid() && Parsed(state.All(), q, count + 1, failed, done, state.Position(), deltba[..])
  {
    hide Parsed, Painted, Fits, End, Val, Pow2, D.Payload, D.WordBits;
    ghost var bits, n := state.All(), count + 1;
    var deltnseg, j, more := count, 0, true;
    done, failed := 0, false;
    while more
      invariant state.Valid() && Progress(bits, q, n, done, state.Position(), j, deltba[..])
      invariant if more then deltnseg == n - 1 - done else done == n
      decreases n - done, more
    {
      ghost var before, j0 := deltba[..], j;
      failed, j := ParseSegment(state, deltba, j, q, done);
      Progressed(bits, q, n, done, failed, state.Position(), j, before, deltba[..], j0);
      if failed {
        return;
      }
      done := done + 1;
      more := deltnseg != 0;
      if more { deltnseg := deltnseg - 1; }
    }
    AllParsed(bits, q, n, state.Position(), j, deltba[..]);
  }

  /**
   parse_deltba: it succeeds if and only if every segment fits, and then each band has the
   delta of the segment it lies in; otherwise the segments before the first that does not
   fit are in place.
   */
  method ParseDeltba(state: A52.Reader, deltba: array<int>) returns (failed: bool, ghost done: nat)
    requires state.Valid() && 0 <= state.Position() && state.Position() + 3 < |state.All()| && deltba.Length == 50
    requires state.Position() + 3 + 12 * (Val(state.All()[state.Position()..state.Position() + 3]) + 1) < |state.All()|
    modifies state, deltba
    ensures state.Valid()
    ensures var bits, q := state.All(), old(state.Position()) + 3;
            Parsed(bits, q, Val(bits[q - 3..q]) + 1, failed, done, state.Position(), deltba[..])
  {
    hide Val, Pow2, D.Payload, D.WordBits, Parsed, Progress;
    Clear(deltba);
    ghost var q := state.Position() + 3;
    ProgressBegins(state.All(), q, Val(state.All()[q - 3..q]) + 1);
    var deltnseg := state.Get(3);
    failed, done := ParseSegments(state, deltba, deltnseg, q);
  }
}
