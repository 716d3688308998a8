/**
 The bit reader of the DTS decoder (bitstream.c and bitstream.h of libdca): a buffer of
 32-bit words in one of four formats, 16 or 14 payload bits in each 16-bit half, the
 halves in big- or little-endian byte order.  The host is little-endian and the buffer
 starts on a word boundary.

 The payload is the plain bit string that the halves hold.  The reader keeps one word and
 the number of its bits not yet delivered; each read is proved to return the next bits of
 the payload.
 */
module DtsReader {
  import opened Powers
  import opened Bits
  import opened Seqs

  // ------------------------------------------------------------------ the payload

  /** How many payload bits a word carries. */
  function Width(wordMode: bool): nat { if wordMode then 32 else 28 }

  /** A 16-bit half of the buffer. */
  function Half(first: byte, second: byte, bigEndian: bool): (h: nat)
    ensures h < 65536
  {
    if bigEndian then first * 256 + second else second * 256 + first
  }

  /** The payload bits of word i. */
  function WordBits(buffer: seq<byte>, i: nat, wordMode: bool, bigEndian: bool): (s: seq<bool>)
    requires 4 * i + 4 <= |buffer|
    ensures |s| == Width(wordMode)
  {
    var n := Width(wordMode) / 2;
    BitsOf(Half(buffer[4 * i], buffer[4 * i + 1], bigEndian), n)
    + BitsOf(Half(buffer[4 * i + 2], buffer[4 * i + 3], bigEndian), n)
  }

  /** The payload of the first n words. */
  function Payload(buffer: seq<byte>, n: nat, wordMode: bool, bigEndian: bool): (s: seq<bool>)
    requires 4 * n <= |buffer|
    ensures |s| == n * Width(wordMode)
  {
    if n == 0 then [] else Payload(buffer, n - 1, wordMode, bigEndian) + WordBits(buffer, n - 1, wordMode, bigEndian)
  }

  lemma {:induction false} PayloadWord(buffer: seq<byte>, n: nat, i: nat, wordMode: bool, bigEndian: bool)
    requires 4 * n <= |buffer| && i < n
    ensures var w := Width(wordMode);
            Payload(buffer, n, wordMode, bigEndian)[w * i..w * i + w] == WordBits(buffer, i, wordMode, bigEndian)
  {
    var w := Width(wordMode);
    if i < n - 1 {
      PayloadWord(buffer, n - 1, i, wordMode, bigEndian);
      var p := Payload(buffer, n - 1, wordMode, bigEndian);
      assert w * i + w <= |p|;
      assert (p + WordBits(buffer, n - 1, wordMode, bigEndian))[w * i..w * i + w] == p[w * i..w * i + w];
    }
  }

  // ------------------------------------------------------------------ packing

  /** A half with these payload bits; the bits above them, if any, hold fill. */
  function PackHalf(s: seq<bool>, bigEndian: bool, fill: nat): (b: seq<byte>)
    requires |s| <= 16 && (fill + 1) * Pow2(|s|) <= 65536
    ensures |b| == 2 && Half(b[0], b[1], bigEndian) == Val(s) + fill * Pow2(|s|)
  {
    ValBound(s);
    HalfFits(Val(s), fill, Pow2(|s|));
    var h := Val(s) + fill * Pow2(|s|);
    if bigEndian then [h / 256, h % 256] else [h % 256, h / 256]
  }

  lemma HalfFits(v: nat, fill: nat, p: nat)
    requires v < p && (fill + 1) * p <= 65536
    ensures 0 <= v + fill * p < 65536
  {
    assert (fill + 1) * p == fill * p + p;
    MulMonotonic(0, fill, p);
  }

  function PackWord(s: seq<bool>, wordMode: bool, bigEndian: bool, fill: nat): (b: seq<byte>)
    requires |s| == Width(wordMode) && (if wordMode then fill == 0 else fill < 4)
    ensures |b| == 4
  {
    Pow2Values();
    var n := Width(wordMode) / 2;
    PackHalf(s[..n], bigEndian, fill) + PackHalf(s[n..], bigEndian, fill)
  }

  /** A buffer with this payload. */
  function Pack(s: seq<bool>, words: nat, wordMode: bool, bigEndian: bool, fill: nat): (b: seq<byte>)
    requires |s| == words * Width(wordMode) && (if wordMode then fill == 0 else fill < 4)
    ensures |b| == 4 * words
    decreases words
  {
    if words == 0 then []
    else
      var k := |s| - Width(wordMode);
      Pack(s[..k], words - 1, wordMode, bigEndian, fill) + PackWord(s[k..], wordMode, bigEndian, fill)
  }

  lemma HalfHolds(s: seq<bool>, fill: nat)
    ensures BitsOf(Val(s) + fill * Pow2(|s|), |s|) == s
    decreases |s|
  {
    if s != [] {
      var front := s[..|s| - 1];
      HalfHolds(front, fill);
      DoubleProduct(fill, Pow2(|front|));
      assert (Val(s) + fill * Pow2(|s|)) / 2 == Val(front) + fill * Pow2(|front|);
    }
  }

  lemma WordHolds(s: seq<bool>, wordMode: bool, bigEndian: bool, fill: nat)
    requires |s| == Width(wordMode) && (if wordMode then fill == 0 else fill < 4)
    ensures WordBits(PackWord(s, wordMode, bigEndian, fill), 0, wordMode, bigEndian) == s
  {
    hide Val, Pow2, BitsOf, Half, PackHalf;
    Pow2Values();
    var n := Width(wordMode) / 2;
    HalfHolds(s[..n], fill);
    HalfHolds(s[n..], fill);
    SplitJoin(s, n);
  }

  /** Only the words' own bytes count. */
  lemma {:induction false} PayloadOfPrefix(a: seq<byte>, b: seq<byte>, n: nat, wordMode: bool, bigEndian: bool)
    requires 4 * n <= |a|
    ensures Payload(a + b, n, wordMode, bigEndian) == Payload(a, n, wordMode, bigEndian)
  {
    if n > 0 {
      PayloadOfPrefix(a, b, n - 1, wordMode, bigEndian);
    }
  }

  /**
   In each of the four formats, the payload of what is packed is what was packed, whatever
   fills the unused bits: a 14-bits-in-16 buffer and a 16-bit buffer of the same bits have
   the same payload.
   */
  lemma {:induction false} PayloadOfPacked(s: seq<bool>, words: nat, wordMode: bool, bigEndian: bool, fill: nat)
    requires |s| == words * Width(wordMode) && (if wordMode then fill == 0 else fill < 4)
    ensures Payload(Pack(s, words, wordMode, bigEndian, fill), words, wordMode, bigEndian) == s
    decreases words
  {
    hide PackWord, BitsOf, Half;
    if words > 0 {
      var k := |s| - Width(wordMode);
      var front, last := Pack(s[..k], words - 1, wordMode, bigEndian, fill), PackWord(s[k..], wordMode, bigEndian, fill);
      PayloadOfPacked(s[..k], words - 1, wordMode, bigEndian, fill);
      PayloadOfPrefix(front, last, words - 1, wordMode, bigEndian);
      WordHolds(s[k..], wordMode, bigEndian, fill);
      assert WordBits(front + last, words - 1, wordMode, bigEndian) == WordBits(last, 0, wordMode, bigEndian);
      SplitJoin(s, k);
    }
  }

  // ------------------------------------------------------------------ loading a word

  function FromBytes(b0: int, b1: int, b2: int, b3: int): int {
    b0 + 256 * b1 + 65536 * b2 + 0x100_0000 * b3
  }

  /** The word as a little-endian host loads it. */
  function Load(buffer: seq<byte>, i: nat): u32
    requires 4 * i + 4 <= |buffer|
  {
    FromBytes(buffer[4 * i], buffer[4 * i + 1], buffer[4 * i + 2], buffer[4 * i + 3])
  }

  /** swab32: all four bytes reversed. */
  function Swab32(x: u32): u32 {
    x % 256 * 0x100_0000 + x / 256 % 256 * 65536 + x / 65536 % 256 * 256 + x / 0x100_0000
  }

  /** swable32: the two halves exchanged. */
  function Swable32(x: u32): u32 {
    x / 65536 + x % 65536 * 65536
  }

  /** bitstream_fill_current, on values: the word as it is kept, right-aligned. */
  function Kept(x: u32, wordMode: bool, bigEndian: bool): u32 {
    var c := if bigEndian then Swab32(x) else Swable32(x);
    if wordMode then c else c % 0x4000 + c / 65536 % 0x4000 * 0x4000
  }

  lemma BytesBack(b0: byte, b1: byte, b2: byte, b3: byte)
    ensures var x := FromBytes(b0, b1, b2, b3);
            && x / 256 == b1 + 256 * b2 + 65536 * b3 && x % 256 == b0
            && x / 65536 == b2 + 256 * b3 && x % 65536 == b0 + 256 * b1
            && x / 0x100_0000 == b3
  {
  }

  lemma SwappedHalves(b0: byte, b1: byte, b2: byte, b3: byte, bigEndian: bool)
    ensures var x := FromBytes(b0, b1, b2, b3);
            (if bigEndian then Swab32(x) else Swable32(x))
            == Half(b0, b1, bigEndian) * 65536 + Half(b2, b3, bigEndian)
  {
    hide FromBytes;
    BytesBack(b0, b1, b2, b3);
    assert (b1 + 256 * b2 + 65536 * b3) % 256 == b1 && (b2 + 256 * b3) % 256 == b2;
  }

  lemma KeptHalves(h0: nat, h1: nat)
    requires h0 < 65536 && h1 < 65536
    ensures var c := h0 * 65536 + h1;
            c % 0x4000 + c / 65536 % 0x4000 * 0x4000 == h0 % 0x4000 * 0x4000 + h1 % 0x4000
  {
    var c := h0 * 65536 + h1;
    DivUnique(c, 65536, h0, h1);
    DivUnique(c, 0x4000, h0 * 4 + h1 / 0x4000, h1 % 0x4000);
  }

  lemma HalvesValue(h0: nat, h1: nat, n: nat)
    requires h0 < 65536 && h1 < 65536
    ensures Val(BitsOf(h0, n) + BitsOf(h1, n)) == h0 % Pow2(n) * Pow2(n) + h1 % Pow2(n)
  {
    hide Val, Pow2, BitsOf;
    ValJoin(BitsOf(h0, n), BitsOf(h1, n));
    ValOfBits(h0, n);
    ValOfBits(h1, n);
  }

  lemma HalvesKept(h0: nat, h1: nat, wordMode: bool)
    requires h0 < 65536 && h1 < 65536
    ensures var n := Width(wordMode) / 2;
            var c := h0 * 65536 + h1;
            Val(BitsOf(h0, n) + BitsOf(h1, n)) == if wordMode then c else c % 0x4000 + c / 65536 % 0x4000 * 0x4000
  {
    hide Val, Pow2, BitsOf;
    Pow2Values();
    if wordMode {
      HalvesValue(h0, h1, 16);
    } else {
      HalvesValue(h0, h1, 14);
      KeptHalves(h0, h1);
    }
  }

  /** The swap, and the removal of the two unused bits of each half, leave the payload bits. */
  lemma KeptIsPayload(buffer: seq<byte>, i: nat, wordMode: bool, bigEndian: bool)
    requires 4 * i + 4 <= |buffer|
    ensures Kept(Load(buffer, i), wordMode, bigEndian) == Val(WordBits(buffer, i, wordMode, bigEndian))
  {
    hide Val, Pow2, BitsOf, Swab32, Swable32, FromBytes, Half;
    var b0, b1, b2, b3 := buffer[4 * i], buffer[4 * i + 1], buffer[4 * i + 2], buffer[4 * i + 3];
    SwappedHalves(b0, b1, b2, b3, bigEndian);
    HalvesKept(Half(b0, b1, bigEndian), Half(b2, b3, bigEndian), wordMode);
  }

  // ------------------------------------------------------------------ the reader

  /** A field of n bits at the top of the bl low bits of a kept word. */
  lemma FieldOfKept(s: seq<bool>, bl: nat, n: nat)
    requires |s| <= 32 && 1 <= n <= bl <= |s|
    ensures Shr(Shl(Word(s), 32 - bl), 32 - n) == Val(s[|s| - bl..|s| - bl + n])
  {
    var z := 32 - |s|;
    LeadingZeros(z, s);
    FieldOfWord(Zeros(z) + s, bl, n);
    JoinSplit(Zeros(z), s);
    assert (Zeros(z) + s)[32 - bl..32 - bl + n] == (Zeros(z) + s)[z..][|s| - bl..|s| - bl + n];
  }

  class Reader {
    const buffer: seq<byte>
    const word_mode: bool
    const bigendian_mode: bool
    var next: nat           // buffer_start, counted in words
    var current_word: u32
    var bits_left: nat

    /** Everything the buffer holds. */
    ghost function All(): seq<bool> {
      Payload(buffer, |buffer| / 4, word_mode, bigendian_mode)
    }

    /** The bits of the word in hand. */
    ghost function InHand(): seq<bool>
      requires 0 < next && 4 * next <= |buffer|
      reads this
    {
      WordBits(buffer, next - 1, word_mode, bigendian_mode)
    }

    /** How many payload bits have been delivered. */
    ghost function Position(): int
      reads this
    {
      Width(word_mode) * next - bits_left
    }

    ghost predicate Valid()
      reads this
    {
      && 0 < next && 4 * next <= |buffer|
      && bits_left <= Width(word_mode) && (word_mode ==> bits_left > 0)
      && current_word == Val(InHand())
    }

    /** The undelivered bits of the word in hand are the next bits of the payload. */
    lemma Window()
      requires Valid()
      ensures 0 <= Position() && Position() + bits_left <= |All()|
      ensures InHand()[Width(word_mode) - bits_left..] == All()[Position()..Position() + bits_left]
    {
      hide Val, WordBits, Payload;
      PayloadWord(buffer, |buffer| / 4, next - 1, word_mode, bigendian_mode);
      if word_mode {
        SliceTail(All(), 32 * (next - 1), 32, bits_left);
      } else {
        SliceTail(All(), 28 * (next - 1), 28, bits_left);
      }
    }

    /** bitstream_fill_current. */
    method FillCurrent()
      requires 4 * next + 4 <= |buffer|
      modifies this`next, this`current_word
      ensures next == old(next) + 1 && current_word == Val(InHand())
    {
      hide Val, Pow2, WordBits, Kept, Load, BitsOf;
      var tmp := Load(buffer, next);
      KeptIsPayload(buffer, next, word_mode, bigendian_mode);
      next := next + 1;
      current_word := Kept(tmp, word_mode, bigendian_mode);
    }

    /** dca_bitstream_init on an aligned buffer: nothing is delivered, one word is fetched. */
    constructor (buffer: seq<byte>, word_mode: bool, bigendian_mode: bool)
      requires |buffer| >= 4
      ensures Valid() && Position() == 0
      ensures this.buffer == buffer && this.word_mode == word_mode && this.bigendian_mode == bigendian_mode
    {
      this.buffer, this.word_mode, this.bigendian_mode := buffer, word_mode, bigendian_mode;
      next, bits_left, current_word := 0, 0, 0;
      new;
      var nothing := GetBh(0);
    }

    /** A field inside the word in hand. */
    lemma FastField(n: nat)
      requires Valid() && 1 <= n <= bits_left
      ensures 0 <= Position() && Position() + n <= |All()|
      ensures Shr(Shl(current_word, 32 - bits_left), 32 - n) == Val(All()[Position()..Position() + n])
    {
      hide Val, Pow2, Payload, WordBits, Shl, Shr;
      Window();
      HandField(InHand(), current_word, bits_left, n);
      SliceOfSlice(All(), Position(), bits_left, n);
    }

    /** The bits from start to the end of word i - 1, and m more of word i. */
    lemma JoinsWord(start: nat, i: nat, m: nat)
      requires 4 * i + 4 <= |buffer| && start <= Width(word_mode) * i && m <= Width(word_mode)
      ensures Width(word_mode) * i + m <= |All()|
      ensures All()[start..Width(word_mode) * i + m]
           == All()[start..Width(word_mode) * i] + WordBits(buffer, i, word_mode, bigendian_mode)[..m]
    {
      hide Payload, WordBits;
      var w, s := Width(word_mode), All();
      PayloadWord(buffer, |buffer| / 4, i, word_mode, bigendian_mode);
      assert |buffer| / 4 >= i + 1;
      assert w * i + m <= |s|;
      SliceOfSlice(s, w * i, w, m);
      assert s[start..w * i + m] == s[start..w * i] + s[w * i..w * i + m];
    }

    /** What is left in hand, if anything is. */
    method TakeHand() returns (result: u32)
      requires Valid() || (next == 0 && bits_left == 0)
      ensures 0 <= Position() && Position() + bits_left <= |All()|
      ensures result == Val(All()[Position()..Position() + bits_left])
    {
      hide Val, Pow2, Payload, WordBits, Shl, Shr;
      result := 0;
      if bits_left != 0 {
        FastField(bits_left);
        result := Shr(Shl(current_word, 32 - bits_left), 32 - bits_left);
      } else {
        if next > 0 {
          Window();
        }
        EmptyVal();
        assert All()[Position()..Position()] == [];
      }
    }

    /** dca_bitstream_get_bh: the read crosses the end of the word in hand. */
    method GetBh(num_bits: nat) returns (result: u32)
      requires Valid() || (next == 0 && bits_left == 0 && num_bits == 0 && |buffer| >= 4)
      requires bits_left <= num_bits <= 32 && Position() + num_bits < |All()|
      modifies this
      ensures Valid() && Position() == old(Position()) + num_bits
      ensures old(Position()) >= 0 && result == Val(All()[old(Position())..old(Position()) + num_bits])
    {
      hide Val, Pow2, Payload, WordBits, Kept, Load, Shl, Shr;
      ghost var start := Position();
      result := TakeHand();
      var m := num_bits - bits_left;
      if !word_mode && m > 28 {
        result := AbsorbWord(result, start);
        m := m - 28;
      }
      result := AbsorbTop(result, m, start);
      bits_left := Width(word_mode) - m;
    }

    /** A whole 28-bit word joins what has been read. */
    method AbsorbWord(result0: u32, ghost start: nat) returns (result: u32)
      requires !word_mode && 4 * next + 4 <= |buffer| && start <= 28 * next <= start + 4 && 28 * next <= |All()|
      requires result0 == Val(All()[start..28 * next])
      modifies this`next, this`current_word
      ensures next == old(next) + 1 && 28 * next <= |All()|
      ensures result == Val(All()[start..28 * next])
    {
      hide Val, Pow2, Payload, WordBits, Kept, Load, Shl;
      JoinsWord(start, next, 28);
      ghost var done := All()[start..28 * next];
      FillCurrent();
      assert InHand()[..28] == InHand();
      JoinFields(done, InHand());
      result := Or(Shl(result0, 28), current_word, 28);
    }

    /** The first m bits of a new word join what has been read. */
    method AbsorbTop(result0: u32, m: nat, ghost start: nat) returns (result: u32)
      requires 4 * next + 4 <= |buffer| && m <= 31 && m <= Width(word_mode)
      requires start <= Width(word_mode) * next <= |All()| && Width(word_mode) * next - start + m <= 32
      requires result0 == Val(All()[start..Width(word_mode) * next])
      modifies this`next, this`current_word
      ensures next == old(next) + 1 && current_word == Val(InHand())
      ensures Width(word_mode) * old(next) + m <= |All()|
      ensures result == Val(All()[start..Width(word_mode) * old(next) + m])
    {
      hide Val, Pow2, Payload, WordBits, Kept, Load, Shl;
      JoinsWord(start, next, m);
      ghost var done := All()[start..Width(word_mode) * next];
      FillCurrent();
      result := result0;
      var w := Width(word_mode);
      if m != 0 {
        ValSplit(InHand(), w - m);
        JoinFields(done, InHand()[..m]);
        result := Or(Shl(result0, m), Shr(current_word, w - m), m);
      } else {
        assert done + InHand()[..0] == done;
      }
    }

    /** bitstream_get: a field of 1 to 32 bits. */
    method Get(num_bits: nat) returns (result: u32)
      requires Valid() && 1 <= num_bits <= 32 && Position() + num_bits < |All()|
      modifies this
      ensures Valid() && Position() == old(Position()) + num_bits
      ensures old(Position()) >= 0 && result == Val(All()[old(Position())..old(Position()) + num_bits])
    {
      hide Val, Pow2, Payload, WordBits, Kept, Load, Shl, Shr;
      if num_bits < bits_left {
        FastField(num_bits);
        result := Shr(Shl(current_word, 32 - bits_left), 32 - num_bits);
        bits_left := bits_left - num_bits;
      } else {
        result := GetBh(num_bits);
      }
    }
  }

  /** The top n of the bl low bits of a kept word. */
  lemma HandField(s: seq<bool>, w: u32, bl: nat, n: nat)
    requires |s| <= 32 && 1 <= n <= bl <= |s| && w == Val(s)
    ensures Shr(Shl(w, 32 - bl), 32 - n) == Val(s[|s| - bl..][..n])
  {
    hide Val, Shl, Shr;
    FieldOfKept(s, bl, n);
    assert s[|s| - bl..][..n] == s[|s| - bl..|s| - bl + n];
  }

  lemma SliceTail(s: seq<bool>, p: nat, w: nat, b: nat)
    requires b <= w && p + w <= |s|
    ensures s[p..p + w][w - b..] == s[p + w - b..p + w]
  {
  }

  // ------------------------------------------------------------------ one payload in two formats

  function Total(widths: seq<nat>): nat {
    if widths == [] then 0 else Total(widths[..|widths| - 1]) + widths[|widths| - 1]
  }

  predicate Readable(widths: seq<nat>) {
    forall i :: 0 <= i < |widths| ==> 1 <= widths[i] <= 32
  }

  /** The consecutive fields of these widths from bit p of s on. */
  function Fields(s: seq<bool>, p: nat, widths: seq<nat>): seq<nat>
    requires p + Total(widths) <= |s|
    decreases |widths|
  {
    if widths == [] then []
    else
      var front, w := widths[..|widths| - 1], widths[|widths| - 1];
      Fields(s, p, front) + [Val(s[p + Total(front)..p + Total(front) + w])]
  }

  lemma {:induction false} TotalGrows(widths: seq<nat>, i: nat)
    requires i <= |widths|
    ensures Total(widths[..i]) <= Total(widths)
    decreases |widths|
  {
    if i < |widths| {
      var front := widths[..|widths| - 1];
      TotalGrows(front, i);
      assert front[..i] == widths[..i];
    } else {
      assert widths[..i] == widths;
    }
  }

  lemma FieldsMore(s: seq<bool>, p: nat, widths: seq<nat>, i: nat)
    requires i < |widths| && p + Total(widths) <= |s|
    ensures Total(widths[..i + 1]) == Total(widths[..i]) + widths[i] && p + Total(widths[..i + 1]) <= |s|
    ensures Fields(s, p, widths[..i + 1])
            == Fields(s, p, widths[..i]) + [Val(s[p + Total(widths[..i])..p + Total(widths[..i]) + widths[i]])]
  {
    TotalGrows(widths, i);
    TotalGrows(widths, i + 1);
    assert widths[..i + 1][..i] == widths[..i];
  }

  /** Any sequence of reads returns the consecutive fields of what the buffer begins with. */
  method ReadFields(r: Reader, widths: seq<nat>, ghost s: seq<bool>) returns (fields: seq<nat>)
    requires r.Valid() && r.Position() == 0 && s <= r.All() && |s| < |r.All()|
    requires Readable(widths) && Total(widths) <= |s|
    modifies r
    ensures r.Valid() && r.Position() == Total(widths)
    ensures fields == Fields(s, 0, widths)
  {
    hide Val, Payload, WordBits, Fields, Total;
    fields := [];
    NoFields(s);
    for i := 0 to |widths|
      invariant r.Valid() && r.Position() == Total(widths[..i]) <= |s| && fields == Fields(s, 0, widths[..i])
    {
      FieldsMore(s, 0, widths, i);
      ghost var at: nat := r.Position();
      var field := r.Get(widths[i]);
      assert r.All()[at..at + widths[i]] == s[at..at + widths[i]];
      fields := fields + [field];
    }
    assert widths[..|widths|] == widths;
  }

  lemma NoFields(s: seq<bool>)
    ensures Total([]) == 0 && Fields(s, 0, []) == []
  {
  }

  /** A packing, with padding at the end of the last word, begins with the payload. */
  lemma PaddedPacking(s: seq<bool>, pad: seq<bool>, words: nat, wordMode: bool, bigEndian: bool, fill: nat)
    requires |s + pad| == words * Width(wordMode) && (if wordMode then fill == 0 else fill < 4)
    ensures var p := Payload(Pack(s + pad, words, wordMode, bigEndian, fill), words, wordMode, bigEndian);
            s <= p && |p| == |s| + |pad|
  {
    hide Payload, Pack;
    PayloadOfPacked(s + pad, words, wordMode, bigEndian, fill);
  }

  /** A payload of any length, packed 16 bits in 16 and 14 bits in 16, each in either byte
      order and padded with anything, reads the same up to its end: every sequence of reads
      returns the same fields from both, and they are the payload's. */
  method PackingsReadAlike(s: seq<bool>, widths: seq<nat>, pad16: seq<bool>, words16: nat, big16: bool,
                           pad14: seq<bool>, words14: nat, big14: bool, fill: nat)
    returns (a: seq<nat>, b: seq<nat>)
    requires |s + pad16| == words16 * 32 && pad16 != [] && |s + pad14| == words14 * 28 && pad14 != [] && fill < 4
    requires Readable(widths) && Total(widths) <= |s|
    ensures a == b == Fields(s, 0, widths)
  {
    hide Payload, Pack, Fields, Total, Readable;
    PaddedPacking(s, pad16, words16, true, big16, 0);
    PaddedPacking(s, pad14, words14, false, big14, fill);
    var r16 := new Reader(Pack(s + pad16, words16, true, big16, 0), true, big16);
    a := ReadFields(r16, widths, s);
    var r14 := new Reader(Pack(s + pad14, words14, false, big14, fill), false, big14);
    b := ReadFields(r14, widths, s);
  }
}
