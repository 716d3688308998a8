/**
 The bit reader of liba52 (bitstream.h and bitstream.c): 32-bit big-endian words, the
 undelivered bits of the word in hand kept at its top.  The host is little-endian.  The
 payload is the one of DtsReader in its 16-bit big-endian format, which is the plain
 sequence of the buffer's bytes.
 */
module A52Reader {
  import opened Powers
  import opened Bits
  import opened Seqs
  import D = DtsReader
  import ByteStrings

  /** The payload is the bytes of the buffer, the most significant bit of each one first. */
  lemma {:induction false} PayloadIsBytes(buffer: seq<byte>, n: nat)
    requires 4 * n <= |buffer|
    ensures D.Payload(buffer, n, true, true) == ByteStrings.Window(buffer, 0, 32 * n)
  {
    hide D.WordBits, ByteStrings.Window;
    if n > 0 {
      PayloadIsBytes(buffer, n - 1);
      WordIsBytes(buffer, n - 1);
      ByteStrings.WindowJoin(buffer, 0, 32 * (n - 1), 32);
    } else {
      assert |ByteStrings.Window(buffer, 0, 0)| == 0;
    }
  }

  lemma WordIsBytes(buffer: seq<byte>, i: nat)
    requires 4 * i + 4 <= |buffer|
    ensures D.WordBits(buffer, i, true, true) == ByteStrings.Window(buffer, 32 * i, 32)
  {
    hide BitsOf, ByteStrings.Window, Pow2;
    Pow2Values();
    JoinBits(buffer[4 * i], buffer[4 * i + 1], 8, 8);
    JoinBits(buffer[4 * i + 2], buffer[4 * i + 3], 8, 8);
    ByteStrings.ByteWindow(buffer, 4 * i);
    ByteStrings.ByteWindow(buffer, 4 * i + 1);
    ByteStrings.ByteWindow(buffer, 4 * i + 2);
    ByteStrings.ByteWindow(buffer, 4 * i + 3);
    ByteStrings.WindowJoin(buffer, 32 * i, 8, 8);
    ByteStrings.WindowJoin(buffer, 32 * i, 16, 8);
    ByteStrings.WindowJoin(buffer, 32 * i, 24, 8);
    var b0, b1, b2, b3 := BitsOf(buffer[4 * i], 8), BitsOf(buffer[4 * i + 1], 8), BitsOf(buffer[4 * i + 2], 8), BitsOf(buffer[4 * i + 3], 8);
    assert (b0 + b1) + (b2 + b3) == b0 + b1 + b2 + b3;
  }

  /** The number a bit string denotes in two's complement. */
  function SignedVal(s: seq<bool>): int {
    if s != [] && s[0] then Val(s) - Pow2(|s|) else Val(s)
  }

  function Signed(x: u32): int {
    if x >= 0x8000_0000 then x - 0x1_0000_0000 else x
  }

  lemma SignedWord(s: seq<bool>)
    requires |s| == 32
    ensures Signed(Word(s)) == SignedVal(s)
  {
    hide Val, Pow2;
    Pow2Values();
    ValSplit(s, 31);
    ValBound(s[1..]);
    assert s[..|s| - 31] == s[..1] && s[..1] == [s[0]];
    OneBit(s[0]);
  }

  lemma OneBit(b: bool)
    ensures Val([b]) == if b then 1 else 0
  {
    assert [b][..0] == [];
  }

  /** An arithmetic shift keeps the top bits with their sign. */
  lemma AsrBits(s: seq<bool>, n: nat)
    requires |s| == 32 && 1 <= n <= 32
    ensures Signed(Word(s)) / Pow2(32 - n) == SignedVal(s[..n])
  {
    hide Val, Pow2, Signed, Word;
    SignedWord(s);
    ValSplit(s, 32 - n);
    Pow2Add(n, 32 - n);
    var p, v := Pow2(32 - n), Val(s);
    assert s[..|s| - (32 - n)] == s[..n];
    if s[0] {
      var q, r := v / p, v % p;
      assert v - Pow2(n) * p == (q - Pow2(n)) * p + r;
      DivUnique(v - Pow2(n) * p, p, q - Pow2(n), r);
    }
  }

  lemma SignedJoin(a: seq<bool>, b: seq<bool>)
    requires a != []
    ensures SignedVal(a + b) == SignedVal(a) * Pow2(|b|) + Val(b)
  {
    hide Val, Pow2;
    ValJoin(a, b);
    Pow2Add(|a|, |b|);
    assert (a + b)[0] == a[0];
    if a[0] {
      assert (Val(a) - Pow2(|a|)) * Pow2(|b|) == Val(a) * Pow2(|b|) - Pow2(|a|) * Pow2(|b|);
    }
  }

  class Reader {
    const buffer: seq<byte>
    var next: nat           // buffer_start, counted in words
    var bits_left: nat
    var current_word: u32

    ghost function All(): seq<bool> {
      D.Payload(buffer, |buffer| / 4, true, true)
    }

    /** The undelivered bits of the word in hand. */
    ghost function Rest(): (s: seq<bool>)
      requires 0 < next && 4 * next <= |buffer| && bits_left <= 32
      reads this
      ensures |s| == bits_left
    {
      D.WordBits(buffer, next - 1, true, true)[32 - bits_left..]
    }

    ghost function Position(): int
      reads this
    {
      32 * next - bits_left
    }

    ghost predicate Valid()
      reads this
    {
      && 0 < next && 4 * next <= |buffer| && 1 <= bits_left <= 32
      && current_word == Val(Rest() + Zeros(32 - bits_left))
    }

    lemma Window()
      requires Valid()
      ensures 0 <= Position() && Position() + bits_left <= |All()|
      ensures Rest() == All()[Position()..Position() + bits_left]
    {
      hide Val, D.Payload, D.WordBits;
      D.PayloadWord(buffer, |buffer| / 4, next - 1, true, true);
      var w := All()[32 * (next - 1)..32 * (next - 1) + 32];
      assert w[32 - bits_left..] == All()[Position()..Position() + bits_left];
    }

    /** The next word of the buffer, in the order of its bytes. */
    method Fetch() returns (w: u32)
      requires 4 * next + 4 <= |buffer|
      modifies this`next
      ensures next == old(next) + 1 && w == Val(D.WordBits(buffer, old(next), true, true))
    {
      hide Val, D.WordBits, D.Load, D.Swab32;
      D.KeptIsPayload(buffer, next, true, true);
      w := D.Swab32(D.Load(buffer, next));
      next := next + 1;
    }

    /** a52_bitstream_set_ptr, for a frame that starts align bytes after a word boundary. */
    constructor (buffer: seq<byte>, align: nat)
      requires align <= 3 && |buffer| >= 4
      ensures Valid() && Position() == 8 * align && this.buffer == buffer
    {
      this.buffer := buffer;
      next, bits_left, current_word := 0, 0, 0;
      new;
      hide Val, D.WordBits;
      var w := Fetch();
      ShlBits(D.WordBits(buffer, 0, true, true), 8 * align);
      current_word := Shl(w, 8 * align);
      bits_left := 32 - 8 * align;
    }

    /** What is left of a word after n bits from its top, and those n bits. */
    lemma Taken(n: nat)
      requires Valid() && 1 <= n <= bits_left
      ensures Word(Rest() + Zeros(32 - bits_left)) == current_word
      ensures (Rest() + Zeros(32 - bits_left))[..n] == Rest()[..n]
      ensures n < 32 ==> Shl(current_word, n) == Val(Rest()[n..] + Zeros(32 - bits_left + n))
    {
      hide Val, D.WordBits, Shl, Rest;
      var s := Rest() + Zeros(32 - bits_left);
      if n < 32 {
        ShlBits(s, n);
        assert s[n..] + Zeros(n) == Rest()[n..] + Zeros(32 - bits_left + n);
      }
    }

    /** Fast path, after the field has been cut out. */
    method Advance(n: nat)
      requires Valid() && 1 <= n < bits_left
      modifies this`current_word, this`bits_left
      ensures Valid() && Position() == old(Position()) + n
    {
      hide Val, D.WordBits, Shl;
      Taken(n);
      ghost var rest := Rest();
      current_word := Shl(current_word, n);
      bits_left := bits_left - n;
      assert Rest() == rest[n..];
    }

    /** The refill of the slow path: m bits of a new word are taken. */
    method Refill(m: nat) returns (top: u32)
      requires 4 * next + 4 <= |buffer| && m <= 31
      modifies this
      ensures Valid() && next == old(next) + 1 && bits_left == 32 - m
      ensures top == Val(D.WordBits(buffer, old(next), true, true)[..m])
    {
      hide Val, D.WordBits, Shl;
      var w := Fetch();
      ghost var s := D.WordBits(buffer, next - 1, true, true);
      top := 0;
      if m != 0 {
        ShrBits(s, 32 - m);
        ShlBits(s, m);
        top := Shr(w, 32 - m);
        w := Shl(w, m);
      } else {
        EmptyVal();
        assert s[..0] == [] && s[0..] + Zeros(0) == s;
      }
      current_word := w;
      bits_left := 32 - m;
      assert Rest() == s[m..];
    }

    lemma FieldAcross(p: int, bl: nat, m: nat, i: nat)
      requires 4 * i + 4 <= |buffer| && 0 <= bl <= 32 && m <= 32 && p == 32 * i - bl && p >= 0
      ensures p + bl + m <= |All()|
      ensures All()[p..p + bl + m] == All()[p..p + bl] + D.WordBits(buffer, i, true, true)[..m]
    {
      hide D.Payload, D.WordBits;
      D.PayloadWord(buffer, |buffer| / 4, i, true, true);
      var w := All()[32 * i..32 * i + 32];
      assert w[..m] == All()[32 * i..32 * i + m];
      assert All()[p..p + bl + m] == All()[p..p + bl] + All()[p + bl..p + bl + m];
    }

    /** A field inside the word in hand. */
    lemma FastField(n: nat)
      requires Valid() && 1 <= n <= bits_left
      ensures 0 <= Position() && Position() + n <= |All()|
      ensures Shr(current_word, 32 - n) == Val(All()[Position()..Position() + n])
      ensures Signed(current_word) / Pow2(32 - n) == SignedVal(All()[Position()..Position() + n])
    {
      hide Val, Pow2, D.Payload, D.WordBits, Shl, Shr, SignedVal, Signed, Rest;
      Window();
      FieldOfHand(Rest(), current_word, n);
      SliceOfSlice(All(), Position(), bits_left, n);
    }

    /** A field that goes on for m bits in the word that comes next. */
    lemma SlowField(m: nat)
      requires Valid() && 4 * next + 4 <= |buffer| && bits_left + m <= 32
      ensures 0 <= Position() && Position() + bits_left + m <= |All()|
      ensures var top := D.WordBits(buffer, next, true, true)[..m];
              var field := All()[Position()..Position() + bits_left + m];
              && Val(field) == Val(All()[Position()..Position() + bits_left]) * Pow2(m) + Val(top)
              && SignedVal(field) == SignedVal(All()[Position()..Position() + bits_left]) * Pow2(m) + Val(top)
    {
      hide Val, Pow2, D.Payload, D.WordBits, SignedVal;
      Window();
      FieldAcross(Position(), bits_left, m, next);
      var rest, top := All()[Position()..Position() + bits_left], D.WordBits(buffer, next, true, true)[..m];
      ValJoin(rest, top);
      SignedJoin(rest, top);
    }

    /** bitstream_get with a52_bitstream_get_bh: an unsigned field of 1 to 32 bits. */
    method Get(num_bits: nat) returns (result: u32)
      requires Valid() && 1 <= num_bits <= 32 && Position() + num_bits < |All()|
      modifies this
      ensures Valid() && Position() == old(Position()) + num_bits && 0 <= old(Position())
      ensures result == Val(All()[old(Position())..old(Position()) + num_bits])
      ensures result < Pow2(num_bits)
    {
      hide Val, Pow2, D.Payload, D.WordBits, Shl, Shr, Or, Rest;
      if num_bits < bits_left {
        FastField(num_bits);
        result := Shr(current_word, 32 - num_bits);
        Advance(num_bits);
      } else {
        FastField(bits_left);
        result := Shr(current_word, 32 - bits_left);
        var m := num_bits - bits_left;
        MoreToFetch(num_bits);
        SlowField(m);
        ghost var rest, i := All()[Position()..Position() + bits_left], next;
        var top := Refill(m);
        if m != 0 {
          JoinFields(rest, D.WordBits(buffer, i, true, true)[..m]);
          result := Or(Shl(result, m), top, m);
        } else {
          SmallPowers();
          EmptyVal();
        }
      }
      ValBound(All()[old(Position())..old(Position()) + num_bits]);
    }

    /** bitstream_get_2 with a52_bitstream_get_bh_2: a field in two's complement. */
    method GetSigned(num_bits: nat) returns (result: int)
      requires Valid() && 1 <= num_bits <= 32 && Position() + num_bits < |All()|
      modifies this
      ensures Valid() && Position() == old(Position()) + num_bits && 0 <= old(Position())
      ensures result == SignedVal(All()[old(Position())..old(Position()) + num_bits])
    {
      hide Val, Pow2, D.Payload, D.WordBits, Shl, Shr, SignedVal, Signed, Rest;
      if num_bits < bits_left {
        FastField(num_bits);
        result := Signed(current_word) / Pow2(32 - num_bits);
        Advance(num_bits);
      } else {
        FastField(bits_left);
        result := Signed(current_word) / Pow2(32 - bits_left);
        var m := num_bits - bits_left;
        MoreToFetch(num_bits);
        SlowField(m);
        var top := Refill(m);
        if m != 0 {
          result := result * Pow2(m) + top;
        } else {
          SmallPowers();
          EmptyVal();
        }
      }
    }

    /** A read that reaches the end of the word in hand finds another one. */
    lemma MoreToFetch(n: nat)
      requires Valid() && bits_left <= n && Position() + n < |All()|
      ensures 4 * next + 4 <= |buffer|
    {
      hide D.Payload, D.WordBits, Val;
    }
  }

  /** The top bits of a word that holds some bits and zeros below them. */
  lemma FieldOfHand(rest: seq<bool>, w: u32, n: nat)
    requires 1 <= n <= |rest| <= 32 && w == Val(rest + Zeros(32 - |rest|))
    ensures Shr(w, 32 - n) == Val(rest[..n])
    ensures Signed(w) / Pow2(32 - n) == SignedVal(rest[..n])
  {
    hide Val, Pow2, Shr, Signed, SignedVal;
    var s := rest + Zeros(32 - |rest|);
    ShrBits(s, 32 - n);
    AsrBits(s, n);
    assert s[..32 - (32 - n)] == rest[..n];
  }
}
