/**
 The forward bit reader of libfaad (bits.c and bits.h).  It keeps two 32-bit words of the
 buffer, bufa and bufb, and delivers bits from the top; past the end of the buffer it
 delivers zeros.  Every operation is proved against that zero-padded bit string and the
 position that faad_get_processed_bits reports, so what a caller reads depends on the
 position alone, however it was reached.
 */
module AacReader {
  import opened Powers
  import opened Bits
  import opened ByteStrings

  // ------------------------------------------------------------------ loading

  /** Four bytes, the first one highest. */
  function Joined(b0: byte, b1: byte, b2: byte, b3: byte): u32 {
    b0 * 0x100_0000 + b1 * 65536 + b2 * 256 + b3
  }

  /** getdword. */
  function GetDword(buffer: seq<byte>, i: nat): u32
    requires 4 * i + 4 <= |buffer|
  {
    Joined(buffer[4 * i], buffer[4 * i + 1], buffer[4 * i + 2], buffer[4 * i + 3])
  }

  /** getdword_n: only the n bytes that are left, and nothing at all when n is 0. */
  function GetDwordN(buffer: seq<byte>, i: nat, n: nat): u32
    requires n < 4 && (n > 0 ==> 4 * i + n <= |buffer|)
  {
    Joined(if n >= 1 then buffer[4 * i] else 0, if n >= 2 then buffer[4 * i + 1] else 0,
           if n >= 3 then buffer[4 * i + 2] else 0, 0)
  }

  lemma AppendByte(s: seq<bool>, b: byte)
    ensures Val(s + BitsOf(b, 8)) == Val(s) * 256 + b
  {
    hide Val, BitsOf, Pow2;
    Pow2Values();
    ValOfBits(b, 8);
    ValJoin(s, BitsOf(b, 8));
  }

  lemma JoinedStepwise(b0: byte, b1: byte, b2: byte, b3: byte)
    ensures Joined(b0, b1, b2, b3) == ((b0 * 256 + b1) * 256 + b2) * 256 + b3
  {
  }

  lemma JoinedValue(b0: byte, b1: byte, b2: byte, b3: byte)
    ensures Joined(b0, b1, b2, b3) == Val(BitsOf(b0, 8) + BitsOf(b1, 8) + BitsOf(b2, 8) + BitsOf(b3, 8))
  {
    hide *;
    JoinedStepwise(b0, b1, b2, b3);
    AppendByte([], b0);
    assert [] + BitsOf(b0, 8) == BitsOf(b0, 8) && Val([]) == 0 by { EmptyVal(); }
    AppendByte(BitsOf(b0, 8), b1);
    AppendByte(BitsOf(b0, 8) + BitsOf(b1, 8), b2);
    AppendByte(BitsOf(b0, 8) + BitsOf(b1, 8) + BitsOf(b2, 8), b3);
  }

  /** A word of the zero-padded string, byte by byte. */
  lemma WordWindow(buffer: seq<byte>, i: nat)
    ensures Val(Window(buffer, 32 * i, 32))
         == Joined(ByteAt(buffer, 4 * i), ByteAt(buffer, 4 * i + 1), ByteAt(buffer, 4 * i + 2), ByteAt(buffer, 4 * i + 3))
  {
    hide Val, BitsOf, BitAt, Window, Joined, ByteAt;
    JoinedValue(ByteAt(buffer, 4 * i), ByteAt(buffer, 4 * i + 1), ByteAt(buffer, 4 * i + 2), ByteAt(buffer, 4 * i + 3));
    ByteWindow(buffer, 4 * i);
    ByteWindow(buffer, 4 * i + 1);
    ByteWindow(buffer, 4 * i + 2);
    ByteWindow(buffer, 4 * i + 3);
    WindowJoin(buffer, 32 * i, 8, 8);
    WindowJoin(buffer, 32 * i, 16, 8);
    WindowJoin(buffer, 32 * i, 24, 8);
  }

  // ------------------------------------------------------------------ the reader

  /** Everything that later reads depend on. */
  datatype Registers = Registers(bufa: u32, bufb: u32, bits_left: nat, bytes_left: nat, tail: nat)

  function Total(counts: seq<nat>): nat {
    if counts == [] then 0 else Total(counts[..|counts| - 1]) + counts[|counts| - 1]
  }

  class BitFile {
    var bufa: u32
    var bufb: u32
    var bits_left: nat
    var bytes_left: nat
    var error: bool
    var tail: nat             // counted in words from start
    const buffer: seq<byte>

    ghost predicate Valid()
      reads this
    {
      && buffer != [] && tail >= 2 && bits_left <= 32
      && bytes_left == (if |buffer| >= 4 * tail then |buffer| - 4 * tail else 0)
      && bufa == Val(Window(buffer, 32 * (tail - 2), 32))
      && bufb == Val(Window(buffer, 32 * (tail - 1), 32))
    }

    /** How many bits have been passed. */
    ghost function Position(): (p: nat)
      requires Valid()
      reads this
    {
      32 * (tail - 1) - bits_left
    }

    ghost function Fields(): Registers
      reads this
    {
      Registers(bufa, bufb, bits_left, bytes_left, tail)
    }

    /** Load one word, whole or in part, and count its bytes off. */
    method Load(i: nat, left: nat) returns (tmp: u32, rest: nat)
      requires left == (if |buffer| >= 4 * i then |buffer| - 4 * i else 0)
      ensures tmp == Val(Window(buffer, 32 * i, 32))
      ensures rest == (if |buffer| >= 4 * (i + 1) then |buffer| - 4 * (i + 1) else 0)
    {
      hide Val, Window, Joined;
      WordWindow(buffer, i);
      if left >= 4 {
        tmp, rest := GetDword(buffer, i), left - 4;
      } else {
        tmp, rest := GetDwordN(buffer, i, left), 0;
      }
    }

    /** faad_initbits on a cleared bitfile: an empty buffer is an error. */
    constructor (buffer: seq<byte>)
      ensures this.buffer == buffer && error == (buffer == [])
      ensures buffer != [] ==> Valid() && Position() == 0
    {
      this.buffer := buffer;
      bufa, bufb, bits_left, bytes_left, tail, error := 0, 0, 0, 0, 0, buffer == [];
      new;
      if buffer != [] {
        ResetBits(0);
      }
    }

    /** faad_get_processed_bits, in 32 bits. */
    method GetProcessedBits() returns (r: u32)
      requires Valid()
      ensures r == Position() % 0x1_0000_0000
    {
      r := (8 * (4 * tail - 4) - bits_left) % 0x1_0000_0000;
    }

    /** faad_showbits: the next bits, nothing moves.  A read of 32 bits needs a bit left in the first word. */
    method ShowBits(bits: nat) returns (r: u32)
      requires Valid() && 1 <= bits <= 32 && (bits == 32 ==> bits_left > 0)
      ensures r == Val(Window(buffer, Position(), bits))
    {
      hide Val, Pow2, Window, Shl, Shr, Or;
      if bits <= bits_left {
        FieldInWord(buffer, tail - 2, bits_left, bits);
        r := Shr(Shl(bufa, 32 - bits_left), 32 - bits);
      } else {
        var more := bits - bits_left;
        FieldAcrossWords(buffer, tail - 2, bits_left, more);
        r := Or(Shl(bufa % Pow2(bits_left), more), Shr(bufb, 32 - more), more);
      }
    }

    /** faad_flushbits, and faad_flushbits_ex when the first word is used up. */
    method FlushBits(bits: nat)
      requires Valid() && bits <= 32
      modifies this
      ensures Valid() && error == old(error)
      ensures Position() == old(Position()) + if error then 0 else bits
      ensures old(bits_left) > 0 ==> bits_left > 0
      ensures bits < old(bits_left) ==> tail == old(tail)
    {
      hide Val, Window;
      if error {
        return;
      }
      if bits < bits_left {
        bits_left := bits_left - bits;
      } else {
        FlushBitsEx(bits);
      }
    }

    /** faad_flushbits_ex. */
    method FlushBitsEx(bits: nat)
      requires Valid() && bits_left <= bits <= bits_left + 32
      modifies this
      ensures Valid() && error == old(error) && Position() == old(Position()) + bits
      ensures tail == old(tail) + 1 && bits_left == old(bits_left) + 32 - bits
    {
      hide Val, Window;
      bufa := bufb;
      var tmp, rest := Load(tail, bytes_left);
      bufb, bytes_left := tmp, rest;
      tail := tail + 1;
      bits_left := bits_left + 32 - bits;
    }

    /** faad_getbits: the next n bits, and the reader moves past them. */
    method GetBits(n: nat) returns (r: u32)
      requires Valid() && n <= 32 && (n == 32 ==> bits_left > 0)
      modifies this
      ensures Valid() && error == old(error)
      ensures Position() == old(Position()) + if error then 0 else n
      ensures r == Val(Window(buffer, old(Position()), n))
      ensures old(bits_left) > 0 ==> bits_left > 0
    {
      hide Val, Window;
      if n == 0 {
        EmptyVal();
        assert Window(buffer, Position(), 0) == [];
        return 0;
      }
      r := ShowBits(n);
      FlushBits(n);
    }

    /**
     faad_get1bit: one bit.  While the first word has bits it moves even after an error, and
     it may leave none in it.
     */
    method Get1Bit() returns (r: u32)
      requires Valid()
      modifies this
      ensures Valid() && error == old(error)
      ensures Position() == old(Position()) + if error && old(bits_left) == 0 then 0 else 1
      ensures r == Val(Window(buffer, old(Position()), 1))
    {
      hide Val, Pow2, Window;
      if bits_left > 0 {
        ghost var s, bl := Window(buffer, 32 * (tail - 2), 32), bits_left;
        LowBitOfShift(s, bl);
        WindowSlice(buffer, 32 * (tail - 2), 32, 32 - bl, 32 - bl + 1);
        bits_left := bits_left - 1;
        r := Shr(bufa, bits_left) % 2;
        return;
      }
      r := GetBits(1);
    }

    /** faad_rewindbits. */
    method RewindBits()
      requires Valid()
      modifies this
      ensures Valid() && Position() == 0 && bits_left == 32 && error == old(error)
    {
      hide Val, Window;
      var tmp, rest := Load(0, |buffer|);
      bufa, bytes_left := tmp, rest;
      tmp, rest := Load(1, bytes_left);
      bufb, bytes_left := tmp, rest;
      bits_left := 32;
      tail := 2;
    }

    /** faad_resetbits, for targets whose word starts inside the buffer or at its end. */
    method ResetBits(bits: nat)
      requires buffer != [] && 4 * (bits / 32) <= |buffer|
      modifies this
      ensures Valid() && Position() == bits && bits_left > 0 && !error
    {
      hide Val, Window;
      var words, remainder := bits / 32, bits % 32;
      var tmp, rest := Load(words, |buffer| - words * 4);
      bufa, bytes_left := tmp, rest;
      tmp, rest := Load(words + 1, bytes_left);
      bufb, bytes_left := tmp, rest;
      bits_left := 32 - remainder;
      tail := words + 2;
      error := false;
    }

    /** A rewind and any number of flushes.  The rewind does not clear an error, after which
        flushes do nothing. */
    method RewindAndFlush(counts: seq<nat>)
      requires Valid() && forall i :: 0 <= i < |counts| ==> counts[i] <= 32
      modifies this
      ensures Valid() && error == old(error) && bits_left > 0
      ensures Position() == if error then 0 else Total(counts)
    {
      hide Val, Window;
      RewindBits();
      for i := 0 to |counts|
        invariant Valid() && error == old(error) && bits_left > 0
        invariant Position() == if error then 0 else Total(counts[..i])
      {
        FlushBits(counts[i]);
        assert counts[..i + 1][..i] == counts[..i];
      }
      assert counts[..|counts|] == counts;
    }

    /** faad_byte_align: on to the next byte boundary; what is returned is how many bits that passes. */
    method ByteAlign() returns (r: nat)
      requires Valid()
      modifies this
      ensures Valid() && error == old(error)
      ensures r < 8 && (old(Position()) + r) % 8 == 0
      ensures Position() == old(Position()) + if error then 0 else r
    {
      hide Val, Window;
      var remainder := (32 - bits_left) % 8;
      assert Position() % 8 == remainder;
      if remainder != 0 {
        FlushBits(8 - remainder);
        return 8 - remainder;
      }
      return 0;
    }

    /** faad_getbitbuffer: the next bits as bytes, the last one padded with zeros on the right; without a remainder the extra byte is unset. */
    method GetBitBuffer(bits: nat) returns (out: array<byte>)
      requires Valid() && !error
      modifies this
      ensures Valid() && !error && Position() == old(Position()) + bits
      ensures fresh(out) && out.Length == bits / 8 + 1
      ensures forall i :: 0 <= i < bits / 8 ==> BitsOf(out[i], 8) == Window(buffer, old(Position()) + 8 * i, 8)
      ensures bits % 8 != 0 ==>
                BitsOf(out[bits / 8], 8) == Window(buffer, old(Position()) + bits / 8 * 8, bits % 8) + Zeros(8 - bits % 8)
    {
      hide Val, Window, BitsOf, Pow2;
      var bytes, remainder := bits / 8, bits % 8;
      ghost var start := Position();
      out := new byte[bytes + 1];
      var i := 0;
      while i < bytes
        invariant i <= bytes && Valid() && !error && Position() == start + 8 * i
        invariant fresh(out)
        invariant forall j :: 0 <= j < i ==> BitsOf(out[j], 8) == Window(buffer, start + 8 * j, 8)
      {
        var temp := GetBits(8);
        ByteFromBits(Window(buffer, start + 8 * i, 8));
        out[i] := temp;
        i := i + 1;
      }
      if remainder != 0 {
        var temp := GetBits(remainder);
        ghost var s := Window(buffer, start + 8 * bytes, remainder);
        ShlExact(s, 8 - remainder);
        ValJoin(s, Zeros(8 - remainder));
        ValZeros(8 - remainder);
        ByteFromBits(s + Zeros(8 - remainder));
        out[bytes] := Shl(temp, 8 - remainder);
      }
    }
  }

  /** The bl low bits of one word and the high bits of the next, put together. */
  lemma AcrossWords(s: seq<bool>, t: seq<bool>, bl: nat, more: nat)
    requires |s| == 32 && |t| == 32 && 1 <= more <= 31 && bl + more <= 32
    ensures Val(s) % Pow2(bl) == Val(s[32 - bl..]) < 0x1_0000_0000 && Val(t) < 0x1_0000_0000
    ensures var hi, lo := Shl(Val(s) % Pow2(bl), more), Shr(Val(t), 32 - more);
            hi % Pow2(more) == 0 && lo < Pow2(more) && Or(hi, lo, more) == Val(s[32 - bl..] + t[..more])
  {
    hide Val, Pow2, Shl;
    var high, low := s[32 - bl..], t[..more];
    ValSplit(s, bl);
    ShrBits(t, 32 - more);
    JoinFields(high, low);
    var w, v := Word(high), Word(t);
  }

  lemma FieldInWord(buffer: seq<byte>, i: nat, bl: nat, n: nat)
    requires 1 <= n <= bl <= 32
    ensures Val(Window(buffer, 32 * i, 32)) < 0x1_0000_0000
    ensures Shr(Shl(Val(Window(buffer, 32 * i, 32)), 32 - bl), 32 - n) == Val(Window(buffer, 32 * i + 32 - bl, n))
  {
    hide Val, Pow2, Window, Shl, Shr;
    var s := Window(buffer, 32 * i, 32);
    var w := Word(s);
    FieldOfWord(s, bl, n);
    WindowSlice(buffer, 32 * i, 32, 32 - bl, 32 - bl + n);
  }

  lemma FieldAcrossWords(buffer: seq<byte>, i: nat, bl: nat, more: nat)
    requires 1 <= more <= 31 && bl + more <= 32
    ensures Val(Window(buffer, 32 * i, 32)) % Pow2(bl) < 0x1_0000_0000 && Val(Window(buffer, 32 * (i + 1), 32)) < 0x1_0000_0000
    ensures var hi := Shl(Val(Window(buffer, 32 * i, 32)) % Pow2(bl), more);
            var lo := Shr(Val(Window(buffer, 32 * (i + 1), 32)), 32 - more);
            hi % Pow2(more) == 0 && lo < Pow2(more) && Or(hi, lo, more) == Val(Window(buffer, 32 * i + 32 - bl, bl + more))
  {
    hide *;
    WindowsAcross(buffer, i, bl, more);
    AcrossWords(Window(buffer, 32 * i, 32), Window(buffer, 32 * (i + 1), 32), bl, more);
  }

  lemma WindowsAcross(buffer: seq<byte>, i: nat, bl: nat, more: nat)
    requires bl <= 32 && more <= 32
    ensures Window(buffer, 32 * i, 32)[32 - bl..] + Window(buffer, 32 * (i + 1), 32)[..more]
         == Window(buffer, 32 * i + 32 - bl, bl + more)
  {
    hide Window;
    WindowSlice(buffer, 32 * i, 32, 32 - bl, 32);
    WindowSlice(buffer, 32 * (i + 1), 32, 0, more);
    WindowJoin(buffer, 32 * i + 32 - bl, bl, more);
  }

  lemma ByteFromBits(s: seq<bool>)
    requires |s| == 8
    ensures Val(s) < 256 && BitsOf(Val(s), 8) == s
  {
    hide Val, Pow2, BitsOf;
    ValBound(s);
    Pow2Values();
    BitsOfVal(s);
  }

  lemma LowBitOfShift(s: seq<bool>, bl: nat)
    requires |s| == 32 && 1 <= bl <= 32
    ensures Shr(Word(s), bl - 1) % 2 == Val(s[32 - bl..32 - bl + 1])
  {
    hide Val, Pow2, Shr;
    var t := s[..33 - bl];
    ShrBits(s, bl - 1);
    ValSplit(t, 1);
    assert t[|t| - 1..] == s[32 - bl..32 - bl + 1];
    assert Pow2(1) == 2 by { SmallPowers(); }
  }

  /** The position and the buffer determine every field, except that a used-up first word may still be in hand. */
  lemma SamePositionSameState(a: BitFile, b: BitFile)
    requires a.Valid() && b.Valid() && a.buffer == b.buffer && a.Position() == b.Position()
    requires (a.bits_left == 0) == (b.bits_left == 0)
    ensures a.tail == b.tail && a.bits_left == b.bits_left && a.bytes_left == b.bytes_left
    ensures a.bufa == b.bufa && a.bufb == b.bufb
  {
    hide Val, Window;
    assert a.tail == b.tail;
  }

  /** faad_resetbits(k) leaves in every field what faad_rewindbits and any flushes that sum
      to k leave, unless an error is pending: only the reset clears it. */
  method ResetEqualsFlushes(a: BitFile, b: BitFile, counts: seq<nat>)
    requires a != b && a.buffer == b.buffer != [] && b.Valid() && 4 * (Total(counts) / 32) <= |a.buffer|
    requires forall i :: 0 <= i < |counts| ==> counts[i] <= 32
    modifies a, b
    ensures a.Valid() && b.Valid() && !a.error && b.error == old(b.error)
    ensures !b.error ==> a.Fields() == b.Fields()
    ensures b.error ==> (a.Fields() == b.Fields() <==> Total(counts) == 0)
  {
    hide Val, Window;
    a.ResetBits(Total(counts));
    b.RewindAndFlush(counts);
    if a.Position() == b.Position() {
      SamePositionSameState(a, b);
    }
  }
}
