/** A byte buffer as a bit string, most significant bit of each byte first, with zeros past its end. */
module ByteStrings {
  import opened Powers
  import opened Bits

  function ByteAt(buffer: seq<byte>, i: nat): byte {
    if i < |buffer| then buffer[i] else 0
  }

  function BitAt(buffer: seq<byte>, k: nat): bool {
    BitsOf(ByteAt(buffer, k / 8), 8)[k % 8]
  }

  /** n bits from bit pos on. */
  function Window(buffer: seq<byte>, pos: nat, n: nat): (s: seq<bool>)
    ensures |s| == n
  {
    seq(n, i requires 0 <= i < n => BitAt(buffer, pos + i))
  }

  lemma WindowSlice(buffer: seq<byte>, pos: nat, n: nat, a: nat, b: nat)
    requires a <= b <= n
    ensures Window(buffer, pos, n)[a..b] == Window(buffer, pos + a, b - a)
  {
    hide BitAt;
  }

  lemma WindowJoin(buffer: seq<byte>, pos: nat, m: nat, n: nat)
    ensures Window(buffer, pos, m) + Window(buffer, pos + m, n) == Window(buffer, pos, m + n)
  {
    hide BitAt;
  }

  lemma ByteWindow(buffer: seq<byte>, i: nat)
    ensures Window(buffer, 8 * i, 8) == BitsOf(ByteAt(buffer, i), 8)
  {
    hide BitsOf;
    forall j: nat | j < 8
      ensures Window(buffer, 8 * i, 8)[j] == BitsOf(ByteAt(buffer, i), 8)[j]
    {
      var k := 8 * i + j;
      DivUnique(k, 8, i, j);
      assert Window(buffer, 8 * i, 8)[j] == BitAt(buffer, k);
    }
  }
}
