/** The abstract bit list both halves of the Rubix codec are measured against: a sequence of
    booleans, most significant bit first, with no notion of byte boundaries. */
module BitLists {
  import opened Words

  type Bits = seq<bool>

  function Zeros(n: nat): Bits
  {
    seq(n, _ => false)
  }

  /** The low n bits of v, most significant first. */
  function BitsOf(v: nat, n: nat): (bits: Bits)
    ensures |bits| == n
  {
    seq(n, i requires 0 <= i < n => Bit(v, n - 1 - i))
  }

  /** The number a bit list spells. */
  function ValueOf(bits: Bits): nat
  {
    if bits == [] then 0
    else 2 * ValueOf(bits[..|bits| - 1]) + (if bits[|bits| - 1] then 1 else 0)
  }

  /** Bit i of a byte string read from the front. */
  predicate BitAt(bytes: seq<byte>, i: nat)
    requires i < 8 * |bytes|
  {
    Bit(bytes[i / 8], 7 - i % 8)
  }

  /** A byte string as one bit list. */
  function Unpack(bytes: seq<byte>): (bits: Bits)
    ensures |bits| == 8 * |bytes|
  {
    seq(8 * |bytes|, i requires 0 <= i < 8 * |bytes| => BitAt(bytes, i))
  }

  lemma {:induction false} BitOfValue(bits: Bits, j: nat)
    ensures Bit(ValueOf(bits), j) == (j < |bits| && bits[|bits| - 1 - j])
  {
    if bits == [] {
      BitOfZero(j);
    } else if j > 0 {
      BitOfValue(bits[..|bits| - 1], j - 1);
    }
  }

  lemma {:induction false} ValueBound(bits: Bits)
    ensures ValueOf(bits) < Pow2(|bits|)
  {
    if bits != [] {
      ValueBound(bits[..|bits| - 1]);
    }
  }

  /** Writing a number in n bits and reading it back keeps it modulo 2^n. */
  lemma ValueOfBitsOf(v: nat, n: nat)
    ensures ValueOf(BitsOf(v, n)) == v % Pow2(n)
  {
    ValueBound(BitsOf(v, n));
    forall j: nat | j < n
      ensures Bit(ValueOf(BitsOf(v, n)), j) == Bit(v % Pow2(n), j)
    {
      BitOfValue(BitsOf(v, n), j);
      BitOfMod(v, n, j);
    }
    SameBitsSameWord(ValueOf(BitsOf(v, n)), v % Pow2(n), n);
  }

  /** A word below 2^n is spelled by its own n bits, and by no other n bits. */
  lemma SpelledBy(v: nat, bits: Bits)
    requires v < Pow2(|bits|)
    requires forall i: nat | i < |bits| :: Bit(v, |bits| - 1 - i) == bits[i]
    ensures v == ValueOf(bits)
  {
    ValueBound(bits);
    forall j: nat | j < |bits|
      ensures Bit(v, j) == Bit(ValueOf(bits), j)
    {
      BitOfValue(bits, j);
      var i := |bits| - 1 - j;
      assert Bit(v, |bits| - 1 - i) == bits[i];
    }
    SameBitsSameWord(v, ValueOf(bits), |bits|);
  }

  lemma {:induction false} ValueOfZeros(n: nat)
    ensures ValueOf(Zeros(n)) == 0
  {
    if n > 0 {
      assert Zeros(n)[..n - 1] == Zeros(n - 1);
      ValueOfZeros(n - 1);
    }
  }

  lemma UnpackAppend(bytes: seq<byte>, last: byte)
    ensures Unpack(bytes + [last]) == Unpack(bytes) + BitsOf(last, 8)
  {
    var grown := bytes + [last];
    forall i | 0 <= i < 8 * |grown|
      ensures Unpack(grown)[i] == (Unpack(bytes) + BitsOf(last, 8))[i]
    {
      assert Unpack(grown)[i] == BitAt(grown, i);
      if i >= 8 * |bytes| {
        assert i / 8 == |bytes| && i % 8 == i - 8 * |bytes|;
      }
    }
  }
}
