/** The Rubix bit buffer, and what bit list its bytes and write position stand for. */
module RubixBuffer {
  import opened Words
  import opened BitLists

  const DATA_OFFSET_BITS: nat := 8
  const DEFAULT_SETTINGS: byte := 0

  /** Unused bits of the last byte: none at position 0 or at the initial position 8. */
  function Padding(writeBitPos: nat): nat
    requires writeBitPos <= 8
  {
    (8 - writeBitPos) % 8
  }

  class SerialData {
    var Buffer: seq<byte>
    var ReadBitPos: nat
    var WriteBitPos: nat

    /** Buffer's bits end in zero padding that reaches the write position. */
    ghost predicate Valid()
      reads this
    {
      && 0 < |Buffer|
      && WriteBitPos <= 8
      && 8 <= 8 * |Buffer| - Padding(WriteBitPos)
      && Unpack(Buffer) == Unpack(Buffer)[..8 * |Buffer| - Padding(WriteBitPos)] + Zeros(Padding(WriteBitPos))
    }

    /** The bits written so far, settings byte included. */
    ghost function Written(): Bits
      reads this
      requires Valid()
    {
      Unpack(Buffer)[..8 * |Buffer| - Padding(WriteBitPos)]
    }

    constructor New()
      ensures Valid() && Buffer == [DEFAULT_SETTINGS]
      ensures ReadBitPos == DATA_OFFSET_BITS && WriteBitPos == DATA_OFFSET_BITS
      ensures Written() == Zeros(8)
    {
      Buffer := [DEFAULT_SETTINGS];
      ReadBitPos := DATA_OFFSET_BITS;
      WriteBitPos := DATA_OFFSET_BITS;
      new;
      forall i: nat | i < 8 ensures !BitAt(Buffer, i) {
        BitOfZero(7 - i % 8);
      }
    }

    constructor WithBuffer(buffer: seq<byte>)
      ensures Buffer == buffer
      ensures ReadBitPos == DATA_OFFSET_BITS && WriteBitPos == DATA_OFFSET_BITS
    {
      Buffer := buffer;
      ReadBitPos := DATA_OFFSET_BITS;
      WriteBitPos := DATA_OFFSET_BITS;
    }
  
    predicate HasPositionalData()
      requires 0 < |Buffer|
      reads this
    {
      Buffer[0] % 2 == 1
    }

    /** The positional flag is bit 7 of what has been written. */
    lemma PositionalFlag()
      requires Valid()
      ensures HasPositionalData() == Written()[7]
    {
      assert Unpack(Buffer)[7] == BitAt(Buffer, 7);
    }

    method SetPositionalData(on: bool)
      requires Valid()
      modifies this`Buffer
      ensures Valid() && |Buffer| == old(|Buffer|)
      ensures Written() == old(Written())[7 := on]
    {
      ghost var before := Buffer;
      Buffer := Buffer[0 := BitSet(Buffer[0], on, 0)];
      forall i | 0 <= i < 8 * |Buffer|
        ensures Unpack(Buffer)[i] == Unpack(before)[7 := on][i]
      {
        BitOfBitSet(before[0], on, 0, 7 - i % 8);
        assert Unpack(before)[i] == BitAt(before, i);
      }
    }
  }

  /** `byteValue | 1 << position` or `byteValue &^ 1 << position`. */
  function BitSet(byteValue: byte, bit: bool, position: nat): byte
  {
    if bit then ToByte(Or(byteValue, Pow2(position))) else ToByte(AndNot(byteValue, Pow2(position)))
  }

  lemma BitOfBitSet(byteValue: byte, bit: bool, position: nat, j: nat)
    requires position < 8 && j < 8
    ensures Bit(BitSet(byteValue, bit, position), j) == if j == position then bit else Bit(byteValue, j)
  {
    BitOfPow2(position, j);
    if bit {
      BitOfToByte(Or(byteValue, Pow2(position)), j);
      BitOfOr(byteValue, Pow2(position), j);
    } else {
      BitOfToByte(AndNot(byteValue, Pow2(position)), j);
      BitOfAndNot(byteValue, Pow2(position), j);
    }
  }
}
