/** The writing half of the Rubix codec: shifting a byte vector to the write position,
    merging it into the buffer, and encoding one field. */
module Encoder {
  import opened Words
  import opened BitLists
  import opened SerialMap
  import opened RubixBuffer
  import opened RubixFields
  import opened FixedPoint

  /** The shifted-in copy of one byte: what `reshapeVector` leaves in the 64-bit carry TB. */
  ghost predicate Carries(tb: nat, some: bool, last: byte)
  {
    && (forall j: nat | j < 8 :: !Bit(tb, j))
    && (forall j: nat | 8 <= j < 16 :: Bit(tb, j) == (some && Bit(last, j - 8)))
  }

  /** One turn of the carry loop: the byte written out is the pair (last, next) shifted right by w,
      whatever older bytes the carry still holds above bit 16. */
  lemma CarryStep(tb: nat, some: bool, last: byte, next: byte, w: nat)
    requires w <= 8 && Carries(tb, some, last)
    ensures var t := Shr(Shl64(Or(tb, next), 8), w);
            && Carries(Shl64(t, w), true, next)
            && forall k: nat | k < 8 ::
                 Bit(ToByte(Shr(t, 8)), k) == (if k + w < 8 then Bit(next, k + w) else some && Bit(last, k + w - 8))
  {
    hide Bit, Or, Shr, Shl64, Pow2;
    var x := Shl64(Or(tb, next), 8);
    var t := Shr(x, w);
    forall j: nat
      ensures Bit(x, j) == (8 <= j < 64 && (Bit(tb, j - 8) || Bit(next, j - 8)))
    {
      BitOfShl64(Or(tb, next), 8, j);
      if j >= 8 {
        BitOfOr(tb, next, j - 8);
      }
    }
    forall k: nat | k < 8
      ensures Bit(ToByte(Shr(t, 8)), k) == (if k + w < 8 then Bit(next, k + w) else some && Bit(last, k + w - 8))
    {
      BitOfToByte(Shr(t, 8), k);
      BitOfShr(t, 8, k);
      BitOfShr(x, w, k + 8);
      assert Bit(x, k + 8 + w) == (Bit(tb, k + w) || Bit(next, k + w));
      if k + w >= 8 {
        NoHighBits(next, k + w);
      }
    }
    forall j: nat | j < 16
      ensures Bit(Shl64(t, w), j) == (8 <= j && Bit(next, j - 8))
    {
      BitOfShl64(t, w, j);
      if w <= j {
        BitOfShr(x, w, j - w);
      }
    }
  }

  lemma NoHighBits(b: byte, j: nat)
    requires j >= 8
    ensures !Bit(b, j)
  {
    assert Pow2(8) == 256;
    BitAboveRange(b, 8, j);
  }

  /** Bit p of a byte string shifted right by w bits. */
  ghost predicate ShiftedBit(vector: seq<byte>, w: nat, p: nat)
  {
    w <= p < w + 8 * |vector| && BitAt(vector, p - w)
  }

  /** `shifted` is `bits` behind w zeros, cut or zero-filled to its own length. */
  ghost predicate IsShifted(shifted: Bits, bits: Bits, w: nat)
  {
    forall i | 0 <= i < |shifted| :: shifted[i] == (w <= i < w + |bits| && bits[i - w])
  }

  lemma ShiftedByte(vector: seq<byte>, w: nat, i: nat, out: byte, p: nat)
    requires w <= 8 && i < |vector| && p / 8 == i
    requires forall k: nat | k < 8 ::
               Bit(out, k) == (if k + w < 8 then Bit(vector[i], k + w) else i > 0 && Bit(vector[i - 1], k + w - 8))
    ensures Bit(out, 7 - p % 8) == ShiftedBit(vector, w, p)
  {
    var k := 7 - p % 8;
    if w <= p {
      var q := p - w;
      if k + w < 8 {
        assert q / 8 == i && 7 - q % 8 == k + w;
      } else {
        assert q / 8 == i - 1 && 7 - q % 8 == k + w - 8;
      }
    }
  }

  lemma ShiftedPastEnd(grown: seq<byte>, vector: seq<byte>, w: nat, p: nat)
    requires grown == vector || grown == vector + [0]
    requires p < 8 * |grown|
    ensures ShiftedBit(grown, w, p) == ShiftedBit(vector, w, p)
  {
    if w <= p {
      var q := p - w;
      if q < 8 * |vector| {
        assert BitAt(grown, q) == BitAt(vector, q);
      } else {
        BitOfZero(7 - q % 8);
      }
    }
  }

  function ShiftedLength(vectorLen: nat, writeBitPos: nat, bitCount: nat): nat
  {
    if writeBitPos + bitCount > 8 * vectorLen then vectorLen + 1 else vectorLen
  }

  /** Shifts a left-aligned vector right by the write position, growing it by one byte when the
      data would not fit: the result spells the same bits behind writeBitPos zeros. */
  method ReshapeVector(writeBitPos: nat, bitCount: nat, vector: seq<byte>) returns (shifted: seq<byte>)
    requires writeBitPos <= 8
    ensures |shifted| == ShiftedLength(|vector|, writeBitPos, bitCount)
    ensures IsShifted(Unpack(shifted), Unpack(vector), writeBitPos)
  {
    var data: seq<byte> := vector;
    if writeBitPos + bitCount > 8 * |vector| {
      data := data + [0];
    }
    ghost var before := data;
    var tb := 0;
    var i := 0;
    BitsOfZero();
    while i < |data|
      invariant i <= |data| == |before|
      invariant data[i..] == before[i..]
      invariant Carries(tb, i > 0, if i > 0 then before[i - 1] else 0)
      invariant forall p: nat | p < 8 * i :: BitAt(data, p) == ShiftedBit(before, writeBitPos, p)
    {
      assert data[i] == before[i];
      CarryStep(tb, i > 0, if i > 0 then before[i - 1] else 0, before[i], writeBitPos);
      tb := Shr(Shl64(Or(tb, data[i]), 8), writeBitPos);
      ghost var prior := data;
      data := data[i := ToByte(Shr(tb, 8))];
      tb := Shl64(tb, writeBitPos);
      forall p: nat | p < 8 * (i + 1)
        ensures BitAt(data, p) == ShiftedBit(before, writeBitPos, p)
      {
        if p < 8 * i {
          assert BitAt(data, p) == BitAt(prior, p);
        } else {
          ShiftedByte(before, writeBitPos, i, data[i], p);
        }
      }
      i := i + 1;
    }
    shifted := data;
    forall p | 0 <= p < 8 * |shifted|
      ensures Unpack(shifted)[p] == (writeBitPos <= p < writeBitPos + 8 * |vector| && Unpack(vector)[p - writeBitPos])
    {
      assert BitAt(shifted, p) == ShiftedBit(before, writeBitPos, p);
      ShiftedPastEnd(before, vector, writeBitPos, p);
    }
  }

  lemma BitsOfZero()
    ensures forall j: nat :: !Bit(0, j)
  {
    forall j: nat ensures !Bit(0, j) {
      BitOfZero(j);
    }
  }

  /** `shifted` or-ed into `before` from bit `base` on; past the end of `before` it stands alone. */
  ghost predicate Merged(before: Bits, after: Bits, base: nat, shifted: Bits)
  {
    && |after| == base + |shifted|
    && forall i | 0 <= i < |after| :: after[i] == ((i < |before| && before[i]) || (base <= i && shifted[i - base]))
  }

  method MergeVector(buffer: seq<byte>, shifted: seq<byte>, writeBitPos: nat) returns (merged: seq<byte>)
    requires 0 < |buffer| && 0 < |shifted|
    ensures Merged(Unpack(buffer), Unpack(merged), MergeBase(|buffer|, writeBitPos), Unpack(shifted))
  {
    merged := buffer;
    if writeBitPos == 0 {
      merged := merged + [shifted[0]];
    } else {
      var combinedByte := ToByte(Or(merged[|merged| - 1], shifted[0]));
      forall k: nat | k < 8
        ensures Bit(combinedByte, k) == (Bit(buffer[|buffer| - 1], k) || Bit(shifted[0], k))
      {
        BitOfToByte(Or(buffer[|buffer| - 1], shifted[0]), k);
        BitOfOr(buffer[|buffer| - 1], shifted[0], k);
      }
      merged := merged[|merged| - 1 := combinedByte];
    }
    merged := merged + shifted[1..];
    ghost var base := if writeBitPos == 0 then |buffer| else |buffer| - 1;
    forall i | 0 <= i < 8 * |merged|
      ensures Unpack(merged)[i] == ((i < 8 * |buffer| && Unpack(buffer)[i]) || (8 * base <= i && Unpack(shifted)[i - 8 * base]))
    {
      assert Unpack(merged)[i] == BitAt(merged, i);
      if 8 * base <= i {
        assert (i - 8 * base) / 8 == i / 8 - base && (i - 8 * base) % 8 == i % 8;
      }
      if i / 8 > base {
        assert merged[i / 8] == shifted[i / 8 - base];
      }
    }
  }

  /** The buffer bit the first shifted bit lands on. */
  function MergeBase(bufferLen: nat, writeBitPos: nat): nat
    requires 0 < bufferLen
  {
    if writeBitPos == 0 then 8 * bufferLen else 8 * bufferLen - 8
  }

  lemma MergedLength(w: nat, bitCount: nat, bufferLen: nat, vectorLen: nat)
    requires 0 < bufferLen && w <= 8 && 8 * vectorLen - 8 < bitCount <= 8 * vectorLen && 0 < bitCount
    ensures var base := MergeBase(bufferLen, w);
            && 8 * bufferLen - Padding(w) == base + w
            && base + 8 * ShiftedLength(vectorLen, w, bitCount) - Padding((w + bitCount % 8) % 8) == base + w + bitCount
            && (base + w + bitCount) % 8 == (w + bitCount % 8) % 8
  {
    var q, r := bitCount / 8, bitCount % 8;
    assert vectorLen == if r == 0 then q else q + 1;
    SumMod8(w, r);
  }

  lemma SumMod8(w: nat, r: nat)
    requires w <= 8 && r < 8
    ensures (w + r) % 8 == if w + r < 8 then w + r else w + r - 8
    ensures Padding((w + r) % 8) == if w + r == 0 then 0 else if w + r <= 8 then 8 - w - r else 16 - w - r
  {}

  lemma MergedBits(before: Bits, after: Bits, shifted: Bits, vector: Bits, base: nat, w: nat, bitCount: nat)
    requires base + w <= |before| && bitCount <= |vector| && w + bitCount <= |shifted|
    requires Merged(before, after, base, shifted) && IsShifted(shifted, vector, w)
    requires before == before[..base + w] + Zeros(|before| - base - w)
    requires vector == vector[..bitCount] + Zeros(|vector| - bitCount)
    ensures after == before[..base + w] + vector[..bitCount] + Zeros(|after| - base - w - bitCount)
  {
    var whole := before[..base + w] + vector[..bitCount] + Zeros(|after| - base - w - bitCount);
    forall i | 0 <= i < |after|
      ensures after[i] == whole[i]
    {
      if base <= i {
        assert shifted[i - base] == (w <= i - base < w + |vector| && vector[i - base - w]);
      }
    }
  }

  /** Appends `bitCount` bits, given left-aligned in `vector`, at the write position. */
  method AddVectorToBuffer(serialData: SerialData, vector: seq<byte>, bitCount: nat)
    requires serialData.Valid()
    requires 8 * |vector| - 8 < bitCount <= 8 * |vector|
    requires bitCount > 0
    requires Unpack(vector) == Unpack(vector)[..bitCount] + Zeros(8 * |vector| - bitCount)
    modifies serialData`Buffer, serialData`WriteBitPos
    ensures serialData.Valid()
    ensures serialData.Written() == old(serialData.Written()) + Unpack(vector)[..bitCount]
    ensures serialData.WriteBitPos == |serialData.Written()| % 8
  {
    var w := serialData.WriteBitPos;
    ghost var before := serialData.Buffer;
    var shifted := ReshapeVector(w, bitCount, vector);

    serialData.Buffer := MergeVector(serialData.Buffer, shifted, w);
    var offsetBitCount := bitCount % 8;
    serialData.WriteBitPos := (w + offsetBitCount) % 8;

    AddedBits(Unpack(before), Unpack(serialData.Buffer), Unpack(shifted), Unpack(vector), |before|, |vector|, w, bitCount);
    ghost var start := 8 * |before| - Padding(w);
    assert 8 * |serialData.Buffer| - Padding(serialData.WriteBitPos) == start + bitCount;
  }

  lemma AddedBits(before: Bits, after: Bits, shifted: Bits, vector: Bits, bufferLen: nat, vectorLen: nat, w: nat, bitCount: nat)
    requires 0 < bufferLen && w <= 8 && 8 * vectorLen - 8 < bitCount <= 8 * vectorLen && 0 < bitCount
    requires |before| == 8 * bufferLen && |vector| == 8 * vectorLen
    requires before == before[..8 * bufferLen - Padding(w)] + Zeros(Padding(w))
    requires vector == vector[..bitCount] + Zeros(8 * vectorLen - bitCount)
    requires |shifted| == 8 * ShiftedLength(vectorLen, w, bitCount)
    requires IsShifted(shifted, vector, w)
    requires Merged(before, after, MergeBase(bufferLen, w), shifted)
    ensures var start, p := 8 * bufferLen - Padding(w), Padding((w + bitCount % 8) % 8);
            && |after| == start + bitCount + p
            && (start + bitCount) % 8 == (w + bitCount % 8) % 8
            && after[..start + bitCount] == before[..start] + vector[..bitCount]
            && after == after[..start + bitCount] + Zeros(p)
  {
    MergedLength(w, bitCount, bufferLen, vectorLen);
    var base := MergeBase(bufferLen, w);
    assert w + bitCount <= |shifted|;
    MergedBits(before, after, shifted, vector, base, w, bitCount);
  }

  /** Appends the low `bitCount` bits of `data64`, left-aligned in whole bytes, to a vector. */
  method BitsToVector(data64: nat, bitCount: nat, vector: seq<byte>) returns (grown: seq<byte>)
    requires bitCount <= 64
    ensures |grown| == |vector| + (bitCount + 7) / 8
    ensures vector <= grown
    ensures Unpack(grown) == Unpack(vector) + LeftAligned(data64, bitCount)
  {
    var numberOfBytes := (bitCount + 7) / 8;
    var leftShift := numberOfBytes * 8 - bitCount;
    var data := Shl64(data64, leftShift);
    ghost var aligned := LeftAligned(data64, bitCount);
    grown := vector;
    var i := numberOfBytes;
    while i > 0
      invariant 0 <= i <= numberOfBytes
      invariant |grown| == |vector| + numberOfBytes - i && vector <= grown
      invariant Unpack(grown) == Unpack(vector) + aligned[..8 * (numberOfBytes - i)]
    {
      i := i - 1;
      var byteVector := ToByte(Shr(data, 8 * i));
      UnpackAppend(grown, byteVector);
      AlignedByte(data64, bitCount, i);
      ConcatAssociates(Unpack(vector), aligned[..8 * (numberOfBytes - i) - 8], BitsOf(byteVector, 8));
      grown := grown + [byteVector];
    }
  }

  /** bitCount bits followed by zeros up to a whole number of bytes. */
  ghost function LeftAligned(data64: nat, bitCount: nat): (bits: Bits)
    ensures |bits| == 8 * ((bitCount + 7) / 8)
  {
    BitsOf(data64, bitCount) + Zeros(8 * ((bitCount + 7) / 8) - bitCount)
  }

  lemma AlignedByte(data64: nat, bitCount: nat, i: nat)
    requires bitCount <= 64 && i < (bitCount + 7) / 8
    ensures var upTo := 8 * ((bitCount + 7) / 8 - i);
            var byteVector := ToByte(Shr(Shl64(data64, 8 * ((bitCount + 7) / 8) - bitCount), 8 * i));
            LeftAligned(data64, bitCount)[..upTo] == LeftAligned(data64, bitCount)[..upTo - 8] + BitsOf(byteVector, 8)
  {
    AlignedSlice(data64, bitCount, i);
    var upTo := 8 * ((bitCount + 7) / 8 - i);
    TakeExtends(LeftAligned(data64, bitCount), upTo - 8, upTo);
  }

  lemma TakeExtends(s: Bits, a: nat, b: nat)
    requires a <= b <= |s|
    ensures s[..b] == s[..a] + s[a..b]
  {}

  lemma AlignedSlice(data64: nat, bitCount: nat, i: nat)
    requires bitCount <= 64 && i < (bitCount + 7) / 8
    ensures var bytes := (bitCount + 7) / 8;
            BitsOf(ToByte(Shr(Shl64(data64, 8 * bytes - bitCount), 8 * i)), 8)
            == LeftAligned(data64, bitCount)[8 * (bytes - i) - 8..8 * (bytes - i)]
  {
    var bytes := (bitCount + 7) / 8;
    var data := Shl64(data64, 8 * bytes - bitCount);
    var start := 8 * (bytes - i) - 8;
    forall k | 0 <= k < 8
      ensures BitsOf(ToByte(Shr(data, 8 * i)), 8)[k] == LeftAligned(data64, bitCount)[start..start + 8][k]
    {
      BitOfToByte(Shr(data, 8 * i), 7 - k);
      BitOfShr(data, 8 * i, 7 - k);
      BitOfShl64(data64, 8 * bytes - bitCount, 7 - k + 8 * i);
    }
  }

  /** A vector ready for AddVectorToBuffer: bits, then zeros up to a whole byte. */
  lemma AlignedVector(vector: seq<byte>, bits: Bits)
    requires |bits| <= 8 * |vector|
    requires Unpack(vector) == bits + Zeros(8 * |vector| - |bits|)
    ensures Unpack(vector)[..|bits|] == bits
    ensures Unpack(vector) == Unpack(vector)[..|bits|] + Zeros(8 * |vector| - |bits|)
  {}

  method HeaderVector(positional: bool, key: int, position: byte) returns (vector: seq<byte>, bitCount: nat)
    ensures bitCount == |HeaderBits(positional, key, position)| && 8 * |vector| - 8 < bitCount <= 8 * |vector|
    ensures Unpack(vector) == HeaderBits(positional, key, position) + Zeros(8 * |vector| - bitCount)
  {
    vector := [];
    bitCount := DATA_TYPE_BIT_COUNT;
    if positional {
      vector := vector + [position];
      bitCount := bitCount + 8;
      UnpackAppend([], position);
      assert [] + [position] == [position];
    }
    ghost var prefix := Unpack(vector);
    vector := BitsToVector(Uint64(key), DATA_TYPE_BIT_COUNT, vector);
    assert prefix == if positional then BitsOf(position, 8) else [];
  }

  /** Appends one field; a value the key does not take leaves the buffer as it was. */
  method EncodeData(serialData: SerialData, data: Data, key: int, position: byte) returns (ok: bool)
    requires serialData.Valid()
    modifies serialData`Buffer, serialData`WriteBitPos
    ensures serialData.Valid()
    ensures ok == DataBits(key, data).Some?
    ensures ok ==> serialData.Written() == old(serialData.Written())
                   + FieldBits(old(serialData.Written())[7], Field(key, position, DataBits(key, data).value))
    ensures ok ==> serialData.WriteBitPos == |serialData.Written()| % 8
    ensures !ok ==> serialData.Buffer == old(serialData.Buffer) && serialData.WriteBitPos == old(serialData.WriteBitPos)
  {
    serialData.PositionalFlag();
    var headerVector, headerBitCount := HeaderVector(serialData.HasPositionalData(), key, position);
    AlignedVector(headerVector, HeaderBits(serialData.HasPositionalData(), key, position));
    var dataBits, bitCount;
    ok, dataBits, bitCount := ConvertData(key, data);
    if !ok {
      return;
    }
    ghost var written := serialData.Written();
    AddVectorToBuffer(serialData, headerVector, headerBitCount);
    var dataVector := BitsToVector(dataBits, bitCount, []);
    AlignedVector(dataVector, BitsOf(dataBits, bitCount));
    AddVectorToBuffer(serialData, dataVector, bitCount);
    ConcatAssociates(written, HeaderBits(written[7], key, position), BitsOf(dataBits, bitCount));
  }

  lemma ConcatAssociates(a: Bits, b: Bits, c: Bits)
    ensures a + b + c == a + (b + c)
  {}

  /** The type switch of EncodeData: the value as an unsigned word and its width, or refusal. */
  method ConvertData(key: int, data: Data) returns (ok: bool, dataBits: nat, bitCount: nat)
    ensures ok == DataBits(key, data).Some?
    ensures ok ==> dataBits == DataBits(key, data).value && bitCount == DataWidth(key)
  {
    var metaData := GetMetaData(key);
    match metaData.dataType {
      case FixedPoint =>
        RangeWidthBound(key);
        if !data.Float? {
          return false, 0, 0;
        }
        dataBits, bitCount := FixedPointToBits(data.value, metaData);
      case DataPoint =>
        if metaData.byteCount != data.size {
          return false, 0, 0;
        }
        dataBits, bitCount := data.raw, metaData.byteCount * 8;
      case NoData =>
        return false, 0, 0;
    }
    ok := true;
  }

  method FixedPointToBits(value: real, metaData: MetaData) returns (data64: nat, bitCount: nat)
    requires IsRange(metaData)
    ensures data64 == FixedSteps(metaData, value) && bitCount == RangeWidth(metaData)
  {
    var low := metaData.lowValue as real;
    var clamped := Clamp(value, low, metaData.highValue as real);
    bitCount := GetBitCount(metaData.lowValue, metaData.highValue, metaData.decimalPoint);
    var steps := Round((clamped - low) * Pow10(metaData.decimalPoint) as real);
    assert steps == FixedSteps(metaData, value);
    data64 := steps;
  }
}
