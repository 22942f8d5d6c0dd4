/** The reading half of the Rubix codec: gathering the bytes around a bit field, shifting the
    field out of them, and the field-by-field decode loop. */
module Decoder {
  import opened Words
  import opened BitLists
  import opened SerialMap
  import opened RubixBuffer
  import opened FixedPoint
  import opened PositionNames

  /** The number the decoder gets for n bits at a position: zero once it would run off the end. */
  function ReadAt(bits: Bits, pos: nat, n: nat): nat
  {
    if pos + n <= |bits| then ValueOf(bits[pos..pos + n]) else 0
  }

  function BytesRequired(bitCount: nat, pos: nat): nat
  {
    (bitCount + pos % 8 + 7) / 8
  }

  lemma GatherInside(bitCount: nat, pos: nat, len: nat)
    requires bitCount > 0
    ensures pos / 8 + BytesRequired(bitCount, pos) <= len <==> pos + bitCount <= 8 * len
  {}

  method GetVector(serialData: SerialData, bitCount: nat, pos: nat)
    returns (dataVector: seq<byte>, shiftPos: nat, bytesRequired: nat)
    requires bitCount > 0
    modifies serialData`ReadBitPos
    ensures serialData.ReadBitPos == old(serialData.ReadBitPos) + bitCount
    ensures shiftPos == pos % 8 && bytesRequired == BytesRequired(bitCount, pos) == |dataVector|
    ensures pos + bitCount <= 8 * |serialData.Buffer| ==>
              pos / 8 + bytesRequired <= |serialData.Buffer| && dataVector == serialData.Buffer[pos / 8..pos / 8 + bytesRequired]
    ensures pos + bitCount > 8 * |serialData.Buffer| ==> forall i | 0 <= i < bytesRequired :: dataVector[i] == 0
  {
    var shiftFromPos := pos % 8;
    bytesRequired := bitCount / 8;
    if bitCount % 8 != 0 {
      bytesRequired := bytesRequired + 1;
    }
    if bitCount + shiftFromPos > bytesRequired * 8 {
      bytesRequired := bytesRequired + 1;
    }
    var byteLocation := pos / 8;
    GatherInside(bitCount, pos, |serialData.Buffer|);
    dataVector := seq(bytesRequired, _ => 0);
    if byteLocation + bytesRequired > |serialData.Buffer| {
      dataVector := dataVector[0 := 0];
    } else {
      var i := 0;
      while i < bytesRequired
        invariant i <= bytesRequired == |dataVector|
        invariant dataVector[..i] == serialData.Buffer[byteLocation..byteLocation + i]
      {
        dataVector := dataVector[i := serialData.Buffer[byteLocation + i]];
        i := i + 1;
      }
    }
    serialData.ReadBitPos := serialData.ReadBitPos + bitCount;
    shiftPos := shiftFromPos;
  }

  /** The low 64 bits of the first n bytes, pushed left by `left`. */
  ghost predicate Gathered(data64: nat, bytes: seq<byte>, n: nat, left: nat)
  {
    n <= |bytes| && forall j: nat ::
      Bit(data64, j) == (left <= j < 64 && j - left < 8 * n && BitAt(bytes, 8 * n - 1 - (j - left)))
  }

  lemma GatherByte(data64: nat, bytes: seq<byte>, n: nat)
    requires n < |bytes| && Gathered(data64, bytes, n, 8)
    ensures Gathered(Or(data64, bytes[n]), bytes, n + 1, 0)
  {
    forall j: nat
      ensures Bit(Or(data64, bytes[n]), j) == (j < 64 && j < 8 * n + 8 && BitAt(bytes, 8 * n + 7 - j))
    {
      BitOfOr(data64, bytes[n], j);
      if j >= 8 {
        assert Pow2(8) == 256;
        BitAboveRange(bytes[n], 8, j);
        assert 8 * n - 1 - (j - 8) == 8 * n + 7 - j;
      } else {
        assert BitAt(bytes, 8 * n + 7 - j) == Bit(bytes[n], j);
      }
    }
  }

  lemma GatherShift(data64: nat, bytes: seq<byte>, n: nat, left: nat)
    requires left <= 8 && Gathered(data64, bytes, n, 0)
    ensures Gathered(Shl64(data64, left), bytes, n, left)
  {
    forall j: nat
      ensures Bit(Shl64(data64, left), j) == (left <= j < 64 && j - left < 8 * n && BitAt(bytes, 8 * n - 1 - (j - left)))
    {
      BitOfShl64(data64, left, j);
    }
  }

  /** Joining the last byte: bit j of the result is j places before the end of the field. */
  lemma JoinLast(data64: nat, bytes: seq<byte>, shiftLeft: nat, j: nat)
    requires 0 < |bytes| && shiftLeft < 8 && Gathered(data64, bytes, |bytes| - 1, 0)
    ensures Bit(Or(Shl64(data64, 8 - shiftLeft), Shr(bytes[|bytes| - 1], shiftLeft)), j)
            == (j < 64 && j < 8 * |bytes| - shiftLeft && BitAt(bytes, 8 * |bytes| - shiftLeft - 1 - j))
  {
    hide BitAt;
    BitOfOr(Shl64(data64, 8 - shiftLeft), Shr(bytes[|bytes| - 1], shiftLeft), j);
    ShiftedBefore(data64, bytes, 8 - shiftLeft, j);
    BitOfShr(bytes[|bytes| - 1], shiftLeft, j);
    LastByteBit(bytes, shiftLeft, j);
  }

  lemma ShiftedBefore(data64: nat, bytes: seq<byte>, left: nat, j: nat)
    requires 0 < |bytes| && 1 <= left <= 8 && Gathered(data64, bytes, |bytes| - 1, 0)
    ensures Bit(Shl64(data64, left), j)
            == (left <= j < 64 && j < 8 * |bytes| - 8 + left && BitAt(bytes, 8 * |bytes| - 9 + left - j))
  {
    hide BitAt;
    BitOfShl64(data64, left, j);
    if left <= j {
      assert 8 * (|bytes| - 1) - 1 - (j - left) == 8 * |bytes| - 9 + left - j;
    }
  }

  lemma LastByteBit(bytes: seq<byte>, shiftLeft: nat, j: nat)
    requires 0 < |bytes| && shiftLeft < 8
    ensures Bit(bytes[|bytes| - 1], j + shiftLeft)
            == (j < 8 - shiftLeft && BitAt(bytes, 8 * |bytes| - shiftLeft - 1 - j))
  {
    hide Bit;
    if j >= 8 - shiftLeft {
      assert Pow2(8) == 256;
      BitAboveRange(bytes[|bytes| - 1], 8, j + shiftLeft);
    }
  }

  /** `data64 &= 1 << bitCount - 1`, skipped at 64 bits. */
  function Masked(data64: nat, bitCount: nat): nat
  {
    if bitCount < 64 then Shl64One(bitCount); And(data64, Shl64(1, bitCount) - 1) else data64
  }

  lemma BitOfMasked(data64: nat, bitCount: nat, j: nat)
    ensures Bit(Masked(data64, bitCount), j) == (Bit(data64, j) && (bitCount < 64 ==> j < bitCount))
  {
    if bitCount < 64 {
      Shl64One(bitCount);
      BitOfMask(bitCount, j);
      BitOfAnd(data64, Shl64(1, bitCount) - 1, j);
    }
  }

  lemma FieldNumber(gathered: nat, bytes: seq<byte>, bitCount: nat, shiftPos: nat)
    requires 1 <= bitCount <= 64 && shiftPos < 8
    requires 0 < |bytes| && 8 * |bytes| - 8 < bitCount + shiftPos <= 8 * |bytes|
    requires Gathered(gathered, bytes, |bytes| - 1, 0)
    ensures var shiftLeft := 8 * |bytes| - bitCount - shiftPos;
            Masked(Or(Shl64(gathered, 8 - shiftLeft), Shr(bytes[|bytes| - 1], shiftLeft)), bitCount)
            == ValueOf(Unpack(bytes)[shiftPos..shiftPos + bitCount])
  {
    var shiftLeft := 8 * |bytes| - bitCount - shiftPos;
    var joined := Or(Shl64(gathered, 8 - shiftLeft), Shr(bytes[|bytes| - 1], shiftLeft));
    var field := Unpack(bytes)[shiftPos..shiftPos + bitCount];
    forall j: nat
      ensures Bit(Masked(joined, bitCount), j) == (j < bitCount && field[bitCount - 1 - j])
    {
      BitOfMasked(joined, bitCount, j);
      JoinLast(gathered, bytes, shiftLeft, j);
      if j < bitCount {
        assert field[bitCount - 1 - j] == BitAt(bytes, shiftPos + bitCount - 1 - j);
      }
    }
    NoBitsFrom(Masked(joined, bitCount), bitCount);
    forall i: nat | i < bitCount
      ensures Bit(Masked(joined, bitCount), bitCount - 1 - i) == field[i]
    {
      assert bitCount - 1 - (bitCount - 1 - i) == i;
    }
    SpelledBy(Masked(joined, bitCount), field);
  }

  /** The field as a number: exactly the bits [shiftPos, shiftPos + bitCount) of the gathered bytes,
      also when nine bytes are gathered and the high ones fall off the 64-bit word. */
  method VectorToBits(dataVector: seq<byte>, bitCount: nat, shiftPos: nat, bytesRequired: nat) returns (data64: nat)
    requires 1 <= bitCount <= 64 && shiftPos < 8
    requires bytesRequired == |dataVector| && 8 * bytesRequired - 8 < bitCount + shiftPos <= 8 * bytesRequired
    ensures data64 == ValueOf(Unpack(dataVector)[shiftPos..shiftPos + bitCount])
  {
    data64 := 0;
    var shiftLeft := bytesRequired * 8 - bitCount - shiftPos;
    var i := 0;
    forall j: nat ensures !Bit(0, j) {
      BitOfZero(j);
    }
    while i < |dataVector| - 1
      invariant 0 <= i <= |dataVector| - 1
      invariant Gathered(data64, dataVector, i, if i < |dataVector| - 1 then 8 else 0)
    {
      GatherByte(data64, dataVector, i);
      data64 := Or(data64, dataVector[i]);
      if i != |dataVector| - 2 {
        GatherShift(data64, dataVector, i + 1, 8);
        data64 := Shl64(data64, 8);
      }
      i := i + 1;
    }
    ghost var gathered := data64;
    data64 := Shl64(data64, 8 - shiftLeft);
    data64 := Or(data64, Shr(dataVector[|dataVector| - 1], shiftLeft));
    data64 := Masked(data64, bitCount);
    FieldNumber(gathered, dataVector, bitCount, shiftPos);
  }

  /** getVector followed by vectorToBits, as every read in the decoder does. */
  method ReadBits(serialData: SerialData, bitCount: nat) returns (value: nat)
    requires 1 <= bitCount <= 64
    modifies serialData`ReadBitPos
    ensures value == ReadAt(Unpack(serialData.Buffer), old(serialData.ReadBitPos), bitCount)
    ensures serialData.ReadBitPos == old(serialData.ReadBitPos) + bitCount
  {
    var pos := serialData.ReadBitPos;
    var dataVector, shiftPos, bytesRequired := GetVector(serialData, bitCount, pos);
    value := VectorToBits(dataVector, bitCount, shiftPos, bytesRequired);
    if pos + bitCount <= 8 * |serialData.Buffer| {
      SliceOfUnpack(serialData.Buffer, pos, bitCount, bytesRequired);
    } else {
      ZeroBytes(dataVector);
      assert Zeros(8 * |dataVector|)[shiftPos..shiftPos + bitCount] == Zeros(bitCount);
      ValueOfZeros(bitCount);
    }
  }

  lemma SliceOfUnpack(buffer: seq<byte>, pos: nat, bitCount: nat, bytes: nat)
    requires pos + bitCount <= 8 * |buffer| && pos / 8 + bytes <= |buffer| && pos % 8 + bitCount <= 8 * bytes
    ensures Unpack(buffer[pos / 8..pos / 8 + bytes])[pos % 8..pos % 8 + bitCount] == Unpack(buffer)[pos..pos + bitCount]
  {
    var part := buffer[pos / 8..pos / 8 + bytes];
    var a, b := Unpack(part)[pos % 8..pos % 8 + bitCount], Unpack(buffer)[pos..pos + bitCount];
    forall i | 0 <= i < bitCount
      ensures a[i] == b[i]
    {
      var p := pos % 8 + i;
      assert a[i] == Unpack(part)[p] == BitAt(part, p);
      assert b[i] == Unpack(buffer)[pos + i] == BitAt(buffer, pos + i);
      assert (pos + i) / 8 == pos / 8 + p / 8 && (pos + i) % 8 == p % 8;
    }
  }

  lemma ZeroBytes(bytes: seq<byte>)
    requires forall i | 0 <= i < |bytes| :: bytes[i] == 0
    ensures Unpack(bytes) == Zeros(8 * |bytes|)
  {
    forall i | 0 <= i < 8 * |bytes|
      ensures !Unpack(bytes)[i]
    {
      BitOfZero(7 - i % 8);
      assert Unpack(bytes)[i] == BitAt(bytes, i);
    }
  }

  // ------------------------------------------------------------------ fields

  /** A field as the decoder sees it: its key, its position, and the bits read for it as a number. */
  datatype ReadField = ReadField(key: int, pos: PositionData, raw: nat)

  datatype Value =
    | Number(x: real)
    | FloatWord(word: nat)  // the float32 with this bit pattern

  datatype Outcome = Decoded(value: Value) | Failed(errorCode: nat)

  /** One call of the point callback: a name with a value or with an error. */
  datatype Callback = Callback(name: string, outcome: Outcome)

  /** Bits of data the decoder consumes for a key: as the encoder writes, except that it has no case
      for DOUBLE and so reads nothing there. */
  function ReadWidth(key: int): (width: nat)
    ensures width <= 64
  {
    if key == MDK_DOUBLE then 0 else DataWidth(key)
  }

  function Signed(raw: nat, bytes: nat): int
  {
    if raw < Pow2(8 * bytes) / 2 then raw else raw - Pow2(8 * bytes)
  }

  /** What the callback reports for a key and the bits read for it. */
  function Interpret(key: int, raw: nat): Outcome
  {
    match key
    case MDK_INT_8 => Decoded(Number(Signed(raw, 1) as real))
    case MDK_INT_16 => Decoded(Number(Signed(raw, 2) as real))
    case MDK_INT_32 => Decoded(Number(Signed(raw, 4) as real))
    case MDK_INT_64 => Decoded(Number(Signed(raw, 8) as real))
    case MDK_FLOAT => Decoded(FloatWord(raw))
    case MDK_ERROR => if raw == 0 then Decoded(Number(0.0)) else Failed(raw)
    case _ =>
      match GetMetaData(key).dataType
      case FixedPoint => RangeWidthBound(key); Decoded(Number(FixedValue(GetMetaData(key), raw)))
      case DataPoint => Decoded(Number(raw as real))
      case NoData => Decoded(Number(0.0))
  }

  function Report(field: ReadField): Callback
  {
    Callback(GenerateFieldName(field.key, field.pos), Interpret(field.key, field.raw))
  }

  function Reports(fields: seq<ReadField>): (calls: seq<Callback>)
    ensures |calls| == |fields|
  {
    seq(|fields|, i requires 0 <= i < |fields| => Report(fields[i]))
  }

  predicate CanDecode(bits: Bits, pos: nat)
  {
    pos < |bits| - DATA_TYPE_BIT_COUNT
  }

  /** One turn of the decode loop on the bit list: the field read and the position after it. */
  function NextField(bits: Bits, pos: nat, positional: bool, next: PositionData): (r: (ReadField, nat))
    ensures pos + DATA_TYPE_BIT_COUNT <= r.1
  {
    var place := if positional then ParsePosition(ToByte(ReadAt(bits, pos, 8))) else next;
    var typePos := if positional then pos + 8 else pos;
    var key := ReadAt(bits, typePos, DATA_TYPE_BIT_COUNT);
    var dataPos := typePos + DATA_TYPE_BIT_COUNT;
    (ReadField(key, place, ReadAt(bits, dataPos, ReadWidth(key))), dataPos + ReadWidth(key))
  }

  /** The whole decode loop on a bit list. */
  function DecodeFrom(bits: Bits, pos: nat, positional: bool, next: PositionData): seq<ReadField>
    decreases if pos < |bits| then |bits| - pos else 0
  {
    if !CanDecode(bits, pos) then []
    else
      var (field, after) := NextField(bits, pos, positional, next);
      [field] + DecodeFrom(bits, after, positional, field.pos.(id := field.pos.id + 1))
  }

  const START: PositionData := PositionData(0, GENERAL)

  /** A payload's fields: the settings byte, then the loop from bit 8. */
  function DecodePayload(bits: Bits): seq<ReadField>
    requires 8 <= |bits|
  {
    DecodeFrom(bits, DATA_OFFSET_BITS, bits[7], START)
  }

  method ParseMetaData(serialData: SerialData) returns (key: nat, positionData: PositionData)
    requires 0 < |serialData.Buffer|
    modifies serialData`ReadBitPos
    ensures var pos, bits := old(serialData.ReadBitPos), Unpack(serialData.Buffer);
            var typePos := if serialData.HasPositionalData() then pos + 8 else pos;
            && key == ReadAt(bits, typePos, DATA_TYPE_BIT_COUNT)
            && (serialData.HasPositionalData() ==> positionData == ParsePosition(ToByte(ReadAt(bits, pos, 8))))
            && serialData.ReadBitPos == typePos + DATA_TYPE_BIT_COUNT
  {
    positionData := START;
    if serialData.HasPositionalData() {
      var positionByte := ReadBits(serialData, 8);
      positionData := ParsePosition(ToByte(positionByte));
    }
    key := ReadBits(serialData, DATA_TYPE_BIT_COUNT);
  }

  /** The key switch of the decode loop: reads a known key's data and interprets it. */
  method DecodePointRubix(serialData: SerialData, key: nat, pos: PositionData) returns (name: string, outcome: Outcome)
    modifies serialData`ReadBitPos
    ensures serialData.ReadBitPos == old(serialData.ReadBitPos) + ReadWidth(key)
    ensures Callback(name, outcome)
            == Report(ReadField(key, pos, ReadAt(Unpack(serialData.Buffer), old(serialData.ReadBitPos), ReadWidth(key))))
  {
    name := GenerateFieldName(key, pos);
    var dataBits := 0;
    if InTable(key) && key != MDK_DOUBLE {
      dataBits := ReadBits(serialData, DataWidth(key));
    }
    outcome := Interpret(key, dataBits);
  }

  /** The body of the decode loop: one field read, one callback. */
  method DecodeField(serialData: SerialData, positionData: PositionData) returns (call: Callback, place: PositionData)
    requires 0 < |serialData.Buffer|
    modifies serialData`ReadBitPos
    ensures var step := NextField(Unpack(serialData.Buffer), old(serialData.ReadBitPos), serialData.HasPositionalData(), positionData);
            call == Report(step.0) && place == step.0.pos && serialData.ReadBitPos == step.1
  {
    place := positionData;
    var metaDataKey, positionDataNew := ParseMetaData(serialData);
    if serialData.HasPositionalData() {
      place := positionDataNew;
    }
    var name, outcome := DecodePointRubix(serialData, metaDataKey, place);
    call := Callback(name, outcome);
  }

  lemma LoopStep(done: seq<ReadField>, bits: Bits, pos: nat, positional: bool, next: PositionData)
    requires CanDecode(bits, pos)
    ensures var (field, after) := NextField(bits, pos, positional, next);
            && Reports(done + [field]) == Reports(done) + [Report(field)]
            && done + DecodeFrom(bits, pos, positional, next)
               == done + [field] + DecodeFrom(bits, after, positional, field.pos.(id := field.pos.id + 1))
  {
    hide NextField, Report;
  }

  /** DecodeRubix: one callback per field, in order. */
  method DecodeRubix(payloadBytes: seq<byte>) returns (callbacks: seq<Callback>)
    requires 0 < |payloadBytes|
    ensures callbacks == Reports(DecodePayload(Unpack(payloadBytes)))
  {
    hide NextField, Report, ReadAt;
    var serialData := new SerialData.WithBuffer(payloadBytes);
    ghost var bits, hasPos := Unpack(payloadBytes), serialData.HasPositionalData();
    assert bits[7] == BitAt(payloadBytes, 7);
    var positionData := START;
    callbacks := [];
    ghost var done := [];
    while serialData.ReadBitPos < |serialData.Buffer| * 8 - DATA_TYPE_BIT_COUNT
      invariant serialData.Buffer == payloadBytes
      invariant callbacks == Reports(done)
      invariant DecodePayload(bits) == done + DecodeFrom(bits, serialData.ReadBitPos, hasPos, positionData)
      decreases 8 * |payloadBytes| - serialData.ReadBitPos
    {
      LoopStep(done, bits, serialData.ReadBitPos, hasPos, positionData);
      done := done + [NextField(bits, serialData.ReadBitPos, hasPos, positionData).0];
      var call;
      call, positionData := DecodeField(serialData, positionData);
      callbacks := callbacks + [call];
      positionData := positionData.(id := positionData.id + 1);
    }
  }
}
