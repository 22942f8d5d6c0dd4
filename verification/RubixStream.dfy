/** Encoder and decoder against each other: what comes back from an encoded payload, how a payload
    that is cut short or extended decodes, and what one point write looks like on the other side. */
module RubixStream {
  import opened Words
  import opened BitLists
  import opened SerialMap
  import opened RubixFields
  import opened PositionNames
  import opened Decoder

  /** Where field i of a payload is expected: its own position byte, or its index without positions. */
  function PlaceOf(positional: bool, field: Field, index: nat): PositionData
  {
    if positional then ParsePosition(field.position) else PositionData(index, GENERAL)
  }

  /** A field as it should come back: same key, same place, and its data cut to its width. */
  function Received(positional: bool, field: Field, index: nat): ReadField
  {
    ReadField(field.key, PlaceOf(positional, field, index), field.raw % Pow2(DataWidth(field.key)))
  }

  function Expected(positional: bool, fields: seq<Field>, start: nat): (r: seq<ReadField>)
    ensures |r| == |fields|
  {
    if fields == [] then [] else [Received(positional, fields[0], start)] + Expected(positional, fields[1..], start + 1)
  }

  /** The field the decoder makes of seven bits of padding. */
  function Trailer(positional: bool, index: nat): ReadField
  {
    ReadField(0, if positional then ParsePosition(0) else PositionData(index, GENERAL), 0)
  }

  lemma {:induction false} ExpectedAt(positional: bool, fields: seq<Field>, start: nat, i: nat)
    requires i < |fields|
    ensures Expected(positional, fields, start)[i] == Received(positional, fields[i], start + i)
  {
    hide Received;
    if i > 0 {
      ExpectedAt(positional, fields[1..], start + 1, i - 1);
    }
  }

  /** The fields of a stream that ends in `pad` zero bits, the extra one included. */
  function WithTrailer(positional: bool, fields: seq<Field>, pad: nat, start: nat): seq<ReadField>
  {
    Expected(positional, fields, start) + (if pad == 7 then [Trailer(positional, start + |fields|)] else [])
  }

  /** A decoded stream field by field. */
  lemma TrailerParts(positional: bool, fields: seq<Field>, pad: nat, start: nat)
    ensures var read := WithTrailer(positional, fields, pad, start);
            && |read| == |fields| + (if pad == 7 then 1 else 0)
            && (forall i | 0 <= i < |fields| :: read[i] == Received(positional, fields[i], start + i))
            && (pad == 7 ==> read[|fields|] == Trailer(positional, start + |fields|))
  {
    hide Received, Trailer, Expected;
    var read := WithTrailer(positional, fields, pad, start);
    forall i | 0 <= i < |fields|
      ensures read[i] == Received(positional, fields[i], start + i)
    {
      ExpectedAt(positional, fields, start, i);
    }
  }

  /** Less than seven bits of padding show nowhere. */
  lemma OnlySevenShow(positional: bool, fields: seq<Field>, pad: nat, start: nat)
    ensures WithTrailer(positional, fields, pad, start) == WithTrailer(positional, fields, if pad == 7 then 7 else 0, start)
  {
    hide Expected;
  }

  lemma {:induction false} StreamFromFront(positional: bool, fields: seq<Field>)
    requires fields != []
    ensures StreamBits(positional, fields) == FieldBits(positional, fields[0]) + StreamBits(positional, fields[1..])
  {
    hide FieldBits;
    if |fields| > 1 {
      var front, last := fields[..|fields| - 1], fields[|fields| - 1];
      StreamFromFront(positional, front);
      assert front[1..] == fields[1..][..|fields| - 2];
      assert fields[1..][|fields| - 2] == last;
    }
  }

  lemma ReadBack(bits: Bits, pos: nat, v: nat, n: nat)
    requires pos + n <= |bits| && bits[pos..pos + n] == BitsOf(v, n)
    ensures ReadAt(bits, pos, n) == v % Pow2(n)
  {
    ValueOfBitsOf(v, n);
  }

  /** The decoder's header read on an encoded field: its position byte and its key. */
  lemma HeaderReadBack(bits: Bits, pos: nat, positional: bool, field: Field)
    requires InTable(field.key)
    requires var header := HeaderBits(positional, field.key, field.position);
             pos + |header| <= |bits| && bits[pos..pos + |header|] == header
    ensures positional ==> ToByte(ReadAt(bits, pos, 8)) == field.position
    ensures ReadAt(bits, if positional then pos + 8 else pos, DATA_TYPE_BIT_COUNT) == field.key
  {
    var header := HeaderBits(positional, field.key, field.position);
    var typePos := if positional then pos + 8 else pos;
    if positional {
      assert bits[pos..pos + 8] == header[..8] == BitsOf(field.position, 8);
      ReadBack(bits, pos, field.position, 8);
      assert Pow2(8) == 256;
    }
    assert bits[typePos..typePos + 6] == header[typePos - pos..] == BitsOf(Uint64(field.key), 6);
    ReadBack(bits, typePos, Uint64(field.key), 6);
    KeyFitsHeader(field.key);
  }

  lemma KeyFitsHeader(key: int)
    requires InTable(key)
    ensures 0 < key < 64 && Uint64(key) == key && Uint64(key) % Pow2(DATA_TYPE_BIT_COUNT) == key
  {
    assert Pow2(6) == 64;
    Pow2Monotone(6, 64);
    SmallMod(key, Pow2(64));
  }

  lemma HeaderLength(positional: bool, key: int, position: byte)
    ensures |HeaderBits(positional, key, position)| == if positional then 14 else 6
  {}

  lemma ReadNothing(bits: Bits, pos: nat)
    ensures ReadAt(bits, pos, 0) == 0
  {}

  lemma Pieces(bits: Bits, pos: nat, a: Bits, b: Bits)
    requires pos + |a + b| <= |bits| && bits[pos..pos + |a + b|] == a + b
    ensures bits[pos..pos + |a|] == a && bits[pos + |a|..pos + |a| + |b|] == b
  {
    assert bits[pos..pos + |a|] == bits[pos..pos + |a + b|][..|a|];
    assert bits[pos + |a|..pos + |a| + |b|] == bits[pos..pos + |a + b|][|a|..];
  }

  /** The decoder's reads, one after the other. */
  lemma NextFieldParts(bits: Bits, pos: nat, positional: bool, next: PositionData)
    ensures var typePos := if positional then pos + 8 else pos;
            var key := ReadAt(bits, typePos, DATA_TYPE_BIT_COUNT);
            var dataPos := typePos + DATA_TYPE_BIT_COUNT;
            NextField(bits, pos, positional, next)
            == (ReadField(key, if positional then ParsePosition(ToByte(ReadAt(bits, pos, 8))) else next, ReadAt(bits, dataPos, ReadWidth(key))),
                dataPos + ReadWidth(key))
  {}

  /** One encoded field in front of the read position: the decoder reads its key and place, and its
      data too unless the key is DOUBLE. */
  lemma FieldReadBack(bits: Bits, pos: nat, positional: bool, field: Field, next: PositionData, index: nat)
    requires InTable(field.key) && (positional || next == PositionData(index, GENERAL))
    requires var f := FieldBits(positional, field); pos + |f| <= |bits| && bits[pos..pos + |f|] == f
    ensures CanDecode(bits, pos)
    ensures var (read, after) := NextField(bits, pos, positional, next);
            && read.key == field.key && read.pos == PlaceOf(positional, field, index)
            && (field.key != MDK_DOUBLE ==> read == Received(positional, field, index) && after == pos + |FieldBits(positional, field)|)
            && (field.key == MDK_DOUBLE ==> read.raw == 0 && after == pos + |HeaderBits(positional, field.key, field.position)|)
  {
    hide NextField, HeaderBits, BitsOf, ReadAt, ToByte, ParsePosition, GetMetaData, Pow2;
    var header := HeaderBits(positional, field.key, field.position);
    HeaderLength(positional, field.key, field.position);
    ReadNothing(bits, pos + |header|);
    var f := FieldBits(positional, field);
    NextFieldParts(bits, pos, positional, next);
    var dataPos, w := pos + |header|, DataWidth(field.key);
    Pieces(bits, pos, header, BitsOf(field.raw, w));
    HeaderReadBack(bits, pos, positional, field);
    ReadBack(bits, dataPos, field.raw, w);
  }

  /** Padding decodes to nothing, except that seven bits of it make one key-0 field. */
  lemma PaddingDecodes(bits: Bits, pos: nat, pad: nat, positional: bool, next: PositionData, index: nat)
    requires pad < 8 && |bits| == pos + pad && bits[pos..] == Zeros(pad)
    requires positional || next == PositionData(index, GENERAL)
    ensures DecodeFrom(bits, pos, positional, next) == if pad == 7 then [Trailer(positional, index)] else []
  {
    if pad == 7 {
      if !positional {
        ZerosRead(bits, pos, DATA_TYPE_BIT_COUNT);
      }
      assert NextField(bits, pos, positional, next).0 == Trailer(positional, index);
    }
  }

  lemma ZerosRead(bits: Bits, pos: nat, n: nat)
    requires pos + n <= |bits| && forall i | pos <= i < pos + n :: !bits[i]
    ensures ReadAt(bits, pos, n) == 0
  {
    assert bits[pos..pos + n] == Zeros(n);
    ValueOfZeros(n);
  }

  /** Decoding from inside a stream: every field comes back, whatever went before. */
  lemma {:induction false} DecodeStream(bits: Bits, pos: nat, positional: bool, fields: seq<Field>, pad: nat, next: PositionData, start: nat)
    requires pos <= |bits| && pad < 8 && bits[pos..] == StreamBits(positional, fields) + Zeros(pad)
    requires forall i | 0 <= i < |fields| :: InTable(fields[i].key) && fields[i].key != MDK_DOUBLE
    requires positional || next == PositionData(start, GENERAL)
    ensures DecodeFrom(bits, pos, positional, next) == WithTrailer(positional, fields, pad, start)
    decreases |fields|
  {
    hide NextField, FieldBits, Received, GetMetaData, ReadAt;
    if fields == [] {
      assert bits[pos..] == Zeros(pad);
      PaddingDecodes(bits, pos, pad, positional, next, start);
    } else {
      hide StreamBits, HeaderBits, WithTrailer, DecodeFrom, ParsePosition;
      var f := FieldBits(positional, fields[0]);
      PeelField(bits, pos, positional, fields, pad);
      FieldReadBack(bits, pos, positional, fields[0], next, start);
      var read := NextField(bits, pos, positional, next).0;
      DecodeStream(bits, pos + |f|, positional, fields[1..], pad, read.pos.(id := read.pos.id + 1), start + 1);
      FirstDecoded(bits, pos, positional, next);
      FirstExpected(positional, fields, pad, start);
    }
  }

  lemma FirstDecoded(bits: Bits, pos: nat, positional: bool, next: PositionData)
    requires CanDecode(bits, pos)
    ensures var (read, after) := NextField(bits, pos, positional, next);
            DecodeFrom(bits, pos, positional, next) == [read] + DecodeFrom(bits, after, positional, read.pos.(id := read.pos.id + 1))
  {
    hide NextField;
  }

  lemma FirstExpected(positional: bool, fields: seq<Field>, pad: nat, start: nat)
    requires fields != []
    ensures WithTrailer(positional, fields, pad, start)
            == [Received(positional, fields[0], start)] + WithTrailer(positional, fields[1..], pad, start + 1)
  {
    hide Received;
  }

  lemma PeelField(bits: Bits, pos: nat, positional: bool, fields: seq<Field>, pad: nat)
    requires fields != [] && pos <= |bits| && bits[pos..] == StreamBits(positional, fields) + Zeros(pad)
    ensures var f := FieldBits(positional, fields[0]);
            && pos + |f| <= |bits| && bits[pos..pos + |f|] == f
            && bits[pos + |f|..] == StreamBits(positional, fields[1..]) + Zeros(pad)
  {
    hide FieldBits, StreamBits;
    StreamFromFront(positional, fields);
    var f := FieldBits(positional, fields[0]);
    assert bits[pos..][..|f|] == f;
    assert bits[pos..][|f|..] == bits[pos + |f|..];
  }

  /** A DOUBLE field loses the stream: its data is taken for further fields. */
  lemma {:induction false} DoubleBreaksStream(bits: Bits, pos: nat, positional: bool, fields: seq<Field>, pad: nat, next: PositionData, start: nat, k: nat)
    requires pos <= |bits| && pad < 8 && bits[pos..] == StreamBits(positional, fields) + Zeros(pad)
    requires forall i | 0 <= i < |fields| :: InTable(fields[i].key)
    requires k < |fields| && fields[k].key == MDK_DOUBLE
    requires positional || next == PositionData(start, GENERAL)
    ensures DecodeFrom(bits, pos, positional, next) != WithTrailer(positional, fields, pad, start)
    decreases k
  {
    hide NextField, GetMetaData, DecodeFrom, WithTrailer, FieldBits, StreamBits, HeaderBits, ParsePosition, CanDecode, DataWidth;
    PeelField(bits, pos, positional, fields, pad);
    FieldReadBack(bits, pos, positional, fields[0], next, start);
    var (read, after) := NextField(bits, pos, positional, next);
    HeadAndTail(bits, pos, positional, fields, pad, next, start);
    DoubleWidth();
    if fields[0].key != MDK_DOUBLE {
      DoubleBreaksStream(bits, after, positional, fields[1..], pad, read.pos.(id := read.pos.id + 1), start + 1, k - 1);
    } else if fields[0].raw % Pow2(64) == 0 {
      DoubleDataIsFields(bits, pos, positional, fields[0], after, read.pos.(id := read.pos.id + 1));
      if |fields| > 1 {
        KeyFitsHeader(fields[1].key);
      }
    }
  }

  lemma DoubleWidth()
    ensures DataWidth(MDK_DOUBLE) == 64
  {}

  /** First element and rest of what is decoded and of what is expected. */
  lemma HeadAndTail(bits: Bits, pos: nat, positional: bool, fields: seq<Field>, pad: nat, next: PositionData, start: nat)
    requires fields != [] && CanDecode(bits, pos)
    ensures var (read, after) := NextField(bits, pos, positional, next);
            var got, want := DecodeFrom(bits, pos, positional, next), WithTrailer(positional, fields, pad, start);
            && got != [] && got[0] == read && got[1..] == DecodeFrom(bits, after, positional, read.pos.(id := read.pos.id + 1))
            && want != [] && want[0].raw == fields[0].raw % Pow2(DataWidth(fields[0].key))
            && want[1..] == WithTrailer(positional, fields[1..], pad, start + 1)
            && (|fields| > 1 ==> want[1].key == fields[1].key)
            && (|fields| == 1 ==> |want| <= 2)
  {
    hide NextField, GetMetaData, ParsePosition, DataWidth;
    FirstDecoded(bits, pos, positional, next);
    FirstExpected(positional, fields, pad, start);
  }

  /** When the data of a DOUBLE is zero, the bits of it decode as at least two key-0 fields. */
  lemma DoubleDataIsFields(bits: Bits, pos: nat, positional: bool, field: Field, after: nat, next: PositionData)
    requires field.key == MDK_DOUBLE && field.raw % Pow2(64) == 0
    requires after == pos + |HeaderBits(positional, field.key, field.position)|
    requires var f := FieldBits(positional, field); pos + |f| <= |bits| && bits[pos..pos + |f|] == f
    ensures var fields := DecodeFrom(bits, after, positional, next); |fields| >= 2 && fields[0].key == 0
  {
    hide DecodeFrom;
    var header, f := HeaderBits(positional, field.key, field.position), FieldBits(positional, field);
    ZeroData(field.raw);
    assert DataWidth(MDK_DOUBLE) == 64;
    forall i | after <= i < after + 64
      ensures !bits[i]
    {
      assert bits[i] == bits[pos..pos + |f|][i - pos] == f[i - pos];
      assert f[i - pos] == BitsOf(field.raw, 64)[i - after];
    }
    ZeroFields(bits, after, positional, next);
  }

  lemma ZeroData(raw: nat)
    requires raw % Pow2(64) == 0
    ensures forall i | 0 <= i < 64 :: !BitsOf(raw, 64)[i]
  {
    forall i | 0 <= i < 64
      ensures !BitsOf(raw, 64)[i]
    {
      BitOfMod(raw, 64, 63 - i);
      BitOfZero(63 - i);
    }
  }

  /** 64 zero bits decode to at least two key-0 fields. */
  lemma ZeroFields(bits: Bits, pos: nat, positional: bool, next: PositionData)
    requires pos + 64 <= |bits| && forall i | pos <= i < pos + 64 :: !bits[i]
    ensures var fields := DecodeFrom(bits, pos, positional, next); |fields| >= 2 && fields[0].key == 0
  {
    var typePos := if positional then pos + 8 else pos;
    ZerosRead(bits, typePos, DATA_TYPE_BIT_COUNT);
    assert NextField(bits, pos, positional, next).1 == typePos + 6;
  }

  /** The stream round trip. A payload of table fields, with or without positions, decodes to
      exactly its keys, places and data in order, plus one key-0 field when its bit length is 1 mod 8
      -- exactly when none of its fields is a DOUBLE. */
  lemma StreamRoundTrip(payload: seq<byte>, positional: bool, fields: seq<Field>, pad: nat)
    requires pad < 8 && Unpack(payload) == Settings(positional) + StreamBits(positional, fields) + Zeros(pad)
    requires forall i | 0 <= i < |fields| :: InTable(fields[i].key)
    ensures pad == 7 <==> |Settings(positional) + StreamBits(positional, fields)| % 8 == 1
    ensures DecodePayload(Unpack(payload)) == WithTrailer(positional, fields, pad, 0)
            <==> forall i | 0 <= i < |fields| :: fields[i].key != MDK_DOUBLE
  {
    hide DecodeFrom, WithTrailer, StreamBits, GetMetaData;
    var bits := Unpack(payload);
    assert bits[7] == Settings(positional)[7] == positional;
    assert bits[8..] == StreamBits(positional, fields) + Zeros(pad);
    if k :| 0 <= k < |fields| && fields[k].key == MDK_DOUBLE {
      DoubleBreaksStream(bits, 8, positional, fields, pad, START, 0, k);
    } else {
      DecodeStream(bits, 8, positional, fields, pad, START, 0);
    }
  }

  // ------------------------------------------------------------------ any payload

  /** Every callback costs at least six bits, so a payload of n bits gives at most n / 6 of them. */
  lemma {:induction false} CallbackBound(bits: Bits, pos: nat, positional: bool, next: PositionData)
    requires pos <= |bits|
    ensures 6 * |DecodeFrom(bits, pos, positional, next)| <= |bits| - pos
    decreases |bits| - pos
  {
    hide NextField;
    if CanDecode(bits, pos) {
      var (field, after) := NextField(bits, pos, positional, next);
      if after <= |bits| {
        CallbackBound(bits, after, positional, field.pos.(id := field.pos.id + 1));
      }
    }
  }

  /** The fields that end inside the payload. */
  function WholeFields(bits: Bits, pos: nat, positional: bool, next: PositionData): seq<ReadField>
    decreases if pos < |bits| then |bits| - pos else 0
  {
    if !CanDecode(bits, pos) || NextField(bits, pos, positional, next).1 > |bits| then []
    else
      var (field, after) := NextField(bits, pos, positional, next);
      [field] + WholeFields(bits, after, positional, field.pos.(id := field.pos.id + 1))
  }

  lemma ReadIsStable(bits: Bits, extra: Bits, pos: nat, n: nat)
    requires pos + n <= |bits|
    ensures ReadAt(bits + extra, pos, n) == ReadAt(bits, pos, n)
  {
    assert (bits + extra)[pos..pos + n] == bits[pos..pos + n];
  }

  lemma NextIsStable(bits: Bits, extra: Bits, pos: nat, positional: bool, next: PositionData)
    requires NextField(bits, pos, positional, next).1 <= |bits|
    ensures NextField(bits + extra, pos, positional, next) == NextField(bits, pos, positional, next)
  {
    hide GetMetaData, ParsePosition, ReadAt;
    var typePos := if positional then pos + 8 else pos;
    if positional {
      ReadIsStable(bits, extra, pos, 8);
    }
    ReadIsStable(bits, extra, typePos, DATA_TYPE_BIT_COUNT);
    ReadIsStable(bits, extra, typePos + 6, ReadWidth(ReadAt(bits, typePos, DATA_TYPE_BIT_COUNT)));
  }

  /** Appending bytes to a payload changes no field that ended inside it; at most the last field of
      the short payload, the one that ran off its end, comes out differently. */
  lemma {:induction false} AppendedBytesKeepFields(bits: Bits, extra: Bits, pos: nat, positional: bool, next: PositionData)
    ensures var whole := WholeFields(bits, pos, positional, next);
            && whole <= DecodeFrom(bits, pos, positional, next)
            && whole <= DecodeFrom(bits + extra, pos, positional, next)
            && |DecodeFrom(bits, pos, positional, next)| <= |whole| + 1
    decreases if pos < |bits| then |bits| - pos else 0
  {
    hide NextField;
    if CanDecode(bits, pos) {
      var (field, after) := NextField(bits, pos, positional, next);
      if after <= |bits| {
        NextIsStable(bits, extra, pos, positional, next);
        AppendedBytesKeepFields(bits, extra, after, positional, field.pos.(id := field.pos.id + 1));
      }
    }
  }

  // ------------------------------------------------------------------ machine words

  /** The whole numbers a value of an integer key can be. */
  predicate IntegerOf(key: int, v: int)
  {
    match key
    case MDK_INT_8 => -128 <= v < 128
    case MDK_INT_16 => -32768 <= v < 32768
    case MDK_INT_32 => -2147483648 <= v < 2147483648
    case MDK_INT_64 => -9223372036854775808 <= v < 9223372036854775808
    case MDK_UINT_8 => 0 <= v < 256
    case MDK_UINT_16 => 0 <= v < 65536
    case MDK_UINT_32 => 0 <= v < 4294967296
    case MDK_UINT_64 => 0 <= v < 18446744073709551616
    case MDK_CHAR => 0 <= v < 256
    case _ => false
  }

  lemma WordSizes()
    ensures Pow2(8) == 256 && Pow2(16) == 65536 && Pow2(32) == 4294967296 && Pow2(64) == 18446744073709551616
    ensures Pow2(7) == 128 && Pow2(15) == 32768 && Pow2(31) == 2147483648 && Pow2(63) == 9223372036854775808
  {
    assert Pow2(7) == 128;
    assert Pow2(8) == 256;
    hide Pow2;
    Pow2Add(8, 8);
    Pow2Add(8, 7);
    Pow2Add(16, 16);
    Pow2Add(16, 15);
    Pow2Add(32, 32);
    Pow2Add(32, 31);
  }

  /** How many bits each word key takes. */
  lemma WordWidths(key: int)
    ensures key in {MDK_UINT_8, MDK_INT_8, MDK_CHAR, MDK_ERROR} ==> DataWidth(key) == 8
    ensures key in {MDK_UINT_16, MDK_INT_16} ==> DataWidth(key) == 16
    ensures key in {MDK_UINT_32, MDK_INT_32, MDK_FLOAT} ==> DataWidth(key) == 32
    ensures key in {MDK_UINT_64, MDK_INT_64, MDK_DOUBLE} ==> DataWidth(key) == 64
  {
    hide RangeWidth, GetMetaData;
    WordBytes(key);
  }

  lemma WordBytes(key: int)
    ensures key in {MDK_UINT_8, MDK_INT_8, MDK_CHAR, MDK_ERROR} ==> GetMetaData(key) == Word(1)
    ensures key in {MDK_UINT_16, MDK_INT_16} ==> GetMetaData(key) == Word(2)
    ensures key in {MDK_UINT_32, MDK_INT_32, MDK_FLOAT} ==> GetMetaData(key) == Word(4)
    ensures key in {MDK_UINT_64, MDK_INT_64, MDK_DOUBLE} ==> GetMetaData(key) == Word(8)
  {}

  /** What the other keys' bits are reported as: an unsigned word as itself, a float as its bit pattern,
      an error code as an error unless it is zero, an unknown key as zero. */
  lemma WordsReported(key: int, raw: nat)
    ensures key in {MDK_UINT_8, MDK_UINT_16, MDK_UINT_32, MDK_UINT_64, MDK_CHAR} ==> Interpret(key, raw) == Decoded(Number(raw as real))
    ensures key == MDK_FLOAT ==> Interpret(key, raw) == Decoded(FloatWord(raw))
    ensures key == MDK_ERROR ==> Interpret(key, raw) == if raw == 0 then Decoded(Number(0.0)) else Failed(raw)
    ensures GetMetaData(key).dataType == NoData ==> Interpret(key, raw) == Decoded(Number(0.0))
  {
    hide RangeWidth, Signed, IsRange;
  }

  predicate SignedKey(key: int)
  {
    key == MDK_INT_8 || key == MDK_INT_16 || key == MDK_INT_32 || key == MDK_INT_64
  }

  lemma SignedReported(key: int, v: int)
    requires SignedKey(key) && IntegerOf(key, v)
    ensures Interpret(key, v % Pow2(DataWidth(key))) == Decoded(Number(v as real))
  {
    hide Pow2, DataWidth, GetMetaData;
    WordWidths(key);
    WordSizes();
    WordOfInt(v, Pow2(DataWidth(key)));
  }

  lemma UnsignedReported(key: int, v: int)
    requires !SignedKey(key) && IntegerOf(key, v)
    ensures Interpret(key, v % Pow2(DataWidth(key))) == Decoded(Number(v as real))
  {
    hide Pow2, DataWidth, GetMetaData, Interpret;
    WordWidths(key);
    WordSizes();
    SmallMod(v, Pow2(DataWidth(key)));
    WordsReported(key, v);
  }

  /** An integer key's word is reported as the integer it stands for: its low bits, taken as a two's
      complement or an unsigned number of the key's own width. */
  lemma IntegerReported(key: int, v: int)
    requires IntegerOf(key, v)
    ensures InTable(key) && key != MDK_DOUBLE
    ensures Interpret(key, v % Pow2(DataWidth(key))) == Decoded(Number(v as real))
  {
    hide Pow2, DataWidth, Interpret, InTable, GetMetaData;
    WordWidths(key);
    if SignedKey(key) {
      SignedReported(key, v);
    } else {
      UnsignedReported(key, v);
    }
  }

  /** A field of an integer key whose word carries v, wherever it stands in a stream: its callback reports
      the number v. */
  lemma IntegerReadBack(positional: bool, fields: seq<Field>, pad: nat, i: nat, v: int)
    requires i < |fields| && IntegerOf(fields[i].key, v)
    requires fields[i].raw % Pow2(DataWidth(fields[i].key)) == v % Pow2(DataWidth(fields[i].key))
    ensures i < |WithTrailer(positional, fields, pad, 0)|
    ensures Reports(WithTrailer(positional, fields, pad, 0))[i].outcome == Decoded(Number(v as real))
  {
    hide WithTrailer, PlaceOf, GenerateFieldName, DataWidth, Interpret;
    TrailerParts(positional, fields, pad, 0);
    IntegerReported(fields[i].key, v);
  }

  /** An integer in a two's complement word comes back as itself. */
  lemma SignedRoundTrip(v: int, bytes: nat)
    requires bytes > 0 && -Half(bytes) <= v < Half(bytes)
    ensures Signed(v % Pow2(8 * bytes), bytes) == v
  {
    assert Pow2(8 * bytes) == 2 * Half(bytes);
    WordOfInt(v, Pow2(8 * bytes));
  }

  lemma WordOfInt(v: int, m: nat)
    requires 0 - m <= v < m
    ensures v % m == if v < 0 then v + m else v
  {
    if v < 0 {
      assert v == 0 - m + (v + m);
    }
  }

  function Half(bytes: nat): int
    requires bytes > 0
  {
    Pow2(8 * bytes - 1)
  }
}
