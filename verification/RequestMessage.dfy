/** The payload of a write request, and what the device at the other end reads in it. */
module RequestMessage {
  import opened Words
  import opened Wrappers
  import opened BitLists
  import opened SerialMap
  import opened RubixBuffer
  import opened RubixFields
  import opened FixedPoint
  import opened PositionNames
  import opened Text
  import opened Encoder
  import opened Decoder
  import opened RubixStream

  /** The parts of a point the encoder looks at. */
  datatype Point = Point(writeValue: Option<real>, dataType: string, ioNumber: string)

  /** The Go value a key's write value is converted to before encoding. `word` stands for Go's own
      float64 conversion to the machine word of that key. */
  function DataOf(key: int, value: real, word: (real, int) -> nat): Data
  {
    match key
    case MDK_UINT_8 => Integer(1, word(value, key))
    case MDK_UINT_16 => Integer(2, word(value, key))
    case MDK_UINT_32 => Integer(4, word(value, key))
    case MDK_UINT_64 => Integer(8, word(value, key))
    case MDK_INT_8 => Integer(1, word(value, key))
    case MDK_INT_16 => Integer(2, word(value, key))
    case MDK_INT_32 => Integer(4, word(value, key))
    case MDK_INT_64 => Integer(8, word(value, key))
    case MDK_CHAR => Integer(1, word(value, key))
    case MDK_FLOAT => Float(4, value, word(value, key))
    case _ => Float(8, value, word(value, key))
  }

  /** The field a point adds to a request: an error, one field, or nothing at all. */
  function PointFields(point: Point, word: (real, int) -> nat): Result<seq<Field>>
  {
    if point.writeValue.None? || Atoi(point.dataType).None? || GetPosition(point.ioNumber).None? then Err
    else
      var key := Atoi(point.dataType).value;
      match DataBits(key, DataOf(key, point.writeValue.value, word))
      case None => Ok([])
      case Some(raw) => Ok([Field(key, GetPosition(point.ioNumber).value, raw)])
  }

  function RequestFields(points: seq<Point>, word: (real, int) -> nat): Result<seq<Field>>
  {
    if points == [] then Ok([])
    else
      match RequestFields(points[..|points| - 1], word)
      case Err => Err
      case Ok(fields) =>
        match PointFields(points[|points| - 1], word)
        case Err => Err
        case Ok(more) => Ok(fields + more)
  }

  /** Points the encoder refuses: no value, no type number, or no valid position. */
  predicate Malformed(point: Point)
  {
    point.writeValue.None? || Atoi(point.dataType).None? || GetPosition(point.ioNumber).None?
  }

  method EncodeRequestMessage(points: seq<Point>, word: (real, int) -> nat) returns (payload: Result<seq<byte>>)
    ensures payload.Err? <==> RequestFields(points, word).Err?
    ensures payload.Ok? ==> Spells(payload.value, Settings(true) + StreamBits(true, RequestFields(points, word).value))
  {
    hide PointFields, DataBits, DataOf, GetPosition, Atoi, StreamBits, FieldBits, RequestFields;
    var serialData := new SerialData.New();
    serialData.SetPositionalData(true);
    ghost var fields := [];
    NoFields(word);
    assert serialData.Written() == Settings(true) + StreamBits(true, []);
    var i := 0;
    assert points[..0] == [];
    while i < |points|
      invariant i <= |points| && fresh(serialData) && serialData.Valid()
      invariant RequestFields(points[..i], word) == Ok(fields)
      invariant serialData.Written() == Settings(true) + StreamBits(true, fields)
    {
      var point := points[i];
      NextPoint(points, i, word, fields);
      if point.writeValue.None? || Atoi(point.dataType).None? || GetPosition(point.ioNumber).None? {
        ErrorStays(points, i + 1, word);
        return Err;
      }
      var key := Atoi(point.dataType).value;
      var data := DataOf(key, point.writeValue.value, word);
      var ok := EncodeData(serialData, data, key, GetPosition(point.ioNumber).value);
      if ok {
        ghost var field := Field(key, GetPosition(point.ioNumber).value, DataBits(key, data).value);
        AppendField(true, fields, field);
        fields := fields + [field];
      }
      i := i + 1;
    }
    assert points[..i] == points;
    payload := Ok(serialData.Buffer);
  }

  lemma NoFields(word: (real, int) -> nat)
    ensures RequestFields([], word) == Ok([]) && StreamBits(true, []) == []
  {}

  /** What one more point makes of the fields so far. */
  lemma NextPoint(points: seq<Point>, i: nat, word: (real, int) -> nat, fields: seq<Field>)
    requires i < |points| && RequestFields(points[..i], word) == Ok(fields)
    ensures var point := points[i];
            RequestFields(points[..i + 1], word) ==
              if Malformed(point) then Err
              else
                var key := Atoi(point.dataType).value;
                match DataBits(key, DataOf(key, point.writeValue.value, word))
                case None => Ok(fields)
                case Some(raw) => Ok(fields + [Field(key, GetPosition(point.ioNumber).value, raw)])
  {
    hide DataBits, DataOf, GetPosition, Atoi;
    PrefixStep(points, i, word);
    assert fields + [] == fields;
  }

  lemma PrefixStep(points: seq<Point>, i: nat, word: (real, int) -> nat)
    requires i < |points|
    ensures RequestFields(points[..i + 1], word)
            == match RequestFields(points[..i], word)
               case Err => Err
               case Ok(fields) =>
                 match PointFields(points[i], word)
                 case Err => Err
                 case Ok(more) => Ok(fields + more)
  {
    assert points[..i + 1][..i] == points[..i];
  }

  lemma {:induction false} ErrorStays(points: seq<Point>, i: nat, word: (real, int) -> nat)
    requires i <= |points| && RequestFields(points[..i], word).Err?
    ensures RequestFields(points, word).Err?
    decreases |points| - i
  {
    if i == |points| {
      assert points[..i] == points;
    } else {
      PrefixStep(points, i, word);
      ErrorStays(points, i + 1, word);
    }
  }

  /** A well-formed point is left out of its request, without an error, exactly when its data type
      is not in the table or is ERROR. */
  lemma SilentlyOmitted(key: int, value: real, word: (real, int) -> nat)
    ensures DataBits(key, DataOf(key, value, word)).None? <==> !InTable(key) || key == MDK_ERROR
  {}

  /** The points that add a field, in order. */
  function Included(points: seq<Point>, word: (real, int) -> nat): seq<Point>
  {
    if points == [] then []
    else
      var last := points[|points| - 1];
      Included(points[..|points| - 1], word)
      + (if PointFields(last, word).Ok? && PointFields(last, word).value != [] then [last] else [])
  }

  /** A field is what its point is configured and written as. */
  ghost predicate IsFieldOf(field: Field, point: Point, word: (real, int) -> nat)
  {
    && point.writeValue.Some? && GetPosition(point.ioNumber) == Some(field.position)
    && Atoi(point.dataType) == Some(field.key) && InTable(field.key)
    && DataBits(field.key, DataOf(field.key, point.writeValue.value, word)) == Some(field.raw)
  }

  lemma PointField(point: Point, word: (real, int) -> nat)
    requires PointFields(point, word).Ok? && PointFields(point, word).value != []
    ensures |PointFields(point, word).value| == 1 && IsFieldOf(PointFields(point, word).value[0], point, word)
  {
    hide GetPosition, Atoi, DataOf;
  }

  /** The fields of a request are those of its included points, one each, in order. */
  lemma {:induction false} FieldsOfPoints(points: seq<Point>, word: (real, int) -> nat)
    requires RequestFields(points, word).Ok?
    ensures var fields, included := RequestFields(points, word).value, Included(points, word);
            |included| == |fields| && forall i | 0 <= i < |fields| :: IsFieldOf(fields[i], included[i], word)
  {
    hide PointFields, IsFieldOf;
    if points != [] {
      var last := points[|points| - 1];
      FieldsOfPoints(points[..|points| - 1], word);
      if PointFields(last, word).Ok? && PointFields(last, word).value != [] {
        PointField(last, word);
      }
    }
  }

  /** A request of any number of points, read back by DecodeRubix: it decodes to its fields exactly when
      none of them is a DOUBLE, and then each comes back under its point's name in canonical spelling,
      with the same key and the data sent, in order; after them comes at most the padding field. */
  lemma RequestReadBack(points: seq<Point>, word: (real, int) -> nat, payload: seq<byte>)
    requires RequestFields(points, word).Ok?
    requires Spells(payload, Settings(true) + StreamBits(true, RequestFields(points, word).value))
    ensures 8 <= |Unpack(payload)|
    ensures var fields, included, read := RequestFields(points, word).value, Included(points, word), DecodePayload(Unpack(payload));
            var pad := 8 * |payload| - |Settings(true) + StreamBits(true, fields)|;
            && |included| == |fields|
            && (read == WithTrailer(true, fields, pad, 0) <==> forall i | 0 <= i < |fields| :: fields[i].key != MDK_DOUBLE)
            && (read == WithTrailer(true, fields, pad, 0) ==>
                  && |fields| <= |read| <= |fields| + 1
                  && (forall i | 0 <= i < |fields| ::
                        read[i] == Received(true, fields[i], i) && Report(read[i]).name == CanonicalName(included[i].ioNumber))
                  && (|read| > |fields| ==> read[|fields|] == Trailer(true, |fields|)))
  {
    hide DecodePayload, Unpack, StreamBits, RequestFields, Included, Received, Report, CanonicalName, Trailer;
    hide WithTrailer, IsFieldOf, InTable;
    var fields, included := RequestFields(points, word).value, Included(points, word);
    var pad := 8 * |payload| - |Settings(true) + StreamBits(true, fields)|;
    FieldsOfPoints(points, word);
    FieldsInTable(fields, included, word);
    BytesSpelled(payload, fields);
    StreamRoundTrip(payload, true, fields, pad);
    TrailerParts(true, fields, pad, 0);
    forall i | 0 <= i < |fields|
      ensures Report(Received(true, fields[i], i)).name == CanonicalName(included[i].ioNumber)
    {
      NameReadBack(fields[i], included[i], word, i);
    }
  }

  lemma BytesSpelled(payload: seq<byte>, fields: seq<Field>)
    requires Spells(payload, Settings(true) + StreamBits(true, fields))
    ensures 8 <= |Unpack(payload)|
  {
    hide StreamBits;
  }

  lemma FieldsInTable(fields: seq<Field>, points: seq<Point>, word: (real, int) -> nat)
    requires |points| == |fields| && forall i | 0 <= i < |fields| :: IsFieldOf(fields[i], points[i], word)
    ensures forall i | 0 <= i < |fields| :: InTable(fields[i].key)
  {
    hide InTable, GetPosition, Atoi, DataBits, DataOf;
    forall i | 0 <= i < |fields|
      ensures InTable(fields[i].key)
    {
      assert IsFieldOf(fields[i], points[i], word);
    }
  }

  lemma NameReadBack(field: Field, point: Point, word: (real, int) -> nat, index: nat)
    requires IsFieldOf(field, point, word)
    ensures Report(Received(true, field, index)).name == CanonicalName(point.ioNumber)
  {
    hide GetPosition, CanonicalName, ParsePosition, GenerateFieldName, Atoi, DataBits, DataOf, InTable, Interpret;
    AcceptedNameIsPublishedCanonically(point.ioNumber, field.key);
  }

  /** Of a word key -- every one but ERROR, which is never sent -- the field carries Go's conversion of the
      value written, under that very key. */
  lemma WordOfWrite(field: Field, point: Point, word: (real, int) -> nat)
    requires IsFieldOf(field, point, word) && GetMetaData(field.key).dataType == DataPoint
    ensures point.writeValue.Some? && field.key != MDK_ERROR && field.raw == word(point.writeValue.value, field.key)
  {
    hide GetPosition, Atoi, RangeWidth;
  }

  /** The point writes a value that Go converts to the word of v. */
  ghost predicate WritesInteger(point: Point, key: int, v: int, word: (real, int) -> nat)
  {
    point.writeValue.Some? && IntegerOf(key, v) && word(point.writeValue.value, key) % Pow2(DataWidth(key)) == v % Pow2(DataWidth(key))
  }

  /** An integer write is reported by the decoder as the integer written, wherever it stands in the
      request. */
  lemma IntegerWriteReported(points: seq<Point>, word: (real, int) -> nat, payload: seq<byte>, i: nat, v: int)
    requires RequestFields(points, word).Ok?
    requires Spells(payload, Settings(true) + StreamBits(true, RequestFields(points, word).value))
    requires forall j | 0 <= j < |RequestFields(points, word).value| :: RequestFields(points, word).value[j].key != MDK_DOUBLE
    requires i < |RequestFields(points, word).value| && i < |Included(points, word)|
    requires WritesInteger(Included(points, word)[i], RequestFields(points, word).value[i].key, v, word)
    ensures 8 <= |Unpack(payload)|
    ensures var read := DecodePayload(Unpack(payload)); i < |read| && Report(read[i]).outcome == Decoded(Number(v as real))
  {
    hide DecodePayload, Unpack, StreamBits, RequestFields, Included, Received, Interpret, WithTrailer, DataWidth, IsFieldOf, CanonicalName, IntegerOf;
    var fields := RequestFields(points, word).value;
    RequestReadBack(points, word, payload);
    FieldsOfPoints(points, word);
    IntegerIsWord(fields[i].key, v);
    WordOfWrite(fields[i], Included(points, word)[i], word);
    ReceivedInteger(fields[i], i, v);
  }

  lemma IntegerIsWord(key: int, v: int)
    requires IntegerOf(key, v)
    ensures GetMetaData(key).dataType == DataPoint
  {
    WordBytes(key);
  }

  lemma ReceivedInteger(field: Field, index: nat, v: int)
    requires IntegerOf(field.key, v) && field.raw % Pow2(DataWidth(field.key)) == v % Pow2(DataWidth(field.key))
    ensures Report(Received(true, field, index)).outcome == Decoded(Number(v as real))
  {
    hide Interpret, DataWidth, GenerateFieldName, PlaceOf;
    IntegerReported(field.key, v);
  }

  /** A request fails exactly when one of its points has no value, no number for a type, or no valid
      position. */
  lemma {:induction false} RequestFails(points: seq<Point>, word: (real, int) -> nat)
    ensures RequestFields(points, word).Err? <==>
              exists i :: 0 <= i < |points| &&
                (points[i].writeValue.None? || Atoi(points[i].dataType).None? || GetPosition(points[i].ioNumber).None?)
  {
    hide Atoi, GetPosition, DataBits, DataOf;
    if points != [] {
      var front, last := points[..|points| - 1], points[|points| - 1];
      RequestFails(front, word);
      assert forall i | 0 <= i < |front| :: front[i] == points[i];
    }
  }

  /** One point write, read back by DecodeRubix: the configured name in canonical spelling, the same
      key, and the data that was sent; after it the padding field exactly for widths 3 mod 8. */
  lemma WriteReadBack(point: Point, word: (real, int) -> nat, payload: seq<byte>, field: Field)
    requires RequestFields([point], word) == Ok([field]) && field.key != MDK_DOUBLE
    requires Spells(payload, Settings(true) + StreamBits(true, [field]))
    ensures 8 <= |Unpack(payload)|
    ensures var read := DecodePayload(Unpack(payload));
            && 1 <= |read| <= 2
            && read[0] == Received(true, field, 0)
            && Report(read[0]).name == CanonicalName(point.ioNumber)
            && (|read| == 2 ==> read[1] == Trailer(true, 1))
            && (|read| == 2 <==> DataWidth(field.key) % 8 == 3)
  {
    hide DecodePayload, Unpack, StreamBits, RequestFields, Included, Received, Report, CanonicalName, Trailer, DataWidth, WithTrailer;
    RequestReadBack([point], word, payload);
    OnlyIncluded(point, word, field);
    SingleStream(field);
    TrailerParts(true, [field], 8 * |payload| - (22 + DataWidth(field.key)), 0);
  }

  lemma OnlyIncluded(point: Point, word: (real, int) -> nat, field: Field)
    requires RequestFields([point], word) == Ok([field])
    ensures Included([point], word) == [point]
  {
    hide PointFields;
    PrefixStep([point], 0, word);
    assert [point][..0] == [] && [point][..1] == [point];
    assert [] + PointFields(point, word).value == PointFields(point, word).value;
  }

  lemma SingleStream(field: Field)
    ensures |Settings(true) + StreamBits(true, [field])| == 22 + DataWidth(field.key)
    ensures Expected(true, [field], 0) == [Received(true, field, 0)]
  {
    hide GetMetaData;
    assert [field][..0] == [];
  }

  lemma SinglePoint(point: Point, word: (real, int) -> nat, field: Field)
    requires RequestFields([point], word) == Ok([field])
    ensures point.writeValue.Some? && GetPosition(point.ioNumber) == Some(field.position)
    ensures Atoi(point.dataType) == Some(field.key) && InTable(field.key)
    ensures DataBits(field.key, DataOf(field.key, point.writeValue.value, word)) == Some(field.raw)
  {
    hide GetPosition, Atoi, GetMetaData;
    PrefixStep([point], 0, word);
    assert [point][..0] == [] && [point][..1] == [point];
    assert [] + PointFields(point, word).value == PointFields(point, word).value;
  }

  /** A fixed-point write arrives within half a step of the clamped value, unless it is a COUNTER or
      OHM at the very top of its range, which arrives as zero. */
  lemma FixedWriteValue(point: Point, word: (real, int) -> nat, field: Field)
    requires RequestFields([point], word) == Ok([field]) && GetMetaData(field.key).dataType == FixedPoint
    ensures IsRange(GetMetaData(field.key)) && point.writeValue.Some?
    ensures var value := point.writeValue.value;
            var back := FixedValue(GetMetaData(field.key), Received(true, field, 0).raw);
            && Report(Received(true, field, 0)).outcome == Decoded(Number(back))
            && (Close(GetMetaData(field.key), value, back) <==>
                !((field.key == MDK_COUNTER || field.key == MDK_OHM) && value >= 1048575.5))
  {
    hide GetMetaData, FixedSteps, FixedValue, GetPosition, Atoi, Close, RangeWidth, Interpret, RequestFields;
    SinglePoint(point, word, field);
    var value := point.writeValue.value;
    FixedKeyData(field.key, value, word, Received(true, field, 0).raw);
    WrappingKeys(field.key, value);
    FixedPointBound(GetMetaData(field.key), value);
    TableWidths(field.key);
  }

  /** On a fixed-point key every write value is encoded as a step count and reported as a range value. */
  lemma FixedKeyData(key: int, value: real, word: (real, int) -> nat, raw: nat)
    requires GetMetaData(key).dataType == FixedPoint
    ensures IsRange(GetMetaData(key)) && DataBits(key, DataOf(key, value, word)) == Some(FixedSteps(GetMetaData(key), value))
    ensures Interpret(key, raw) == Decoded(Number(FixedValue(GetMetaData(key), raw)))
  {
    hide FixedSteps, FixedValue, IsRange;
    RangeWidthBound(key);
    FixedIsFloat(key, value, word);
  }

  lemma FixedIsFloat(key: int, value: real, word: (real, int) -> nat)
    requires GetMetaData(key).dataType == FixedPoint
    ensures DataOf(key, value, word) == Float(8, value, word(value, key))
    ensures key !in {MDK_INT_8, MDK_INT_16, MDK_INT_32, MDK_INT_64, MDK_FLOAT, MDK_ERROR}
  {}
}
