/** Encoder and decoder run one after the other, on any sequence of values, positions on or off. */
module RubixRoundTrip {
  import opened Words
  import opened BitLists
  import opened Text
  import opened PositionNames
  import opened SerialMap
  import opened RubixBuffer
  import opened RubixFields
  import opened Encoder
  import opened Decoder
  import opened RubixStream

  /** One call of EncodeData. */
  datatype Call = Call(data: Data, key: int, position: byte)

  /** The fields of the calls that EncodeData accepts, in order. */
  function Accepted(calls: seq<Call>): seq<Field>
  {
    if calls == [] then []
    else
      var last := calls[|calls| - 1];
      Accepted(calls[..|calls| - 1])
      + (match DataBits(last.key, last.data) case None => [] case Some(raw) => [Field(last.key, last.position, raw)])
  }

  lemma {:induction false} AcceptedInTable(calls: seq<Call>)
    ensures forall i | 0 <= i < |Accepted(calls)| :: InTable(Accepted(calls)[i].key)
  {
    hide GetMetaData;
    if calls != [] {
      AcceptedInTable(calls[..|calls| - 1]);
    }
  }

  lemma AcceptOneMore(calls: seq<Call>, i: nat)
    requires i < |calls|
    ensures Accepted(calls[..i + 1])
            == Accepted(calls[..i])
               + (match DataBits(calls[i].key, calls[i].data) case None => [] case Some(raw) => [Field(calls[i].key, calls[i].position, raw)])
  {
    hide DataBits;
    assert calls[..i + 1][..i] == calls[..i];
  }

  /** A new buffer, the positional flag, and one EncodeData call after the other: whatever is accepted or
      refused on the way, the buffer spells the settings byte and the accepted fields. */
  method EncodeAll(calls: seq<Call>, positional: bool) returns (serialData: SerialData)
    ensures fresh(serialData) && serialData.Valid()
    ensures serialData.Written() == Settings(positional) + StreamBits(positional, Accepted(calls))
    ensures Spells(serialData.Buffer, Settings(positional) + StreamBits(positional, Accepted(calls)))
  {
    hide DataBits, StreamBits, FieldBits;
    serialData := new SerialData.New();
    serialData.SetPositionalData(positional);
    NoCalls(positional);
    assert serialData.Written() == Settings(positional) + StreamBits(positional, []);
    var i := 0;
    assert calls[..0] == [];
    while i < |calls|
      invariant i <= |calls| && fresh(serialData) && serialData.Valid()
      invariant serialData.Written() == Settings(positional) + StreamBits(positional, Accepted(calls[..i]))
    {
      AcceptOneMore(calls, i);
      var ok := EncodeData(serialData, calls[i].data, calls[i].key, calls[i].position);
      if ok {
        AppendField(positional, Accepted(calls[..i]), Field(calls[i].key, calls[i].position, DataBits(calls[i].key, calls[i].data).value));
      } else {
        assert Accepted(calls[..i]) + [] == Accepted(calls[..i]);
      }
      i := i + 1;
    }
    assert calls[..i] == calls;
  }

  lemma NoCalls(positional: bool)
    ensures StreamBits(positional, []) == []
  {}

  /** The stream round trip on the code itself: DecodeRubix on the encoder's buffer makes the callbacks
      of exactly the accepted fields, in order, and of one zero-key field when the bit length is 1 mod
      8 -- if and only if, field for field, none of them is a DOUBLE. */
  method EncodeThenDecode(calls: seq<Call>, positional: bool) returns (payload: seq<byte>, callbacks: seq<Callback>)
    ensures Spells(payload, Settings(positional) + StreamBits(positional, Accepted(calls))) && 8 <= |Unpack(payload)|
    ensures callbacks == Reports(DecodePayload(Unpack(payload)))
    ensures var fields := Accepted(calls);
            var odd := |Settings(positional) + StreamBits(positional, fields)| % 8 == 1;
            DecodePayload(Unpack(payload)) == WithTrailer(positional, fields, if odd then 7 else 0, 0)
            <==> forall i | 0 <= i < |fields| :: fields[i].key != MDK_DOUBLE
    ensures var fields := Accepted(calls);
            (forall i | 0 <= i < |fields| :: fields[i].key != MDK_DOUBLE) ==>
              && |fields| <= |callbacks|
              && (!positional ==> forall i | 0 <= i < |fields| :: callbacks[i].name == KeyName(fields[i].key) + "-" + Itoa(i + 1))
              && forall i, v: int | 0 <= i < |fields| && CarriesInteger(fields[i], v) ::
                   callbacks[i].outcome == Decoded(Number(v as real))
  {
    hide DecodePayload, Unpack, StreamBits, Accepted, Settings, Expected, WithTrailer, Report, CarriesInteger;
    var serialData := EncodeAll(calls, positional);
    payload := serialData.Buffer;
    ghost var bits := Settings(positional) + StreamBits(positional, Accepted(calls));
    AcceptedInTable(calls);
    SettingsFirst(positional, Accepted(calls));
    StreamRoundTrip(payload, positional, Accepted(calls), 8 * |payload| - |bits|);
    OnlySevenShow(positional, Accepted(calls), 8 * |payload| - |bits|, 0);
    callbacks := DecodeRubix(payload);
    IntegersReported(positional, Accepted(calls), if |bits| % 8 == 1 then 7 else 0);
    if !positional {
      NumberedNames(Accepted(calls), if |bits| % 8 == 1 then 7 else 0);
    }
  }

  /** Without positions the fields are published under their key's name and their place in the payload. */
  lemma NumberedNames(fields: seq<Field>, pad: nat)
    ensures var read := WithTrailer(false, fields, pad, 0);
            && |fields| <= |read|
            && forall i | 0 <= i < |fields| :: Reports(read)[i].name == KeyName(fields[i].key) + "-" + Itoa(i + 1)
  {
    hide WithTrailer, KeyName, Itoa, Interpret, DataWidth;
    TrailerParts(false, fields, pad, 0);
  }

  /** The field is an integer key's, and its word is that of v. */
  ghost predicate CarriesInteger(field: Field, v: int)
  {
    IntegerOf(field.key, v) && field.raw % Pow2(DataWidth(field.key)) == v % Pow2(DataWidth(field.key))
  }

  lemma IntegersReported(positional: bool, fields: seq<Field>, pad: nat)
    ensures var read := WithTrailer(positional, fields, pad, 0);
            && |fields| <= |read|
            && forall i, v: int | 0 <= i < |fields| && CarriesInteger(fields[i], v) ::
                 Reports(read)[i].outcome == Decoded(Number(v as real))
  {
    hide WithTrailer, Report, DataWidth, IntegerOf;
    TrailerParts(positional, fields, pad, 0);
    forall i, v: int | 0 <= i < |fields| && CarriesInteger(fields[i], v)
      ensures Reports(WithTrailer(positional, fields, pad, 0))[i].outcome == Decoded(Number(v as real))
    {
      IntegerReadBack(positional, fields, pad, i, v);
    }
  }

  lemma SettingsFirst(positional: bool, fields: seq<Field>)
    ensures 8 <= |Settings(positional) + StreamBits(positional, fields)|
  {
    hide StreamBits;
  }
}
