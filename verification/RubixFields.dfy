/** The wire format of a Rubix payload as a bit list: the reference both the encoder and the
    decoder are proved against. */
module RubixFields {
  import opened Words
  import opened Wrappers
  import opened BitLists
  import opened SerialMap
  import opened FixedPoint

  /** One field as it is put on the wire; only the low DataWidth(key) bits of raw are sent. */
  datatype Field = Field(key: int, position: byte, raw: nat)

  /** What EncodeData is handed: a Go float (with its bit pattern) or another sized value. */
  datatype Data =
    | Float(size: nat, value: real, raw: nat)
    | Integer(size: nat, raw: nat)

  /** The uint64 a value becomes under a key, or None where the source refuses it. */
  function DataBits(key: int, data: Data): Option<nat>
  {
    match GetMetaData(key).dataType
    case NoData => None
    case FixedPoint =>
      if data.Float? then RangeWidthBound(key); Some(FixedSteps(GetMetaData(key), data.value)) else None
    case DataPoint =>
      if data.size == GetMetaData(key).byteCount then Some(data.raw) else None
  }

  /** What EncodeData takes: a float for a fixed-point key, and for a word key a value of the word's size. */
  lemma Acceptance(key: int, data: Data)
    ensures DataBits(key, data).Some? <==>
              || (GetMetaData(key).dataType == FixedPoint && data.Float?)
              || (key in {MDK_UINT_8, MDK_INT_8, MDK_CHAR, MDK_ERROR} && data.size == 1)
              || (key in {MDK_UINT_16, MDK_INT_16} && data.size == 2)
              || (key in {MDK_UINT_32, MDK_INT_32, MDK_FLOAT} && data.size == 4)
              || (key in {MDK_UINT_64, MDK_INT_64, MDK_DOUBLE} && data.size == 8)
  {
    hide RangeWidth, FixedSteps;
  }

  function HeaderBits(positional: bool, key: int, position: byte): Bits
  {
    (if positional then BitsOf(position, 8) else []) + BitsOf(Uint64(key), DATA_TYPE_BIT_COUNT)
  }

  function FieldBits(positional: bool, field: Field): Bits
  {
    HeaderBits(positional, field.key, field.position) + BitsOf(field.raw, DataWidth(field.key))
  }

  function StreamBits(positional: bool, fields: seq<Field>): Bits
  {
    if fields == [] then [] else StreamBits(positional, fields[..|fields| - 1]) + FieldBits(positional, fields[|fields| - 1])
  }

  /** A byte string that spells a bit list padded with fewer than eight zeros. */
  ghost predicate Spells(payload: seq<byte>, bits: Bits)
  {
    |bits| <= 8 * |payload| < |bits| + 8 && Unpack(payload) == bits + Zeros(8 * |payload| - |bits|)
  }

  /** One more field at the end of what follows the settings byte. */
  lemma AppendField(positional: bool, fields: seq<Field>, field: Field)
    ensures Settings(positional) + StreamBits(positional, fields)
            + FieldBits((Settings(positional) + StreamBits(positional, fields))[7], field)
            == Settings(positional) + StreamBits(positional, fields + [field])
  {
    assert (fields + [field])[..|fields|] == fields;
  }

  /** The wire layout of a field with its position, bit by bit, and without: position, key, data, each
      most significant bit first; and the settings byte, as a number. */
  lemma WireLayout(field: Field, i: nat)
    ensures ValueOf(Settings(false)) == 0 && ValueOf(Settings(true)) == 1
    ensures |FieldBits(true, field)| == 14 + DataWidth(field.key) && |FieldBits(false, field)| == 6 + DataWidth(field.key)
    ensures i < 8 ==> FieldBits(true, field)[i] == Bit(field.position, 7 - i)
    ensures i < 6 ==> FieldBits(true, field)[8 + i] == FieldBits(false, field)[i] == Bit(Uint64(field.key), 5 - i)
    ensures i < DataWidth(field.key) ==>
              FieldBits(true, field)[14 + i] == FieldBits(false, field)[6 + i] == Bit(field.raw, DataWidth(field.key) - 1 - i)
  {
    hide GetMetaData, DataWidth, Uint64, Bit;
    assert Settings(false)[..7] == Settings(true)[..7] == Zeros(7);
    ValueOfZeros(7);
  }

  /** `uint64(key)`: negative keys wrap. */
  function Uint64(key: int): nat
  {
    key % Pow2(64)
  }

  /** The settings byte: bit 0 says whether fields carry a position. */
  function Settings(positional: bool): Bits
  {
    Zeros(7) + [positional]
  }
}
