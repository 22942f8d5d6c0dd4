/** The Rubix field table: for every metadata key, whether its data is a fixed-point number
    over a range or a raw machine word, and how many bits it takes on the wire. */
module SerialMap {
  import opened Words

  const DATA_TYPE_BIT_COUNT: nat := 6

  const MDK_TEMP := 1
  const MDK_RH := 2
  const MDK_LUX := 3
  const MDK_MOVEMENT := 4
  const MDK_COUNTER := 5
  const MDK_DIGITAL := 6
  const MDK_VOLTAGE_0_10 := 7
  const MDK_MILLIAMPS_4_20 := 8
  const MDK_OHM := 10
  const MDK_CO2 := 11
  const MDK_BATTERY_VOLTAGE := 12
  const MDK_PUSH_FREQUENCY := 13
  const MDK_ANALOG_IN := 16
  const MDK_UINT_8 := 30
  const MDK_INT_8 := 31
  const MDK_UINT_16 := 32
  const MDK_INT_16 := 33
  const MDK_UINT_32 := 34
  const MDK_INT_32 := 35
  const MDK_UINT_64 := 36
  const MDK_INT_64 := 37
  const MDK_BOOL := 38
  const MDK_CHAR := 39
  const MDK_FLOAT := 40
  const MDK_DOUBLE := 41
  const MDK_ERROR := 43
  const MDK_FIRMWARE_VERSION := 61
  const MDK_HARDWARE_VERSION := 62

  datatype DataType = NoData | FixedPoint | DataPoint

  datatype MetaData = MetaData(dataType: DataType, lowValue: int, highValue: int, decimalPoint: nat, byteCount: nat)

  function Range(low: int, high: int, decimal: nat): MetaData
  {
    MetaData(FixedPoint, low, high, decimal, 0)
  }

  function Word(byteCount: nat): MetaData
  {
    MetaData(DataPoint, 0, 0, 0, byteCount)
  }

  /** The table lookup; a key outside the table gives the zero descriptor. */
  function GetMetaData(key: int): MetaData
  {
    match key
    case MDK_TEMP => Range(-45, 120, 2)
    case MDK_RH => Range(0, 100, 2)
    case MDK_LUX => Range(0, 65534, 0)
    case MDK_MOVEMENT => Range(0, 1, 0)
    case MDK_COUNTER => Range(0, 1048576, 0)
    case MDK_DIGITAL => Range(0, 1, 0)
    case MDK_VOLTAGE_0_10 => Range(0, 10, 2)
    case MDK_MILLIAMPS_4_20 => Range(4, 20, 2)
    case MDK_OHM => Range(0, 1048576, 0)
    case MDK_CO2 => Range(0, 400, 0)
    case MDK_BATTERY_VOLTAGE => Range(0, 6, 1)
    case MDK_PUSH_FREQUENCY => Range(0, 2000, 0)
    case MDK_ANALOG_IN => Range(0, 1, 3)
    case MDK_FIRMWARE_VERSION => Range(0, 255, 0)
    case MDK_HARDWARE_VERSION => Range(0, 255, 0)
    case MDK_UINT_8 => Word(1)
    case MDK_INT_8 => Word(1)
    case MDK_UINT_16 => Word(2)
    case MDK_INT_16 => Word(2)
    case MDK_UINT_32 => Word(4)
    case MDK_INT_32 => Word(4)
    case MDK_UINT_64 => Word(8)
    case MDK_INT_64 => Word(8)
    case MDK_BOOL => Range(0, 1, 0)
    case MDK_CHAR => Word(1)
    case MDK_FLOAT => Word(4)
    case MDK_DOUBLE => Word(8)
    case MDK_ERROR => Word(1)
    case _ => MetaData(NoData, 0, 0, 0, 0)
  }

  function Pow10(n: nat): (p: nat)
    ensures p >= 1
  {
    if n == 0 then 1 else 10 * Pow10(n - 1)
  }

  /** The number of steps a fixed-point range spans. */
  function RequiredSize(low: int, high: int, decimal: nat): nat
    requires low <= high
  {
    (high - low) * Pow10(decimal)
  }

  /** `bits` is the least positive width whose 2^bits reaches `size`. */
  ghost predicate IsBitCount(size: nat, bits: nat)
  {
    bits >= 1 && size <= Pow2(bits) && (bits == 1 || Pow2(bits - 1) < size)
  }

  function BitCountFrom(size: nat, bits: nat): (r: nat)
    requires bits >= 1
    requires bits == 1 || Pow2(bits - 1) < size
    ensures IsBitCount(size, r)
    decreases size - Pow2(bits)
  {
    if Pow2(bits) < size then BitCountFrom(size, bits + 1) else bits
  }

  lemma BitCountUnique(size: nat, a: nat, b: nat)
    requires IsBitCount(size, a) && IsBitCount(size, b)
    ensures a == b
  {
    if a < b {
      Pow2Monotone(a, b - 1);
    } else if b < a {
      Pow2Monotone(b, a - 1);
    }
  }

  method GetBitCount(low: int, high: int, decimal: nat) returns (bitCount: nat)
    requires low <= high
    ensures IsBitCount(RequiredSize(low, high, decimal), bitCount)
    ensures bitCount == BitCountFrom(RequiredSize(low, high, decimal), 1)
  {
    var requiredSize := RequiredSize(low, high, decimal);
    bitCount := 1;
    while Pow2(bitCount) < requiredSize
      invariant bitCount >= 1
      invariant bitCount == 1 || Pow2(bitCount - 1) < requiredSize
      decreases requiredSize - Pow2(bitCount)
    {
      bitCount := bitCount + 1;
    }
    BitCountUnique(requiredSize, bitCount, BitCountFrom(requiredSize, 1));
  }

  /** A fixed-point descriptor over a range that is not empty, as every one in the table is. */
  predicate IsRange(meta: MetaData)
  {
    meta.dataType == FixedPoint && meta.lowValue < meta.highValue
  }

  function Steps(meta: MetaData): nat
    requires IsRange(meta)
  {
    RequiredSize(meta.lowValue, meta.highValue, meta.decimalPoint)
  }

  /** getBitCount on a descriptor. */
  function RangeWidth(meta: MetaData): (width: nat)
    requires IsRange(meta)
    ensures IsBitCount(Steps(meta), width)
  {
    BitCountFrom(Steps(meta), 1)
  }

  predicate InTable(key: int)
  {
    GetMetaData(key).dataType != NoData
  }

  /** Width of a key's data on the wire: the range's bit count, or the word size. */
  function DataWidth(key: int): (width: nat)
    ensures InTable(key) ==> 1 <= width <= 64
    ensures !InTable(key) ==> width == 0
  {
    var meta := GetMetaData(key);
    match meta.dataType
    case NoData => 0
    case DataPoint => 8 * meta.byteCount
    case FixedPoint =>
      RangeWidthBound(key);
      RangeWidth(meta)
  }

  function TableSteps(key: int): nat
  {
    match key
    case MDK_TEMP => 16500
    case MDK_RH => 10000
    case MDK_LUX => 65534
    case MDK_COUNTER => 1048576
    case MDK_VOLTAGE_0_10 => 1000
    case MDK_MILLIAMPS_4_20 => 1600
    case MDK_OHM => 1048576
    case MDK_CO2 => 400
    case MDK_BATTERY_VOLTAGE => 60
    case MDK_PUSH_FREQUENCY => 2000
    case MDK_ANALOG_IN => 1000
    case MDK_FIRMWARE_VERSION => 255
    case MDK_HARDWARE_VERSION => 255
    case _ => 1
  }

  /** The two ends of each fixed-point range. */
  function TableEnds(key: int): (int, int)
  {
    match key
    case MDK_TEMP => (-45, 120)
    case MDK_RH => (0, 100)
    case MDK_LUX => (0, 65534)
    case MDK_COUNTER => (0, 1048576)
    case MDK_VOLTAGE_0_10 => (0, 10)
    case MDK_MILLIAMPS_4_20 => (4, 20)
    case MDK_OHM => (0, 1048576)
    case MDK_CO2 => (0, 400)
    case MDK_BATTERY_VOLTAGE => (0, 6)
    case MDK_PUSH_FREQUENCY => (0, 2000)
    case MDK_FIRMWARE_VERSION => (0, 255)
    case MDK_HARDWARE_VERSION => (0, 255)
    case _ => (0, 1)
  }

  lemma RangeEnds(key: int)
    requires GetMetaData(key).dataType == FixedPoint
    ensures (GetMetaData(key).lowValue, GetMetaData(key).highValue) == TableEnds(key)
  {}

  /** The number of steps of each fixed-point range in the table. */
  lemma TableRanges(key: int)
    requires GetMetaData(key).dataType == FixedPoint
    ensures IsRange(GetMetaData(key)) && Steps(GetMetaData(key)) == TableSteps(key)
  {
    assert Pow10(0) == 1 && Pow10(1) == 10 && Pow10(2) == 100 && Pow10(3) == 1000;
  }

  lemma RangeWidthBound(key: int)
    requires GetMetaData(key).dataType.FixedPoint?
    ensures IsRange(GetMetaData(key)) && RangeWidth(GetMetaData(key)) <= 20
  {
    TableRanges(key);
    WidthAtMost20(GetMetaData(key));
  }

  lemma WidthAtMost20(meta: MetaData)
    requires IsRange(meta) && Steps(meta) <= 1048576
    ensures RangeWidth(meta) <= 20
  {
    assert Pow2(20) == 1048576 by {
      Pow2Add(10, 10);
      assert Pow2(10) == 1024;
    }
    if RangeWidth(meta) > 20 {
      Pow2Monotone(20, RangeWidth(meta) - 1);
    }
  }
}
