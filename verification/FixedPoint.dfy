/** Fixed-point numbers of the Rubix table, over the reals: a value is clamped to its range and
    rounded to a step of 10^-decimal, and the step count is cut to the width the range is given. */
module FixedPoint {
  import opened Words
  import opened SerialMap

  function Clamp(value: real, min: real, max: real): real
  {
    if value < min then min else if value > max then max else value
  }

  /** math.Round: the nearest integer, halves away from zero. */
  function Round(x: real): int
  {
    if x >= 0.0 then (x + 0.5).Floor else -((0.0 - x + 0.5).Floor)
  }

  function Clamped(meta: MetaData, value: real): real
  {
    Clamp(value, meta.lowValue as real, meta.highValue as real)
  }

  /** Steps per unit. */
  function Scale(meta: MetaData): nat
  {
    Pow10(meta.decimalPoint)
  }

  /** Distance of the clamped value from the low end, in steps. */
  function Scaled(meta: MetaData, value: real): real
  {
    (Clamped(meta, value) - meta.lowValue as real) * Scale(meta) as real
  }

  /** The uint64 the encoder makes of a value: its rounded distance from the low end, in steps. */
  function FixedSteps(meta: MetaData, value: real): (steps: nat)
    requires IsRange(meta)
  {
    ScaledBound(Clamped(meta, value) - meta.lowValue as real, meta.highValue - meta.lowValue, Scale(meta));
    Round(Scaled(meta, value))
  }

  /** The number the decoder makes of the bits it read. */
  function FixedValue(meta: MetaData, steps: nat): real
    requires IsRange(meta)
  {
    steps as real / Scale(meta) as real + meta.lowValue as real
  }

  /** What the decoder reads after the encoder has written a value: only as many bits as the range is given survive. */
  function Transmitted(meta: MetaData, value: real): nat
    requires IsRange(meta)
  {
    FixedSteps(meta, value) % Pow2(RangeWidth(meta))
  }

  /** How far a number lies from the clamped value, in steps. */
  function Deviation(meta: MetaData, value: real, back: real): real
  {
    (back - Clamped(meta, value)) * Scale(meta) as real
  }

  /** Within half a step of the clamped value. */
  predicate Close(meta: MetaData, value: real, back: real)
  {
    -0.5 <= Deviation(meta, value, back) <= 0.5
  }

  // ------------------------------------------------------------------ real arithmetic

  lemma ScaledBound(distance: real, span: nat, p: nat)
    requires 0.0 <= distance <= span as real
    ensures 0.0 <= distance * p as real <= (span * p) as real
  {
    RealProduct(span, p);
    ProductBound(distance, span as real, p as real);
  }

  lemma ProductBound(a: real, b: real, c: real)
    requires 0.0 <= a <= b && 0.0 <= c
    ensures 0.0 <= a * c <= b * c
  {}

  lemma ProductStrict(a: real, b: real, c: real)
    requires a < b && 0.0 < c
    ensures a * c < b * c
  {}

  lemma RealProduct(a: nat, b: nat)
    ensures (a * b) as real == a as real * b as real
  {}

  lemma Quotient(n: nat, p: nat)
    requires p > 0
    ensures n as real / p as real * p as real == n as real
  {}

  lemma Distribute(a: real, b: real, c: real)
    ensures (a - b) * c == a * c - b * c
  {}

  // ------------------------------------------------------------------ one value

  lemma StepsBound(meta: MetaData, value: real)
    requires IsRange(meta)
    ensures Scaled(meta, value) - 0.5 <= FixedSteps(meta, value) as real <= Scaled(meta, value) + 0.5
    ensures FixedSteps(meta, value) <= Steps(meta) <= Pow2(RangeWidth(meta))
  {
    ScaledBound(Clamped(meta, value) - meta.lowValue as real, meta.highValue - meta.lowValue, Scale(meta));
    RoundBound(Scaled(meta, value), Steps(meta));
  }

  lemma RoundBound(x: real, size: nat)
    requires 0.0 <= x <= size as real
    ensures x - 0.5 <= Round(x) as real <= x + 0.5 && 0 <= Round(x) <= size
  {}

  /** Distance in steps between a decoded step count and the clamped value. */
  lemma DecodedDistance(meta: MetaData, value: real, n: nat)
    requires IsRange(meta)
    ensures Deviation(meta, value, FixedValue(meta, n)) == n as real - Scaled(meta, value)
  {
    var low := meta.lowValue as real;
    var p := Scale(meta);
    var q := n as real / p as real;
    Quotient(n, p);
    assert FixedValue(meta, n) - Clamped(meta, value) == q - (Clamped(meta, value) - low);
    Distribute(q, Clamped(meta, value) - low, p as real);
  }

  lemma WrapToZero(n: nat, m: nat)
    requires n <= m && 0 < m
    ensures n % m == if n < m then n else 0
  {}

  lemma HalfStep(scaled: real, n: nat, m: nat, sent: nat)
    requires scaled - 0.5 <= n as real <= scaled + 0.5
    requires n <= m && 2 <= m && sent == if n < m then n else 0
    ensures -0.5 <= sent as real - scaled <= 0.5 <==> n < m
  {}

  /** Encode then decode lands within half a step of the clamped value exactly when the rounded
      step count fits its width; when it does not, the range is a power of two, the value sits at
      its top, and the decoder reads the low end. */
  lemma FixedPointBound(meta: MetaData, value: real)
    requires IsRange(meta)
    ensures Close(meta, value, FixedValue(meta, Transmitted(meta, value))) <==> FixedSteps(meta, value) < Pow2(RangeWidth(meta))
    ensures FixedSteps(meta, value) >= Pow2(RangeWidth(meta)) ==>
              FixedSteps(meta, value) == Pow2(RangeWidth(meta)) && Transmitted(meta, value) == 0
  {
    StepsBound(meta, value);
    DecodedDistance(meta, value, Transmitted(meta, value));
    var m := Pow2(RangeWidth(meta));
    assert m == 2 * Pow2(RangeWidth(meta) - 1);
    WrapToZero(FixedSteps(meta, value), m);
    HalfStep(Scaled(meta, value), FixedSteps(meta, value), m, Transmitted(meta, value));
  }

  /** Sending the decoded number again puts the same bits on the wire, wrapped or not. */
  lemma ReencodeIsStable(meta: MetaData, value: real)
    requires IsRange(meta)
    ensures Transmitted(meta, FixedValue(meta, Transmitted(meta, value))) == Transmitted(meta, value)
  {
    StepsBound(meta, value);
    WrapToZero(FixedSteps(meta, value), Pow2(RangeWidth(meta)));
    StepsOfValue(meta, Transmitted(meta, value));
  }

  /** A step count inside the range is what its own decoded value encodes to. */
  lemma StepsOfValue(meta: MetaData, n: nat)
    requires IsRange(meta)
    requires n <= Steps(meta)
    ensures FixedSteps(meta, FixedValue(meta, n)) == n
  {
    var p := Scale(meta);
    var q := n as real / p as real;
    Quotient(n, p);
    if q > (meta.highValue - meta.lowValue) as real {
      ProductStrict((meta.highValue - meta.lowValue) as real, q, p as real);
    }
    assert Clamped(meta, FixedValue(meta, n)) - meta.lowValue as real == q;
  }

  /** Outside the range the low end arrives for everything below; for everything above the high end, or
      the low end again where the range is a power of two. Inside it, what arrives is within half a step. */
  lemma OutsideTheRange(meta: MetaData, value: real)
    requires IsRange(meta)
    ensures var back := FixedValue(meta, Transmitted(meta, value));
            && (value <= meta.lowValue as real ==> back == meta.lowValue as real)
            && (value >= meta.highValue as real ==>
                  back == (if Steps(meta) < Pow2(RangeWidth(meta)) then meta.highValue else meta.lowValue) as real)
            && (meta.lowValue as real <= value <= meta.highValue as real && FixedSteps(meta, value) < Pow2(RangeWidth(meta)) ==>
                  -0.5 <= (back - value) * Pow10(meta.decimalPoint) as real <= 0.5)
  {
    hide Pow2, Pow10, RangeWidth, FixedSteps, FixedValue, Transmitted;
    if value <= meta.lowValue as real {
      LowEnd(meta, value);
    } else if value >= meta.highValue as real {
      HighEnd(meta, value);
    }
    if meta.lowValue as real <= value <= meta.highValue as real && FixedSteps(meta, value) < Pow2(RangeWidth(meta)) {
      InsideTheRange(meta, value);
    }
  }

  lemma InsideTheRange(meta: MetaData, value: real)
    requires IsRange(meta) && meta.lowValue as real <= value <= meta.highValue as real
    requires FixedSteps(meta, value) < Pow2(RangeWidth(meta))
    ensures -0.5 <= (FixedValue(meta, Transmitted(meta, value)) - value) * Pow10(meta.decimalPoint) as real <= 0.5
  {
    hide Pow2, Pow10, RangeWidth, FixedSteps, FixedValue, Transmitted;
    FixedPointBound(meta, value);
    assert Clamped(meta, value) == value;
  }

  lemma LowEnd(meta: MetaData, value: real)
    requires IsRange(meta) && value <= meta.lowValue as real
    ensures FixedSteps(meta, value) == 0 && FixedValue(meta, Transmitted(meta, value)) == meta.lowValue as real
  {
    hide Pow10, RangeWidth;
    SmallMod(0, Pow2(RangeWidth(meta)));
  }

  lemma HighEnd(meta: MetaData, value: real)
    requires IsRange(meta) && value >= meta.highValue as real
    ensures FixedSteps(meta, value) == Steps(meta)
    ensures FixedValue(meta, Transmitted(meta, value))
            == (if Steps(meta) < Pow2(RangeWidth(meta)) then meta.highValue else meta.lowValue) as real
  {
    hide Pow10, RangeWidth, Pow2;
    var span: nat := meta.highValue - meta.lowValue;
    var p := Scale(meta);
    RealProduct(span, p);
    assert Scaled(meta, value) == Steps(meta) as real;
    StepsBound(meta, value);
    WrapToZero(Steps(meta), Pow2(RangeWidth(meta)));
    ExactQuotient(span, p);
  }

  lemma ExactQuotient(n: nat, p: nat)
    requires p > 0
    ensures (n * p) as real / p as real == n as real
  {
    RealProduct(n, p);
  }

  /** Halves are rounded away from zero, whole numbers not at all. */
  lemma HalvesAwayFromZero(n: nat)
    ensures Round(n as real) == n && Round(n as real + 0.5) == n + 1
    ensures Round(0.0 - n as real) == 0 - n && Round(0.0 - (n as real + 0.5)) == 0 - (n + 1)
  {}

  /** In the table, the ranges that do not fit are those of COUNTER and OHM, in their topmost half step. */
  lemma WrappingKeys(key: int, value: real)
    requires GetMetaData(key).dataType == FixedPoint
    ensures IsRange(GetMetaData(key))
    ensures FixedSteps(GetMetaData(key), value) >= Pow2(DataWidth(key)) <==>
              (key == MDK_COUNTER || key == MDK_OHM) && value >= 1048575.5
  {
    hide FixedSteps, Pow2;
    TableWidths(key);
    StepsBound(GetMetaData(key), value);
    if key == MDK_COUNTER || key == MDK_OHM {
      TopOfUnitRange(GetMetaData(key), value);
    }
  }

  lemma TopOfUnitRange(meta: MetaData, value: real)
    requires meta == Range(0, 1048576, 0)
    ensures FixedSteps(meta, value) >= 1048576 <==> value >= 1048575.5
  {
    assert Scale(meta) == 1;
  }

  lemma SmallPowers()
    ensures Pow2(0) == 1 && Pow2(1) == 2 && Pow2(5) == 32 && Pow2(6) == 64 && Pow2(7) == 128 && Pow2(8) == 256
    ensures Pow2(9) == 512 && Pow2(10) == 1024 && Pow2(11) == 2048 && Pow2(13) == 8192 && Pow2(14) == 16384
    ensures Pow2(15) == 32768 && Pow2(16) == 65536 && Pow2(19) == 524288 && Pow2(20) == 1048576
  {
    assert Pow2(8) == 256;
    assert Pow2(12) == 16 * Pow2(8);
    assert Pow2(16) == 16 * Pow2(12);
    assert Pow2(20) == 16 * Pow2(16);
  }

  /** The width the range of each fixed-point key is given. */
  function TableWidth(key: int): nat
  {
    match key
    case MDK_TEMP => 15
    case MDK_RH => 14
    case MDK_LUX => 16
    case MDK_COUNTER => 20
    case MDK_VOLTAGE_0_10 => 10
    case MDK_MILLIAMPS_4_20 => 11
    case MDK_OHM => 20
    case MDK_CO2 => 9
    case MDK_BATTERY_VOLTAGE => 6
    case MDK_PUSH_FREQUENCY => 11
    case MDK_ANALOG_IN => 10
    case MDK_FIRMWARE_VERSION => 8
    case MDK_HARDWARE_VERSION => 8
    case _ => 1
  }

  lemma WidthOfSteps(key: int)
    ensures IsBitCount(TableSteps(key), TableWidth(key))
    ensures TableSteps(key) == Pow2(TableWidth(key)) <==> key == MDK_COUNTER || key == MDK_OHM
  {
    SmallPowers();
  }

  /** The bit-count loop gives exactly these widths, and only COUNTER and OHM span a full power of two. */
  lemma TableWidths(key: int)
    requires GetMetaData(key).dataType == FixedPoint
    ensures IsRange(GetMetaData(key)) && DataWidth(key) == RangeWidth(GetMetaData(key)) == TableWidth(key)
    ensures Steps(GetMetaData(key)) == Pow2(DataWidth(key)) <==> key == MDK_COUNTER || key == MDK_OHM
  {
    TableRanges(key);
    WidthOfSteps(key);
    BitCountUnique(TableSteps(key), RangeWidth(GetMetaData(key)), TableWidth(key));
  }
}
