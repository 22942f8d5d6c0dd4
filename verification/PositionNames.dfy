/** Point names on the two sides of the Rubix protocol: the name a decoded field is published
    under, and the position byte a configured name is sent with. */
module PositionNames {
  import opened Words
  import opened Wrappers
  import opened SerialMap
  import opened Text

  datatype PositionType = GENERAL | UO | DO | UI | DI | UVP | UVP2 | DVP

  datatype PositionData = PositionData(id: nat, kind: PositionType)

  function TypeOfCode(code: nat): PositionType
    requires code < 8
  {
    match code
    case 0 => GENERAL
    case 1 => UO
    case 2 => DO
    case 3 => UI
    case 4 => DI
    case 5 => UVP
    case 6 => UVP2
    case 7 => DVP
  }

  function CodeOfType(kind: PositionType): (code: nat)
    ensures code < 8
  {
    match kind
    case GENERAL => 0
    case UO => 1
    case DO => 2
    case UI => 3
    case DI => 4
    case UVP => 5
    case UVP2 => 6
    case DVP => 7
  }

  /** The low five bits are the point index, the high three its type. */
  function ParsePosition(position: byte): PositionData
  {
    PositionData(position % 32, TypeOfCode(position / 32))
  }

  function KeyName(key: int): (name: string)
    ensures name != "" && name[0] != 'U' && name[0] != 'D'
  {
    match key
    case MDK_TEMP => "temp"
    case MDK_RH => "rh"
    case MDK_LUX => "lux"
    case MDK_MOVEMENT => "movement"
    case MDK_COUNTER => "count"
    case MDK_DIGITAL => "digital"
    case MDK_VOLTAGE_0_10 => "0-10v"
    case MDK_MILLIAMPS_4_20 => "4-20ma"
    case MDK_OHM => "ohm"
    case MDK_CO2 => "co2"
    case MDK_BATTERY_VOLTAGE => "battery-voltage"
    case MDK_PUSH_FREQUENCY => "push-frequency"
    case MDK_ANALOG_IN => "ai-raw"
    case MDK_FIRMWARE_VERSION => "firmware-version"
    case MDK_HARDWARE_VERSION => "hardware-version"
    case MDK_BOOL => "bool"
    case MDK_CHAR => "char"
    case MDK_UINT_8 => "uint_8"
    case MDK_INT_8 => "int_8"
    case MDK_UINT_16 => "uint_16"
    case MDK_INT_16 => "int_16"
    case MDK_UINT_32 => "uint_32"
    case MDK_INT_32 => "int_32"
    case MDK_UINT_64 => "uint_64"
    case MDK_INT_64 => "int_64"
    case MDK_FLOAT => "float"
    case MDK_DOUBLE => "double"
    case MDK_ERROR => "error"
    case _ => "unknown"
  }

  /** The key a name stands for; 0 if none. */
  function KeyOfName(name: string): int
  {
    match name
    case "temp" => 1
    case "rh" => 2
    case "lux" => 3
    case "movement" => 4
    case "count" => 5
    case "digital" => 6
    case "0-10v" => 7
    case "4-20ma" => 8
    case "ohm" => 10
    case "co2" => 11
    case "battery-voltage" => 12
    case "push-frequency" => 13
    case "ai-raw" => 16
    case "uint_8" => 30
    case "int_8" => 31
    case "uint_16" => 32
    case "int_16" => 33
    case "uint_32" => 34
    case "int_32" => 35
    case "uint_64" => 36
    case "int_64" => 37
    case "bool" => 38
    case "char" => 39
    case "float" => 40
    case "double" => 41
    case "error" => 43
    case "firmware-version" => 61
    case "hardware-version" => 62
    case _ => 0
  }

  /** Every key of the table has a name of its own, and only unknown keys are called unknown. */
  lemma KeyNamesAreKeys(key: int)
    ensures KeyOfName(KeyName(key)) == if InTable(key) then key else 0
    ensures KeyName(key) == "unknown" <==> !InTable(key)
  {}

  function GenerateFieldName(key: int, pos: PositionData): string
  {
    match pos.kind
    case GENERAL => KeyName(key) + "-" + Itoa(pos.id + 1)
    case UVP2 => "UVP" + "-" + Itoa(pos.id + 1 + 32)
    case _ => TypeName(pos.kind) + "-" + Itoa(pos.id + 1)
  }

  function TypeName(kind: PositionType): (name: string)
    requires kind != GENERAL
    ensures '-' !in name
  {
    match kind
    case UO => "UO"
    case DO => "DO"
    case UI => "UI"
    case DI => "DI"
    case UVP => "UVP"
    case UVP2 => "UVP"
    case DVP => "DVP"
  }

  /** The position byte of a configured point name, or None where the source returns an error. */
  function GetPosition(fieldName: string): Option<byte>
  {
    var parts := Split(fieldName, '-');
    if |parts| != 2 then None
    else
      var pointType := parts[0];
      match Atoi(parts[1])
      case None => None
      case Some(pointNum) =>
        if pointNum < 1 || (pointType == "UVP" && pointNum > 64) || (pointType != "UVP" && pointNum > 32) then None
        else
          var pointIdx := pointNum - 1;
          match TypeOfName(pointType)
          case None => None
          case Some(kind) =>
            if kind == UVP && pointIdx >= 32 then Some(PositionByte(UVP2, pointIdx - 32)) else Some(PositionByte(kind, pointIdx))
  }

  function TypeOfName(pointType: string): Option<PositionType>
  {
    match pointType
    case "UO" => Some(UO)
    case "DO" => Some(DO)
    case "UI" => Some(UI)
    case "DI" => Some(DI)
    case "UVP" => Some(UVP)
    case "DVP" => Some(DVP)
    case _ => None
  }

  /** `uint8(type) << 5 + uint8(index)`. */
  function PositionByte(kind: PositionType, index: nat): byte
    requires index < 32
  {
    32 * CodeOfType(kind) + index
  }

  /** The name with its number in the shortest decimal spelling ("UO-05" and "UO-+5" become "UO-5"). */
  function CanonicalName(fieldName: string): string
  {
    var parts := Split(fieldName, '-');
    if |parts| != 2 then fieldName
    else match Atoi(parts[1])
      case None => fieldName
      case Some(n) => if n < 0 then fieldName else parts[0] + "-" + Itoa(n)
  }

  lemma NamePart(pointType: string, n: nat)
    requires '-' !in pointType && n <= 1000
    ensures Split(pointType + "-" + Itoa(n), '-') == [pointType, Itoa(n)]
    ensures Atoi(Itoa(n)) == Some(n)
  {
    SplitOnce(pointType, '-', Itoa(n));
    AtoiOfItoa(n);
    assert Pow2(10) == 1024;
    Pow2Monotone(10, 63);
  }

  lemma DashSplits(name: string)
    requires '-' in name
    ensures |Split(name, '-')| >= 2
  {
    var i :| 0 <= i < |name| && name[i] == '-';
    assert name == name[..i] + ['-'] + name[i + 1..];
    SplitLength(name[..i], '-', name[i + 1..]);
  }

  /** A GENERAL name has a type part of its own, or more than one dash: neither is configurable. */
  lemma GeneralNameRejected(key: int, id: nat)
    ensures GetPosition(KeyName(key) + "-" + Itoa(id)).None?
  {
    var name := KeyName(key) + "-" + Itoa(id);
    SplitLength(KeyName(key), '-', Itoa(id));
    if '-' !in KeyName(key) {
      SplitOnce(KeyName(key), '-', Itoa(id));
    } else {
      SplitNone(Itoa(id), '-');
      DashSplits(KeyName(key));
    }
  }

  /** A position byte comes back from the name published for it exactly when its type is not
      GENERAL; names of GENERAL positions are not accepted as configuration at all. */
  lemma PositionByteRoundTrip(key: int, position: byte)
    ensures GetPosition(GenerateFieldName(key, ParsePosition(position)))
            == if position < 32 then None else Some(position)
  {
    BytePosition(position);
    PositionNameAccepted(key, ParsePosition(position));
  }

  lemma PositionNameAccepted(key: int, pos: PositionData)
    requires pos.id < 32
    ensures GetPosition(GenerateFieldName(key, pos))
            == if pos.kind == GENERAL then None else Some(PositionByte(pos.kind, pos.id))
  {
    if pos.kind == GENERAL {
      GeneralNameRejected(key, pos.id + 1);
    } else if pos.kind == UVP2 {
      NamedPosition(UVP, pos.id + 33);
    } else {
      NamedPosition(pos.kind, pos.id + 1);
    }
  }

  lemma BytePosition(position: byte)
    ensures var pos := ParsePosition(position);
            pos.id < 32 && PositionByte(pos.kind, pos.id) == position && (pos.kind == GENERAL <==> position < 32)
  {}

  lemma NamedPosition(kind: PositionType, n: nat)
    requires kind != GENERAL && kind != UVP2 && 1 <= n <= if kind == UVP then 64 else 32
    ensures GetPosition(TypeName(kind) + "-" + Itoa(n))
            == Some(if n > 32 then PositionByte(UVP2, n - 33) else PositionByte(kind, n - 1))
  {
    hide Split, Atoi, Itoa, TypeOfName;
    NamePart(TypeName(kind), n);
    TypeNames(TypeName(kind), kind);
    TypeNames(TypeName(kind), UVP);
  }

  lemma TypeNames(pointType: string, kind: PositionType)
    ensures TypeOfName(pointType) == Some(kind) <==> kind != GENERAL && kind != UVP2 && pointType == TypeName(kind)
  {}

  /** A name of this type and any number: its position byte, or refusal. */
  lemma NumberedName(kind: PositionType, n: nat)
    requires kind != GENERAL && kind != UVP2
    ensures GetPosition(TypeName(kind) + "-" + Itoa(n))
            == if n < 1 || n > (if kind == UVP then 64 else 32) then None
               else Some(if n > 32 then PositionByte(UVP2, n - 33) else PositionByte(kind, n - 1))
  {
    if 1 <= n <= (if kind == UVP then 64 else 32) {
      NamedPosition(kind, n);
    } else {
      hide Split, Atoi, Itoa, TypeOfName;
      SplitOnce(TypeName(kind), '-', Itoa(n));
      AtoiOfItoa(n);
      TypeNames("UVP", UVP);
    }
  }

  /** The position byte of every name of the form TYPE-NUMBER, in figures: the type's 32 bytes follow each
      other from UO at 32 on, and the 64 UVP names take two of them. */
  lemma NameBytes(n: nat)
    ensures GetPosition("UO-" + Itoa(n)) == if 1 <= n <= 32 then Some(31 + n) else None
    ensures GetPosition("DO-" + Itoa(n)) == if 1 <= n <= 32 then Some(63 + n) else None
    ensures GetPosition("UI-" + Itoa(n)) == if 1 <= n <= 32 then Some(95 + n) else None
    ensures GetPosition("DI-" + Itoa(n)) == if 1 <= n <= 32 then Some(127 + n) else None
    ensures GetPosition("UVP-" + Itoa(n)) == if 1 <= n <= 64 then Some(159 + n) else None
    ensures GetPosition("DVP-" + Itoa(n)) == if 1 <= n <= 32 then Some(223 + n) else None
  {
    hide GetPosition, Itoa;
    forall kind | kind != GENERAL && kind != UVP2
      ensures GetPosition(TypeName(kind) + "-" + Itoa(n))
              == if n < 1 || n > (if kind == UVP then 64 else 32) then None
                 else Some(if n > 32 then PositionByte(UVP2, n - 33) else PositionByte(kind, n - 1))
    {
      NumberedName(kind, n);
    }
    assert TypeName(UO) + "-" + Itoa(n) == "UO-" + Itoa(n);
    assert TypeName(DO) + "-" + Itoa(n) == "DO-" + Itoa(n);
    assert TypeName(UI) + "-" + Itoa(n) == "UI-" + Itoa(n);
    assert TypeName(DI) + "-" + Itoa(n) == "DI-" + Itoa(n);
    assert TypeName(UVP) + "-" + Itoa(n) == "UVP-" + Itoa(n);
    assert TypeName(DVP) + "-" + Itoa(n) == "DVP-" + Itoa(n);
  }

  lemma ParsePositionByte(kind: PositionType, index: nat)
    requires index < 32
    ensures ParsePosition(PositionByte(kind, index)) == PositionData(index, kind)
  {}

  lemma AcceptedNameParts(fieldName: string)
    requires GetPosition(fieldName).Some?
    ensures var pos := ParsePosition(GetPosition(fieldName).value);
            var parts := Split(fieldName, '-');
            && pos.kind != GENERAL && |parts| == 2 && parts[0] == TypeName(pos.kind)
            && Atoi(parts[1]) == Some(pos.id + 1 + (if pos.kind == UVP2 then 32 else 0))
  {
    var parts := Split(fieldName, '-');
    var index := Atoi(parts[1]).value - 1;
    var kind := TypeOfName(parts[0]).value;
    TypeNames(parts[0], kind);
    if kind == UVP && index >= 32 {
      ParsePositionByte(UVP2, index - 32);
    } else {
      ParsePositionByte(kind, index);
    }
  }

  /** Every accepted name is published back under its canonical spelling, and that spelling is
      configured with the same byte; the byte is never that of a GENERAL position. */
  lemma AcceptedNameIsPublishedCanonically(fieldName: string, key: int)
    requires GetPosition(fieldName).Some?
    ensures GetPosition(fieldName).value >= 32
    ensures GenerateFieldName(key, ParsePosition(GetPosition(fieldName).value)) == CanonicalName(fieldName)
    ensures GetPosition(CanonicalName(fieldName)) == GetPosition(fieldName)
  {
    AcceptedNameParts(fieldName);
    PositionByteRoundTrip(key, GetPosition(fieldName).value);
  }
}
