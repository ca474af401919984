/** Point addresses: services/adapter/modbus/mapping.py and services/adapter/bacnet/mapping.py. */
module AddressMapping {
  import opened Common
  import opened Decimal

  /** A value of the JSON configuration. */
  datatype Raw = Null | Bool(b: bool) | Int(n: int) | Float(x: real) | Str(s: string)

  type Fields = map<string, Raw>

  datatype Parsed<T> = Rejected | Raised | Accepted(mapping: T)

  /** `int(v)`; None stands for the ValueError or TypeError. */
  function IntOf(v: Raw): Option<int> {
    match v
    case Null => None
    case Bool(b) => Some(if b then 1 else 0)
    case Int(n) => Some(n)
    case Float(x) => Some(if x >= 0.0 then x.Floor else -((-x).Floor))
    case Str(s) => ParseInt(s)
  }

  function Field(fields: Fields, key: string, default: Raw): Raw {
    if key in fields then fields[key] else default
  }

  // ---------------------------------------------------------------- Modbus

  const MODBUS_FC: set<int> := {1, 2, 3, 4, 5, 6, 15, 16}
  const MODBUS_TYPES := {"bool", "uint16", "int16", "uint32", "int32", "float32", "float64"}
  const BYTE_ORDERS := {"big", "little", "swap"}

  datatype ModbusMapping = ModbusMapping(functionCode: int, address: int, dataType: string, byteOrder: string,
                                         unitId: int, count: int)

  datatype ModbusId = ModbusId(functionCode: int, address: int, count: int, dataType: string)

  /** Membership compares with Python's equality, under which True is 1 and 3.0 is 3. */
  predicate ValidFunctionCode(v: Raw) {
    match v
    case Bool(b) => b
    case Int(n) => n in MODBUS_FC
    case Float(x) => x == x.Floor as real && x.Floor in MODBUS_FC
    case _ => false
  }

  predicate OneOf(v: Raw, allowed: set<string>) {
    v.Str? && v.s in allowed
  }

  function ParseModbus(extra: Option<map<string, Fields>>): Parsed<ModbusMapping> {
    if extra.None? || "modbus" !in extra.value then Rejected
    else
      var modbus := extra.value["modbus"];
      if "function_code" !in modbus || "address" !in modbus then Rejected
      else if !ValidFunctionCode(modbus["function_code"]) then Rejected
      else
        var dataType := Field(modbus, "data_type", Str("uint16"));
        var byteOrder := Field(modbus, "byte_order", Str("big"));
        if !OneOf(dataType, MODBUS_TYPES) || !OneOf(byteOrder, BYTE_ORDERS) then Rejected
        else
          var functionCode, address := IntOf(modbus["function_code"]), IntOf(modbus["address"]);
          var unitId, count := IntOf(Field(modbus, "unit_id", Int(1))), IntOf(Field(modbus, "count", Int(1)));
          if functionCode.None? || address.None? || unitId.None? || count.None? then Raised
          else Accepted(ModbusMapping(functionCode.value, address.value, dataType.s, byteOrder.s,
                                      unitId.value, count.value))
  }

  function BuildModbus(m: ModbusMapping): string {
    "modbus" + ":" + (OfInt(m.functionCode) + ":" + (OfInt(m.address) + ":" + (OfInt(m.count) + ":" + m.dataType)))
  }

  function ParseModbusId(externalId: string): Option<ModbusId> {
    var parts := Split(externalId, ':');
    if |parts| >= 4 && parts[0] == "modbus" then
      var functionCode, address, count := ParseInt(parts[1]), ParseInt(parts[2]), ParseInt(parts[3]);
      if functionCode.None? || address.None? || count.None? then None
      else Some(ModbusId(functionCode.value, address.value, count.value, if |parts| > 4 then parts[4] else "uint16"))
    else None
  }

  /** Every accepted configuration has a valid function code and a separator-free type name. */
  lemma AcceptedModbusIsValid(extra: Option<map<string, Fields>>)
    requires ParseModbus(extra).Accepted?
    ensures var m := ParseModbus(extra).mapping;
            m.functionCode in MODBUS_FC && m.dataType in MODBUS_TYPES && m.byteOrder in BYTE_ORDERS
              && ':' !in m.dataType
  {
  }

  /** An address reads back exactly when the type name does not contain the separator. */
  lemma ModbusReadsBack(m: ModbusMapping)
    ensures ParseModbusId(BuildModbus(m)) == Some(ModbusId(m.functionCode, m.address, m.count, m.dataType)) <==>
            ':' !in m.dataType
  {
    if ':' !in m.dataType {
      CleanTypeReadsBack(m);
    } else {
      ReadTypeIsClean(BuildModbus(m));
    }
  }

  lemma CleanTypeReadsBack(m: ModbusMapping)
    requires ':' !in m.dataType
    ensures ParseModbusId(BuildModbus(m)) == Some(ModbusId(m.functionCode, m.address, m.count, m.dataType))
  {
    var fc, address, count := OfInt(m.functionCode), OfInt(m.address), OfInt(m.count);
    OfIntParses(m.functionCode);
    OfIntParses(m.address);
    OfIntParses(m.count);
    SplitFive("modbus", fc, address, count, m.dataType);
    PartsRead(BuildModbus(m), fc, address, count, m.dataType);
  }

  lemma PartsRead(externalId: string, fc: string, address: string, count: string, dataType: string)
    requires Split(externalId, ':') == ["modbus", fc, address, count, dataType]
    requires ParseInt(fc).Some? && ParseInt(address).Some? && ParseInt(count).Some?
    ensures ParseModbusId(externalId) ==
              Some(ModbusId(ParseInt(fc).value, ParseInt(address).value, ParseInt(count).value, dataType))
  {
  }

  lemma ReadTypeIsClean(externalId: string)
    ensures ParseModbusId(externalId).Some? ==> ':' !in ParseModbusId(externalId).value.dataType
  {
    PartsHaveNoSeparator(externalId, ':');
    assert ':' !in "uint16";
  }

  lemma SplitFive(a: string, b: string, c: string, d: string, e: string)
    requires ':' !in a && ':' !in b && ':' !in c && ':' !in d && ':' !in e
    ensures Split(a + ":" + (b + ":" + (c + ":" + (d + ":" + e))), ':') == [a, b, c, d, e]
  {
    SplitLast(e, ':');
    SplitFirst(d, ':', e);
    SplitFirst(c, ':', d + ":" + e);
    SplitFirst(b, ':', c + ":" + (d + ":" + e));
    SplitFirst(a, ':', b + ":" + (c + ":" + (d + ":" + e)));
  }

  /** Reading back the address of an accepted mapping recovers its four parts. */
  lemma ModbusRoundTrip(extra: Option<map<string, Fields>>)
    requires ParseModbus(extra).Accepted?
    ensures var m := ParseModbus(extra).mapping;
            ParseModbusId(BuildModbus(m)) == Some(ModbusId(m.functionCode, m.address, m.count, m.dataType))
  {
    AcceptedModbusIsValid(extra);
    ModbusReadsBack(ParseModbus(extra).mapping);
  }

  lemma ModbusAddressesAreDistinct(e: Option<map<string, Fields>>, f: Option<map<string, Fields>>)
    requires ParseModbus(e).Accepted? && ParseModbus(f).Accepted?
    ensures var m, n := ParseModbus(e).mapping, ParseModbus(f).mapping;
            BuildModbus(m) == BuildModbus(n) <==>
            (m.functionCode == n.functionCode && m.address == n.address && m.count == n.count
              && m.dataType == n.dataType)
  {
    ModbusRoundTrip(e);
    ModbusRoundTrip(f);
  }

  // ---------------------------------------------------------------- BACnet

  const BACNET_OBJECT_TYPES := {
    "analogInput", "analogOutput", "analogValue",
    "binaryInput", "binaryOutput", "binaryValue",
    "multistateInput", "multistateOutput", "multistateValue"
  }

  const READABLE_PROPERTIES := {
    "presentValue", "statusFlags", "outOfService", "relinquishDefault",
    "description", "objectName", "objectIdentifier", "objectType"
  }

  datatype BacnetMapping = BacnetMapping(objectType: string, instance: int, property: string, unit: Raw, quality: Raw,
                                         access: Raw)

  datatype BacnetId = BacnetId(objectType: string, instance: int, property: string)

  function ParseBacnet(extra: Option<map<string, Fields>>): Parsed<BacnetMapping> {
    if extra.None? || "bacnet" !in extra.value then Rejected
    else
      var bacnet := extra.value["bacnet"];
      if "object_type" !in bacnet || "object_instance" !in bacnet || "property" !in bacnet then Rejected
      else if !OneOf(bacnet["object_type"], BACNET_OBJECT_TYPES) then Rejected
      else if !OneOf(bacnet["property"], READABLE_PROPERTIES) then Rejected
      else
        var instance := IntOf(bacnet["object_instance"]);
        if instance.None? then Raised
        else Accepted(BacnetMapping(bacnet["object_type"].s, instance.value, bacnet["property"].s,
                                    Field(bacnet, "unit", Null), Field(bacnet, "quality", Str("GOOD")),
                                    Field(bacnet, "access", Str("read"))))
  }

  function BuildBacnet(m: BacnetMapping): string {
    "bacnet" + ":" + (m.objectType + ":" + (OfInt(m.instance) + ":" + m.property))
  }

  function ParseBacnetId(externalId: string): Option<BacnetId> {
    var parts := Split(externalId, ':');
    if |parts| == 4 && parts[0] == "bacnet" then
      var instance := ParseInt(parts[2]);
      if instance.None? then None else Some(BacnetId(parts[1], instance.value, parts[3]))
    else None
  }

  lemma ObjectTypeHasNoSeparator(t: string)
    requires t in BACNET_OBJECT_TYPES
    ensures ':' !in t
  {
  }

  lemma PropertyHasNoSeparator(p: string)
    requires p in READABLE_PROPERTIES
    ensures ':' !in p
  {
  }

  lemma BacnetReadsBack(m: BacnetMapping)
    ensures ParseBacnetId(BuildBacnet(m)) == Some(BacnetId(m.objectType, m.instance, m.property)) <==>
            (':' !in m.objectType && ':' !in m.property)
  {
    if ':' !in m.objectType && ':' !in m.property {
      OfIntParses(m.instance);
      SplitFour("bacnet", m.objectType, OfInt(m.instance), m.property);
    } else {
      PartsHaveNoSeparator(BuildBacnet(m), ':');
    }
  }

  lemma SplitFour(a: string, b: string, c: string, d: string)
    requires ':' !in a && ':' !in b && ':' !in c && ':' !in d
    ensures Split(a + ":" + (b + ":" + (c + ":" + d)), ':') == [a, b, c, d]
  {
    SplitLast(d, ':');
    SplitFirst(c, ':', d);
    SplitFirst(b, ':', c + ":" + d);
    SplitFirst(a, ':', b + ":" + (c + ":" + d));
  }

  /** Reading back the address of an accepted mapping recovers its three parts. */
  lemma BacnetRoundTrip(extra: Option<map<string, Fields>>)
    requires ParseBacnet(extra).Accepted?
    ensures var m := ParseBacnet(extra).mapping;
            ParseBacnetId(BuildBacnet(m)) == Some(BacnetId(m.objectType, m.instance, m.property))
  {
    var m := ParseBacnet(extra).mapping;
    ObjectTypeHasNoSeparator(m.objectType);
    PropertyHasNoSeparator(m.property);
    BacnetReadsBack(m);
  }

  lemma BacnetAddressesAreDistinct(e: Option<map<string, Fields>>, f: Option<map<string, Fields>>)
    requires ParseBacnet(e).Accepted? && ParseBacnet(f).Accepted?
    ensures var m, n := ParseBacnet(e).mapping, ParseBacnet(f).mapping;
            BuildBacnet(m) == BuildBacnet(n) <==>
              (m.objectType == n.objectType && m.instance == n.instance && m.property == n.property)
  {
    BacnetRoundTrip(e);
    BacnetRoundTrip(f);
  }

  /** The two schemes never share an address. */
  lemma SchemesAreDistinct(externalId: string)
    ensures !(ParseModbusId(externalId).Some? && ParseBacnetId(externalId).Some?)
  {
  }

  // ---------------------------------------------------------------- configurations

  /** `int` of a float drops the fraction, towards zero. */
  lemma FloatsAreTruncated(x: real)
    ensures var n := IntOf(Float(x)).value;
            if x >= 0.0 then n as real <= x < n as real + 1.0 && n >= 0
            else n as real - 1.0 < x <= n as real && n <= 0
  {
  }

  function ModbusConfig(m: ModbusMapping): Fields {
    map["function_code" := Int(m.functionCode), "address" := Int(m.address), "data_type" := Str(m.dataType),
        "byte_order" := Str(m.byteOrder), "unit_id" := Int(m.unitId), "count" := Int(m.count)]
  }

  ghost predicate IsModbusMapping(m: ModbusMapping) {
    && (1 <= m.functionCode <= 6 || m.functionCode == 15 || m.functionCode == 16)
    && (|| m.dataType == "bool" || m.dataType == "uint16" || m.dataType == "int16" || m.dataType == "uint32"
        || m.dataType == "int32" || m.dataType == "float32" || m.dataType == "float64")
    && (m.byteOrder == "big" || m.byteOrder == "little" || m.byteOrder == "swap")
  }

  /** A mapping written as a configuration is parsed as itself if its parts are known ones, and rejected otherwise. */
  lemma ModbusConfigIsParsed(m: ModbusMapping)
    ensures ParseModbus(Some(map["modbus" := ModbusConfig(m)])) == if IsModbusMapping(m) then Accepted(m) else Rejected
  {
    var modbus := ModbusConfig(m);
    assert modbus["function_code"] == Int(m.functionCode) && modbus["address"] == Int(m.address);
    assert Field(modbus, "data_type", Str("uint16")) == Str(m.dataType);
    assert Field(modbus, "byte_order", Str("big")) == Str(m.byteOrder);
    assert Field(modbus, "unit_id", Int(1)) == Int(m.unitId) && Field(modbus, "count", Int(1)) == Int(m.count);
  }

  /** What a configuration leaves out is a big-endian unsigned 16-bit register of unit 1, taken once. */
  lemma ModbusDefaults(functionCode: int, address: int)
    requires functionCode in MODBUS_FC
    ensures ParseModbus(Some(map["modbus" := map["function_code" := Int(functionCode), "address" := Int(address)]])) ==
            Accepted(ModbusMapping(functionCode, address, "uint16", "big", 1, 1))
  {
    var modbus := map["function_code" := Int(functionCode), "address" := Int(address)];
    assert modbus["function_code"] == Int(functionCode) && modbus["address"] == Int(address);
  }

  /** An accepted mapping carries the fields of its configuration, or their defaults. */
  lemma AcceptedModbusCarries(extra: Option<map<string, Fields>>)
    requires ParseModbus(extra).Accepted?
    ensures extra.Some? && "modbus" in extra.value
    ensures var (m, f) := (ParseModbus(extra).mapping, extra.value["modbus"]);
            && "function_code" in f && IntOf(f["function_code"]) == Some(m.functionCode)
            && "address" in f && IntOf(f["address"]) == Some(m.address)
            && (if "data_type" in f then f["data_type"] == Str(m.dataType) else m.dataType == "uint16")
            && (if "byte_order" in f then f["byte_order"] == Str(m.byteOrder) else m.byteOrder == "big")
            && (if "unit_id" in f then IntOf(f["unit_id"]) == Some(m.unitId) else m.unitId == 1)
            && (if "count" in f then IntOf(f["count"]) == Some(m.count) else m.count == 1)
  {
  }

  /** An address without a type is read as one of unsigned 16-bit registers. */
  lemma ModbusTypeDefault(functionCode: int, address: int, count: int)
    ensures ParseModbusId("modbus" + ":" + (OfInt(functionCode) + ":" + (OfInt(address) + ":" + OfInt(count)))) ==
            Some(ModbusId(functionCode, address, count, "uint16"))
  {
    OfIntParses(functionCode);
    OfIntParses(address);
    OfIntParses(count);
    SplitFour("modbus", OfInt(functionCode), OfInt(address), OfInt(count));
    ShortPartsRead("modbus" + ":" + (OfInt(functionCode) + ":" + (OfInt(address) + ":" + OfInt(count))),
                   OfInt(functionCode), OfInt(address), OfInt(count));
  }

  lemma ShortPartsRead(externalId: string, fc: string, address: string, count: string)
    requires Split(externalId, ':') == ["modbus", fc, address, count]
    requires ParseInt(fc).Some? && ParseInt(address).Some? && ParseInt(count).Some?
    ensures ParseModbusId(externalId) ==
              Some(ModbusId(ParseInt(fc).value, ParseInt(address).value, ParseInt(count).value, "uint16"))
  {
  }

  function BacnetConfig(m: BacnetMapping): Fields {
    map["object_type" := Str(m.objectType), "object_instance" := Int(m.instance), "property" := Str(m.property),
        "unit" := m.unit, "quality" := m.quality, "access" := m.access]
  }

  /** Inputs, outputs and values, each analog, binary or multistate. */
  ghost predicate IsObjectType(t: string) {
    || t == "analogInput" || t == "analogOutput" || t == "analogValue"
    || t == "binaryInput" || t == "binaryOutput" || t == "binaryValue"
    || t == "multistateInput" || t == "multistateOutput" || t == "multistateValue"
  }

  ghost predicate IsReadable(p: string) {
    || p == "presentValue" || p == "statusFlags" || p == "outOfService" || p == "relinquishDefault"
    || p == "description" || p == "objectName" || p == "objectIdentifier" || p == "objectType"
  }

  lemma KnownNames(t: string)
    ensures t in BACNET_OBJECT_TYPES <==> IsObjectType(t)
    ensures t in READABLE_PROPERTIES <==> IsReadable(t)
  {
  }

  /** A mapping written as a configuration is parsed as itself if its names are known ones, and rejected otherwise. */
  lemma BacnetConfigIsParsed(m: BacnetMapping)
    ensures ParseBacnet(Some(map["bacnet" := BacnetConfig(m)])) ==
              if IsObjectType(m.objectType) && IsReadable(m.property) then Accepted(m) else Rejected
  {
    KnownNames(m.objectType);
    KnownNames(m.property);
    var bacnet := BacnetConfig(m);
    assert bacnet["object_type"] == Str(m.objectType) && bacnet["object_instance"] == Int(m.instance);
    assert bacnet["property"] == Str(m.property) && bacnet["unit"] == m.unit;
    assert bacnet["quality"] == m.quality && bacnet["access"] == m.access;
  }

  lemma AcceptedBacnetCarries(extra: Option<map<string, Fields>>)
    requires ParseBacnet(extra).Accepted?
    ensures extra.Some? && "bacnet" in extra.value
    ensures var (m, f) := (ParseBacnet(extra).mapping, extra.value["bacnet"]);
            && "object_type" in f && f["object_type"] == Str(m.objectType)
            && "object_instance" in f && IntOf(f["object_instance"]) == Some(m.instance)
            && "property" in f && f["property"] == Str(m.property)
            && (if "unit" in f then m.unit == f["unit"] else m.unit == Null)
            && (if "quality" in f then m.quality == f["quality"] else m.quality == Str("GOOD"))
            && (if "access" in f then m.access == f["access"] else m.access == Str("read"))
  {
  }
}
