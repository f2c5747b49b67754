/** The vehicle snapshot answering `#0 VH?` (VehicleInfo.cs). */
module Vehicle {
  import opened Wire
  import opened Reader

  datatype VehicleInfo = VehicleInfo(
    name: string,
    readings: seq<Double>,    // Odometer, EngineHours, OdometerBase, EngineHoursBase, FuelCapacity,
                              // FuelReserve, FuelFillUpMileage, OilChangeInterval, OilChangeMileage
    isAbleToTow: bool,
    towVehicle: Option<string>,   // null unless isAbleToTow
    hasGenerator: bool,
    generatorHours: Double)       // 0.0 unless hasGenerator

  const ReadingCount := 9

  /** Offset of the tow flag byte, after the ten-char name and nine doubles. */
  const TowFlagOffset := 10 + 8 * ReadingCount

  /** Offset of the generator flag byte, which follows the tow vehicle name
      only when that name is present. */
  function GeneratorFlagOffset(tow: bool): nat
  {
    if tow then TowFlagOffset + 11 else TowFlagOffset + 1
  }

  /** Bytes the constructor reads for a vehicle with these flags. */
  function Length(tow: bool, generator: bool): nat
  {
    GeneratorFlagOffset(tow) + 1 + (if generator then 8 else 0)
  }

  predicate WellFormed(v: VehicleInfo)
  {
    && |v.name| == 10 && IsAscii(v.name)
    && |v.readings| == ReadingCount
    && (v.towVehicle.Some? <==> v.isAbleToTow)
    && (v.towVehicle.Some? ==> |v.towVehicle.value| == 10 && IsAscii(v.towVehicle.value))
    && (!v.hasGenerator ==> v.generatorHours == ZeroDouble)
  }

  /** The flag-gated tail (VehicleInfo.cs lines 42-47): a tow flag, the tow
      vehicle name only if that flag is 0x01, a generator flag, and the
      generator hours only if that flag is 0x01. */
  datatype Options = Options(isAbleToTow: bool, towVehicle: Option<string>, hasGenerator: bool, generatorHours: Double)

  function DecodeOptions(data: seq<byte>): (r: Result<(Options, seq<byte>)>)
    ensures r.Ok? ==>
              var n := Length(r.value.0.isAbleToTow, r.value.0.hasGenerator) - TowFlagOffset;
              |data| >= n && r.value.1 == data[n..]
    ensures r.Ok? ==> (r.value.0.isAbleToTow <==> data[0] == 1)
    ensures r.Ok? ==> (r.value.0.hasGenerator <==> data[GeneratorFlagOffset(r.value.0.isAbleToTow) - TowFlagOffset] == 1)
    ensures r.Ok? ==> (r.value.0.towVehicle.Some? <==> r.value.0.isAbleToTow)
    ensures r.Ok? && r.value.0.towVehicle.Some? ==> |r.value.0.towVehicle.value| == 10 && IsAscii(r.value.0.towVehicle.value)
    ensures r.Ok? && !r.value.0.hasGenerator ==> r.value.0.generatorHours == ZeroDouble
    ensures |data| < 2 ==> r.Err?
  {
    var towFlag :- ReadByte(data);
    var tow := towFlag.0 == 1;
    var towName :- if tow then ReadChars(10, towFlag.1) else Ok(("", towFlag.1));
    var genFlag :- ReadByte(towName.1);
    var gen := genFlag.0 == 1;
    var genHours :- if gen then ReadDouble(genFlag.1) else Ok((ZeroDouble, genFlag.1));
    Ok((Options(tow, if tow then Some(towName.0) else None, gen, genHours.0), genHours.1))
  }

  /** The VehicleInfo(byte[]) constructor, also returning the unread bytes.
      A flag is true only for the byte 0x01, and only a true flag makes the
      constructor read the field it guards. */
  function Decode(data: seq<byte>): (r: Result<(VehicleInfo, seq<byte>)>)
    ensures r.Ok? ==> WellFormed(r.value.0)
    ensures r.Ok? ==>
              var n := Length(r.value.0.isAbleToTow, r.value.0.hasGenerator);
              |data| >= n && r.value.1 == data[n..]
    ensures r.Ok? ==> (r.value.0.isAbleToTow <==> data[TowFlagOffset] == 1)
    ensures r.Ok? ==> (r.value.0.hasGenerator <==> data[GeneratorFlagOffset(r.value.0.isAbleToTow)] == 1)
    ensures |data| < Length(false, false) ==> r.Err?
  {
    var name :- ReadChars(10, data);
    var readings :- ReadDoubles(ReadingCount, name.1);
    assert readings.1 == data[TowFlagOffset..];
    var options :- DecodeOptions(readings.1);
    var o := options.0;
    Ok((VehicleInfo(name.0, readings.0, o.isAbleToTow, o.towVehicle, o.hasGenerator, o.generatorHours),
        options.1))
  }

  function EncodeOptions(o: Options): seq<byte>
    requires o.towVehicle.Some? <==> o.isAbleToTow
    requires o.towVehicle.Some? ==> IsAscii(o.towVehicle.value)
  {
    [FlagByte(o.isAbleToTow)]
    + ((if o.isAbleToTow then BytesOf(o.towVehicle.value) else [])
       + ([FlagByte(o.hasGenerator)]
          + (if o.hasGenerator then o.generatorHours else [])))
  }

  function OptionsOf(v: VehicleInfo): Options
  {
    Options(v.isAbleToTow, v.towVehicle, v.hasGenerator, v.generatorHours)
  }

  /** The device-side layout of a vehicle record: what the constructor reads. */
  function Encode(v: VehicleInfo): seq<byte>
    requires WellFormed(v)
  {
    BytesOf(v.name) + (DoublesBytes(v.readings) + EncodeOptions(OptionsOf(v)))
  }

  lemma OptionsRoundTrip(o: Options, rest: seq<byte>)
    requires o.towVehicle.Some? <==> o.isAbleToTow
    requires o.towVehicle.Some? ==> |o.towVehicle.value| == 10 && IsAscii(o.towVehicle.value)
    requires !o.hasGenerator ==> o.generatorHours == ZeroDouble
    ensures |EncodeOptions(o)| == Length(o.isAbleToTow, o.hasGenerator) - TowFlagOffset
    ensures DecodeOptions(EncodeOptions(o) + rest) == Ok((o, rest))
  {
    var genPart: seq<byte> := if o.hasGenerator then o.generatorHours else [];
    var towPart := if o.isAbleToTow then BytesOf(o.towVehicle.value) else [];
    var afterGenFlag := genPart + rest;
    var afterTowName := [FlagByte(o.hasGenerator)] + afterGenFlag;
    var afterTowFlag := towPart + afterTowName;
    assert EncodeOptions(o) + rest == [FlagByte(o.isAbleToTow)] + afterTowFlag;
    ReadByteBytes(FlagByte(o.isAbleToTow), afterTowFlag);
    if o.isAbleToTow {
      ReadCharsBytes(o.towVehicle.value, afterTowName);
    } else {
      assert afterTowFlag == afterTowName;
    }
    ReadByteBytes(FlagByte(o.hasGenerator), afterGenFlag);
    if o.hasGenerator {
      ReadDoubleBytes(o.generatorHours, rest);
    } else {
      assert afterGenFlag == rest;
    }
  }

  /** Decoding an encoded vehicle recovers every field, for all four flag
      combinations, reads exactly 84, 94, 92 or 102 bytes, and leaves
      whatever follows unread. */
  lemma RoundTrip(v: VehicleInfo, rest: seq<byte>)
    requires WellFormed(v)
    ensures |Encode(v)| == Length(v.isAbleToTow, v.hasGenerator)
    ensures Decode(Encode(v) + rest) == Ok((v, rest))
  {
    var afterReadings := EncodeOptions(OptionsOf(v)) + rest;
    var afterName := DoublesBytes(v.readings) + afterReadings;
    assert Encode(v) + rest == BytesOf(v.name) + afterName;
    ReadCharsBytes(v.name, afterName);
    ReadDoublesBytes(v.readings, afterReadings);
    OptionsRoundTrip(OptionsOf(v), rest);
    var o := OptionsOf(v);
    DecodeSteps(Encode(v) + rest, v.name, afterName, v.readings, afterReadings, o, rest);
  }

  /** Decode succeeds with the three stages' results when each stage does. */
  lemma DecodeSteps(data: seq<byte>, name: string, afterName: seq<byte>, readings: seq<Double>,
                    afterReadings: seq<byte>, o: Options, rest: seq<byte>)
    requires ReadChars(10, data) == Ok((name, afterName))
    requires ReadDoubles(ReadingCount, afterName) == Ok((readings, afterReadings))
    requires DecodeOptions(afterReadings) == Ok((o, rest))
    ensures Decode(data) == Ok((VehicleInfo(name, readings, o.isAbleToTow, o.towVehicle, o.hasGenerator, o.generatorHours), rest))
  {
  }
}
