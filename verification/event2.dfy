/** The events of the incremental-sync protocol (`#0 SD?n;`), one class per
    kind (Event2Info.cs). Every record starts with the common part of
    InitializeCommonData, whose length depends on a description length
    and three presence flags, and ends with a kind-specific trailer. */
module Event2Record {
  import opened Wire
  import opened Reader

  datatype Kind = StartDay | EndDay | StartLeg | EndLeg | Gas | Propane | OilChange

  /** Event2Info.EventType. */
  function TypeCode(k: Kind): (b: byte)
    ensures 1 <= b <= 7
  {
    match k
    case StartDay => 1
    case EndDay => 2
    case StartLeg => 3
    case EndLeg => 4
    case Gas => 5
    case Propane => 6
    case OilChange => 7
  }

  function KindOf(b: byte): (k: Option<Kind>)
    ensures k.Some? ==> TypeCode(k.value) == b
    ensures k.None? <==> (b < 1 || b > 7)
  {
    if b == 1 then Some(StartDay)
    else if b == 2 then Some(EndDay)
    else if b == 3 then Some(StartLeg)
    else if b == 4 then Some(EndLeg)
    else if b == 5 then Some(Gas)
    else if b == 6 then Some(Propane)
    else if b == 7 then Some(OilChange)
    else None
  }

  lemma KindOfTypeCode(k: Kind)
    ensures KindOf(TypeCode(k)) == Some(k)
  {
  }

  /** What a class reads after the common part. `totals` holds
      EngineHoursUsed, FuelUsed, TowingDistance and Distance; `amounts` holds
      Quantity, Cost, Distance for gas, Quantity, Cost for propane and
      Distance for an oil change. */
  datatype Detail =
    | NoDetail
    | LegEnd(totals: seq<Double>, durationSeconds: nat, avgMph: Double)
    | DayEnd(totals: seq<Double>, durationSeconds: nat, travelDurationSeconds: nat)
    | Amounts(amounts: seq<Double>)

  const TotalsCount := 4

  function AmountCount(k: Kind): nat
  {
    match k
    case Gas => 3
    case Propane => 2
    case OilChange => 1
    case _ => 0
  }

  function DetailLength(k: Kind): nat
  {
    match k
    case StartDay => 0
    case StartLeg => 0
    case EndLeg => 8 * TotalsCount + 4 + 8
    case EndDay => 8 * TotalsCount + 4 + 4
    case _ => 8 * AmountCount(k)
  }

  predicate DetailFits(k: Kind, d: Detail)
  {
    match k
    case StartDay => d.NoDetail?
    case StartLeg => d.NoDetail?
    case EndLeg => d.LegEnd? && |d.totals| == TotalsCount && IsUInt32(d.durationSeconds)
    case EndDay => d.DayEnd? && |d.totals| == TotalsCount && IsUInt32(d.durationSeconds)
                   && IsUInt32(d.travelDurationSeconds)
    case _ => d.Amounts? && |d.amounts| == AmountCount(k)
  }

  /** IsTowing, GPSFixValid and HasGenerator are the presence of the values
      they guard. */
  datatype Event2Info = Event2Info(
    kind: Kind,
    interfaceVersion: nat,
    id: nat,
    typeCode: byte,             // the Type property, as read from byte 8
    timeSeconds: nat,           // local seconds since 1970
    tzOffset: int,
    timeGmtSeconds: nat,
    vehicleName: string,
    readings: seq<Double>,      // Odometer, EngineHours, FuelLevel
    description: Option<string>,
    towVehicle: Option<string>,
    position: Option<(Double, Double)>,   // Latitude, Longitude
    generatorHours: Option<Double>,
    detail: Detail)

  const ReadingCount := 3
  const NameLength := 10
  const StampsLength := 4 + 4 + 1 + 4 + 4 + 4
  const VehicleLength := NameLength + 8 * ReadingCount

  /** Offset of the type byte within a record. */
  const TypeOffset := 8

  /** Offset of the description length. */
  const DescriptionOffset := StampsLength + VehicleLength

  /** Bytes taken by the description length and the description. */
  function DescriptionLength(description: Option<string>): nat
  {
    4 + (if description.Some? then |description.value| else 0)
  }

  /** Bytes taken by the three flags and the values they guard. */
  function OptionsLength(tow: bool, gps: bool, gen: bool): nat
  {
    3 + (if tow then NameLength else 0) + (if gps then 16 else 0) + (if gen then 8 else 0)
  }

  function Length(e: Event2Info): nat
  {
    DescriptionOffset + DescriptionLength(e.description)
    + OptionsLength(e.towVehicle.Some?, e.position.Some?, e.generatorHours.Some?)
    + DetailLength(e.kind)
  }

  /** The shortest record of a kind: no description and every flag clear. */
  function MinLength(k: Kind): nat
  {
    DescriptionOffset + 4 + 3 + DetailLength(k)
  }

  predicate WellFormedDescription(description: Option<string>)
  {
    description.Some? ==>
      0 < |description.value| < 0x8000_0000 && IsAscii(description.value)
  }

  predicate WellFormedName(name: string)
  {
    |name| == NameLength && IsAscii(name)
  }

  predicate WellFormed(e: Event2Info)
  {
    && IsUInt32(e.interfaceVersion) && IsUInt32(e.id)
    && IsUInt32(e.timeSeconds) && IsInt32(e.tzOffset) && IsUInt32(e.timeGmtSeconds)
    && WellFormedName(e.vehicleName)
    && |e.readings| == ReadingCount
    && WellFormedDescription(e.description)
    && (e.towVehicle.Some? ==> WellFormedName(e.towVehicle.value))
    && DetailFits(e.kind, e.detail)
  }

  // ---- stages of the common part ----

  datatype Stamps = Stamps(interfaceVersion: nat, id: nat, typeCode: byte,
                           timeSeconds: nat, tzOffset: int, timeGmtSeconds: nat)

  predicate StampsInRange(s: Stamps)
  {
    IsUInt32(s.interfaceVersion) && IsUInt32(s.id) && IsUInt32(s.timeSeconds)
    && IsInt32(s.tzOffset) && IsUInt32(s.timeGmtSeconds)
  }

  function DecodeStamps(data: seq<byte>): (r: Result<(Stamps, seq<byte>)>)
    ensures |data| < StampsLength ==> r.Err?
    ensures r.Ok? ==> |data| >= StampsLength && r.value.1 == data[StampsLength..]
    ensures r.Ok? ==> StampsInRange(r.value.0) && r.value.0.typeCode == data[TypeOffset]
  {
    var version :- ReadUInt32(data);
    var id :- ReadUInt32(version.1);
    var typeCode :- ReadByte(id.1);
    var time :- ReadUInt32(typeCode.1);
    var tz :- ReadInt32(time.1);
    var gmt :- ReadUInt32(tz.1);
    Ok((Stamps(version.0, id.0, typeCode.0, time.0, tz.0, gmt.0), gmt.1))
  }

  function DecodeVehicle(data: seq<byte>): (r: Result<((string, seq<Double>), seq<byte>)>)
    ensures |data| < VehicleLength ==> r.Err?
    ensures r.Ok? ==> |data| >= VehicleLength && r.value.1 == data[VehicleLength..]
    ensures r.Ok? ==> WellFormedName(r.value.0.0) && |r.value.0.1| == ReadingCount
  {
    var name :- ReadChars(NameLength, data);
    var readings :- ReadDoubles(ReadingCount, name.1);
    Ok(((name.0, readings.0), readings.1))
  }

  /** A uint length, then that many chars when it is not zero. A length
      that is negative as an int makes ReadChars throw. */
  function DecodeDescription(data: seq<byte>): (r: Result<(Option<string>, seq<byte>)>)
    ensures |data| < 4 ==> r.Err?
    ensures r.Ok? ==> WellFormedDescription(r.value.0)
    ensures r.Ok? ==> |data| >= DescriptionLength(r.value.0)
                      && r.value.1 == data[DescriptionLength(r.value.0)..]
    ensures r.Ok? ==> (r.value.0.None? <==> UInt32Of(data[..4]) == 0)
    ensures |data| >= 4 && UInt32Of(data[..4]) >= 0x8000_0000 ==> r == Err(NegativeCount)
  {
    var length :- ReadUInt32(data);
    if length.0 == 0 then
      Ok((None, length.1))
    else if length.0 >= 0x8000_0000 then
      Err(NegativeCount)
    else
      var text :- ReadChars(length.0, length.1);
      Ok((Some(text.0), text.1))
  }

  datatype Options = Options(towVehicle: Option<string>, position: Option<(Double, Double)>,
                             generatorHours: Option<Double>)

  function DecodeTow(data: seq<byte>): (r: Result<(Option<string>, seq<byte>)>)
    ensures |data| < 1 ==> r.Err?
    ensures r.Ok? ==> (r.value.0.Some? <==> data[0] > 0)
    ensures r.Ok? ==> |data| >= 1 + (if r.value.0.Some? then NameLength else 0)
    ensures r.Ok? ==> r.value.1 == data[1 + (if r.value.0.Some? then NameLength else 0)..]
    ensures r.Ok? && r.value.0.Some? ==> WellFormedName(r.value.0.value)
  {
    var flag :- ReadChar(data);
    if flag.0 > 0 as char then
      var name :- ReadChars(NameLength, flag.1);
      Ok((Some(name.0), name.1))
    else
      Ok((None, flag.1))
  }

  function DecodePosition(data: seq<byte>): (r: Result<(Option<(Double, Double)>, seq<byte>)>)
    ensures |data| < 1 ==> r.Err?
    ensures r.Ok? ==> (r.value.0.Some? <==> data[0] > 0)
    ensures r.Ok? ==> |data| >= 1 + (if r.value.0.Some? then 16 else 0)
    ensures r.Ok? ==> r.value.1 == data[1 + (if r.value.0.Some? then 16 else 0)..]
  {
    var flag :- ReadChar(data);
    if flag.0 > 0 as char then
      var latitude :- ReadDouble(flag.1);
      var longitude :- ReadDouble(latitude.1);
      Ok((Some((latitude.0, longitude.0)), longitude.1))
    else
      Ok((None, flag.1))
  }

  function DecodeGenerator(data: seq<byte>): (r: Result<(Option<Double>, seq<byte>)>)
    ensures |data| < 1 ==> r.Err?
    ensures r.Ok? ==> (r.value.0.Some? <==> data[0] > 0)
    ensures r.Ok? ==> |data| >= 1 + (if r.value.0.Some? then 8 else 0)
    ensures r.Ok? ==> r.value.1 == data[1 + (if r.value.0.Some? then 8 else 0)..]
  {
    var flag :- ReadChar(data);
    if flag.0 > 0 as char then
      var hours :- ReadDouble(flag.1);
      Ok((Some(hours.0), hours.1))
    else
      Ok((None, flag.1))
  }

  function DecodeOptions(data: seq<byte>): (r: Result<(Options, seq<byte>)>)
    ensures |data| < 3 ==> r.Err?
    ensures r.Ok? ==> var o := r.value.0;
      && |data| >= OptionsLength(o.towVehicle.Some?, o.position.Some?, o.generatorHours.Some?)
      && r.value.1 == data[OptionsLength(o.towVehicle.Some?, o.position.Some?, o.generatorHours.Some?)..]
      && (o.towVehicle.Some? ==> WellFormedName(o.towVehicle.value))
  {
    var tow :- DecodeTow(data);
    var position :- DecodePosition(tow.1);
    var generator :- DecodeGenerator(position.1);
    Ok((Options(tow.0, position.0, generator.0), generator.1))
  }

  function DecodeDetail(k: Kind, data: seq<byte>): (r: Result<(Detail, seq<byte>)>)
    ensures |data| < DetailLength(k) ==> r.Err?
    ensures r.Ok? ==> |data| >= DetailLength(k) && r.value.1 == data[DetailLength(k)..]
    ensures r.Ok? ==> DetailFits(k, r.value.0)
  {
    match k
    case StartDay => Ok((NoDetail, data))
    case StartLeg => Ok((NoDetail, data))
    case EndLeg =>
      var totals :- ReadDoubles(TotalsCount, data);
      var duration :- ReadUInt32(totals.1);
      var avgMph :- ReadDouble(duration.1);
      Ok((LegEnd(totals.0, duration.0, avgMph.0), avgMph.1))
    case EndDay =>
      var totals :- ReadDoubles(TotalsCount, data);
      var duration :- ReadUInt32(totals.1);
      var travel :- ReadUInt32(duration.1);
      Ok((DayEnd(totals.0, duration.0, travel.0), travel.1))
    case _ =>
      var amounts :- ReadDoubles(AmountCount(k), data);
      Ok((Amounts(amounts.0), amounts.1))
  }

  /** The 55 bytes at fixed offsets: stamps, vehicle name and readings. */
  datatype Fixed = Fixed(stamps: Stamps, vehicleName: string, readings: seq<Double>)

  function DecodeFixed(data: seq<byte>): (r: Result<(Fixed, seq<byte>)>)
    ensures |data| < DescriptionOffset ==> r.Err?
    ensures r.Ok? ==> |data| >= DescriptionOffset && r.value.1 == data[DescriptionOffset..]
    ensures r.Ok? ==> StampsInRange(r.value.0.stamps) && r.value.0.stamps.typeCode == data[TypeOffset]
    ensures r.Ok? ==> WellFormedName(r.value.0.vehicleName) && |r.value.0.readings| == ReadingCount
  {
    var stamps :- DecodeStamps(data);
    var vehicle :- DecodeVehicle(stamps.1);
    Ok((Fixed(stamps.0, vehicle.0.0, vehicle.0.1), vehicle.1))
  }

  /** The description and the three flagged values. */
  datatype Variable = Variable(description: Option<string>, options: Options)

  function VariableLength(v: Variable): nat
  {
    DescriptionLength(v.description)
    + OptionsLength(v.options.towVehicle.Some?, v.options.position.Some?, v.options.generatorHours.Some?)
  }

  function DecodeVariable(data: seq<byte>): (r: Result<(Variable, seq<byte>)>)
    ensures |data| < 4 + 3 ==> r.Err?
    ensures r.Ok? ==> |data| >= VariableLength(r.value.0) && r.value.1 == data[VariableLength(r.value.0)..]
    ensures r.Ok? ==> WellFormedDescription(r.value.0.description)
    ensures r.Ok? && r.value.0.options.towVehicle.Some? ==> WellFormedName(r.value.0.options.towVehicle.value)
  {
    var description :- DecodeDescription(data);
    var options :- DecodeOptions(description.1);
    Ok((Variable(description.0, options.0), options.1))
  }

  /** The record the three stages describe. */
  function Assemble(kind: Kind, f: Fixed, v: Variable, d: Detail): (e: Event2Info)
    requires StampsInRange(f.stamps) && WellFormedName(f.vehicleName) && |f.readings| == ReadingCount
    requires WellFormedDescription(v.description)
    requires v.options.towVehicle.Some? ==> WellFormedName(v.options.towVehicle.value)
    requires DetailFits(kind, d)
    ensures WellFormed(e) && e.kind == kind && e.typeCode == f.stamps.typeCode
    ensures Length(e) == DescriptionOffset + VariableLength(v) + DetailLength(kind)
  {
    Event2Info(kind, f.stamps.interfaceVersion, f.stamps.id, f.stamps.typeCode,
               f.stamps.timeSeconds, f.stamps.tzOffset, f.stamps.timeGmtSeconds,
               f.vehicleName, f.readings, v.description,
               v.options.towVehicle, v.options.position, v.options.generatorHours, d)
  }

  /** Everything after the fixed prefix: description, options and the
      kind's own fields, assembled with the prefix into the record. */
  function DecodeAfterFixed(kind: Kind, f: Fixed, rest: seq<byte>): (r: Result<(Event2Info, seq<byte>)>)
    requires StampsInRange(f.stamps) && WellFormedName(f.vehicleName) && |f.readings| == ReadingCount
    ensures |rest| < 4 + 3 + DetailLength(kind) ==> r.Err?
    ensures r.Ok? ==> WellFormed(r.value.0) && r.value.0.kind == kind && r.value.0.typeCode == f.stamps.typeCode
    ensures r.Ok? ==> DescriptionOffset <= Length(r.value.0) <= DescriptionOffset + |rest|
    ensures r.Ok? ==> r.value.1 == rest[Length(r.value.0) - DescriptionOffset..]
  {
    match DecodeVariable(rest)
    case Err(error) => Err(error)
    case Ok((v, afterVariable)) =>
      match DecodeDetail(kind, afterVariable)
      case Err(error) => Err(error)
      case Ok((d, afterDetail)) =>
        DropDrop(rest, VariableLength(v), DetailLength(kind));
        Ok((Assemble(kind, f, v, d), afterDetail))
  }

  /** The constructor of the class for `kind`, also returning the unread
      bytes. The Type property is whatever byte 8 holds. */
  function Decode(kind: Kind, data: seq<byte>): (r: Result<(Event2Info, seq<byte>)>)
    ensures |data| < MinLength(kind) ==> r.Err?
    ensures r.Ok? ==> WellFormed(r.value.0) && r.value.0.kind == kind
    ensures r.Ok? ==> |data| >= Length(r.value.0) && r.value.1 == data[Length(r.value.0)..]
    ensures r.Ok? ==> r.value.0.typeCode == data[TypeOffset]
  {
    var fixed :- DecodeFixed(data);
    var r := DecodeAfterFixed(kind, fixed.0, fixed.1);
    if r.Ok? then DropDrop(data, DescriptionOffset, Length(r.value.0) - DescriptionOffset); r else r
  }

  // ---- the device-side layout ----

  function EncodeStamps(s: Stamps): seq<byte>
    requires StampsInRange(s)
  {
    UInt32Bytes(s.interfaceVersion)
    + (UInt32Bytes(s.id)
    + ([s.typeCode]
    + (UInt32Bytes(s.timeSeconds)
    + (Int32Bytes(s.tzOffset)
    + UInt32Bytes(s.timeGmtSeconds)))))
  }

  function EncodeFixed(f: Fixed): seq<byte>
    requires StampsInRange(f.stamps) && WellFormedName(f.vehicleName)
  {
    EncodeStamps(f.stamps) + (BytesOf(f.vehicleName) + DoublesBytes(f.readings))
  }

  function EncodeDescription(description: Option<string>): seq<byte>
    requires WellFormedDescription(description)
  {
    match description
    case None => UInt32Bytes(0)
    case Some(text) => UInt32Bytes(|text|) + BytesOf(text)
  }

  function EncodeTow(tow: Option<string>): seq<byte>
    requires tow.Some? ==> WellFormedName(tow.value)
  {
    match tow
    case None => [FlagByte(false)]
    case Some(name) => [FlagByte(true)] + BytesOf(name)
  }

  function EncodePosition(position: Option<(Double, Double)>): seq<byte>
  {
    match position
    case None => [FlagByte(false)]
    case Some(p) => [FlagByte(true)] + (p.0 + p.1)
  }

  function EncodeGenerator(generator: Option<Double>): seq<byte>
  {
    match generator
    case None => [FlagByte(false)]
    case Some(hours) => [FlagByte(true)] + hours
  }

  function EncodeOptions(o: Options): seq<byte>
    requires o.towVehicle.Some? ==> WellFormedName(o.towVehicle.value)
  {
    EncodeTow(o.towVehicle) + (EncodePosition(o.position) + EncodeGenerator(o.generatorHours))
  }

  function EncodeVariable(v: Variable): seq<byte>
    requires WellFormedDescription(v.description)
    requires v.options.towVehicle.Some? ==> WellFormedName(v.options.towVehicle.value)
  {
    EncodeDescription(v.description) + EncodeOptions(v.options)
  }

  function EncodeDetail(d: Detail): seq<byte>
    requires d.LegEnd? || d.DayEnd? ==> IsUInt32(d.durationSeconds)
    requires d.DayEnd? ==> IsUInt32(d.travelDurationSeconds)
  {
    match d
    case NoDetail => []
    case LegEnd(totals, duration, avgMph) =>
      DoublesBytes(totals) + (UInt32Bytes(duration) + avgMph)
    case DayEnd(totals, duration, travel) =>
      DoublesBytes(totals) + (UInt32Bytes(duration) + UInt32Bytes(travel))
    case Amounts(amounts) => DoublesBytes(amounts)
  }

  function FixedOf(e: Event2Info): Fixed
  {
    Fixed(Stamps(e.interfaceVersion, e.id, e.typeCode, e.timeSeconds, e.tzOffset, e.timeGmtSeconds),
          e.vehicleName, e.readings)
  }

  function VariableOf(e: Event2Info): Variable
  {
    Variable(e.description, Options(e.towVehicle, e.position, e.generatorHours))
  }

  function Encode(e: Event2Info): seq<byte>
    requires WellFormed(e)
  {
    EncodeFixed(FixedOf(e)) + (EncodeVariable(VariableOf(e)) + EncodeDetail(e.detail))
  }

  // ---- round trips, stage by stage ----

  lemma StampsRoundTrip(s: Stamps, rest: seq<byte>)
    requires StampsInRange(s)
    ensures |EncodeStamps(s)| == StampsLength
    ensures DecodeStamps(EncodeStamps(s) + rest) == Ok((s, rest))
  {
    var s5 := UInt32Bytes(s.timeGmtSeconds) + rest;
    var s4 := Int32Bytes(s.tzOffset) + s5;
    var s3 := UInt32Bytes(s.timeSeconds) + s4;
    var s2 := [s.typeCode] + s3;
    var s1 := UInt32Bytes(s.id) + s2;
    assert EncodeStamps(s) + rest == UInt32Bytes(s.interfaceVersion) + s1;
    ReadUInt32Bytes(s.interfaceVersion, s1);
    ReadUInt32Bytes(s.id, s2);
    ReadByteBytes(s.typeCode, s3);
    ReadUInt32Bytes(s.timeSeconds, s4);
    ReadInt32Bytes(s.tzOffset, s5);
    ReadUInt32Bytes(s.timeGmtSeconds, rest);
  }

  lemma FixedRoundTrip(f: Fixed, rest: seq<byte>)
    requires StampsInRange(f.stamps) && WellFormedName(f.vehicleName)
    requires |f.readings| == ReadingCount
    ensures |EncodeFixed(f)| == DescriptionOffset
    ensures DecodeFixed(EncodeFixed(f) + rest) == Ok((f, rest))
  {
    var afterName := DoublesBytes(f.readings) + rest;
    var afterStamps := BytesOf(f.vehicleName) + afterName;
    assert EncodeFixed(f) + rest == EncodeStamps(f.stamps) + afterStamps;
    StampsRoundTrip(f.stamps, afterStamps);
    ReadCharsBytes(f.vehicleName, afterName);
    ReadDoublesBytes(f.readings, rest);
    assert DecodeVehicle(afterStamps) == Ok(((f.vehicleName, f.readings), rest));
  }

  lemma DescriptionRoundTrip(description: Option<string>, rest: seq<byte>)
    requires WellFormedDescription(description)
    ensures |EncodeDescription(description)| == DescriptionLength(description)
    ensures DecodeDescription(EncodeDescription(description) + rest) == Ok((description, rest))
  {
    match description
    case None =>
      ReadUInt32Bytes(0, rest);
    case Some(text) =>
      assert EncodeDescription(description) + rest == UInt32Bytes(|text|) + (BytesOf(text) + rest);
      ReadUInt32Bytes(|text|, BytesOf(text) + rest);
      ReadCharsBytes(text, rest);
  }

  lemma OptionsRoundTrip(o: Options, rest: seq<byte>)
    requires o.towVehicle.Some? ==> WellFormedName(o.towVehicle.value)
    ensures |EncodeOptions(o)| == OptionsLength(o.towVehicle.Some?, o.position.Some?, o.generatorHours.Some?)
    ensures DecodeOptions(EncodeOptions(o) + rest) == Ok((o, rest))
  {
    var gen := EncodeGenerator(o.generatorHours);
    var pos := EncodePosition(o.position);
    assert EncodeOptions(o) + rest == EncodeTow(o.towVehicle) + (pos + (gen + rest));
    TowRoundTrip(o.towVehicle, pos + (gen + rest));
    PositionRoundTrip(o.position, gen + rest);
    GeneratorRoundTrip(o.generatorHours, rest);
  }

  lemma TowRoundTrip(tow: Option<string>, rest: seq<byte>)
    requires tow.Some? ==> WellFormedName(tow.value)
    ensures |EncodeTow(tow)| == 1 + (if tow.Some? then NameLength else 0)
    ensures DecodeTow(EncodeTow(tow) + rest) == Ok((tow, rest))
  {
    FlagCharOf(true);
    FlagCharOf(false);
    match tow
    case None =>
      assert ([FlagByte(false)] + rest)[1..] == rest;
    case Some(name) =>
      assert ([FlagByte(true)] + BytesOf(name) + rest)[1..] == BytesOf(name) + rest;
      ReadCharsBytes(name, rest);
  }

  lemma PositionRoundTrip(position: Option<(Double, Double)>, rest: seq<byte>)
    ensures |EncodePosition(position)| == 1 + (if position.Some? then 16 else 0)
    ensures DecodePosition(EncodePosition(position) + rest) == Ok((position, rest))
  {
    FlagCharOf(true);
    FlagCharOf(false);
    match position
    case None =>
      assert ([FlagByte(false)] + rest)[1..] == rest;
    case Some(p) =>
      assert ([FlagByte(true)] + (p.0 + p.1) + rest)[1..] == p.0 + (p.1 + rest);
      ReadDoubleBytes(p.0, p.1 + rest);
      ReadDoubleBytes(p.1, rest);
  }

  lemma GeneratorRoundTrip(generator: Option<Double>, rest: seq<byte>)
    ensures |EncodeGenerator(generator)| == 1 + (if generator.Some? then 8 else 0)
    ensures DecodeGenerator(EncodeGenerator(generator) + rest) == Ok((generator, rest))
  {
    FlagCharOf(true);
    FlagCharOf(false);
    match generator
    case None =>
      assert ([FlagByte(false)] + rest)[1..] == rest;
    case Some(hours) =>
      assert ([FlagByte(true)] + hours + rest)[1..] == hours + rest;
      ReadDoubleBytes(hours, rest);
  }

  lemma VariableRoundTrip(v: Variable, rest: seq<byte>)
    requires WellFormedDescription(v.description)
    requires v.options.towVehicle.Some? ==> WellFormedName(v.options.towVehicle.value)
    ensures |EncodeVariable(v)| == VariableLength(v)
    ensures DecodeVariable(EncodeVariable(v) + rest) == Ok((v, rest))
  {
    var afterDescription := EncodeOptions(v.options) + rest;
    assert EncodeVariable(v) + rest == EncodeDescription(v.description) + afterDescription;
    DescriptionRoundTrip(v.description, afterDescription);
    OptionsRoundTrip(v.options, rest);
  }

  lemma DetailRoundTrip(k: Kind, d: Detail, rest: seq<byte>)
    requires DetailFits(k, d)
    ensures |EncodeDetail(d)| == DetailLength(k)
    ensures DecodeDetail(k, EncodeDetail(d) + rest) == Ok((d, rest))
  {
    match d
    case NoDetail =>
      assert EncodeDetail(d) + rest == rest;
    case LegEnd(totals, duration, avgMph) =>
      var afterTotals := UInt32Bytes(duration) + (avgMph + rest);
      assert EncodeDetail(d) + rest == DoublesBytes(totals) + afterTotals;
      ReadDoublesBytes(totals, afterTotals);
      ReadUInt32Bytes(duration, avgMph + rest);
      ReadDoubleBytes(avgMph, rest);
    case DayEnd(totals, duration, travel) =>
      var afterTotals := UInt32Bytes(duration) + (UInt32Bytes(travel) + rest);
      assert EncodeDetail(d) + rest == DoublesBytes(totals) + afterTotals;
      ReadDoublesBytes(totals, afterTotals);
      ReadUInt32Bytes(duration, UInt32Bytes(travel) + rest);
      ReadUInt32Bytes(travel, rest);
    case Amounts(amounts) =>
      ReadDoublesBytes(amounts, rest);
  }

  /** Decoding an encoded event with its own class recovers every field,
      whichever flags are set and however long the description is, and
      consumes exactly Length(e) bytes. */
  lemma RoundTrip(e: Event2Info, rest: seq<byte>)
    requires WellFormed(e)
    ensures |Encode(e)| == Length(e)
    ensures Decode(e.kind, Encode(e) + rest) == Ok((e, rest))
  {
    var f, v := FixedOf(e), VariableOf(e);
    var afterVariable := EncodeDetail(e.detail) + rest;
    var afterFixed := EncodeVariable(v) + afterVariable;
    var data := Encode(e) + rest;
    assert data == EncodeFixed(f) + afterFixed;
    FixedRoundTrip(f, afterFixed);
    VariableRoundTrip(v, afterVariable);
    DetailRoundTrip(e.kind, e.detail, rest);
    assert Assemble(e.kind, f, v, e.detail) == e;
    assert DecodeAfterFixed(e.kind, f, afterFixed) == Ok((e, rest));
    assert DecodeFixed(data) == Ok((f, afterFixed));
  }
}
