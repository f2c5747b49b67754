/** The events of the day-fetch protocol (`#0 ED?n;`), one class per kind
    (EventInfo.cs): fuel purchase, propane purchase and oil change. */
module EventRecord {
  import opened Wire
  import opened Reader

  /** The decoder classes; which one runs is decided by the caller. */
  datatype Kind = FuelPurchase | PropanePurchase | OilChange

  /** EventInfo.EventType; Unknown (0) has no decoder. */
  function TypeCode(k: Kind): (b: byte)
    ensures 1 <= b <= 3
  {
    match k
    case FuelPurchase => 1
    case PropanePurchase => 2
    case OilChange => 3
  }

  function KindOf(b: byte): (k: Option<Kind>)
    ensures k.Some? ==> TypeCode(k.value) == b
    ensures k.None? ==> forall kind :: TypeCode(kind) != b
  {
    if b == 1 then Some(FuelPurchase)
    else if b == 2 then Some(PropanePurchase)
    else if b == 3 then Some(OilChange)
    else None
  }

  lemma KindOfTypeCode(k: Kind)
    ensures KindOf(TypeCode(k)) == Some(k)
  {
  }

  /** How many doubles follow the common part: Quantity, Cost, Distance for
      fuel; Quantity, Cost for propane; Distance for an oil change. */
  function ExtraCount(k: Kind): nat
  {
    match k
    case FuelPurchase => 3
    case PropanePurchase => 2
    case OilChange => 1
  }

  datatype EventInfo = EventInfo(
    kind: Kind,
    typeCode: byte,             // the Type property, as read from byte 0
    gpsFixValid: bool,
    vehicleName: string,
    id: nat,
    time: nat,                  // GMT seconds since 1970
    tzOffset: int,              // hours
    readings: seq<Double>,      // Odometer, EngineHours, FuelLevel, Latitude, Longitude
    extras: seq<Double>)

  const ReadingCount := 5
  const NameLength := 10
  const HeadLength := 2 + NameLength
  const StampsLength := 3 * 4
  const CommonLength := HeadLength + StampsLength + 8 * ReadingCount

  function Length(k: Kind): nat
  {
    CommonLength + 8 * ExtraCount(k)
  }

  predicate WellFormed(e: EventInfo)
  {
    && |e.vehicleName| == NameLength && IsAscii(e.vehicleName)
    && IsUInt32(e.id) && IsUInt32(e.time) && IsInt32(e.tzOffset)
    && |e.readings| == ReadingCount
    && |e.extras| == ExtraCount(e.kind)
  }

  /** The LocalTime the record shows, in seconds: the GMT time moved by
      the tz offset, which counts hours (EventInfo.cs line 29). The clock
      keeps GMT's minutes and seconds, and is ahead of GMT exactly east of
      Greenwich. */
  function LocalSeconds(e: EventInfo): (r: int)
    ensures r % 3600 == e.time % 3600
    ensures r == e.time <==> e.tzOffset == 0
    ensures r > e.time <==> e.tzOffset > 0
  {
    e.time + 3600 * e.tzOffset
  }

  /** Type byte, GPS char and vehicle name. */
  datatype Head = Head(typeCode: byte, gpsFixValid: bool, vehicleName: string)

  /** Id, time and tz offset. */
  datatype Stamps = Stamps(id: nat, time: nat, tzOffset: int)

  function DecodeHead(data: seq<byte>): (r: Result<(Head, seq<byte>)>)
    ensures |data| < HeadLength ==> r.Err?
    ensures r.Ok? ==> |data| >= HeadLength && r.value.1 == data[HeadLength..]
    ensures r.Ok? ==> r.value.0.typeCode == data[0]
    ensures r.Ok? ==> (r.value.0.gpsFixValid <==> data[1] > 0)
    ensures r.Ok? ==> |r.value.0.vehicleName| == NameLength && IsAscii(r.value.0.vehicleName)
  {
    var typeCode :- ReadByte(data);
    var gps :- ReadChar(typeCode.1);
    var name :- ReadChars(NameLength, gps.1);
    Ok((Head(typeCode.0, gps.0 > 0 as char, name.0), name.1))
  }

  function DecodeStamps(data: seq<byte>): (r: Result<(Stamps, seq<byte>)>)
    ensures |data| < StampsLength ==> r.Err?
    ensures r.Ok? ==> |data| >= StampsLength && r.value.1 == data[StampsLength..]
    ensures r.Ok? ==> IsUInt32(r.value.0.id) && IsUInt32(r.value.0.time) && IsInt32(r.value.0.tzOffset)
  {
    var id :- ReadUInt32(data);
    var time :- ReadUInt32(id.1);
    var tz :- ReadInt32(time.1);
    Ok((Stamps(id.0, time.0, tz.0), tz.1))
  }

  /** The constructor of the class for `kind`, also returning the unread
      bytes. The Type property is whatever byte 0 holds. */
  function Decode(kind: Kind, data: seq<byte>): (r: Result<(EventInfo, seq<byte>)>)
    ensures |data| < Length(kind) ==> r.Err?
    ensures r.Ok? ==> |data| >= Length(kind) && r.value.1 == data[Length(kind)..]
    ensures r.Ok? ==> WellFormed(r.value.0) && r.value.0.kind == kind
    ensures r.Ok? ==> r.value.0.typeCode == data[0]
    ensures r.Ok? ==> (r.value.0.gpsFixValid <==> data[1] > 0)
  {
    var head :- DecodeHead(data);
    var stamps :- DecodeStamps(head.1);
    var readings :- ReadDoubles(ReadingCount, stamps.1);
    assert readings.1 == data[CommonLength..];
    var extras :- ReadDoubles(ExtraCount(kind), readings.1);
    var h, s := head.0, stamps.0;
    Ok((EventInfo(kind, h.typeCode, h.gpsFixValid, h.vehicleName, s.id, s.time, s.tzOffset,
                  readings.0, extras.0),
        extras.1))
  }

  function EncodeHead(h: Head): seq<byte>
    requires |h.vehicleName| == NameLength && IsAscii(h.vehicleName)
  {
    [h.typeCode, FlagByte(h.gpsFixValid)] + BytesOf(h.vehicleName)
  }

  function EncodeStamps(s: Stamps): seq<byte>
    requires IsUInt32(s.id) && IsUInt32(s.time) && IsInt32(s.tzOffset)
  {
    UInt32Bytes(s.id) + (UInt32Bytes(s.time) + Int32Bytes(s.tzOffset))
  }

  function HeadOf(e: EventInfo): Head
  {
    Head(e.typeCode, e.gpsFixValid, e.vehicleName)
  }

  function StampsOf(e: EventInfo): Stamps
  {
    Stamps(e.id, e.time, e.tzOffset)
  }

  /** The device-side layout of an event record. */
  function Encode(e: EventInfo): seq<byte>
    requires WellFormed(e)
  {
    EncodeHead(HeadOf(e)) + (EncodeStamps(StampsOf(e)) + (DoublesBytes(e.readings) + DoublesBytes(e.extras)))
  }

  lemma HeadRoundTrip(h: Head, rest: seq<byte>)
    requires |h.vehicleName| == NameLength && IsAscii(h.vehicleName)
    ensures |EncodeHead(h)| == HeadLength
    ensures DecodeHead(EncodeHead(h) + rest) == Ok((h, rest))
  {
    var s1 := BytesOf(h.vehicleName) + rest;
    var s0 := [FlagByte(h.gpsFixValid)] + s1;
    assert EncodeHead(h) + rest == [h.typeCode] + s0;
    ReadByteBytes(h.typeCode, s0);
    assert s0[1..] == s1;
    ReadCharsBytes(h.vehicleName, rest);
  }

  lemma StampsRoundTrip(s: Stamps, rest: seq<byte>)
    requires IsUInt32(s.id) && IsUInt32(s.time) && IsInt32(s.tzOffset)
    ensures |EncodeStamps(s)| == StampsLength
    ensures DecodeStamps(EncodeStamps(s) + rest) == Ok((s, rest))
  {
    var s2 := Int32Bytes(s.tzOffset) + rest;
    var s1 := UInt32Bytes(s.time) + s2;
    assert EncodeStamps(s) + rest == UInt32Bytes(s.id) + s1;
    ReadUInt32Bytes(s.id, s1);
    ReadUInt32Bytes(s.time, s2);
    ReadInt32Bytes(s.tzOffset, rest);
  }

  /** Decoding an encoded event with its own class recovers every field,
      consumes exactly the class's length and leaves the rest unread. */
  lemma RoundTrip(e: EventInfo, rest: seq<byte>)
    requires WellFormed(e)
    ensures |Encode(e)| == Length(e.kind)
    ensures Decode(e.kind, Encode(e) + rest) == Ok((e, rest))
  {
    var h, s := HeadOf(e), StampsOf(e);
    var afterReadings := DoublesBytes(e.extras) + rest;
    var afterStamps := DoublesBytes(e.readings) + afterReadings;
    var afterHead := EncodeStamps(s) + afterStamps;
    var data := Encode(e) + rest;
    assert data == EncodeHead(h) + afterHead;
    HeadRoundTrip(h, afterHead);
    StampsRoundTrip(s, afterStamps);
    ReadDoublesBytes(e.readings, afterReadings);
    ReadDoublesBytes(e.extras, rest);
    assert DecodeHead(data) == Ok((h, afterHead));
  }
}
