/** The day summary (`#0 DD?`) and leg summaries (`#0 LD?n;`) (TripInfo.cs). */
module Trip {
  import opened Wire
  import opened Reader

  datatype TripInfo = TripInfo(
    tripType: string,
    startGpsFixValid: bool,
    endGpsFixValid: bool,
    id: nat,
    startTime: nat,             // GMT seconds since 1970
    endTime: nat,
    startTzOffset: int,         // hours
    endTzOffset: int,
    readings: seq<Double>,      // StartOdometer, EndOdometer, StartEngineHours, EndEngineHours,
                                // StartGenHrs, EndGenHrs, StartFuel, EndFuel, FuelUsed,
                                // StartLatitude, StartLongitude, EndLatitude, EndLongitude
    travelDurationSecs: nat,
    isTowing: bool,
    towingDistance: Double)

  const ReadingCount := 13

  /** Positions in `readings`. */
  const StartOdometer := 0
  const EndOdometer := 1
  const StartEngineHours := 2
  const EndEngineHours := 3
  const StartGenHrs := 4
  const EndGenHrs := 5
  const StartFuel := 6
  const EndFuel := 7
  const FuelUsed := 8
  const StartLatitude := 9
  const StartLongitude := 10
  const EndLatitude := 11
  const EndLongitude := 12

  /** Offset of the towing byte: three one-byte fields, five 32-bit fields,
      thirteen doubles and the travel seconds come before it. */
  const TowingOffset := 3 + 4 * 5 + 8 * ReadingCount + 4

  /** Every trip record is this long. */
  const Length := TowingOffset + 1 + 8

  predicate WellFormed(t: TripInfo)
  {
    && |t.tripType| == 1 && IsAscii(t.tripType)
    && IsUInt32(t.id) && IsUInt32(t.startTime) && IsUInt32(t.endTime)
    && IsInt32(t.startTzOffset) && IsInt32(t.endTzOffset)
    && |t.readings| == ReadingCount
    && IsUInt32(t.travelDurationSecs)
  }

  /** StartLocalTime in seconds: the tz offset counts hours (TripInfo.cs
      lines 16-19). The clock keeps GMT's minutes and seconds, and is ahead
      of GMT exactly east of Greenwich. */
  function StartLocalSeconds(t: TripInfo): (r: int)
    ensures r % 3600 == t.startTime % 3600
    ensures r == t.startTime <==> t.startTzOffset == 0
    ensures r > t.startTime <==> t.startTzOffset > 0
  {
    t.startTime + 3600 * t.startTzOffset
  }

  /** EndLocalTime in seconds, as for the start. */
  function EndLocalSeconds(t: TripInfo): (r: int)
    ensures r % 3600 == t.endTime % 3600
    ensures r == t.endTime <==> t.endTzOffset == 0
    ensures r > t.endTime <==> t.endTzOffset > 0
  {
    t.endTime + 3600 * t.endTzOffset
  }

  /** The three one-byte fields that open a record. */
  datatype Head = Head(tripType: string, startGpsFixValid: bool, endGpsFixValid: bool)

  /** The five 32-bit fields that follow: the id and both time stamps. */
  datatype Stamps = Stamps(id: nat, startTime: nat, endTime: nat, startTzOffset: int, endTzOffset: int)

  /** The 13 bytes after the readings. */
  datatype Tail = Tail(travelDurationSecs: nat, isTowing: bool, towingDistance: Double)

  const HeadLength := 3
  const StampsLength := 4 * 5
  const TailLength := 4 + 1 + 8

  function DecodeHead(data: seq<byte>): (r: Result<(Head, seq<byte>)>)
    ensures |data| < HeadLength ==> r.Err?
    ensures r.Ok? ==> |data| >= HeadLength && r.value.1 == data[HeadLength..]
    ensures r.Ok? ==> |r.value.0.tripType| == 1 && IsAscii(r.value.0.tripType)
    ensures r.Ok? ==> (r.value.0.startGpsFixValid <==> data[1] > 0)
    ensures r.Ok? ==> (r.value.0.endGpsFixValid <==> data[2] > 0)
  {
    var tripType :- ReadChars(1, data);
    var startGps :- ReadChar(tripType.1);
    var endGps :- ReadChar(startGps.1);
    Ok((Head(tripType.0, startGps.0 > 0 as char, endGps.0 > 0 as char), endGps.1))
  }

  predicate StampsInRange(s: Stamps)
  {
    IsUInt32(s.id) && IsUInt32(s.startTime) && IsUInt32(s.endTime)
    && IsInt32(s.startTzOffset) && IsInt32(s.endTzOffset)
  }

  function DecodeStamps(data: seq<byte>): (r: Result<(Stamps, seq<byte>)>)
    ensures |data| < StampsLength ==> r.Err?
    ensures r.Ok? ==> |data| >= StampsLength && r.value.1 == data[StampsLength..]
    ensures r.Ok? ==> StampsInRange(r.value.0)
  {
    var id :- ReadUInt32(data);
    var startTime :- ReadUInt32(id.1);
    var endTime :- ReadUInt32(startTime.1);
    var startTz :- ReadInt32(endTime.1);
    var endTz :- ReadInt32(startTz.1);
    Ok((Stamps(id.0, startTime.0, endTime.0, startTz.0, endTz.0), endTz.1))
  }

  function DecodeTail(data: seq<byte>): (r: Result<(Tail, seq<byte>)>)
    ensures |data| < TailLength ==> r.Err?
    ensures r.Ok? ==> |data| >= TailLength && r.value.1 == data[TailLength..]
    ensures r.Ok? ==> IsUInt32(r.value.0.travelDurationSecs)
    ensures r.Ok? ==> (r.value.0.isTowing <==> data[4] == 1)
  {
    var travel :- ReadUInt32(data);
    var towing :- ReadByte(travel.1);
    var towingDistance :- ReadDouble(towing.1);
    Ok((Tail(travel.0, towing.0 == 1, towingDistance.0), towingDistance.1))
  }

  /** The TripInfo(byte[]) constructor, also returning the unread bytes.
      A GPS flag is true for any non-zero char; IsTowing only for 0x01. */
  function Decode(data: seq<byte>): (r: Result<(TripInfo, seq<byte>)>)
    ensures |data| < Length ==> r.Err?
    ensures r.Ok? ==> |data| >= Length && r.value.1 == data[Length..]
    ensures r.Ok? ==> WellFormed(r.value.0)
    ensures r.Ok? ==> (r.value.0.startGpsFixValid <==> data[1] > 0)
    ensures r.Ok? ==> (r.value.0.endGpsFixValid <==> data[2] > 0)
    ensures r.Ok? ==> (r.value.0.isTowing <==> data[TowingOffset] == 1)
  {
    var head :- DecodeHead(data);
    var stamps :- DecodeStamps(head.1);
    var readings :- ReadDoubles(ReadingCount, stamps.1);
    assert readings.1 == data[HeadLength + StampsLength + 8 * ReadingCount..];
    var tail :- DecodeTail(readings.1);
    var h, s, t := head.0, stamps.0, tail.0;
    Ok((TripInfo(h.tripType, h.startGpsFixValid, h.endGpsFixValid, s.id, s.startTime, s.endTime,
                 s.startTzOffset, s.endTzOffset, readings.0,
                 t.travelDurationSecs, t.isTowing, t.towingDistance),
        tail.1))
  }

  function HeadOf(t: TripInfo): Head
  {
    Head(t.tripType, t.startGpsFixValid, t.endGpsFixValid)
  }

  function StampsOf(t: TripInfo): Stamps
  {
    Stamps(t.id, t.startTime, t.endTime, t.startTzOffset, t.endTzOffset)
  }

  function TailOf(t: TripInfo): Tail
  {
    Tail(t.travelDurationSecs, t.isTowing, t.towingDistance)
  }

  function EncodeHead(h: Head): seq<byte>
    requires |h.tripType| == 1 && IsAscii(h.tripType)
  {
    BytesOf(h.tripType) + [FlagByte(h.startGpsFixValid), FlagByte(h.endGpsFixValid)]
  }

  function EncodeStamps(s: Stamps): seq<byte>
    requires StampsInRange(s)
  {
    UInt32Bytes(s.id)
    + (UInt32Bytes(s.startTime)
    + (UInt32Bytes(s.endTime)
    + (Int32Bytes(s.startTzOffset)
    + Int32Bytes(s.endTzOffset))))
  }

  function EncodeTail(t: Tail): seq<byte>
    requires IsUInt32(t.travelDurationSecs)
  {
    UInt32Bytes(t.travelDurationSecs) + ([FlagByte(t.isTowing)] + t.towingDistance)
  }

  /** The device-side layout of a trip record. */
  function Encode(t: TripInfo): seq<byte>
    requires WellFormed(t)
  {
    EncodeHead(HeadOf(t)) + (EncodeStamps(StampsOf(t)) + (DoublesBytes(t.readings) + EncodeTail(TailOf(t))))
  }

  lemma HeadRoundTrip(h: Head, rest: seq<byte>)
    requires |h.tripType| == 1 && IsAscii(h.tripType)
    ensures |EncodeHead(h)| == HeadLength
    ensures DecodeHead(EncodeHead(h) + rest) == Ok((h, rest))
  {
    var s1 := [FlagByte(h.endGpsFixValid)] + rest;
    var s0 := [FlagByte(h.startGpsFixValid)] + s1;
    assert EncodeHead(h) + rest == BytesOf(h.tripType) + s0;
    ReadCharsBytes(h.tripType, s0);
    FlagCharOf(h.startGpsFixValid);
    FlagCharOf(h.endGpsFixValid);
    assert s0[1..] == s1 && s1[1..] == rest;
  }

  lemma StampsRoundTrip(s: Stamps, rest: seq<byte>)
    requires StampsInRange(s)
    ensures |EncodeStamps(s)| == StampsLength
    ensures DecodeStamps(EncodeStamps(s) + rest) == Ok((s, rest))
  {
    var s4 := Int32Bytes(s.endTzOffset) + rest;
    var s3 := Int32Bytes(s.startTzOffset) + s4;
    var s2 := UInt32Bytes(s.endTime) + s3;
    var s1 := UInt32Bytes(s.startTime) + s2;
    assert EncodeStamps(s) + rest == UInt32Bytes(s.id) + s1;
    ReadUInt32Bytes(s.id, s1);
    ReadUInt32Bytes(s.startTime, s2);
    ReadUInt32Bytes(s.endTime, s3);
    ReadInt32Bytes(s.startTzOffset, s4);
    ReadInt32Bytes(s.endTzOffset, rest);
  }

  lemma TailRoundTrip(t: Tail, rest: seq<byte>)
    requires IsUInt32(t.travelDurationSecs)
    ensures |EncodeTail(t)| == TailLength
    ensures DecodeTail(EncodeTail(t) + rest) == Ok((t, rest))
  {
    var s2 := t.towingDistance + rest;
    var s1 := [FlagByte(t.isTowing)] + s2;
    assert EncodeTail(t) + rest == UInt32Bytes(t.travelDurationSecs) + s1;
    ReadUInt32Bytes(t.travelDurationSecs, s1);
    ReadByteBytes(FlagByte(t.isTowing), s2);
    ReadDoubleBytes(t.towingDistance, rest);
    assert (FlagByte(t.isTowing) == 1) == t.isTowing;
  }

  /** Decoding an encoded trip recovers every field, consumes exactly 140
      bytes, and leaves whatever follows unread. */
  lemma RoundTrip(t: TripInfo, rest: seq<byte>)
    requires WellFormed(t)
    ensures |Encode(t)| == Length
    ensures Decode(Encode(t) + rest) == Ok((t, rest))
  {
    var h, s, tl := HeadOf(t), StampsOf(t), TailOf(t);
    var afterReadings := EncodeTail(tl) + rest;
    var afterStamps := DoublesBytes(t.readings) + afterReadings;
    var afterHead := EncodeStamps(s) + afterStamps;
    var data := Encode(t) + rest;
    assert data == EncodeHead(h) + afterHead;
    HeadRoundTrip(h, afterHead);
    StampsRoundTrip(s, afterStamps);
    ReadDoublesBytes(t.readings, afterReadings);
    TailRoundTrip(tl, rest);
    assert DecodeHead(data) == Ok((h, afterHead));
  }
}
