/** TripTracker: the day fetch. One `LegEventCounts=` answer sets the counts
    and asks the loop for the day's records; each record then arrives as a
    framed response (`VH=`, `TP=`, `ED=`) which the notification handler
    reassembles, decodes and files; once enough records are filed the loop
    exports them. */
module DayFetch {
  import opened Wire
  import opened Text
  import opened Reassembly
  import opened PendingWork
  import Commands
  import Vehicle
  import Trip
  import EventRecord

  /** AggregateDataType: the record the buffered response holds. */
  datatype DataKind = NoKind | VehicleData | TripData | EventData

  /** The static fields the handler and the loop share. */
  datatype State = State(
    assembly: Assembly,
    kind: DataKind,
    work: Work,
    numLegs: int,
    numEvents: int,
    vehicle: Option<Vehicle.VehicleInfo>,
    trips: seq<Trip.TripInfo>,
    events: seq<EventRecord.EventInfo>)

  /** The field initialisers. */
  const Initial := State(Idle, NoKind, NoWork, 0, 0, None, [], [])

  predicate Valid(s: State)
  {
    Reassembly.Valid(s.assembly) && IsInt32(s.numLegs) && IsInt32(s.numEvents)
  }

  const CountsKey := "LegEventCounts"

  /** The header key of each record response. */
  function KeyOf(kind: DataKind): string
  {
    match kind
    case VehicleData => "VH"
    case TripData => "TP"
    case EventData => "ED"
    case NoKind => ""
  }

  /** The branch the handler's first if-chain selects. */
  datatype Message = Counts | Header(kind: DataKind) | Chunk

  /** The prefixes are pairwise distinct, so the order of the tests never
      decides: each prefix selects its own branch. */
  function Classify(text: string): (m: Message)
    ensures StartsWith(text, CountsKey + "=") ==> m == Counts
    ensures StartsWith(text, "VH=") ==> m == Header(VehicleData)
    ensures StartsWith(text, "TP=") ==> m == Header(TripData)
    ensures StartsWith(text, "ED=") ==> m == Header(EventData)
    ensures m == Chunk <==>
              && !StartsWith(text, CountsKey + "=") && !StartsWith(text, "VH=")
              && !StartsWith(text, "TP=") && !StartsWith(text, "ED=")
  {
    PrefixesExclusive(text, CountsKey + "=", "VH=", 0);
    PrefixesExclusive(text, CountsKey + "=", "TP=", 0);
    PrefixesExclusive(text, CountsKey + "=", "ED=", 0);
    PrefixesExclusive(text, "VH=", "TP=", 0);
    PrefixesExclusive(text, "VH=", "ED=", 0);
    PrefixesExclusive(text, "TP=", "ED=", 0);
    if StartsWith(text, CountsKey + "=") then Counts
    else if StartsWith(text, "VH=") then Header(VehicleData)
    else if StartsWith(text, "TP=") then Header(TripData)
    else if StartsWith(text, "ED=") then Header(EventData)
    else Chunk
  }

  /** A notification that none of the prefixes claims. */
  predicate IsChunk(bytes: seq<byte>)
  {
    Classify(TextOf(bytes)) == Chunk
  }

  /** The day summary and one trip per leg, and every event, are in. The
      count `NumLegs + 1` is computed in int. */
  predicate AllReceived(s: State)
  {
    |s.trips| >= Wrap32(s.numLegs + 1) && |s.events| >= s.numEvents
  }

  function CheckComplete(s: State): (r: State)
    ensures r == s.(work := r.work)
    ensures r.work == s.work || (r.work == ProcessResults && AllReceived(r))
    ensures AllReceived(s) ==> r.work == ProcessResults
    ensures !AllReceived(s) ==> r == s
  {
    if AllReceived(s) then s.(work := ProcessResults) else s
  }

  /** VehicleInfo(buffer); the completion check is not run. */
  function FileVehicle(s: State): (r: Handled<State>)
    ensures r.state == s.(vehicle := r.state.vehicle)
    ensures r.Raised? <==> Vehicle.Decode(s.assembly.buffer).Err?
    ensures r.Returned? ==> r.state.vehicle == Some(Vehicle.Decode(s.assembly.buffer).value.0)
  {
    match Vehicle.Decode(s.assembly.buffer)
    case Err(_) => Raised(s)
    case Ok((v, _)) => Returned(s.(vehicle := Some(v)), true)
  }

  /** TripInfo(buffer), filed, then the completion check. */
  function FileTrip(s: State): (r: Handled<State>)
    ensures r.Raised? <==> Trip.Decode(s.assembly.buffer).Err?
    ensures r.Raised? ==> r.state == s
    ensures r.Returned? ==> r.state == CheckComplete(s.(trips := s.trips + [Trip.Decode(s.assembly.buffer).value.0]))
  {
    match Trip.Decode(s.assembly.buffer)
    case Err(_) => Raised(s)
    case Ok((t, _)) => Returned(CheckComplete(s.(trips := s.trips + [t])), true)
  }

  /** The class byte 0 names decodes the buffer; any other tag files
      nothing. Either way the completion check follows, unless a decoder
      or the index of byte 0 throws. */
  function FileEvent(s: State): (r: Handled<State>)
    ensures r.Raised? ==> r.state == s
    ensures r.Returned? ==> r.state == CheckComplete(s.(events := r.state.events))
    ensures |s.assembly.buffer| == 0 ==> r.Raised?
    ensures |s.assembly.buffer| > 0 && EventRecord.KindOf(s.assembly.buffer[0]).None? ==>
              r == Returned(CheckComplete(s), true)
    ensures r.state.events == s.events || Filed(s.events, r.state.events, s.assembly.buffer)
  {
    var data := s.assembly.buffer;
    if |data| == 0 then Raised(s)
    else
      match EventRecord.KindOf(data[0])
      case None => Returned(CheckComplete(s), true)
      case Some(k) =>
        match EventRecord.Decode(k, data)
        case Err(_) => Raised(s)
        case Ok((e, _)) =>
          assert Filed(s.events, s.events + [e], data);
          Returned(CheckComplete(s.(events := s.events + [e])), true)
  }

  /** `after` is `before` with one event appended whose class is the one
      the tag (byte 0 of the response) names and whose Type is that tag. */
  predicate Filed(before: seq<EventRecord.EventInfo>, after: seq<EventRecord.EventInfo>, data: seq<byte>)
  {
    && |data| > 0
    && |after| == |before| + 1 && after[..|before|] == before
    && EventRecord.KindOf(data[0]) == Some(after[|before|].kind)
    && after[|before|].typeCode == data[0]
  }

  /** The registers hold a whole response: decode it as the record the last
      header named and file it. */
  function Complete(s: State): (r: Handled<State>)
    ensures r.Raised? ==> r.state == s
    ensures s.kind == NoKind ==> r == Returned(s, true)
    ensures s.kind == VehicleData ==> r.state.work == s.work
    ensures s.kind != VehicleData ==> r.state.vehicle == s.vehicle
  {
    match s.kind
    case VehicleData => FileVehicle(s)
    case TripData => FileTrip(s)
    case EventData => FileEvent(s)
    case NoKind => Returned(s, true)
  }

  /** A decode changes nothing but the filed records and the flag. */
  lemma CompleteFrame(s: State)
    ensures var r := Complete(s).state;
            r == s.(vehicle := r.vehicle, trips := r.trips, events := r.events, work := r.work)
  {
    match s.kind
    case VehicleData =>
    case TripData =>
    case EventData =>
    case NoKind =>
  }

  /** A decode files into the list of its own kind only. */
  lemma CompleteKinds(s: State)
    ensures var r := Complete(s).state;
            && (s.kind != VehicleData ==> r.vehicle == s.vehicle)
            && (s.kind != TripData ==> r.trips == s.trips)
            && (s.kind != EventData ==> r.events == s.events)
  {
    match s.kind
    case VehicleData =>
    case TripData =>
    case EventData =>
    case NoKind =>
  }

  /** A decode appends at most one record. */
  lemma CompleteGrows(s: State)
    ensures GrowsByOne(s.trips, Complete(s).state.trips)
    ensures GrowsByOne(s.events, Complete(s).state.events)
  {
    match s.kind
    case VehicleData =>
    case TripData =>
    case EventData =>
    case NoKind =>
  }

  /** The completion check can only raise the flag, and only once all
      records are in; after a vehicle it does not run at all. */
  lemma CompleteWork(s: State)
    ensures var r := Complete(s).state;
            && (r.work == s.work || (r.work == ProcessResults && AllReceived(r)))
            && (s.kind == VehicleData ==> r.work == s.work)
  {
    match s.kind
    case VehicleData =>
    case TripData =>
    case EventData =>
    case NoKind =>
  }

  /** The continuation branch: append the whole notification and decode
      once no bytes remain. */
  function Continue(s: State, chunk: seq<byte>): (r: Handled<State>)
    ensures Append(s.assembly, chunk).active ==> r == Returned(s.(assembly := Append(s.assembly, chunk)), true)
    ensures !Append(s.assembly, chunk).active ==> r == Complete(s.(assembly := Append(s.assembly, chunk)))
    ensures r.state == s.(assembly := Append(s.assembly, chunk), vehicle := r.state.vehicle,
                          trips := r.state.trips, events := r.state.events, work := r.state.work)
    ensures GrowsByOne(s.trips, r.state.trips) && GrowsByOne(s.events, r.state.events)
    ensures r.state.work == s.work || (r.state.work == ProcessResults && AllReceived(r.state))
  {
    var a := Append(s.assembly, chunk);
    if a.active then Returned(s.(assembly := a), true)
    else
      var s1 := s.(assembly := a);
      CompleteFrame(s1);
      CompleteGrows(s1);
      CompleteWork(s1);
      Complete(s1)
  }

  /** `LegEventCounts=<legs>,<events>`: NumLegs is stored before the second
      number is looked at, so a message without it leaves NumLegs changed. */
  function ReadCounts(s: State, text: string): (r: Handled<State>)
    ensures r.state == s.(numLegs := r.state.numLegs, numEvents := r.state.numEvents, work := r.state.work)
    ensures r.state.work == s.work || (r.Returned? && r.state.work == RequestData)
    ensures Valid(s) ==> Valid(r.state)
  {
    match HeaderField(text)
    case None => Raised(s)
    case Some(field) =>
      var counts := Split(field, ',');
      match ParseInt32(counts[0], Decimal)
      case None => Raised(s)
      case Some(legs) =>
        var s1 := s.(numLegs := legs);
        if |counts| < 2 then Raised(s1)
        else
          match ParseInt32(counts[1], Decimal)
          case None => Raised(s1)
          case Some(events) => Returned(s1.(numEvents := events, work := RequestData), true)
  }

  /** A `VH=`/`TP=`/`ED=` header: the kind is stored before the length is
      parsed; the buffer restarts with the bytes after the first newline. */
  function StartResponse(s: State, kind: DataKind, bytes: seq<byte>): (r: Handled<State>)
    ensures r.state == s.(kind := kind, assembly := r.state.assembly)
    ensures Valid(s) ==> Valid(r.state)
    ensures r.Raised? ==> r.state.assembly == s.assembly
    ensures r.Returned? ==> r.state.assembly.buffer == InitialBytes(bytes)
  {
    var s1 := s.(kind := kind);
    match DeclaredLength(TextOf(bytes))
    case None => Raised(s1)
    case Some(declared) => Returned(s1.(assembly := Begin(s1.assembly, declared, InitialBytes(bytes))), true)
  }

  /** Characteristic_ValueChanged. A counts message is not a header, so
      while a response is being assembled it is also appended to it. */
  function Handle(s: State, bytes: seq<byte>): (r: Handled<State>)
    ensures Valid(s) ==> Valid(r.state)
    ensures GrowsByOne(s.trips, r.state.trips) && GrowsByOne(s.events, r.state.events)
    ensures r.state.work != s.work ==> r.state.work == RequestData || r.state.work == ProcessResults
    ensures r.state.work == RequestData && s.work != RequestData ==> Classify(TextOf(bytes)) == Counts
    ensures r.state.work == ProcessResults && s.work != ProcessResults ==> AllReceived(r.state)
  {
    match Classify(TextOf(bytes))
    case Counts =>
      (match ReadCounts(s, TextOf(bytes))
       case Raised(s1) => Raised(s1)
       case Returned(s1, _) => if s1.assembly.active then Continue(s1, bytes) else Returned(s1, true))
    case Header(kind) => StartResponse(s, kind, bytes)
    case Chunk => if s.assembly.active then Continue(s, bytes) else Returned(s, false)
  }

  /** A notification no prefix claims is appended while a response is
      being assembled, and ignored otherwise. */
  lemma ChunkAppends(s: State, bytes: seq<byte>)
    requires IsChunk(bytes)
    ensures Handle(s, bytes) == if s.assembly.active then Continue(s, bytes) else Returned(s, false)
  {
  }

  /** Notifications handled one after another, whatever each call ends in. */
  function HandleAll(s: State, notifications: seq<seq<byte>>): State
    decreases |notifications|
  {
    if |notifications| == 0 then s
    else HandleAll(Handle(s, notifications[0]).state, notifications[1..])
  }

  lemma HandleAllCons(s: State, first: seq<byte>, rest: seq<seq<byte>>)
    ensures HandleAll(s, [first] + rest) == HandleAll(Handle(s, first).state, rest)
  {
    assert ([first] + rest)[1..] == rest;
  }

  // ---- what the device sends ----

  /** `LegEventCounts=<legs>,<events>\n`. */
  function CountsNotification(legs: int, events: int): seq<byte>
  {
    PairNotification(CountsKey, legs, events)
  }

  /** The two numbers of a counts message are read back as sent. */
  lemma CountsFields(legs: int, events: int)
    requires IsInt32(legs) && IsInt32(events)
    ensures var text := TextOf(CountsNotification(legs, events));
            && Classify(text) == Counts
            && HeaderField(text).Some?
            && Split(HeaderField(text).value, ',') == [FormatDecimal(legs), FormatDecimal(events)]
  {
    PairFields(CountsKey, legs, events);
  }

  /** A counts message sets both counts and asks the loop for the records;
      when it arrives while a response is being assembled its bytes are
      appended to that response as well. */
  lemma CountsMessage(s: State, legs: int, events: int)
    requires IsInt32(legs) && IsInt32(events)
    ensures var s1 := s.(numLegs := legs, numEvents := events, work := RequestData);
            Handle(s, CountsNotification(legs, events))
              == if s.assembly.active then Continue(s1, CountsNotification(legs, events)) else Returned(s1, true)
  {
    CountsFields(legs, events);
    ParseFormatDecimal(legs);
    ParseFormatDecimal(events);
  }

  /** A counts message without its second number stores the first and then
      throws. */
  lemma CountsWithoutEvents(s: State, legs: int)
    requires IsInt32(legs)
    ensures Handle(s, SingleNotification(CountsKey, legs)) == Raised(s.(numLegs := legs))
  {
    SingleField(CountsKey, legs);
    ParseFormatDecimal(legs);
  }

  lemma KeyFacts(kind: DataKind)
    requires kind != NoKind
    ensures IsAscii(KeyOf(kind)) && '=' !in KeyOf(kind) && '\n' !in KeyOf(kind)
  {
  }

  /** The header notification of a response: `<key>=<hex length>\n` and
      the first payload bytes. */
  function HeaderNotification(kind: DataKind, declared: nat, first: seq<byte>): seq<byte>
    requires kind != NoKind
  {
    KeyFacts(kind);
    Frame(KeyOf(kind), declared, first)
  }

  /** A header notification names the kind and declares the length; the
      buffer restarts with exactly the bytes after the newline, whatever was
      being assembled before. */
  lemma HeaderStartsResponse(s: State, kind: DataKind, declared: nat, first: seq<byte>)
    requires kind != NoKind && IsInt32(declared)
    ensures Handle(s, HeaderNotification(kind, declared, first))
              == Returned(s.(kind := kind, assembly := Begin(s.assembly, declared, first)), true)
  {
    var key := KeyOf(kind);
    KeyFacts(kind);
    var bytes := Frame(key, declared, first);
    var text := TextOf(bytes);
    FrameText(key, declared, first);
    assert text == HeaderText(key, FormatHex(declared), TextOf(first));
    assert text[0] == key[0] && text[1] == key[1] && text[2] == '=';
    assert text[..3] == key + "=";
    assert Classify(text) == Header(kind);
    FrameDeclaredLength(key, declared, first);
    FrameInitialBytes(key, declared, first);
  }

  /** A response sent whole in its header notification is buffered but
      never decoded: the flag stays clear, so the next plain notification
      is not even appended. */
  lemma WholeResponseInHeader(s: State, kind: DataKind, payload: seq<byte>, next: seq<byte>)
    requires kind != NoKind && IsInt32(|payload|)
    requires !s.assembly.active && IsChunk(next)
    ensures var r := Handle(s, HeaderNotification(kind, |payload|, payload));
            && r == Returned(s.(kind := kind, assembly := Assembly(false, 0, payload)), true)
            && Handle(r.state, next) == Returned(r.state, false)
  {
    HeaderStartsResponse(s, kind, |payload|, payload);
  }

  lemma ChunksRest(chunks: seq<seq<byte>>)
    requires |chunks| > 0 && forall k :: 0 <= k < |chunks| ==> IsChunk(chunks[k])
    ensures forall k :: 0 <= k < |chunks[1..]| ==> IsChunk(chunks[1..][k])
  {
    forall k | 0 <= k < |chunks[1..]| ensures IsChunk(chunks[1..][k]) {
      assert chunks[1..][k] == chunks[k + 1];
    }
  }

  /** A chunk that reaches the count ends the response and decodes it. */
  lemma LastChunk(s: State, c: seq<byte>)
    requires Valid(s) && s.assembly.active && IsChunk(c)
    requires |c| >= s.assembly.remaining && IsInt32(s.assembly.remaining - |c|)
    ensures HandleAll(s, [c]) == Complete(s.(assembly := Append(s.assembly, c))).state
  {
    ChunkAppends(s, c);
    HandleAllCons(s, c, []);
  }

  /** A chunk short of the count is only appended. */
  lemma InnerChunk(s: State, c: seq<byte>, rest: seq<seq<byte>>)
    requires Valid(s) && s.assembly.active && IsChunk(c)
    requires |c| < s.assembly.remaining
    ensures Append(s.assembly, c).remaining == s.assembly.remaining - |c|
    ensures HandleAll(s, [c] + rest) == HandleAll(s.(assembly := Append(s.assembly, c)), rest)
  {
    ChunkAppends(s, c);
    HandleAllCons(s, c, rest);
  }

  /** Continuation chunks are appended verbatim, with nothing cut at the
      declared length, and exactly one decode happens, after the last. */
  lemma {:induction false} ChunksComplete(s: State, chunks: seq<seq<byte>>)
    requires Valid(s) && s.assembly.active
    requires forall k :: 0 <= k < |chunks| ==> IsChunk(chunks[k])
    requires ReachedAtLast(s.assembly.remaining, chunks)
    requires IsInt32(s.assembly.remaining - |Concat(chunks)|)
    ensures HandleAll(s, chunks) == Complete(s.(assembly := AppendAll(s.assembly, chunks))).state
    decreases |chunks|
  {
    var a := s.assembly;
    var c, rest := chunks[0], chunks[1..];
    assert chunks == [c] + rest;
    assert AppendAll(a, chunks) == AppendAll(Append(a, c), rest);
    if |chunks| == 1 {
      assert Concat(chunks) == c + Concat(rest);
      LastChunk(s, c);
    } else {
      InnerChunk(s, c, rest);
      var s1 := s.(assembly := Append(a, c));
      ChunksRest(chunks);
      assert |Concat(chunks)| == |c| + |Concat(rest)|;
      ChunksComplete(s1, rest);
      assert s1.(assembly := AppendAll(Append(a, c), rest)) == s.(assembly := AppendAll(a, chunks));
    }
  }

  /** Where the chunk boundaries fall does not matter. */
  lemma SplitIndependent(s: State, chunks: seq<seq<byte>>, other: seq<seq<byte>>)
    requires Valid(s) && s.assembly.active
    requires forall k :: 0 <= k < |chunks| ==> IsChunk(chunks[k])
    requires forall k :: 0 <= k < |other| ==> IsChunk(other[k])
    requires ReachedAtLast(s.assembly.remaining, chunks) && ReachedAtLast(s.assembly.remaining, other)
    requires Concat(chunks) == Concat(other)
    requires IsInt32(s.assembly.remaining - |Concat(chunks)|)
    ensures HandleAll(s, chunks) == HandleAll(s, other)
  {
    ChunksComplete(s, chunks);
    ChunksComplete(s, other);
    AppendAllConcat(s.assembly, chunks);
    AppendAllConcat(s.assembly, other);
  }

  /** After its header, a response's chunks meet the registers the header
      set. */
  lemma HeaderThenChunks(s: State, kind: DataKind, declared: nat, first: seq<byte>, chunks: seq<seq<byte>>)
    requires kind != NoKind && IsInt32(declared)
    ensures HandleAll(s, [HeaderNotification(kind, declared, first)] + chunks)
              == HandleAll(s.(kind := kind, assembly := Begin(s.assembly, declared, first)), chunks)
  {
    HeaderStartsResponse(s, kind, declared, first);
    HandleAllCons(s, HeaderNotification(kind, declared, first), chunks);
  }

  /** The chunks after a header carry the registers to the decode of
      exactly the payload. */
  lemma ChunksAfterHeader(s: State, payload: seq<byte>, first: seq<byte>, chunks: seq<seq<byte>>)
    requires Valid(s) && IsInt32(|payload|)
    requires forall k :: 0 <= k < |chunks| ==> IsChunk(chunks[k])
    requires payload == first + Concat(chunks)
    requires ReachedAtLast(|payload| - |first|, chunks)
    ensures HandleAll(s.(assembly := Begin(s.assembly, |payload|, first)), chunks)
              == Complete(s.(assembly := Assembly(false, 0, payload))).state
  {
    var a1 := Begin(s.assembly, |payload|, first);
    assert a1 == Assembly(true, |payload| - |first|, first);
    ChunksComplete(s.(assembly := a1), chunks);
    AppendAllConcat(a1, chunks);
    assert AppendAll(a1, chunks) == Assembly(false, 0, payload);
  }

  /** A whole response: its header, then chunks that complete it. The
      record is decoded from exactly the concatenated payload. */
  lemma ResponseArrives(s: State, kind: DataKind, payload: seq<byte>, first: seq<byte>, chunks: seq<seq<byte>>)
    requires Valid(s) && kind != NoKind && IsInt32(|payload|)
    requires forall k :: 0 <= k < |chunks| ==> IsChunk(chunks[k])
    requires payload == first + Concat(chunks)
    requires ReachedAtLast(|payload| - |first|, chunks)
    ensures HandleAll(s, [HeaderNotification(kind, |payload|, first)] + chunks)
              == Complete(s.(kind := kind, assembly := Assembly(false, 0, payload))).state
  {
    HeaderThenChunks(s, kind, |payload|, first, chunks);
    ChunksAfterHeader(s.(kind := kind), payload, first, chunks);
  }

  /** A vehicle response delivered in pieces is decoded and stored; the
      completion check does not run. */
  lemma VehicleArrives(s: State, v: Vehicle.VehicleInfo, first: seq<byte>, chunks: seq<seq<byte>>)
    requires Valid(s) && Vehicle.WellFormed(v)
    requires forall k :: 0 <= k < |chunks| ==> IsChunk(chunks[k])
    requires Vehicle.Encode(v) == first + Concat(chunks)
    requires ReachedAtLast(|Vehicle.Encode(v)| - |first|, chunks)
    ensures var payload := Vehicle.Encode(v);
            HandleAll(s, [HeaderNotification(VehicleData, |payload|, first)] + chunks)
              == s.(kind := VehicleData, assembly := Assembly(false, 0, payload), vehicle := Some(v))
  {
    var payload := Vehicle.Encode(v);
    Vehicle.RoundTrip(v, []);
    assert payload + [] == payload;
    ResponseArrives(s, VehicleData, payload, first, chunks);
  }

  /** A trip response delivered in pieces is decoded, filed, and followed
      by the completion check. */
  lemma TripArrives(s: State, t: Trip.TripInfo, first: seq<byte>, chunks: seq<seq<byte>>)
    requires Valid(s) && Trip.WellFormed(t)
    requires forall k :: 0 <= k < |chunks| ==> IsChunk(chunks[k])
    requires Trip.Encode(t) == first + Concat(chunks)
    requires ReachedAtLast(Trip.Length - |first|, chunks)
    ensures HandleAll(s, [HeaderNotification(TripData, Trip.Length, first)] + chunks)
              == CheckComplete(s.(kind := TripData, assembly := Assembly(false, 0, Trip.Encode(t)),
                                  trips := s.trips + [t]))
  {
    var payload := Trip.Encode(t);
    Trip.RoundTrip(t, []);
    assert payload + [] == payload;
    ResponseArrives(s, TripData, payload, first, chunks);
  }

  /** An event response is dispatched on its first byte, the byte the
      decoder then reads as the type, so the filed event has the kind its
      tag names. */
  lemma EventArrives(s: State, e: EventRecord.EventInfo, first: seq<byte>, chunks: seq<seq<byte>>)
    requires Valid(s) && EventRecord.WellFormed(e) && e.typeCode == EventRecord.TypeCode(e.kind)
    requires forall k :: 0 <= k < |chunks| ==> IsChunk(chunks[k])
    requires EventRecord.Encode(e) == first + Concat(chunks)
    requires ReachedAtLast(EventRecord.Length(e.kind) - |first|, chunks)
    ensures var payload := EventRecord.Encode(e);
            HandleAll(s, [HeaderNotification(EventData, |payload|, first)] + chunks)
              == CheckComplete(s.(kind := EventData, assembly := Assembly(false, 0, payload),
                                  events := s.events + [e]))
  {
    var payload := EventRecord.Encode(e);
    var s1 := s.(kind := EventData, assembly := Assembly(false, 0, payload));
    FileEncodedEvent(s1, e);
    assert Complete(s1) == FileEvent(s1);
    ResponseArrives(s, EventData, payload, first, chunks);
  }

  /** A buffer holding an encoded event is filed as that event. */
  lemma FileEncodedEvent(s: State, e: EventRecord.EventInfo)
    requires EventRecord.WellFormed(e) && e.typeCode == EventRecord.TypeCode(e.kind)
    requires s.assembly.buffer == EventRecord.Encode(e)
    ensures |s.assembly.buffer| == EventRecord.Length(e.kind)
    ensures FileEvent(s) == Returned(CheckComplete(s.(events := s.events + [e])), true)
  {
    var payload := s.assembly.buffer;
    EventRecord.RoundTrip(e, []);
    assert payload + [] == payload;
    EventRecord.KindOfTypeCode(e.kind);
    assert payload[0] == e.typeCode;
  }

  // ---- the session: Initialize, then notifications and loop passes ----

  /** How far Initialize gets: the link setup fails, the `#0 LE?` write
      fails, or the loop starts. */
  datatype Setup = LinkFailed | QueryFailed | Ready

  /** What AppendToTripDetailTable is handed. */
  datatype Snapshot = Snapshot(vehicle: Option<Vehicle.VehicleInfo>, trips: seq<Trip.TripInfo>,
                           events: seq<EventRecord.EventInfo>)

  /** The shared statics, whether ProcessPendingWork is still looping, every
      command written so far and every export so far. */
  datatype Session = Session(tracker: State, running: bool, written: seq<Commands.Command>, exports: seq<Snapshot>)

  /** A notification, or one pass of the loop with the outcome of the
      writes it makes. */
  datatype Event = Notify(bytes: seq<byte>) | Poll(failAt: Option<nat>)

  /** Initialize: the lists are replaced and the flag cleared; the other
      statics, VehicleInfo among them, keep what an earlier run left. */
  function Start(tracker: State, setup: Setup): (r: Session)
    ensures r.tracker == tracker.(work := r.tracker.work, trips := r.tracker.trips, events := r.tracker.events)
    ensures r.tracker.work == NoWork && r.tracker.trips == [] && r.tracker.events == []
    ensures r.running <==> setup == Ready
    ensures r.written == [] <==> setup == LinkFailed
    ensures r.written != [] ==> r.written == [Commands.LegEventCountQuery]
    ensures r.exports == []
  {
    var t := tracker.(work := NoWork, trips := [], events := []);
    match setup
    case LinkFailed => Session(t, false, [], [])
    case QueryFailed => Session(t, false, [Commands.LegEventCountQuery], [])
    case Ready => Session(t, true, [Commands.LegEventCountQuery], [])
  }

  /** The handler runs for every notification, before and after the loop
      ends; a pass does nothing once the loop has ended. */
  function Step(ss: Session, ev: Event): (r: Session)
    ensures r.written != ss.written ==>
              && ev.Poll? && ss.running && ss.tracker.work == RequestData
              && r.written == ss.written + Commands.Sent(Commands.DayRequests(ss.tracker.numLegs, ss.tracker.numEvents), ev.failAt)
    ensures r.exports != ss.exports ==>
              && ev.Poll? && ss.running && ss.tracker.work == ProcessResults && r.tracker.work == Done
              && r.exports == ss.exports + [Snapshot(ss.tracker.vehicle, ss.tracker.trips, ss.tracker.events)]
    ensures r.running != ss.running ==> ev.Poll? && ss.tracker.work == Done && !r.running
  {
    match ev
    case Notify(bytes) => ss.(tracker := Handle(ss.tracker, bytes).state)
    case Poll(failAt) =>
      if !ss.running then ss
      else
        var (action, work) := Pass(ss.tracker.work);
        var t := ss.tracker.(work := work);
        match action
        case Exit => ss.(running := false)
        case Request =>
          ss.(tracker := t, written := ss.written + Commands.Sent(Commands.DayRequests(t.numLegs, t.numEvents), failAt))
        case Export => ss.(tracker := t, exports := ss.exports + [Snapshot(t.vehicle, t.trips, t.events)])
        case Wait => ss
  }

  /** The command and export logs only grow, and once the loop has ended
      nothing more is written or exported. */
  function Run(ss: Session, events: seq<Event>): (r: Session)
    ensures ss.written <= r.written && ss.exports <= r.exports
    ensures !ss.running ==> !r.running && r.written == ss.written && r.exports == ss.exports
    decreases |events|
  {
    if |events| == 0 then ss else Run(Step(ss, events[0]), events[1..])
  }

  /** Every export is a snapshot of the lists as they then stood, and the
      lists only grow, so each export is a prefix of the current lists. */
  predicate Consistent(ss: Session)
  {
    && Valid(ss.tracker)
    && forall i :: 0 <= i < |ss.exports| ==>
         ss.exports[i].trips <= ss.tracker.trips && ss.exports[i].events <= ss.tracker.events
  }

  lemma GrowsByOnePrefix<T>(a: seq<T>, b: seq<T>, c: seq<T>)
    requires c <= a && GrowsByOne(a, b)
    ensures c <= b
  {
  }

  lemma StepConsistent(ss: Session, ev: Event)
    requires Consistent(ss)
    ensures Consistent(Step(ss, ev))
    ensures ss.written <= Step(ss, ev).written && ss.exports <= Step(ss, ev).exports
  {
    var r := Step(ss, ev);
    match ev
    case Notify(bytes) =>
      var h := Handle(ss.tracker, bytes).state;
      forall i | 0 <= i < |r.exports|
        ensures r.exports[i].trips <= r.tracker.trips && r.exports[i].events <= r.tracker.events
      {
        GrowsByOnePrefix(ss.tracker.trips, h.trips, ss.exports[i].trips);
        GrowsByOnePrefix(ss.tracker.events, h.events, ss.exports[i].events);
      }
    case Poll(_) =>
  }

  /** Over any run: the exports stay snapshots of the lists, and nothing
      written or exported is ever taken back. */
  lemma {:induction false} RunConsistent(ss: Session, events: seq<Event>)
    requires Consistent(ss)
    ensures Consistent(Run(ss, events))
    ensures ss.written <= Run(ss, events).written && ss.exports <= Run(ss, events).exports
    decreases |events|
  {
    if |events| > 0 {
      StepConsistent(ss, events[0]);
      RunConsistent(Step(ss, events[0]), events[1..]);
    }
  }

  /** Once the loop has ended nothing more is written or exported, whatever
      arrives. */
  lemma {:induction false} EndedStaysEnded(ss: Session, events: seq<Event>)
    requires !ss.running
    ensures !Run(ss, events).running
    ensures Run(ss, events).written == ss.written && Run(ss, events).exports == ss.exports
    decreases |events|
  {
    if |events| > 0 {
      EndedStaysEnded(Step(ss, events[0]), events[1..]);
    }
  }

  /** The opening exchange: after `#0 LE?` is answered, the next pass
      writes the day's requests, stopping at the first failing write. */
  lemma FetchBegins(tracker: State, legs: int, events: int, failAt: Option<nat>)
    requires !tracker.assembly.active && IsInt32(legs) && IsInt32(events)
    ensures var ss := Run(Start(tracker, Ready), [Notify(CountsNotification(legs, events)), Poll(failAt)]);
            && ss.written == [Commands.LegEventCountQuery] + Commands.Sent(Commands.DayRequests(legs, events), failAt)
            && ss.running && ss.tracker.work == NoWork
            && ss.tracker.numLegs == legs && ss.tracker.numEvents == events
  {
    var s0 := Start(tracker, Ready);
    var bytes := CountsNotification(legs, events);
    CountsMessage(s0.tracker, legs, events);
    var t1 := s0.tracker.(numLegs := legs, numEvents := events, work := RequestData);
    var s1 := s0.(tracker := t1);
    assert Step(s0, Notify(bytes)) == s1;
    var s2 := s1.(tracker := t1.(work := NoWork),
                  written := s1.written + Commands.Sent(Commands.DayRequests(legs, events), failAt));
    assert Step(s1, Poll(failAt)) == s2;
    assert Run(s1, [Poll(failAt)]) == s2;
    var evs := [Notify(bytes), Poll(failAt)];
    assert evs[1..] == [Poll(failAt)];
  }
}
