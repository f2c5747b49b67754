/** TripTrackerSync: the incremental sync. A `SyncRange=` answer sets the
    range of event ids still to fetch and asks the loop for them; each
    event then arrives as a `SyncData=` response, which the handler
    reassembles and dispatches on its type byte; once the whole range is
    in the loop exports it, and only a save that succeeded moves the
    device's sync cursor on with `#0 SS={EndId};`. */
module IncrementalSync {
  import opened Wire
  import opened Text
  import opened Reassembly
  import opened PendingWork
  import Commands
  import Event2Record

  /** The static fields the handler and the loop share. */
  datatype State = State(
    assembly: Assembly,
    work: Work,
    startId: int,
    endId: int,
    events: seq<Event2Record.Event2Info>)

  /** The field initialisers. */
  const Initial := State(Idle, NoWork, 0, 0, [])

  predicate Valid(s: State)
  {
    Reassembly.Valid(s.assembly) && IsInt32(s.startId) && IsInt32(s.endId)
  }

  const RangeKey := "SyncRange"

  const DataKey := "SyncData"

  /** The branch the handler's first if-chain selects. */
  datatype Message = Range | Header | Chunk

  /** The two prefixes differ, so each selects its own branch. */
  function Classify(text: string): (m: Message)
    ensures StartsWith(text, RangeKey + "=") ==> m == Range
    ensures StartsWith(text, DataKey + "=") ==> m == Header
    ensures m == Chunk <==> !StartsWith(text, RangeKey + "=") && !StartsWith(text, DataKey + "=")
  {
    PrefixesExclusive(text, RangeKey + "=", DataKey + "=", 4);
    if StartsWith(text, RangeKey + "=") then Range
    else if StartsWith(text, DataKey + "=") then Header
    else Chunk
  }

  predicate IsChunk(bytes: seq<byte>)
  {
    Classify(TextOf(bytes)) == Chunk
  }

  /** As many events are in as the range holds; `EndId - StartId` is
      computed in int. */
  predicate AllReceived(s: State)
  {
    |s.events| >= Wrap32(s.endId - s.startId)
  }

  function CheckComplete(s: State): (r: State)
    ensures r == s.(work := r.work)
    ensures r.work == s.work || (r.work == ProcessResults && AllReceived(r))
    ensures AllReceived(s) ==> r.work == ProcessResults
    ensures !AllReceived(s) ==> r == s
  {
    if AllReceived(s) then s.(work := ProcessResults) else s
  }

  /** `after` is `before` with one event appended whose kind is the one the
      tag (byte 8 of the response) names and whose Type is that tag. */
  predicate Filed(before: seq<Event2Record.Event2Info>, after: seq<Event2Record.Event2Info>, data: seq<byte>)
  {
    && |data| > Event2Record.TypeOffset
    && |after| == |before| + 1 && after[..|before|] == before
    && Event2Record.KindOf(data[Event2Record.TypeOffset]) == Some(after[|before|].kind)
    && after[|before|].typeCode == data[Event2Record.TypeOffset]
  }

  /** The registers hold a whole response: the class byte 8 names decodes
      it; any other tag files nothing. Either way the completion check
      follows, unless a decoder or the index of byte 8 throws. */
  function Complete(s: State): (r: Handled<State>)
    ensures r.Raised? ==> r.state == s
    ensures |s.assembly.buffer| <= Event2Record.TypeOffset ==> r.Raised?
    ensures r.Returned? ==> r.state == CheckComplete(s.(events := r.state.events))
    ensures r.Returned? ==> r.state.events == s.events || |r.state.events| == |s.events| + 1
  {
    var data := s.assembly.buffer;
    if |data| <= Event2Record.TypeOffset then Raised(s)
    else
      match Event2Record.KindOf(data[Event2Record.TypeOffset])
      case None => Returned(CheckComplete(s), true)
      case Some(k) =>
        match Event2Record.Decode(k, data)
        case Err(_) => Raised(s)
        case Ok((e, _)) => Returned(CheckComplete(s.(events := s.events + [e])), true)
  }

  /** A throw leaves the statics as they were; otherwise at most the one
      event is filed, and the completion check runs even for an unknown
      tag. */
  lemma CompleteOutcome(s: State)
    ensures var r := Complete(s);
            && (r.Raised? ==> r.state == s)
            && (r.Returned? ==> r.state == CheckComplete(s.(events := r.state.events)))
            && (|s.assembly.buffer| <= Event2Record.TypeOffset ==> r.Raised?)
            && (|s.assembly.buffer| > Event2Record.TypeOffset
                && Event2Record.KindOf(s.assembly.buffer[Event2Record.TypeOffset]).None? ==>
                  r == Returned(CheckComplete(s), true))
  {
  }

  /** What is filed is the event the tag names. */
  lemma CompleteFiles(s: State)
    ensures var r := Complete(s).state;
            r.events == s.events || Filed(s.events, r.events, s.assembly.buffer)
  {
    var data := s.assembly.buffer;
    if |data| > Event2Record.TypeOffset {
      match Event2Record.KindOf(data[Event2Record.TypeOffset])
      case None =>
      case Some(k) =>
        match Event2Record.Decode(k, data)
        case Err(_) =>
        case Ok((e, _)) =>
          assert Filed(s.events, s.events + [e], data);
    }
  }

  /** The continuation branch: append the whole notification and decode
      once no bytes remain. */
  function Continue(s: State, chunk: seq<byte>): (r: Handled<State>)
    ensures Append(s.assembly, chunk).active ==> r == Returned(s.(assembly := Append(s.assembly, chunk)), true)
    ensures !Append(s.assembly, chunk).active ==> r == Complete(s.(assembly := Append(s.assembly, chunk)))
    ensures r.state == s.(assembly := Append(s.assembly, chunk), events := r.state.events, work := r.state.work)
    ensures GrowsByOne(s.events, r.state.events)
    ensures r.state.work == s.work || (r.state.work == ProcessResults && AllReceived(r.state))
  {
    var a := Append(s.assembly, chunk);
    if a.active then Returned(s.(assembly := a), true)
    else
      var s1 := s.(assembly := a);
      CompleteOutcome(s1);
      CompleteFiles(s1);
      Complete(s1)
  }

  /** `SyncRange=<start>,<end>`: StartId is stored before the second number
      is looked at. A non-empty range asks the loop for the events; an
      empty one ends the loop. */
  function ReadRange(s: State, text: string): (r: Handled<State>)
    ensures r.state == s.(startId := r.state.startId, endId := r.state.endId, work := r.state.work)
    ensures r.Raised? ==> r.state.work == s.work && r.state.endId == s.endId
    ensures r.Returned? ==> (r.state.work == RequestData <==> r.state.endId > r.state.startId)
    ensures r.Returned? ==> (r.state.work == Done <==> r.state.endId <= r.state.startId)
    ensures Valid(s) ==> Valid(r.state)
  {
    match HeaderField(text)
    case None => Raised(s)
    case Some(field) =>
      var ids := Split(field, ',');
      match ParseInt32(ids[0], Decimal)
      case None => Raised(s)
      case Some(start) =>
        var s1 := s.(startId := start);
        if |ids| < 2 then Raised(s1)
        else
          match ParseInt32(ids[1], Decimal)
          case None => Raised(s1)
          case Some(end) =>
            Returned(s1.(endId := end, work := if end > start then RequestData else Done), true)
  }

  /** A `SyncData=` header: the buffer restarts with the bytes after the
      first newline. */
  function StartResponse(s: State, bytes: seq<byte>): (r: Handled<State>)
    ensures r.state == s.(assembly := r.state.assembly)
    ensures Valid(s) ==> Valid(r.state)
    ensures r.Raised? ==> r.state == s
    ensures r.Returned? ==> r.state.assembly.buffer == InitialBytes(bytes)
  {
    match DeclaredLength(TextOf(bytes))
    case None => Raised(s)
    case Some(declared) => Returned(s.(assembly := Begin(s.assembly, declared, InitialBytes(bytes))), true)
  }

  /** Characteristic_ValueChanged. A range answer is not a header, so
      while a response is being assembled it is also appended to it. */
  function Handle(s: State, bytes: seq<byte>): (r: Handled<State>)
    ensures Valid(s) ==> Valid(r.state)
    ensures GrowsByOne(s.events, r.state.events)
    ensures r.state.work != s.work ==> Classify(TextOf(bytes)) == Range || r.state.work == ProcessResults
    ensures r.state.work == ProcessResults && s.work != ProcessResults ==> AllReceived(r.state)
    ensures r.state.startId != s.startId || r.state.endId != s.endId ==> Classify(TextOf(bytes)) == Range
  {
    match Classify(TextOf(bytes))
    case Range =>
      (match ReadRange(s, TextOf(bytes))
       case Raised(s1) => Raised(s1)
       case Returned(s1, _) => if s1.assembly.active then Continue(s1, bytes) else Returned(s1, true))
    case Header => StartResponse(s, bytes)
    case Chunk => if s.assembly.active then Continue(s, bytes) else Returned(s, false)
  }

  lemma ChunkAppends(s: State, bytes: seq<byte>)
    requires IsChunk(bytes)
    ensures Handle(s, bytes) == if s.assembly.active then Continue(s, bytes) else Returned(s, false)
  {
  }

  /** Notifications handled one after another, whatever each call ends in. */
  function HandleAll(s: State, notifications: seq<seq<byte>>): State
    decreases |notifications|
  {
    if |notifications| == 0 then s
    else HandleAll(Handle(s, notifications[0]).state, notifications[1..])
  }

  lemma HandleAllCons(s: State, first: seq<byte>, rest: seq<seq<byte>>)
    ensures HandleAll(s, [first] + rest) == HandleAll(Handle(s, first).state, rest)
  {
    assert ([first] + rest)[1..] == rest;
  }

  // ---- what the device sends ----

  /** `SyncRange=<start>,<end>\n`. */
  function RangeNotification(start: int, end: int): seq<byte>
  {
    PairNotification(RangeKey, start, end)
  }

  /** A range answer sets both ids; the loop is asked for the events
      exactly when the range is non-empty and is told to stop otherwise.
      While a response is being assembled the answer is appended to it too. */
  lemma RangeMessage(s: State, start: int, end: int)
    requires IsInt32(start) && IsInt32(end)
    ensures var s1 := s.(startId := start, endId := end, work := if end > start then RequestData else Done);
            Handle(s, RangeNotification(start, end))
              == if s.assembly.active then Continue(s1, RangeNotification(start, end)) else Returned(s1, true)
  {
    PairFields(RangeKey, start, end);
    ParseFormatDecimal(start);
    ParseFormatDecimal(end);
  }

  /** A range answer without its end stores the start and then throws,
      leaving EndId and the loop as they were. */
  lemma RangeWithoutEnd(s: State, start: int)
    requires IsInt32(start)
    ensures Handle(s, SingleNotification(RangeKey, start)) == Raised(s.(startId := start))
  {
    SingleField(RangeKey, start);
    ParseFormatDecimal(start);
  }

  /** The header notification of one event: `SyncData=<hex length>\n` and
      the first payload bytes. */
  function HeaderNotification(declared: nat, first: seq<byte>): seq<byte>
  {
    Frame(DataKey, declared, first)
  }

  /** A header restarts the buffer with exactly the bytes after the
      newline, whatever was being assembled before. */
  lemma HeaderStartsResponse(s: State, declared: nat, first: seq<byte>)
    requires IsInt32(declared)
    ensures Handle(s, HeaderNotification(declared, first))
              == Returned(s.(assembly := Begin(s.assembly, declared, first)), true)
  {
    var bytes := Frame(DataKey, declared, first);
    var text := TextOf(bytes);
    FrameText(DataKey, declared, first);
    assert text == HeaderText(DataKey, FormatHex(declared), TextOf(first));
    assert text[..|DataKey| + 1] == DataKey + "=";
    assert text[|DataKey|] != RangeKey[|DataKey|];
    assert Classify(text) == Header;
    FrameDeclaredLength(DataKey, declared, first);
    FrameInitialBytes(DataKey, declared, first);
  }

  lemma ChunksRest(chunks: seq<seq<byte>>)
    requires |chunks| > 0 && forall k :: 0 <= k < |chunks| ==> IsChunk(chunks[k])
    ensures forall k :: 0 <= k < |chunks[1..]| ==> IsChunk(chunks[1..][k])
  {
    forall k | 0 <= k < |chunks[1..]| ensures IsChunk(chunks[1..][k]) {
      assert chunks[1..][k] == chunks[k + 1];
    }
  }

  /** A chunk that reaches the count ends the response and decodes it. */
  lemma LastChunk(s: State, c: seq<byte>)
    requires Valid(s) && s.assembly.active && IsChunk(c)
    requires |c| >= s.assembly.remaining && IsInt32(s.assembly.remaining - |c|)
    ensures HandleAll(s, [c]) == Complete(s.(assembly := Append(s.assembly, c))).state
  {
    ChunkAppends(s, c);
    HandleAllCons(s, c, []);
  }

  /** A chunk short of the count is only appended. */
  lemma InnerChunk(s: State, c: seq<byte>, rest: seq<seq<byte>>)
    requires Valid(s) && s.assembly.active && IsChunk(c)
    requires |c| < s.assembly.remaining
    ensures Append(s.assembly, c).remaining == s.assembly.remaining - |c|
    ensures HandleAll(s, [c] + rest) == HandleAll(s.(assembly := Append(s.assembly, c)), rest)
  {
    ChunkAppends(s, c);
    HandleAllCons(s, c, rest);
  }

  /** Continuation chunks are appended verbatim, with nothing cut at the
      declared length, and exactly one decode happens, after the last. */
  lemma {:induction false} ChunksComplete(s: State, chunks: seq<seq<byte>>)
    requires Valid(s) && s.assembly.active
    requires forall k :: 0 <= k < |chunks| ==> IsChunk(chunks[k])
    requires ReachedAtLast(s.assembly.remaining, chunks)
    requires IsInt32(s.assembly.remaining - |Concat(chunks)|)
    ensures HandleAll(s, chunks) == Complete(s.(assembly := AppendAll(s.assembly, chunks))).state
    decreases |chunks|
  {
    var a := s.assembly;
    var c, rest := chunks[0], chunks[1..];
    assert chunks == [c] + rest;
    assert AppendAll(a, chunks) == AppendAll(Append(a, c), rest);
    if |chunks| == 1 {
      assert Concat(chunks) == c + Concat(rest);
      LastChunk(s, c);
    } else {
      InnerChunk(s, c, rest);
      var s1 := s.(assembly := Append(a, c));
      ChunksRest(chunks);
      assert |Concat(chunks)| == |c| + |Concat(rest)|;
      ChunksComplete(s1, rest);
      assert s1.(assembly := AppendAll(Append(a, c), rest)) == s.(assembly := AppendAll(a, chunks));
    }
  }

  /** After its header, a response's chunks meet the registers the header
      set. */
  lemma HeaderThenChunks(s: State, declared: nat, first: seq<byte>, chunks: seq<seq<byte>>)
    requires IsInt32(declared)
    ensures HandleAll(s, [HeaderNotification(declared, first)] + chunks)
              == HandleAll(s.(assembly := Begin(s.assembly, declared, first)), chunks)
  {
    HeaderStartsResponse(s, declared, first);
    HandleAllCons(s, HeaderNotification(declared, first), chunks);
  }

  /** The chunks after a header carry the registers to the decode of
      exactly the payload. */
  lemma ChunksAfterHeader(s: State, payload: seq<byte>, first: seq<byte>, chunks: seq<seq<byte>>)
    requires Valid(s) && IsInt32(|payload|)
    requires forall k :: 0 <= k < |chunks| ==> IsChunk(chunks[k])
    requires payload == first + Concat(chunks)
    requires ReachedAtLast(|payload| - |first|, chunks)
    ensures HandleAll(s.(assembly := Begin(s.assembly, |payload|, first)), chunks)
              == Complete(s.(assembly := Assembly(false, 0, payload))).state
  {
    var a1 := Begin(s.assembly, |payload|, first);
    assert a1 == Assembly(true, |payload| - |first|, first);
    ChunksComplete(s.(assembly := a1), chunks);
    AppendAllConcat(a1, chunks);
    assert AppendAll(a1, chunks) == Assembly(false, 0, payload);
  }

  /** A whole response: its header, then chunks that complete it; the
      event is decoded from exactly the concatenated payload. */
  lemma ResponseArrives(s: State, payload: seq<byte>, first: seq<byte>, chunks: seq<seq<byte>>)
    requires Valid(s) && IsInt32(|payload|)
    requires forall k :: 0 <= k < |chunks| ==> IsChunk(chunks[k])
    requires payload == first + Concat(chunks)
    requires ReachedAtLast(|payload| - |first|, chunks)
    ensures HandleAll(s, [HeaderNotification(|payload|, first)] + chunks)
              == Complete(s.(assembly := Assembly(false, 0, payload))).state
  {
    HeaderThenChunks(s, |payload|, first, chunks);
    ChunksAfterHeader(s, payload, first, chunks);
  }

  /** A buffer holding an encoded event is dispatched on byte 8, the byte
      the decoder reads as its Type, so it is filed under its own kind and
      the completion check follows. */
  lemma CompleteEvent(s: State, e: Event2Record.Event2Info)
    requires Event2Record.WellFormed(e) && e.typeCode == Event2Record.TypeCode(e.kind)
    requires s.assembly.buffer == Event2Record.Encode(e)
    ensures Complete(s) == Returned(CheckComplete(s.(events := s.events + [e])), true)
  {
    var payload := Event2Record.Encode(e);
    Event2Record.RoundTrip(e, []);
    assert payload + [] == payload;
    Event2Record.KindOfTypeCode(e.kind);
    assert payload[Event2Record.TypeOffset] == e.typeCode;
  }

  /** An event delivered in pieces is filed and the completion check
      follows. */
  lemma EventArrives(s: State, e: Event2Record.Event2Info, first: seq<byte>, chunks: seq<seq<byte>>)
    requires Valid(s) && Event2Record.WellFormed(e) && e.typeCode == Event2Record.TypeCode(e.kind)
    requires IsInt32(Event2Record.Length(e))
    requires forall k :: 0 <= k < |chunks| ==> IsChunk(chunks[k])
    requires Event2Record.Encode(e) == first + Concat(chunks)
    requires ReachedAtLast(Event2Record.Length(e) - |first|, chunks)
    ensures var payload := Event2Record.Encode(e);
            HandleAll(s, [HeaderNotification(|payload|, first)] + chunks)
              == CheckComplete(s.(assembly := Assembly(false, 0, payload), events := s.events + [e]))
  {
    var payload := Event2Record.Encode(e);
    Event2Record.RoundTrip(e, []);
    assert payload + [] == payload;
    var s1 := s.(assembly := Assembly(false, 0, payload));
    ResponseArrives(s, payload, first, chunks);
    CompleteEvent(s1, e);
    assert s1.(events := s1.events + [e]) == s.(assembly := Assembly(false, 0, payload), events := s.events + [e]);
  }

  /** Once the range is covered, further events keep it covered. */
  lemma ReceivedStaysReceived(s: State, more: seq<Event2Record.Event2Info>)
    requires AllReceived(s)
    ensures AllReceived(s.(events := s.events + more))
  {
  }

  // ---- the session: Initialize, then notifications and loop passes ----

  /** How far Initialize gets: the link setup fails, the `#0 SC?` write
      fails, or the loop starts. */
  datatype Setup = LinkFailed | QueryFailed | Ready

  /** What AppendToTripDetailTable was handed, and whether it reported the
      save as done. */
  datatype Snapshot = Snapshot(events: seq<Event2Record.Event2Info>, saved: bool)

  datatype Session = Session(tracker: State, running: bool, written: seq<Commands.Command>, exports: seq<Snapshot>)

  /** A notification, or one pass of the loop with the outcome of the
      writes it makes and of the save it may attempt. */
  datatype Event = Notify(bytes: seq<byte>) | Poll(failAt: Option<nat>, saved: bool)

  /** Initialize clears the flag but keeps EventInfoList, so events of an
      earlier run in the same process are exported again. */
  function Start(tracker: State, setup: Setup): (r: Session)
    ensures r.tracker == tracker.(work := NoWork)
    ensures r.running <==> setup == Ready
    ensures r.written == [] <==> setup == LinkFailed
    ensures r.written != [] ==> r.written == [Commands.SyncRangeQuery]
    ensures r.exports == []
  {
    var t := tracker.(work := NoWork);
    match setup
    case LinkFailed => Session(t, false, [], [])
    case QueryFailed => Session(t, false, [Commands.SyncRangeQuery], [])
    case Ready => Session(t, true, [Commands.SyncRangeQuery], [])
  }

  /** The handler runs for every notification; a pass does nothing once the
      loop has ended. An export writes `#0 SS={EndId};` only after a save
      that succeeded. */
  function Step(ss: Session, ev: Event): (r: Session)
    ensures r.exports != ss.exports ==>
              && ev.Poll? && ss.running && ss.tracker.work == ProcessResults && r.tracker.work == Done
              && r.exports == ss.exports + [Snapshot(ss.tracker.events, ev.saved)]
              && r.written == ss.written + Commands.CursorAdvance(ev.saved, ss.tracker.endId)
    ensures r.exports == ss.exports && r.written != ss.written ==>
              && ev.Poll? && ss.running && ss.tracker.work == RequestData
              && r.written == ss.written + Commands.Sent(Commands.SyncRequests(ss.tracker.startId, ss.tracker.endId), ev.failAt)
    ensures r.running != ss.running ==> ev.Poll? && ss.tracker.work == Done && !r.running
  {
    match ev
    case Notify(bytes) => ss.(tracker := Handle(ss.tracker, bytes).state)
    case Poll(failAt, saved) =>
      if !ss.running then ss
      else
        var (action, work) := Pass(ss.tracker.work);
        var t := ss.tracker.(work := work);
        match action
        case Exit => ss.(running := false)
        case Request =>
          ss.(tracker := t, written := ss.written + Commands.Sent(Commands.SyncRequests(t.startId, t.endId), failAt))
        case Export =>
          ss.(tracker := t, exports := ss.exports + [Snapshot(t.events, saved)],
              written := ss.written + Commands.CursorAdvance(saved, t.endId))
        case Wait => ss
  }

  /** The command and export logs only grow, and once the loop has ended
      nothing more is written or exported. */
  function Run(ss: Session, events: seq<Event>): (r: Session)
    ensures ss.written <= r.written && ss.exports <= r.exports
    ensures !ss.running ==> !r.running && r.written == ss.written && r.exports == ss.exports
    decreases |events|
  {
    if |events| == 0 then ss else Run(Step(ss, events[0]), events[1..])
  }

  /** The number of `#0 SS=` commands among `cmds`. */
  function Advances(cmds: seq<Commands.Command>): nat
  {
    if |cmds| == 0 then 0 else (if cmds[0].SetSyncStart? then 1 else 0) + Advances(cmds[1..])
  }

  /** The number of exports whose save succeeded. */
  function SavedCount(exports: seq<Snapshot>): nat
  {
    if |exports| == 0 then 0 else (if exports[0].saved then 1 else 0) + SavedCount(exports[1..])
  }

  lemma {:induction false} AdvancesAppend(a: seq<Commands.Command>, b: seq<Commands.Command>)
    ensures Advances(a + b) == Advances(a) + Advances(b)
    decreases |a|
  {
    if |a| > 0 {
      assert (a + b)[1..] == a[1..] + b;
      AdvancesAppend(a[1..], b);
    } else {
      assert a + b == b;
    }
  }

  lemma {:induction false} SavedCountAppend(a: seq<Snapshot>, x: Snapshot)
    ensures SavedCount(a + [x]) == SavedCount(a) + (if x.saved then 1 else 0)
    decreases |a|
  {
    if |a| > 0 {
      assert (a + [x])[1..] == a[1..] + [x];
      SavedCountAppend(a[1..], x);
    }
  }

  lemma {:induction false} NoAdvances(cmds: seq<Commands.Command>)
    requires forall i :: 0 <= i < |cmds| ==> cmds[i].SyncDataQuery?
    ensures Advances(cmds) == 0
    decreases |cmds|
  {
    if |cmds| > 0 {
      NoAdvances(cmds[1..]);
    }
  }

  /** The event requests of a pass never move the cursor. */
  lemma RequestsDoNotAdvance(start: int, end: int, failAt: Option<nat>)
    ensures Advances(Commands.Sent(Commands.SyncRequests(start, end), failAt)) == 0
  {
    var all := Commands.SyncRequests(start, end);
    var sent := Commands.Sent(all, failAt);
    assert forall i :: 0 <= i < |sent| ==> sent[i] == all[i];
    NoAdvances(sent);
  }

  /** The cursor moves once per successful save, and never otherwise. */
  predicate CursorFollowsSaves(ss: Session)
  {
    Advances(ss.written) == SavedCount(ss.exports)
  }

  lemma StartCursor(tracker: State, setup: Setup)
    ensures CursorFollowsSaves(Start(tracker, setup))
  {
    var query := [Commands.SyncRangeQuery];
    assert query[1..] == [];
    assert Advances(query) == 0;
    match setup
    case LinkFailed =>
    case QueryFailed =>
    case Ready =>
  }

  lemma StepCursor(ss: Session, ev: Event)
    requires CursorFollowsSaves(ss)
    ensures CursorFollowsSaves(Step(ss, ev))
  {
    var r := Step(ss, ev);
    if r.exports != ss.exports {
      var x := Snapshot(ss.tracker.events, ev.saved);
      SavedCountAppend(ss.exports, x);
      var advance := Commands.CursorAdvance(ev.saved, ss.tracker.endId);
      AdvancesAppend(ss.written, advance);
      if ev.saved {
        assert advance[1..] == [];
      }
    } else if r.written != ss.written {
      var sent := Commands.Sent(Commands.SyncRequests(ss.tracker.startId, ss.tracker.endId), ev.failAt);
      AdvancesAppend(ss.written, sent);
      RequestsDoNotAdvance(ss.tracker.startId, ss.tracker.endId, ev.failAt);
    }
  }

  /** Over any run from Initialize, the number of `#0 SS=` commands written
      equals the number of saves that succeeded. */
  lemma {:induction false} RunCursor(ss: Session, events: seq<Event>)
    requires CursorFollowsSaves(ss)
    ensures CursorFollowsSaves(Run(ss, events))
    decreases |events|
  {
    if |events| > 0 {
      StepCursor(ss, events[0]);
      RunCursor(Step(ss, events[0]), events[1..]);
    }
  }

  lemma SessionCursor(tracker: State, setup: Setup, events: seq<Event>)
    ensures var ss := Run(Start(tracker, setup), events);
            Advances(ss.written) == SavedCount(ss.exports)
  {
    StartCursor(tracker, setup);
    RunCursor(Start(tracker, setup), events);
  }

  /** Once the loop has ended nothing more is written or exported. */
  lemma {:induction false} EndedStaysEnded(ss: Session, events: seq<Event>)
    requires !ss.running
    ensures !Run(ss, events).running
    ensures Run(ss, events).written == ss.written && Run(ss, events).exports == ss.exports
    decreases |events|
  {
    if |events| > 0 {
      EndedStaysEnded(Step(ss, events[0]), events[1..]);
    }
  }

  /** The opening exchange: after `#0 SC?` is answered with a non-empty
      range, the next pass requests each id of the range in order,
      stopping at the first failing write; an empty range makes the next
      pass end the loop with nothing requested. */
  lemma SyncBegins(tracker: State, start: int, end: int, failAt: Option<nat>, saved: bool)
    requires !tracker.assembly.active && IsInt32(start) && IsInt32(end)
    ensures var ss := Run(Start(tracker, Ready), [Notify(RangeNotification(start, end)), Poll(failAt, saved)]);
            && ss.written == [Commands.SyncRangeQuery]
                             + (if end > start then Commands.Sent(Commands.SyncRequests(start, end), failAt) else [])
            && ss.running == (end > start)
            && ss.exports == []
  {
    var s0 := Start(tracker, Ready);
    var bytes := RangeNotification(start, end);
    RangeMessage(s0.tracker, start, end);
    var t1 := s0.tracker.(startId := start, endId := end, work := if end > start then RequestData else Done);
    var s1 := s0.(tracker := t1);
    assert Step(s0, Notify(bytes)) == s1;
    var s2 := if end > start
              then s1.(tracker := t1.(work := NoWork),
                       written := s1.written + Commands.Sent(Commands.SyncRequests(start, end), failAt))
              else s1.(running := false);
    assert Step(s1, Poll(failAt, saved)) == s2;
    assert Run(s1, [Poll(failAt, saved)]) == s2;
    var evs := [Notify(bytes), Poll(failAt, saved)];
    assert evs[1..] == [Poll(failAt, saved)];
    if end <= start {
      assert s2.written == s1.written + [];
    }
  }
}
