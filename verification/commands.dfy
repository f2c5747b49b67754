/** The commands the console writes to the device characteristic, the
    lists RequestTripData and RequestEventData send, and the rule that a
    list is abandoned at its first failing write. */
module Commands {
  import opened Wire
  import opened Text

  datatype Command =
    | LegEventCountQuery          // ask for the day's leg and event counts
    | VehicleQuery
    | DayQuery                    // the day summary
    | LegQuery(leg: int)
    | EventQuery(event: int)
    | SyncRangeQuery              // ask for the ids still to sync
    | SyncDataQuery(id: int)
    | SetSyncStart(id: int)       // move the device's sync cursor

  predicate WellFormed(c: Command)
  {
    match c
    case LegQuery(n) => IsInt32(n)
    case EventQuery(n) => IsInt32(n)
    case SyncDataQuery(n) => IsInt32(n)
    case SetSyncStart(n) => IsInt32(n)
    case _ => true
  }

  /** The text written for a command. */
  function Render(c: Command): string
  {
    match c
    case LegEventCountQuery => "#0 LE?"
    case VehicleQuery => "#0 VH?"
    case DayQuery => "#0 DD?"
    case LegQuery(n) => "#0 LD?" + FormatDecimal(n) + ";"
    case EventQuery(n) => "#0 ED?" + FormatDecimal(n) + ";"
    case SyncRangeQuery => "#0 SC?"
    case SyncDataQuery(n) => "#0 SD?" + FormatDecimal(n) + ";"
    case SetSyncStart(n) => "#0 SS=" + FormatDecimal(n) + ";"
  }

  /** The device-side reading of a command text: six characters for a
      query without an argument, otherwise a six-character prefix, a
      decimal argument and a closing ';'. */
  function Parse(s: string): Option<Command>
  {
    if |s| == 6 then ParseBare(s)
    else if |s| >= 8 && s[|s| - 1] == ';' then
      match ParseInt32(s[6..|s| - 1], Decimal)
      case None => None
      case Some(n) => ParseNumbered(s[..6], n)
    else None
  }

  function ParseBare(s: string): Option<Command>
  {
    if s == "#0 LE?" then Some(LegEventCountQuery)
    else if s == "#0 VH?" then Some(VehicleQuery)
    else if s == "#0 DD?" then Some(DayQuery)
    else if s == "#0 SC?" then Some(SyncRangeQuery)
    else None
  }

  function ParseNumbered(prefix: string, n: int): Option<Command>
  {
    if prefix == "#0 LD?" then Some(LegQuery(n))
    else if prefix == "#0 ED?" then Some(EventQuery(n))
    else if prefix == "#0 SD?" then Some(SyncDataQuery(n))
    else if prefix == "#0 SS=" then Some(SetSyncStart(n))
    else None
  }

  lemma NumberedText(prefix: string, n: int)
    requires |prefix| == 6 && IsInt32(n)
    ensures Parse(prefix + FormatDecimal(n) + ";") == ParseNumbered(prefix, n)
  {
    var s := prefix + FormatDecimal(n) + ";";
    assert s[..6] == prefix && s[6..|s| - 1] == FormatDecimal(n);
    ParseFormatDecimal(n);
  }

  /** Every command can be read back from its text, so distinct commands
      are written as distinct texts. */
  lemma ParseRender(c: Command)
    requires WellFormed(c)
    ensures Parse(Render(c)) == Some(c)
  {
    match c
    case LegQuery(n) => NumberedText("#0 LD?", n);
    case EventQuery(n) => NumberedText("#0 ED?", n);
    case SyncDataQuery(n) => NumberedText("#0 SD?", n);
    case SetSyncStart(n) => NumberedText("#0 SS=", n);
    case _ => BareText(c);
  }

  lemma BareText(c: Command)
    requires c.LegEventCountQuery? || c.VehicleQuery? || c.DayQuery? || c.SyncRangeQuery?
    ensures Parse(Render(c)) == Some(c)
  {
    assert |Render(c)| == 6;
  }

  lemma RenderInjective(a: Command, b: Command)
    requires WellFormed(a) && WellFormed(b)
    requires Render(a) == Render(b)
    ensures a == b
  {
    ParseRender(a);
    ParseRender(b);
  }

  // ---- command lists ----

  function Count(n: int): nat
  {
    if n < 0 then 0 else n
  }

  /** `#0 VH?`, `#0 DD?`, one leg query per leg and one event query per
      event, in that order. */
  function DayRequests(numLegs: int, numEvents: int): seq<Command>
  {
    [VehicleQuery, DayQuery]
    + seq(Count(numLegs), i => LegQuery(i))
    + seq(Count(numEvents), i => EventQuery(i))
  }

  /** One data query per id from `start` up to but not including `end`. */
  function SyncRequests(start: int, end: int): seq<Command>
  {
    seq(Count(end - start), k => SyncDataQuery(start + k))
  }

  /** The outcome of the writes of one request: `failAt` is the number of
      the first write that fails, counting from 0, if any does. */
  predicate Fails(failAt: Option<nat>, write: nat)
  {
    failAt == Some(write)
  }

  /** What reaches the link when writing stops at the first failure: the
      failing command itself is attempted, nothing after it is. */
  function Sent(commands: seq<Command>, failAt: Option<nat>): (r: seq<Command>)
    ensures failAt.None? ==> r == commands
    ensures failAt.Some? && failAt.value < |commands| ==> r == commands[..failAt.value + 1]
    ensures failAt.Some? && failAt.value >= |commands| ==> r == commands
  {
    match failAt
    case None => commands
    case Some(k) => if k < |commands| then commands[..k + 1] else commands
  }

  /** RequestTripData: VH?, then DD? if that write succeeded, then the leg
      queries while writes succeed, then the event queries while writes
      succeed. */
  method RequestTripData(numLegs: int, numEvents: int, failAt: Option<nat>)
    returns (sent: seq<Command>)
    ensures sent == Sent(DayRequests(numLegs, numEvents), failAt)
  {
    var all := DayRequests(numLegs, numEvents);
    var result := 0;
    sent := [VehicleQuery];
    if Fails(failAt, 0) {
      result := result + 1;
    }
    if result == 0 {
      sent := sent + [DayQuery];
      if Fails(failAt, 1) {
        result := result + 1;
      }
    }
    if result == 0 {
      var i := 0;
      while i < numLegs
        invariant 0 <= i <= Count(numLegs)
        invariant result == 0 ==> sent == all[..2 + i]
        invariant result == 0 ==> failAt.None? || failAt.value >= |sent|
        invariant result > 0 ==> sent == Sent(all, failAt)
      {
        sent := sent + [LegQuery(i)];
        if Fails(failAt, |sent| - 1) {
          result := result + 1;
        }
        if result > 0 {
          break;
        }
        i := i + 1;
      }
      assert result == 0 ==> sent == all[..2 + Count(numLegs)];
    }
    if result == 0 {
      var i := 0;
      while i < numEvents
        invariant 0 <= i <= Count(numEvents)
        invariant result == 0 ==> sent == all[..2 + Count(numLegs) + i]
        invariant result == 0 ==> failAt.None? || failAt.value >= |sent|
        invariant result > 0 ==> sent == Sent(all, failAt)
      {
        sent := sent + [EventQuery(i)];
        if Fails(failAt, |sent| - 1) {
          result := result + 1;
        }
        if result > 0 {
          break;
        }
        i := i + 1;
      }
      assert result == 0 ==> sent == all;
    }
  }

  /** RequestEventData: the data queries from StartId upwards while writes
      succeed. */
  method RequestEventData(startId: int, endId: int, failAt: Option<nat>)
    returns (sent: seq<Command>)
    ensures sent == Sent(SyncRequests(startId, endId), failAt)
  {
    var all := SyncRequests(startId, endId);
    var result := 0;
    sent := [];
    var i := startId;
    while i < endId
      invariant startId <= i && i - startId <= Count(endId - startId)
      invariant result == 0 ==> sent == all[..i - startId]
      invariant result == 0 ==> failAt.None? || failAt.value >= |sent|
      invariant result > 0 ==> sent == Sent(all, failAt)
    {
      sent := sent + [SyncDataQuery(i)];
      if Fails(failAt, |sent| - 1) {
        result := result + 1;
      }
      if result > 0 {
        break;
      }
      i := i + 1;
    }
  }

  /** ProcessEventData: the cursor advance `SS=<EndId>` is written only
      after the export reported a successful save. */
  function CursorAdvance(saved: bool, endId: int): (r: seq<Command>)
    ensures |r| <= 1
    ensures SetSyncStart(endId) in r <==> saved
  {
    if saved then [SetSyncStart(endId)] else []
  }
}
