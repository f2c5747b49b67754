/** ExcelWriter: what one day's records become in the travel log table.
    The rows are planned by merging the events into the trip rows by time;
    each row then fills its cells from one record. The workbook itself
    (opening, protection, formatting, saving) is not modelled: a row is
    the descriptor of what one ListRows.Add call writes. */
module TripReport {
  import opened Wire
  import Trip
  import EventRecord
  import Vehicle

  /** ExcelInsertType. */
  datatype InsertType = DayStart | LegStart | LegEnd | DayEnd

  /** The rows that show the start side of a trip record. */
  predicate IsStart(t: InsertType)
  {
    t == DayStart || t == LegStart
  }

  /** The Type column. */
  function TypeLetter(t: InsertType): (s: string)
    ensures |s| == 1 && InsertTypeOfLetter(s) == Some(t)
  {
    match t
    case DayStart => "S"
    case DayEnd => "E"
    case LegStart => "D"
    case LegEnd => "A"
  }

  /** The reading of a Type cell back into the kind of row. */
  function InsertTypeOfLetter(s: string): Option<InsertType>
  {
    if s == "S" then Some(DayStart)
    else if s == "E" then Some(DayEnd)
    else if s == "D" then Some(LegStart)
    else if s == "A" then Some(LegEnd)
    else None
  }

  /** Each kind of trip row has its own one-letter code, and a letter names
      at most one kind: the Type column identifies the row. */
  lemma TypeLetterReadsBack(t: InsertType, s: string)
    ensures |TypeLetter(t)| == 1
    ensures InsertTypeOfLetter(TypeLetter(t)) == Some(t)
    ensures InsertTypeOfLetter(s) == Some(t) ==> s == TypeLetter(t)
  {
  }

  // ---- the row plan ----

  datatype Row = TripRow(insertType: InsertType, trip: Trip.TripInfo) | EventRow(event: EventRecord.EventInfo)

  /** The rows written, or the rows written before an exception ended the
      call: `tripInfo[0]` on an empty trip list, or `vehicle.Name` when no
      vehicle record was received. In the second case the table has already
      added the trip's row, holding only its TripId: `unfinishedRow`. The
      workbook is then not saved. */
  datatype Plan = Written(rows: seq<Row>) | Aborted(rows: seq<Row>, unfinishedRow: bool)

  /** The rows of trip `i` inside the loop: the day summary opens the day,
      every later trip is a leg with a start and an end row. */
  function OpeningRows(i: nat, t: Trip.TripInfo): seq<Row>
  {
    if i == 0 then [TripRow(DayStart, t)] else [TripRow(LegStart, t), TripRow(LegEnd, t)]
  }

  /** Events from `j` on, each on its own row. */
  function TailRows(events: seq<EventRecord.EventInfo>, j: nat): seq<Row>
    decreases |events| - j
  {
    if j >= |events| then [] else [EventRow(events[j])] + TailRows(events, j + 1)
  }

  /** Whether the next unwritten event goes before trip `i`. */
  predicate Early(trips: seq<Trip.TripInfo>, i: nat, events: seq<EventRecord.EventInfo>, j: nat)
    requires i < |trips|
  {
    j < |events| && events[j].time < trips[i].startTime
  }

  /** Loop iterations from trip `i` with event `j` the next unwritten one,
      followed by the loop that writes the remaining events. Before each
      trip at most one event is written: the next one, if it is earlier
      than the trip's start. */
  function Merge(trips: seq<Trip.TripInfo>, i: nat, events: seq<EventRecord.EventInfo>, j: nat): seq<Row>
    decreases |trips| - i
  {
    if i >= |trips| then TailRows(events, j)
    else if Early(trips, i, events, j) then
      [EventRow(events[j])] + OpeningRows(i, trips[i]) + Merge(trips, i + 1, events, j + 1)
    else
      OpeningRows(i, trips[i]) + Merge(trips, i + 1, events, j)
  }

  /** AppendToTripDetailTable(vehicle, tripInfo, eventInfo) as a sequence of
      rows: the merge, then the end-of-day row of the day summary. Without
      a vehicle the first trip row throws, after the event written before it. */
  function RowPlan(vehicle: Option<Vehicle.VehicleInfo>, trips: seq<Trip.TripInfo>,
                   events: seq<EventRecord.EventInfo>): (p: Plan)
    ensures p.Written? <==> |trips| > 0 && vehicle.Some?
    ensures p.Written? ==> |p.rows| > 0 && p.rows[|p.rows| - 1] == TripRow(DayEnd, trips[0])
    ensures p.Aborted? ==> (p.unfinishedRow <==> |trips| > 0)
  {
    if |trips| == 0 then Aborted(Merge(trips, 0, events, 0), false)
    else if vehicle.None? then Aborted(if Early(trips, 0, events, 0) then [EventRow(events[0])] else [], true)
    else Written(Merge(trips, 0, events, 0) + [TripRow(DayEnd, trips[0])])
  }

  /** One iteration of the trip loop in the row-structured definition. */
  lemma MergeStep(trips: seq<Trip.TripInfo>, i: nat, events: seq<EventRecord.EventInfo>, j: nat)
    requires i < |trips|
    ensures Merge(trips, i, events, j)
            == (if Early(trips, i, events, j) then [EventRow(events[j])] else [])
               + OpeningRows(i, trips[i])
               + Merge(trips, i + 1, events, if Early(trips, i, events, j) then j + 1 else j)
  {
    if !Early(trips, i, events, j) {
      assert [] + OpeningRows(i, trips[i]) == OpeningRows(i, trips[i]);
    }
  }

  /** The rows the loops of AppendToTripDetailTable leave when `rows` are
      written, trip `i` is next and event `j` is the next unwritten one:
      the loops' own order of appends, one call at a time. */
  function Pass(trips: seq<Trip.TripInfo>, i: nat, events: seq<EventRecord.EventInfo>, j: nat,
                rows: seq<Row>): seq<Row>
    decreases |trips| - i
  {
    if i >= |trips| then Drain(events, j, rows)
    else
      var early := Early(trips, i, events, j);
      var r1 := if early then rows + [EventRow(events[j])] else rows;
      var r2 := if i == 0 then r1 + [TripRow(DayStart, trips[i])]
                else r1 + [TripRow(LegStart, trips[i])] + [TripRow(LegEnd, trips[i])];
      Pass(trips, i + 1, events, if early then j + 1 else j, r2)
  }

  /** The loop that writes the events after the last trip. */
  function Drain(events: seq<EventRecord.EventInfo>, j: nat, rows: seq<Row>): seq<Row>
    decreases |events| - j
  {
    if j >= |events| then rows else Drain(events, j + 1, rows + [EventRow(events[j])])
  }

  lemma {:induction false} DrainTail(events: seq<EventRecord.EventInfo>, j: nat, rows: seq<Row>)
    ensures Drain(events, j, rows) == rows + TailRows(events, j)
    decreases |events| - j
  {
    if j < |events| {
      DrainTail(events, j + 1, rows + [EventRow(events[j])]);
      assert rows + [EventRow(events[j])] + TailRows(events, j + 1) == rows + TailRows(events, j);
    } else {
      assert rows + [] == rows;
    }
  }

  /** The loops write, after what they find written, exactly the merge:
      the append-at-a-time loops and the row-structured definition agree. */
  lemma {:induction false} PassMerge(trips: seq<Trip.TripInfo>, i: nat, events: seq<EventRecord.EventInfo>, j: nat,
                                     rows: seq<Row>)
    ensures Pass(trips, i, events, j, rows) == rows + Merge(trips, i, events, j)
    decreases |trips| - i
  {
    if i >= |trips| {
      DrainTail(events, j, rows);
    } else {
      var early := Early(trips, i, events, j);
      var pre := if early then [EventRow(events[j])] else [];
      var open := OpeningRows(i, trips[i]);
      var j1 := if early then j + 1 else j;
      var r1 := if early then rows + [EventRow(events[j])] else rows;
      var r2 := if i == 0 then r1 + [TripRow(DayStart, trips[i])]
                else r1 + [TripRow(LegStart, trips[i])] + [TripRow(LegEnd, trips[i])];
      assert r2 == rows + pre + open;
      assert Pass(trips, i, events, j, rows) == Pass(trips, i + 1, events, j1, r2);
      PassMerge(trips, i + 1, events, j1, r2);
      var m1 := Merge(trips, i + 1, events, j1);
      MergeStep(trips, i, events, j);
      Regroup(rows, pre, open, m1);
    }
  }

  lemma Regroup(a: seq<Row>, b: seq<Row>, c: seq<Row>, d: seq<Row>)
    ensures a + (b + c + d) == a + b + c + d
  {
  }

  /** The loops of AppendToTripDetailTable (ExcelWriter.cs lines 80-99),
      writing one row at a time. */
  method AppendToTripDetailTable(vehicle: Option<Vehicle.VehicleInfo>, trips: seq<Trip.TripInfo>,
                                 events: seq<EventRecord.EventInfo>)
    returns (plan: Plan)
    ensures plan == RowPlan(vehicle, trips, events)
  {
    var rows: seq<Row> := [];
    var j := 0;
    var i := 0;
    while i < |trips|
      invariant 0 <= i <= |trips| && 0 <= j <= |events|
      invariant i == 0 ==> j == 0 && rows == []
      invariant i > 0 ==> vehicle.Some?
      invariant Pass(trips, i, events, j, rows) == Pass(trips, 0, events, 0, [])
    {
      if j < |events| && events[j].time < trips[i].startTime {
        rows := rows + [EventRow(events[j])];
        j := j + 1;
      }
      if vehicle.None? {
        return Aborted(rows, true);
      }
      if i == 0 {
        rows := rows + [TripRow(DayStart, trips[i])];
      } else {
        rows := rows + [TripRow(LegStart, trips[i])];
        rows := rows + [TripRow(LegEnd, trips[i])];
      }
      i := i + 1;
    }
    while j < |events|
      invariant 0 <= j <= |events|
      invariant Drain(events, j, rows) == Pass(trips, 0, events, 0, [])
    {
      rows := rows + [EventRow(events[j])];
      j := j + 1;
    }
    PassMerge(trips, 0, events, 0, []);
    assert rows == Merge(trips, 0, events, 0);
    if |trips| == 0 {
      return Aborted(rows, false);
    }
    rows := rows + [TripRow(DayEnd, trips[0])];
    return Written(rows);
  }

  // ---- what the plan contains ----

  /** The event rows of a plan, in order. */
  function EventsOf(rows: seq<Row>): seq<EventRecord.EventInfo>
  {
    if |rows| == 0 then []
    else (if rows[0].EventRow? then [rows[0].event] else []) + EventsOf(rows[1..])
  }

  /** The trip rows of a plan, in order. */
  function TripRowsOf(rows: seq<Row>): seq<Row>
  {
    if |rows| == 0 then []
    else (if rows[0].TripRow? then [rows[0]] else []) + TripRowsOf(rows[1..])
  }

  lemma {:induction false} EventsOfAppend(a: seq<Row>, b: seq<Row>)
    ensures EventsOf(a + b) == EventsOf(a) + EventsOf(b)
    ensures TripRowsOf(a + b) == TripRowsOf(a) + TripRowsOf(b)
    ensures |EventsOf(a)| + |TripRowsOf(a)| == |a|
    decreases |a|
  {
    if |a| > 0 {
      assert (a + b)[1..] == a[1..] + b;
      EventsOfAppend(a[1..], b);
    } else {
      assert a + b == b;
    }
  }

  /** The trip rows a day needs, from trip `i` on, in trip order. */
  function Skeleton(trips: seq<Trip.TripInfo>, i: nat): seq<Row>
    decreases |trips| - i
  {
    if i >= |trips| then [] else OpeningRows(i, trips[i]) + Skeleton(trips, i + 1)
  }

  /** The legs' part of the skeleton in closed form: leg `i + m` has its
      start row at `2m` and its end row at `2m + 1`. */
  lemma {:induction false} LegSkeleton(trips: seq<Trip.TripInfo>, i: nat)
    requires 1 <= i <= |trips|
    ensures |Skeleton(trips, i)| == 2 * (|trips| - i)
    ensures forall m :: 0 <= m < |trips| - i ==>
              Skeleton(trips, i)[2 * m] == TripRow(LegStart, trips[i + m])
              && Skeleton(trips, i)[2 * m + 1] == TripRow(LegEnd, trips[i + m])
    decreases |trips| - i
  {
    if i < |trips| {
      LegSkeleton(trips, i + 1);
      var s := Skeleton(trips, i);
      assert s == [TripRow(LegStart, trips[i]), TripRow(LegEnd, trips[i])] + Skeleton(trips, i + 1);
      forall m | 0 <= m < |trips| - i
        ensures s[2 * m] == TripRow(LegStart, trips[i + m]) && s[2 * m + 1] == TripRow(LegEnd, trips[i + m])
      {
        if m > 0 {
          assert s[2 * m] == Skeleton(trips, i + 1)[2 * (m - 1)];
          assert s[2 * m + 1] == Skeleton(trips, i + 1)[2 * (m - 1) + 1];
        }
      }
    }
  }

  /** An event row followed by a start row is earlier than that trip's
      start: no event is written after a trip that began before it. */
  predicate InOrder(x: Row, y: Row)
  {
    x.EventRow? && y.TripRow? && IsStart(y.insertType) ==> x.event.time < y.trip.startTime
  }

  predicate Ordered(rows: seq<Row>)
  {
    forall k :: 0 <= k < |rows| - 1 ==> InOrder(rows[k], rows[k + 1])
  }

  lemma OrderedAppend(a: seq<Row>, b: seq<Row>)
    requires Ordered(a) && Ordered(b)
    requires |a| > 0 && |b| > 0 ==> InOrder(a[|a| - 1], b[0])
    ensures Ordered(a + b)
  {
    var ab := a + b;
    forall k | 0 <= k < |ab| - 1
      ensures InOrder(ab[k], ab[k + 1])
    {
      if k + 1 < |a| {
        assert ab[k] == a[k] && ab[k + 1] == a[k + 1];
      } else if k + 1 == |a| {
        assert ab[k] == a[|a| - 1] && ab[k + 1] == b[0];
      } else {
        assert ab[k] == b[k - |a|] && ab[k + 1] == b[k - |a| + 1];
      }
    }
  }

  lemma {:induction false} TailRowsContents(events: seq<EventRecord.EventInfo>, j: nat)
    requires j <= |events|
    ensures EventsOf(TailRows(events, j)) == events[j..]
    ensures TripRowsOf(TailRows(events, j)) == []
    ensures Ordered(TailRows(events, j))
    decreases |events| - j
  {
    if j < |events| {
      TailRowsContents(events, j + 1);
      EventsOfAppend([EventRow(events[j])], TailRows(events, j + 1));
      assert events[j..] == [events[j]] + events[j + 1..];
      OrderedAppend([EventRow(events[j])], TailRows(events, j + 1));
    }
  }

  /** The rows a trip adds before the trips after it. */
  lemma OpeningContents(i: nat, t: Trip.TripInfo)
    ensures EventsOf(OpeningRows(i, t)) == []
    ensures TripRowsOf(OpeningRows(i, t)) == OpeningRows(i, t)
    ensures Ordered(OpeningRows(i, t))
  {
    var open := OpeningRows(i, t);
    EventsOfAppend([open[0]], open[1..]);
    assert [open[0]] + open[1..] == open;
  }

  /** One event row before a trip's rows. */
  lemma EarlyContents(e: EventRecord.EventInfo, i: nat, t: Trip.TripInfo)
    requires e.time < t.startTime
    ensures EventsOf([EventRow(e)] + OpeningRows(i, t)) == [e]
    ensures TripRowsOf([EventRow(e)] + OpeningRows(i, t)) == OpeningRows(i, t)
    ensures Ordered([EventRow(e)] + OpeningRows(i, t))
  {
    OpeningContents(i, t);
    EventsOfAppend([EventRow(e)], OpeningRows(i, t));
    OrderedAppend([EventRow(e)], OpeningRows(i, t));
  }

  /** The merge from trip `i` and event `j` writes every remaining event in
      list order, and the trip rows of trips `i` on in trip order. */
  lemma {:induction false} MergeContents(trips: seq<Trip.TripInfo>, i: nat, events: seq<EventRecord.EventInfo>, j: nat)
    requires j <= |events|
    ensures EventsOf(Merge(trips, i, events, j)) == events[j..]
    ensures TripRowsOf(Merge(trips, i, events, j)) == Skeleton(trips, i)
    decreases |trips| - i
  {
    if i >= |trips| {
      TailRowsContents(events, j);
    } else {
      var open := OpeningRows(i, trips[i]);
      var m := Merge(trips, i, events, j);
      assert Skeleton(trips, i) == open + Skeleton(trips, i + 1);
      if Early(trips, i, events, j) {
        var pre := [EventRow(events[j])] + open;
        var rest := Merge(trips, i + 1, events, j + 1);
        assert m == pre + rest;
        MergeContents(trips, i + 1, events, j + 1);
        EarlyContents(events[j], i, trips[i]);
        EventsOfAppend(pre, rest);
        assert EventsOf(m) == [events[j]] + events[j + 1..];
        assert events[j..] == [events[j]] + events[j + 1..];
        assert TripRowsOf(m) == open + Skeleton(trips, i + 1);
      } else {
        var rest := Merge(trips, i + 1, events, j);
        assert m == open + rest;
        MergeContents(trips, i + 1, events, j);
        OpeningContents(i, trips[i]);
        EventsOfAppend(open, rest);
        assert EventsOf(m) == [] + events[j..];
        assert TripRowsOf(m) == open + Skeleton(trips, i + 1);
      }
    }
  }

  /** The merge never writes an event right before a trip that starts
      before it. */
  lemma {:induction false} MergeOrdered(trips: seq<Trip.TripInfo>, i: nat, events: seq<EventRecord.EventInfo>, j: nat)
    requires j <= |events|
    ensures Ordered(Merge(trips, i, events, j))
    decreases |trips| - i
  {
    if i >= |trips| {
      TailRowsContents(events, j);
    } else {
      var early := Early(trips, i, events, j);
      var open := OpeningRows(i, trips[i]);
      var pre := (if early then [EventRow(events[j])] else []) + open;
      var j1 := if early then j + 1 else j;
      var rest := Merge(trips, i + 1, events, j1);
      MergeStep(trips, i, events, j);
      assert Merge(trips, i, events, j) == pre + rest;
      assert Ordered(pre) by {
        if early {
          EarlyContents(events[j], i, trips[i]);
        } else {
          OpeningContents(i, trips[i]);
          assert pre == open;
        }
      }
      assert pre[|pre| - 1].TripRow?;
      MergeOrdered(trips, i + 1, events, j1);
      OrderedAppend(pre, rest);
    }
  }

  /** The trip rows of a day in closed form: the day summary's start row
      first, then leg `k`'s start row at `2k - 1` and its end row at `2k`. */
  lemma DaySkeleton(trips: seq<Trip.TripInfo>)
    requires |trips| > 0
    ensures |Skeleton(trips, 0)| == 2 * |trips| - 1
    ensures Skeleton(trips, 0)[0] == TripRow(DayStart, trips[0])
    ensures forall k :: 1 <= k < |trips| ==>
              Skeleton(trips, 0)[2 * k - 1] == TripRow(LegStart, trips[k])
              && Skeleton(trips, 0)[2 * k] == TripRow(LegEnd, trips[k])
  {
    LegSkeleton(trips, 1);
    var sk := Skeleton(trips, 0);
    assert sk == [TripRow(DayStart, trips[0])] + Skeleton(trips, 1);
    forall k | 1 <= k < |trips|
      ensures sk[2 * k - 1] == TripRow(LegStart, trips[k]) && sk[2 * k] == TripRow(LegEnd, trips[k])
    {
      assert sk[2 * k - 1] == Skeleton(trips, 1)[2 * (k - 1)];
      assert sk[2 * k] == Skeleton(trips, 1)[2 * (k - 1) + 1];
    }
  }

  /** Every event row is followed either by a start row (it was written
      just before that trip) or by nothing but event rows (it is one of the
      events after the last trip): no two events stand before the same
      trip, and none sits between a trip's rows. */
  predicate Placed(rows: seq<Row>)
    decreases |rows|
  {
    if |rows| == 0 then true
    else
      && (rows[0].EventRow? ==>
            OnlyEvents(rows[1..]) || (|rows| > 1 && rows[1].TripRow? && IsStart(rows[1].insertType)))
      && Placed(rows[1..])
  }

  predicate OnlyEvents(rows: seq<Row>)
  {
    forall k :: 0 <= k < |rows| ==> rows[k].EventRow?
  }

  /** Trip rows put in front keep the placement. */
  lemma {:induction false} PlacedAfterTrips(open: seq<Row>, rest: seq<Row>)
    requires forall k :: 0 <= k < |open| ==> open[k].TripRow?
    requires Placed(rest)
    ensures Placed(open + rest)
    decreases |open|
  {
    if |open| > 0 {
      assert (open + rest)[1..] == open[1..] + rest;
      PlacedAfterTrips(open[1..], rest);
    } else {
      assert open + rest == rest;
    }
  }

  lemma {:induction false} TailPlaced(events: seq<EventRecord.EventInfo>, j: nat)
    ensures OnlyEvents(TailRows(events, j)) && Placed(TailRows(events, j))
    decreases |events| - j
  {
    if j < |events| {
      TailPlaced(events, j + 1);
      var t := TailRows(events, j);
      assert t[1..] == TailRows(events, j + 1);
    }
  }

  /** The merge places each event as the loops do: before the trip it
      precedes, or after the last trip. */
  lemma {:induction false} MergePlaced(trips: seq<Trip.TripInfo>, i: nat, events: seq<EventRecord.EventInfo>, j: nat)
    ensures Placed(Merge(trips, i, events, j))
    decreases |trips| - i
  {
    if i >= |trips| {
      TailPlaced(events, j);
    } else {
      var open := OpeningRows(i, trips[i]);
      var early := Early(trips, i, events, j);
      var rest := Merge(trips, i + 1, events, if early then j + 1 else j);
      MergePlaced(trips, i + 1, events, if early then j + 1 else j);
      PlacedAfterTrips(open, rest);
      if early {
        var m := [EventRow(events[j])] + open + rest;
        assert m[1..] == open + rest;
        assert m[1] == open[0];
      }
    }
  }

  /** No trip is written while an earlier event is still waiting: a start
      row with no event row just before it (`afterEvent` says whether the
      row before `rows` is one) has no earlier event among the rows that
      follow it before any other event. */
  predicate Greedy(rows: seq<Row>, afterEvent: bool)
    decreases |rows|
  {
    if |rows| == 0 then true
    else
      && (rows[0].TripRow? && IsStart(rows[0].insertType) && !afterEvent ==>
            NextEventNotBefore(rows[1..], rows[0].trip.startTime))
      && Greedy(rows[1..], rows[0].EventRow?)
  }

  /** The first event row, if any, is not earlier than `time`. */
  predicate NextEventNotBefore(rows: seq<Row>, time: int)
  {
    EventsOf(rows) == [] || EventsOf(rows)[0].time >= time
  }

  lemma {:induction false} EventsGreedy(rows: seq<Row>, afterEvent: bool)
    requires OnlyEvents(rows)
    ensures Greedy(rows, afterEvent)
    decreases |rows|
  {
    if |rows| > 0 {
      EventsGreedy(rows[1..], true);
    }
  }

  /** A trip's opening rows keep the rows after them greedy, provided the
      trip does not pass over a waiting earlier event. */
  lemma GreedyOpening(i: nat, t: Trip.TripInfo, rest: seq<Row>, afterEvent: bool)
    requires Greedy(rest, false)
    requires !afterEvent ==> NextEventNotBefore(rest, t.startTime)
    ensures Greedy(OpeningRows(i, t) + rest, afterEvent)
  {
    var m := OpeningRows(i, t) + rest;
    if i == 0 {
      assert m[1..] == rest;
    } else {
      assert m[1..] == [TripRow(LegEnd, t)] + rest;
      assert m[1..][1..] == rest;
      assert EventsOf(m[1..]) == EventsOf(rest);
    }
  }

  /** The merge writes a trip only when the next event is not earlier. */
  lemma {:induction false} MergeGreedy(trips: seq<Trip.TripInfo>, i: nat, events: seq<EventRecord.EventInfo>, j: nat)
    requires j <= |events|
    ensures Greedy(Merge(trips, i, events, j), false)
    decreases |trips| - i
  {
    if i >= |trips| {
      TailPlaced(events, j);
      EventsGreedy(TailRows(events, j), false);
    } else {
      var open := OpeningRows(i, trips[i]);
      var early := Early(trips, i, events, j);
      var j1 := if early then j + 1 else j;
      var rest := Merge(trips, i + 1, events, j1);
      MergeGreedy(trips, i + 1, events, j1);
      if early {
        GreedyOpening(i, trips[i], rest, true);
        var m := [EventRow(events[j])] + open + rest;
        assert m[1..] == open + rest;
      } else {
        MergeContents(trips, i + 1, events, j);
        GreedyOpening(i, trips[i], rest, false);
      }
    }
  }

  /** A trip row written while an earlier event waits is not greedy: an
      event after the day's only trip but earlier than it is out of place. */
  lemma LateEventNotGreedy(t: Trip.TripInfo, e: EventRecord.EventInfo)
    requires e.time < t.startTime
    ensures !Greedy([TripRow(DayStart, t), EventRow(e)], false)
  {
    var rows := [TripRow(DayStart, t), EventRow(e)];
    assert rows[1..] == [EventRow(e)];
    assert EventsOf(rows[1..]) == [e] by {
      assert rows[1..][1..] == [];
    }
  }

  /** What a completed day looks like in the table: every event exactly
      once and in list order; the trip rows of the day (see DaySkeleton)
      followed by the day summary's end row as the last row; one row per
      event plus two per trip; and each event row that precedes a start
      row is earlier than that trip's start; and every event row before
      the last row is either just before a start row or one of the
      events that follow the last trip, and no trip row is written while
      an earlier event is waiting. */
  lemma PlanWritten(vehicle: Option<Vehicle.VehicleInfo>, trips: seq<Trip.TripInfo>,
                    events: seq<EventRecord.EventInfo>)
    requires |trips| > 0 && vehicle.Some?
    ensures RowPlan(vehicle, trips, events).Written?
    ensures var rows := RowPlan(vehicle, trips, events).rows;
      && EventsOf(rows) == events
      && TripRowsOf(rows) == Skeleton(trips, 0) + [TripRow(DayEnd, trips[0])]
      && rows[|rows| - 1] == TripRow(DayEnd, trips[0])
      && |rows| == |events| + 2 * |trips|
      && Ordered(rows)
      && Placed(rows[..|rows| - 1])
      && Greedy(rows[..|rows| - 1], false)
  {
    var rows := Merge(trips, 0, events, 0) + [TripRow(DayEnd, trips[0])];
    assert RowPlan(vehicle, trips, events) == Written(rows);
    assert rows[..|rows| - 1] == Merge(trips, 0, events, 0);
    MergePlaced(trips, 0, events, 0);
    MergeGreedy(trips, 0, events, 0);
    DayContents(trips, events);
    assert Ordered(rows) by {
      MergeOrdered(trips, 0, events, 0);
      OrderedAppend(Merge(trips, 0, events, 0), [TripRow(DayEnd, trips[0])]);
    }
  }

  lemma OneTripRow(r: Row)
    requires r.TripRow?
    ensures EventsOf([r]) == [] && TripRowsOf([r]) == [r]
  {
    assert [r][1..] == [];
  }

  /** The contents half of PlanWritten, for the rows of a day with trips. */
  lemma DayContents(trips: seq<Trip.TripInfo>, events: seq<EventRecord.EventInfo>)
    requires |trips| > 0
    ensures var rows := Merge(trips, 0, events, 0) + [TripRow(DayEnd, trips[0])];
      && EventsOf(rows) == events
      && TripRowsOf(rows) == Skeleton(trips, 0) + [TripRow(DayEnd, trips[0])]
      && |rows| == |events| + 2 * |trips|
  {
    var m := Merge(trips, 0, events, 0);
    var last := [TripRow(DayEnd, trips[0])];
    var rows := m + last;
    OneTripRow(TripRow(DayEnd, trips[0]));
    MergeContents(trips, 0, events, 0);
    assert events[0..] == events;
    EventsOfAppend(m, last);
    assert |rows| == |events| + 2 * |trips| by {
      DaySkeleton(trips);
      EventsOfAppend(rows, []);
      assert rows + [] == rows;
    }
  }

  /** A day that is not written: without trips every event row is written
      before the exception, without a vehicle only the event that precedes
      the first trip, if there is one, and then the unfinished row of that
      trip. No trip row is filled either way. */
  lemma PlanAborted(vehicle: Option<Vehicle.VehicleInfo>, trips: seq<Trip.TripInfo>,
                    events: seq<EventRecord.EventInfo>)
    requires |trips| == 0 || vehicle.None?
    ensures RowPlan(vehicle, trips, events).Aborted?
    ensures RowPlan(vehicle, trips, events).unfinishedRow <==> |trips| > 0
    ensures var rows := RowPlan(vehicle, trips, events).rows;
      && TripRowsOf(rows) == []
      && (|trips| == 0 ==> EventsOf(rows) == events)
      && (|trips| > 0 ==> |rows| <= 1 && |rows| <= |events|)
      && (|trips| > 0 ==>
            EventsOf(rows) == (if |events| > 0 && events[0].time < trips[0].startTime then [events[0]] else []))
  {
    if |trips| == 0 {
      MergeContents(trips, 0, events, 0);
      assert events[0..] == events;
    } else {
      var r := if Early(trips, 0, events, 0) then [EventRow(events[0])] else [];
      EventsOfAppend(r, []);
      assert r + [] == r;
    }
  }

  // ---- the cells of a trip row ----

  datatype Position = Position(latitude: Double, longitude: Double)

  /** One side of a trip record as a row shows it. */
  datatype Reading = Reading(time: nat, tzOffset: int, localTime: int, position: Option<Position>,
                             odometer: Double, engineHours: Double, generatorHours: Double,
                             fuelLevel: Double)

  function StartReading(t: Trip.TripInfo): Reading
    requires Trip.WellFormed(t)
  {
    var r := t.readings;
    Reading(t.startTime, t.startTzOffset, Trip.StartLocalSeconds(t),
            if t.startGpsFixValid then Some(Position(r[Trip.StartLatitude], r[Trip.StartLongitude])) else None,
            r[Trip.StartOdometer], r[Trip.StartEngineHours], r[Trip.StartGenHrs], r[Trip.StartFuel])
  }

  function EndReading(t: Trip.TripInfo): Reading
    requires Trip.WellFormed(t)
  {
    var r := t.readings;
    Reading(t.endTime, t.endTzOffset, Trip.EndLocalSeconds(t),
            if t.endGpsFixValid then Some(Position(r[Trip.EndLatitude], r[Trip.EndLongitude])) else None,
            r[Trip.EndOdometer], r[Trip.EndEngineHours], r[Trip.EndGenHrs], r[Trip.EndFuel])
  }

  /** The cells InsertTripRowIntoTable fills from the records; a `None` is a
      cell left blank. `time` is the TimeGMT cell and `localTime` the
      LocalDate and LocalTime cells, both in seconds. The cells computed with floating point (engine
      hours used, MPG, durations as day fractions, distances and speeds)
      are not part of the model. */
  datatype TripCells = TripCells(
    tripId: int,
    vehicleName: string,
    towVehicle: Option<string>,
    typeLetter: string,
    time: nat,
    tzOffset: int,
    localTime: int,
    position: Option<Position>,
    odometer: Double,
    engineHours: Double,
    fuelLevel: Double,
    generatorHours: Option<Double>,
    fuelUsed: Option<Double>,
    towedDistance: Option<Double>,
    travelDurationSecs: Option<nat>)

  /** InsertTripRowIntoTable(vehicle, insertType, trip) for the current trip id. */
  function TripCellsOf(vehicle: Vehicle.VehicleInfo, tripId: int, insertType: InsertType,
                       t: Trip.TripInfo): (c: TripCells)
    requires Trip.WellFormed(t)
    ensures c.vehicleName == vehicle.name && c.tripId == tripId
    ensures c.towVehicle.Some? <==> vehicle.isAbleToTow && t.isTowing && vehicle.towVehicle.Some?
    ensures c.generatorHours.Some? <==> vehicle.hasGenerator
    ensures c.fuelUsed.Some? <==> !IsStart(insertType)
    ensures c.towedDistance.Some? <==> !IsStart(insertType) && vehicle.isAbleToTow && vehicle.towVehicle.Some?
    ensures c.travelDurationSecs.Some? <==> insertType == DayEnd
    ensures c.localTime % 3600 == c.time % 3600 && (c.localTime > c.time <==> c.tzOffset > 0)
  {
    var side := if IsStart(insertType) then StartReading(t) else EndReading(t);
    var end := !IsStart(insertType);
    TripCells(
      tripId,
      vehicle.name,
      if vehicle.isAbleToTow && t.isTowing then vehicle.towVehicle else None,
      TypeLetter(insertType),
      side.time, side.tzOffset, side.localTime, side.position,
      side.odometer, side.engineHours, side.fuelLevel,
      if vehicle.hasGenerator then Some(side.generatorHours) else None,
      if end then Some(t.readings[Trip.FuelUsed]) else None,
      if end && vehicle.isAbleToTow && vehicle.towVehicle.Some? then Some(t.towingDistance) else None,
      if insertType == DayEnd then Some(t.travelDurationSecs) else None)
  }

  /** The start rows of a record show its start side and the end rows its
      end side; the day summary's two rows and a leg's two rows differ
      only in the Type letter and, at the end of the day, the travel time. */
  lemma TripRowSides(vehicle: Vehicle.VehicleInfo, tripId: int, t: Trip.TripInfo)
    requires Trip.WellFormed(t)
    ensures var s := TripCellsOf(vehicle, tripId, DayStart, t);
      && s.time == t.startTime && s.tzOffset == t.startTzOffset
      && s.localTime == Trip.StartLocalSeconds(t)
      && s.odometer == t.readings[Trip.StartOdometer]
      && s.engineHours == t.readings[Trip.StartEngineHours]
      && s.fuelLevel == t.readings[Trip.StartFuel]
      && (s.position.Some? <==> t.startGpsFixValid)
    ensures var e := TripCellsOf(vehicle, tripId, DayEnd, t);
      && e.time == t.endTime && e.tzOffset == t.endTzOffset
      && e.localTime == Trip.EndLocalSeconds(t)
      && e.odometer == t.readings[Trip.EndOdometer]
      && e.engineHours == t.readings[Trip.EndEngineHours]
      && e.fuelLevel == t.readings[Trip.EndFuel]
      && (e.position.Some? <==> t.endGpsFixValid)
      && e.fuelUsed == Some(t.readings[Trip.FuelUsed])
      && e.travelDurationSecs == Some(t.travelDurationSecs)
    ensures TripCellsOf(vehicle, tripId, LegStart, t)
            == TripCellsOf(vehicle, tripId, DayStart, t).(typeLetter := "D")
    ensures TripCellsOf(vehicle, tripId, LegEnd, t)
            == TripCellsOf(vehicle, tripId, DayEnd, t).(typeLetter := "A", travelDurationSecs := None)
  {
  }

  // ---- the cells of an event row ----

  /** The vehicle name that the Cash column singles out. */
  const CashVehicle := "F09"

  /** The Cash column as ExcelWriter.cs line 237 writes it: the ten-char
      name from the record compared with a three-char literal. */
  function CashCodeAsWritten(e: EventRecord.EventInfo): Option<string>
  {
    match EventRecord.KindOf(e.typeCode)
    case Some(FuelPurchase) => Some(if e.vehicleName == CashVehicle then "C" else "G")
    case Some(PropanePurchase) => Some("P")
    case Some(OilChange) => Some("R")
    case None => None
  }

  /** The comparison never holds for a decoded record: its name always has
      ten chars, so a fuel purchase is never marked as paid by card. */
  lemma CashCodeAsWrittenNeverCard(e: EventRecord.EventInfo)
    requires EventRecord.WellFormed(e)
    ensures CashCodeAsWritten(e) != Some("C")
  {
    assert |e.vehicleName| != |CashVehicle|;
  }

  /** The name bytes of the vehicle "F09" as the device pads them. */
  const PaddedCashVehicle: string := CashVehicle + "\0\0\0\0\0\0\0"

  /** A fuel purchase by vehicle F09 as the decoder delivers it. */
  function PaddedCashPurchase(): (e: EventRecord.EventInfo)
    ensures EventRecord.WellFormed(e)
  {
    EventRecord.EventInfo(EventRecord.FuelPurchase, 1, false, PaddedCashVehicle, 7, 0, 0,
                          [ZeroDouble, ZeroDouble, ZeroDouble, ZeroDouble, ZeroDouble],
                          [ZeroDouble, ZeroDouble, ZeroDouble])
  }

  /** The F09 purchase is written "G" as the code stands and "C" once the
      padding is ignored. */
  lemma CashCodeCounterexample()
    ensures CashCodeAsWritten(PaddedCashPurchase()) == Some("G")
    ensures CashCode(PaddedCashPurchase()) == Some("C")
  {
    var e := PaddedCashPurchase();
    assert e.vehicleName != CashVehicle by { assert |e.vehicleName| == 10; }
    assert PaddedCashVehicle == CashVehicle + seq(7, _ => '\0');
    TrimPaddingOf(CashVehicle, 7);
  }

  predicate IsPadding(c: char)
  {
    c == '\0' || c == ' '
  }

  /** A fixed-width name without the NULs and blanks that fill its tail. */
  function TrimPadding(name: string): (r: string)
    ensures |r| <= |name| && r == name[..|r|]
    ensures forall k :: |r| <= k < |name| ==> IsPadding(name[k])
    ensures |r| > 0 ==> !IsPadding(r[|r| - 1])
  {
    if |name| == 0 || !IsPadding(name[|name| - 1]) then name
    else TrimPadding(name[..|name| - 1])
  }

  /** A name followed by padding trims back to the name. */
  lemma {:induction false} TrimPaddingOf(name: string, n: nat)
    requires |name| > 0 ==> !IsPadding(name[|name| - 1])
    ensures TrimPadding(name + seq(n, _ => '\0')) == name
    decreases n
  {
    var padded := name + seq(n, _ => '\0');
    if n > 0 {
      assert padded[..|padded| - 1] == name + seq(n - 1, _ => '\0');
      TrimPaddingOf(name, n - 1);
    } else {
      assert padded == name;
    }
  }

  /** The Cash column with the comparison the code evidently intends: the
      record's name with its padding removed. */
  function CashCode(e: EventRecord.EventInfo): Option<string>
  {
    match EventRecord.KindOf(e.typeCode)
    case Some(FuelPurchase) => Some(if TrimPadding(e.vehicleName) == CashVehicle then "C" else "G")
    case Some(PropanePurchase) => Some("P")
    case Some(OilChange) => Some("R")
    case None => None
  }

  /** Every known type tag gets a code and each code names one case: "C" a
      fuel purchase by F09 however its name is padded, "G" any other fuel
      purchase, "P" propane, "R" an oil change. */
  lemma CashCodeCases(e: EventRecord.EventInfo, n: nat)
    ensures CashCode(e).Some? <==> EventRecord.KindOf(e.typeCode).Some?
    ensures CashCode(e) == Some("C") <==>
              e.typeCode == EventRecord.TypeCode(EventRecord.FuelPurchase) && TrimPadding(e.vehicleName) == CashVehicle
    ensures CashCode(e) == Some("G") <==>
              e.typeCode == EventRecord.TypeCode(EventRecord.FuelPurchase) && TrimPadding(e.vehicleName) != CashVehicle
    ensures CashCode(e) == Some("P") <==> e.typeCode == EventRecord.TypeCode(EventRecord.PropanePurchase)
    ensures CashCode(e) == Some("R") <==> e.typeCode == EventRecord.TypeCode(EventRecord.OilChange)
    ensures (e.vehicleName == CashVehicle + seq(n, _ => '\0')
             && e.typeCode == EventRecord.TypeCode(EventRecord.FuelPurchase)) ==> CashCode(e) == Some("C")
  {
    if e.vehicleName == CashVehicle + seq(n, _ => '\0') {
      TrimPaddingOf(CashVehicle, n);
    }
  }

  /** The cells InsertEventRowIntoTable fills; amounts come from the
      subclass the record was decoded as, the codes from its Type byte. */
  datatype EventCells = EventCells(
    tripId: int,
    vehicleName: string,
    time: nat,
    tzOffset: int,
    localTime: int,
    position: Option<Position>,
    odometer: Double,
    engineHours: Double,
    fuelLevel: Double,
    cash: Option<string>,
    quantity: Option<Double>,
    cost: Option<Double>,
    distance: Option<Double>,
    maintenance: Option<string>)

  /** InsertEventRowIntoTable(e) for the current trip id, with the Cash
      column as intended. The switch is on the Type byte; the `is` tests
      on the decoded class. */
  function EventCellsOf(tripId: int, e: EventRecord.EventInfo): (c: EventCells)
    requires EventRecord.WellFormed(e)
    ensures c.cash == CashCode(e)
    ensures c.localTime % 3600 == c.time % 3600 && (c.localTime > c.time <==> c.tzOffset > 0)
    ensures c.maintenance.Some? <==> e.typeCode == EventRecord.TypeCode(EventRecord.OilChange)
    ensures c.quantity.Some? ==> e.typeCode == EventRecord.TypeCode(e.kind)
    ensures c.cost.Some? ==> e.typeCode == EventRecord.TypeCode(e.kind)
    ensures c.distance.Some? ==> e.typeCode == EventRecord.TypeCode(e.kind)
  {
    var r := e.readings;
    var tag := EventRecord.KindOf(e.typeCode);
    var x := e.extras;
    var fuel := tag == Some(EventRecord.FuelPurchase) && e.kind == EventRecord.FuelPurchase;
    var propane := tag == Some(EventRecord.PropanePurchase) && e.kind == EventRecord.PropanePurchase;
    var oil := tag == Some(EventRecord.OilChange) && e.kind == EventRecord.OilChange;
    EventCells(
      tripId, e.vehicleName, e.time, e.tzOffset, EventRecord.LocalSeconds(e),
      if e.gpsFixValid then Some(Position(r[3], r[4])) else None,
      r[0], r[1], r[2],
      CashCode(e),
      if fuel || propane then Some(x[0]) else None,
      if fuel || propane then Some(x[1]) else None,
      if fuel then Some(x[2]) else if oil then Some(x[0]) else None,
      if tag == Some(EventRecord.OilChange) then Some("Oil") else None)
  }

  /** The amount cells of a row, in column order. */
  function Amounts(c: EventCells): seq<Double>
  {
    (if c.quantity.Some? then [c.quantity.value] else [])
    + (if c.cost.Some? then [c.cost.value] else [])
    + (if c.distance.Some? then [c.distance.value] else [])
  }

  /** For a record whose Type byte names its own class, the row shows
      exactly the amounts the record carries, in record order, and every
      row takes its readings and stamps from the record. */
  lemma EventRowShowsRecord(tripId: int, e: EventRecord.EventInfo)
    requires EventRecord.WellFormed(e)
    ensures var c := EventCellsOf(tripId, e);
      && c.vehicleName == e.vehicleName && c.time == e.time && c.tzOffset == e.tzOffset
      && c.localTime == EventRecord.LocalSeconds(e)
      && c.odometer == e.readings[0] && c.engineHours == e.readings[1] && c.fuelLevel == e.readings[2]
      && (c.position.Some? <==> e.gpsFixValid)
      && (e.typeCode == EventRecord.TypeCode(e.kind) ==> Amounts(c) == e.extras && c.cash.Some?)
      && (e.typeCode != EventRecord.TypeCode(e.kind) ==> Amounts(c) == [])
  {
    EventRecord.KindOfTypeCode(e.kind);
  }
}
