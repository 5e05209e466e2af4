/** Collecting a vCenter's events again and again from a cursor: overlapping windows, pages in
    time order up to a cap, and insert-or-ignore. Times are in microseconds. */
module Ingestion {
  import opened Options

  type Time = int
  type VCenterId = nat

  const SECOND: int := 1_000_000
  const DAY: int := 86_400 * SECOND
  const PAGE_SIZE: nat := 500
  const MAX_PAGES: nat := 100
  const CAP: nat := PAGE_SIZE * MAX_PAGES
  const BUILTIN: string := "builtin.vcenter.events"

  datatype Event = Event(key: Option<int>, time: Time, text: string)

  datatype Row = Row(vcenter: VCenterId, collector: string, key: int, event: Event)

  // ---- fetching

  /** The server's side of one query: the events it still has to show. */
  class EventCollector {
    var pending: seq<Event>

    constructor (shown: seq<Event>)
      ensures pending == shown
    {
      pending := shown;
    }

    method ReadNextEvents(count: nat) returns (page: seq<Event>)
      modifies this
      ensures page == First(old(pending), count) && old(pending) == page + pending
    {
      page := First(pending, count);
      pending := pending[|page|..];
    }
  }

  function First(events: seq<Event>, count: nat): seq<Event> {
    if |events| <= count then events else events[..count]
  }

  /** Events without a key are skipped. */
  function Keyed(events: seq<Event>): seq<Event> {
    if events == [] then [] else
    var before, last := Keyed(events[..|events| - 1]), events[|events| - 1];
    if last.key.None? then before else before + [last]
  }

  function Latest(events: seq<Event>): Option<Time> {
    if events == [] then None else
    var before, last := Latest(events[..|events| - 1]), events[|events| - 1];
    if before.None? || last.time > before.value then Some(last.time) else before
  }

  /** Reads pages until one is empty or the cap is reached. */
  method ReadPages(collector: EventCollector, maxPages: nat) returns (raw: seq<Event>)
    modifies collector
    ensures raw == First(old(collector.pending), PAGE_SIZE * maxPages)
  {
    raw := [];
    var pages := 0;
    ghost var shown := collector.pending;
    while pages < maxPages
      invariant 0 <= pages <= maxPages && shown == raw + collector.pending
      invariant raw == First(shown, PAGE_SIZE * pages)
    {
      var page := collector.ReadNextEvents(PAGE_SIZE);
      if page == [] { break; }
      raw := raw + page;
      pages := pages + 1;
    }
  }

  lemma OneMoreKept(before: seq<Event>, e: Event)
    ensures Keyed(before + [e]) == if e.key.None? then Keyed(before) else Keyed(before) + [e]
  {
    assert (before + [e])[..|before|] == before;
  }

  lemma LatestOfMore(events: seq<Event>, e: Event)
    ensures Latest(events + [e])
            == if Latest(events).None? || e.time > Latest(events).value then Some(e.time) else Latest(events)
  {
    assert (events + [e])[..|events|] == events;
  }

  lemma PrefixGrows(raw: seq<Event>, i: nat)
    requires i < |raw|
    ensures raw[..i + 1] == raw[..i] + [raw[i]]
  {
  }

  lemma NextKept(raw: seq<Event>, i: nat)
    requires i < |raw|
    ensures Keyed(raw[..i + 1]) == if raw[i].key.None? then Keyed(raw[..i]) else Keyed(raw[..i]) + [raw[i]]
  {
    PrefixGrows(raw, i);
    OneMoreKept(raw[..i], raw[i]);
  }

  /** Keeps the events with a key and the latest of their times. */
  method NormalizeEvents(raw: seq<Event>) returns (normalized: seq<Event>, maxTs: Option<Time>)
    ensures normalized == Keyed(raw) && maxTs == Latest(normalized)
  {
    normalized, maxTs := [], None;
    for i := 0 to |raw|
      invariant normalized == Keyed(raw[..i]) && maxTs == Latest(normalized)
    {
      var e := raw[i];
      NextKept(raw, i);
      LatestOfMore(normalized, e);
      if e.key.Some? {
        if maxTs.None? || e.time > maxTs.value { maxTs := Some(e.time); }
        normalized := normalized + [e];
      }
    }
    assert raw[..|raw|] == raw;
  }

  method FetchEvents(collector: EventCollector, maxPages: nat) returns (normalized: seq<Event>, maxTs: Option<Time>)
    modifies collector
    ensures normalized == Keyed(First(old(collector.pending), PAGE_SIZE * maxPages)) && maxTs == Latest(normalized)
  {
    var raw := ReadPages(collector, maxPages);
    normalized, maxTs := NormalizeEvents(raw);
  }

  // ---- storing

  predicate Conflicts(rows: seq<Row>, vcenter: VCenterId, collector: string, key: int) {
    exists i :: 0 <= i < |rows| && rows[i].vcenter == vcenter && rows[i].collector == collector && rows[i].key == key
  }

  /** INSERT ... ON CONFLICT DO NOTHING of one keyed event. */
  function InsertOne(rows: seq<Row>, vcenter: VCenterId, event: Event): seq<Row> {
    if event.key.None? || Conflicts(rows, vcenter, BUILTIN, event.key.value) then rows
    else rows + [Row(vcenter, BUILTIN, event.key.value, event)]
  }

  function InsertAll(rows: seq<Row>, vcenter: VCenterId, events: seq<Event>): seq<Row> {
    if events == [] then rows
    else InsertOne(InsertAll(rows, vcenter, events[..|events| - 1]), vcenter, events[|events| - 1])
  }

  function FetchSince(cursor: Option<Time>, end: Time): Time {
    if cursor.Some? then cursor.value - SECOND else end - DAY
  }

  /** The new cursor: the latest event; or, if there never was a cursor, the time on the clock. */
  function NextCursor(cursor: Option<Time>, maxTs: Option<Time>, clock: Time): Option<Time> {
    if maxTs.Some? then maxTs else if cursor.None? then Some(clock) else cursor
  }

  class EventTable {
    var rows: seq<Row>
    var cursors: map<VCenterId, Time>

    constructor ()
      ensures rows == [] && cursors == map[]
    {
      rows, cursors := [], map[];
    }

    method InsertOrIgnore(vcenter: VCenterId, event: Event) returns (rowCount: nat)
      requires event.key.Some?
      modifies this`rows
      ensures rows == InsertOne(old(rows), vcenter, event) && |rows| == |old(rows)| + rowCount
    {
      if Conflicts(rows, vcenter, BUILTIN, event.key.value) { return 0; }
      rows := rows + [Row(vcenter, BUILTIN, event.key.value, event)];
      rowCount := 1;
    }

    /** Stores what a fetch gave and moves the cursor; `inserted` counts the new rows. */
    method IngestEvents(vcenter: VCenterId, collector: EventCollector, clock: Time) returns (inserted: nat)
      modifies this, collector
      ensures var normalized := Keyed(First(old(collector.pending), CAP));
              && rows == InsertAll(old(rows), vcenter, normalized) && inserted == |rows| - |old(rows)|
              && CursorOf(cursors, vcenter) == NextCursor(old(CursorOf(cursors, vcenter)), Latest(normalized), clock)
              && forall v :: v != vcenter ==> CursorOf(cursors, v) == old(CursorOf(cursors, v))
    {
      var normalized, maxTs := FetchEvents(collector, MAX_PAGES);
      inserted := 0;
      for i := 0 to |normalized|
        invariant rows == InsertAll(old(rows), vcenter, normalized[..i]) && |rows| == |old(rows)| + inserted
        invariant cursors == old(cursors)
      {
        KeyedHaveKeys(First(old(collector.pending), CAP));
        assert normalized[i] in normalized;
        assert normalized[..i + 1][..i] == normalized[..i];
        var rowCount := InsertOrIgnore(vcenter, normalized[i]);
        inserted := inserted + rowCount;
      }
      assert normalized[..|normalized|] == normalized;
      if maxTs.Some? {
        cursors := cursors[vcenter := maxTs.value];
      } else if vcenter !in cursors {
        cursors := cursors[vcenter := clock];
      }
    }
  }

  function CursorOf(cursors: map<VCenterId, Time>, vcenter: VCenterId): Option<Time> {
    if vcenter in cursors then Some(cursors[vcenter]) else None
  }

  // ---- what fetching and storing mean

  lemma {:induction false} KeyedHaveKeys(events: seq<Event>)
    ensures forall e :: e in Keyed(events) <==> e in events && e.key.Some?
    decreases |events|
  {
    if events != [] {
      KeyedHaveKeys(events[..|events| - 1]);
      assert events == events[..|events| - 1] + [events[|events| - 1]];
    }
  }

  lemma {:induction false} LatestIsMaximum(events: seq<Event>)
    ensures Latest(events).None? <==> events == []
    ensures forall e :: e in events ==> e.time <= Latest(events).value
    ensures events != [] ==> exists e :: e in events && e.time == Latest(events).value
    decreases |events|
  {
    if events != [] {
      LatestIsMaximum(events[..|events| - 1]);
      assert events == events[..|events| - 1] + [events[|events| - 1]];
      assert events[|events| - 1] in events;
    }
  }

  predicate UniqueKeys(rows: seq<Row>) {
    forall i, j :: 0 <= i < j < |rows| ==>
      !(rows[i].vcenter == rows[j].vcenter && rows[i].collector == rows[j].collector && rows[i].key == rows[j].key)
  }

  ghost predicate Holds(rows: seq<Row>, vcenter: VCenterId, event: Event) {
    event.key.Some? && Conflicts(rows, vcenter, BUILTIN, event.key.value)
  }

  /** Storing adds rows after the existing ones, never a key twice; it holds every event given,
      and what is new is one of them. */
  lemma {:induction false} StoringIsExact(rows: seq<Row>, vcenter: VCenterId, events: seq<Event>)
    requires forall e :: e in events ==> e.key.Some?
    ensures var after := InsertAll(rows, vcenter, events);
            && rows <= after && (UniqueKeys(rows) ==> UniqueKeys(after))
            && (forall e :: e in events ==> Holds(after, vcenter, e))
            && (forall i :: |rows| <= i < |after| ==>
                  after[i].event in events
                    && after[i] == Row(vcenter, BUILTIN, after[i].event.key.value, after[i].event)
                  && !Conflicts(rows, vcenter, BUILTIN, after[i].key))
    decreases |events|
  {
    if events != [] {
      var front, last := events[..|events| - 1], events[|events| - 1];
      assert events == front + [last];
      StoringIsExact(rows, vcenter, front);
      InsertOneIsExact(InsertAll(rows, vcenter, front), vcenter, last);
      assert last in events;
    }
  }

  lemma InsertOneIsExact(rows: seq<Row>, vcenter: VCenterId, event: Event)
    requires event.key.Some?
    ensures var after := InsertOne(rows, vcenter, event);
            && rows <= after && Holds(after, vcenter, event) && (UniqueKeys(rows) ==> UniqueKeys(after))
            && (forall v, c, k :: Conflicts(rows, v, c, k) ==> Conflicts(after, v, c, k))
  {
    var after := InsertOne(rows, vcenter, event);
    if after != rows { assert after[|rows|].key == event.key.value; }
    forall v, c, k | Conflicts(rows, v, c, k) ensures Conflicts(after, v, c, k) {
      var i :| 0 <= i < |rows| && rows[i].vcenter == v && rows[i].collector == c && rows[i].key == k;
      assert after[i] == rows[i];
    }
  }

  // ---- runs against a vCenter whose history keeps changing

  /** One vCenter and the table. `latest` is the latest time that was ever visible; `floor` is
      where the window started that gave the first cursor taken from an event. */
  datatype State = State(visible: set<Event>, rows: seq<Row>, cursor: Option<Time>, latest: Option<Time>,
                         floor: Option<Time>)

  datatype Step =
    | Appear(event: Event)
    | Forget(event: Event) // the server's own retention
    | Ingest(raw: seq<Event>, end: Time, clock: Time)
    | Other(row: Row)      // another collector or another vCenter stores a row

  /** What one fetch may show of `visible`: the events of the window in time order, up to the cap. */
  ghost predicate IsFetch(visible: set<Event>, from: Time, end: Time, raw: seq<Event>) {
    && |raw| <= CAP
    && (forall i, j :: 0 <= i < j < |raw| ==> raw[i] != raw[j] && raw[i].time <= raw[j].time)
    && (forall e :: e in raw ==> e in visible && from <= e.time <= end)
    && (forall e :: e in visible && from <= e.time <= end && e !in raw ==>
          |raw| == CAP && forall r :: r in raw ==> r.time <= e.time)
  }

  /** New events are at most one second older than the latest one, and keys are not given twice. */
  ghost predicate MayAppear(s: State, vcenter: VCenterId, event: Event) {
    && (s.latest.Some? ==> event.time >= s.latest.value - SECOND)
    && (event.key.Some? ==> !Holds(s.rows, vcenter, event) && forall e :: e in s.visible ==> e.key != event.key)
  }

  function IngestStep(s: State, vcenter: VCenterId, raw: seq<Event>, end: Time, clock: Time): State {
    var from, maxTs := FetchSince(s.cursor, end), Latest(Keyed(raw));
    s.(rows := InsertAll(s.rows, vcenter, Keyed(raw)), cursor := NextCursor(s.cursor, maxTs, clock),
       floor := if s.floor.None? && maxTs.Some? then Some(from) else s.floor)
  }

  /** A step that cannot happen changes nothing. */
  ghost function Apply(vcenter: VCenterId, s: State, step: Step): State {
    match step
    case Appear(e) =>
      if MayAppear(s, vcenter, e)
      then s.(visible := s.visible + {e},
              latest := Some(if s.latest.None? || e.time > s.latest.value then e.time else s.latest.value))
      else s
    case Forget(e) => s.(visible := s.visible - {e})
    case Ingest(raw, end, clock) =>
      if IsFetch(s.visible, FetchSince(s.cursor, end), end, raw) then IngestStep(s, vcenter, raw, end, clock) else s
    case Other(row) =>
      if (row.vcenter == vcenter && row.collector == BUILTIN) || Conflicts(s.rows, row.vcenter, row.collector, row.key)
      then s else s.(rows := s.rows + [row])
  }

  /** What happens outside of fetching: events appear and are forgotten one by one, and other rows
      are stored unless their key is there already. */
  lemma OutsideSteps(vcenter: VCenterId, s: State, e: Event, row: Row)
    ensures MayAppear(s, vcenter, e) ==>
              var t := Apply(vcenter, s, Appear(e));
              && t.visible == s.visible + {e} && t.rows == s.rows && t.cursor == s.cursor && t.floor == s.floor
              && t.latest.Some? && e.time <= t.latest.value && (s.latest.Some? ==> s.latest.value <= t.latest.value)
              && (t.latest.value == e.time || t.latest == s.latest)
    ensures Apply(vcenter, s, Forget(e)).visible == s.visible - {e}
    ensures var t := Apply(vcenter, s, Other(row));
            if (exists i :: 0 <= i < |s.rows| && s.rows[i].vcenter == row.vcenter && s.rows[i].key == row.key
                            && s.rows[i].collector == row.collector)
               || (row.vcenter == vcenter && row.collector == "builtin.vcenter.events")
            then t == s else t == s.(rows := s.rows + [row])
  {
  }

  ghost function Run(vcenter: VCenterId, s: State, steps: seq<Step>): State
    decreases |steps|
  {
    if steps == [] then s else Apply(vcenter, Run(vcenter, s, steps[..|steps| - 1]), steps[|steps| - 1])
  }

  function Initial(): State {
    State({}, [], None, None, None)
  }

  /** Still to be stored: a visible event with a key and no row. */
  ghost predicate Missing(s: State, vcenter: VCenterId, event: Event) {
    event in s.visible && event.key.Some? && !Holds(s.rows, vcenter, event)
  }

  /** Nothing missing has fallen behind the next window. */
  ghost predicate NothingLost(s: State, vcenter: VCenterId) {
    && (s.floor.Some? ==> s.cursor.Some? && s.latest.Some? && s.cursor.value <= s.latest.value)
    && (s.floor.Some? ==> forall e :: Missing(s, vcenter, e) && e.time >= s.floor.value ==>
      e.time >= s.cursor.value - SECOND)
  }

  ghost predicate IsRowOf(row: Row, vcenter: VCenterId, event: Event) {
    row.vcenter == vcenter && row.collector == BUILTIN && event.key == Some(row.key)
  }

  lemma HoldsStays(rows: seq<Row>, more: seq<Row>, vcenter: VCenterId, event: Event)
    requires rows <= more && Holds(rows, vcenter, event)
    ensures Holds(more, vcenter, event)
  {
  }

  /** A key has one row, and it holds the event that has this key. */
  ghost predicate RowsInv(s: State, vcenter: VCenterId) {
    && UniqueKeys(s.rows)
    && (forall e :: e in s.visible ==> s.latest.Some? && e.time <= s.latest.value)
    && (forall e, f :: e in s.visible && f in s.visible && e.key.Some? && e.key == f.key ==> e == f)
    && (forall i, e :: 0 <= i < |s.rows| && e in s.visible && IsRowOf(s.rows[i], vcenter, e) ==> s.rows[i].event == e)
  }

  lemma AppearKeeps(vcenter: VCenterId, s: State, e: Event)
    requires NothingLost(s, vcenter) && RowsInv(s, vcenter)
    ensures NothingLost(Apply(vcenter, s, Appear(e)), vcenter) && RowsInv(Apply(vcenter, s, Appear(e)), vcenter)
  {
  }

  lemma OtherKeeps(vcenter: VCenterId, s: State, row: Row)
    requires NothingLost(s, vcenter) && RowsInv(s, vcenter)
    ensures NothingLost(Apply(vcenter, s, Other(row)), vcenter) && RowsInv(Apply(vcenter, s, Other(row)), vcenter)
  {
    var t := Apply(vcenter, s, Other(row));
    forall e | Missing(t, vcenter, e) ensures Missing(s, vcenter, e) {
      if Holds(s.rows, vcenter, e) { HoldsStays(s.rows, t.rows, vcenter, e); }
    }
  }

  lemma ForgetKeeps(vcenter: VCenterId, s: State, e: Event)
    requires NothingLost(s, vcenter) && RowsInv(s, vcenter)
    ensures NothingLost(Apply(vcenter, s, Forget(e)), vcenter) && RowsInv(Apply(vcenter, s, Forget(e)), vcenter)
  {
  }

  lemma IngestLosesNothing(vcenter: VCenterId, s: State, raw: seq<Event>, end: Time, clock: Time)
    requires NothingLost(s, vcenter) && RowsInv(s, vcenter) && IsFetch(s.visible, FetchSince(s.cursor, end), end, raw)
    ensures NothingLost(IngestStep(s, vcenter, raw, end, clock), vcenter)
  {
    var t, keyed := IngestStep(s, vcenter, raw, end, clock), Keyed(raw);
    KeyedHaveKeys(raw);
    LatestIsMaximum(keyed);
    StoringIsExact(s.rows, vcenter, keyed);
    if keyed != [] {
      var newest :| newest in keyed && newest.time == Latest(keyed).value;
      assert newest in s.visible;
    }
    forall e | t.floor.Some? && Missing(t, vcenter, e) && e.time >= t.floor.value
      ensures e.time >= t.cursor.value - SECOND
    {
      if Holds(s.rows, vcenter, e) { HoldsStays(s.rows, t.rows, vcenter, e); }
      assert Missing(s, vcenter, e) && e !in keyed;
    }
  }

  lemma IngestKeepsRows(vcenter: VCenterId, s: State, raw: seq<Event>, end: Time, clock: Time)
    requires RowsInv(s, vcenter) && IsFetch(s.visible, FetchSince(s.cursor, end), end, raw)
    ensures RowsInv(IngestStep(s, vcenter, raw, end, clock), vcenter)
  {
    var t, keyed := IngestStep(s, vcenter, raw, end, clock), Keyed(raw);
    KeyedHaveKeys(raw);
    StoringIsExact(s.rows, vcenter, keyed);
    forall i, e | 0 <= i < |t.rows| && e in t.visible && IsRowOf(t.rows[i], vcenter, e) ensures t.rows[i].event == e {
      if i < |s.rows| { assert t.rows[i] == s.rows[i]; } else { assert t.rows[i].event in keyed; }
    }
  }

  lemma {:induction false} RunKeeps(vcenter: VCenterId, steps: seq<Step>)
    ensures var s := Run(vcenter, Initial(), steps); NothingLost(s, vcenter) && RowsInv(s, vcenter)
    decreases |steps|
  {
    if steps != [] {
      var s, last := Run(vcenter, Initial(), steps[..|steps| - 1]), steps[|steps| - 1];
      RunKeeps(vcenter, steps[..|steps| - 1]);
      match last
      case Appear(e) => AppearKeeps(vcenter, s, e);
      case Forget(e) => ForgetKeeps(vcenter, s, e);
      case Other(row) => OtherKeeps(vcenter, s, row);
      case Ingest(raw, end, clock) =>
        if IsFetch(s.visible, FetchSince(s.cursor, end), end, raw) {
          IngestLosesNothing(vcenter, s, raw, end, clock);
          IngestKeepsRows(vcenter, s, raw, end, clock);
        }
    }
  }

  // ---- main results

  /** Once the cursor came from an event, every visible event that is not stored yet lies in the
      next window, also after a fetch that hit the cap. */
  lemma MissingEventsAreInTheNextWindow(vcenter: VCenterId, steps: seq<Step>, event: Event, end: Time)
    requires var s := Run(vcenter, Initial(), steps);
             Missing(s, vcenter, event) && s.floor.Some? && event.time >= s.floor.value && event.time <= end
    ensures FetchSince(Run(vcenter, Initial(), steps).cursor, end) <= event.time <= end
  {
    RunKeeps(vcenter, steps);
  }

  /** No (vCenter, collector, key) is stored twice, and a key's row holds the event with that key. */
  lemma NothingIsStoredTwice(vcenter: VCenterId, steps: seq<Step>)
    ensures UniqueKeys(Run(vcenter, Initial(), steps).rows)
    ensures var s := Run(vcenter, Initial(), steps);
            forall i, e :: 0 <= i < |s.rows| && e in s.visible && IsRowOf(s.rows[i], vcenter, e) ==>
              s.rows[i].event == e
  {
    RunKeeps(vcenter, steps);
  }

  /** A fetch below the cap stores everything that was missing up to its end. */
  lemma UncappedFetchStoresEverything(vcenter: VCenterId, steps: seq<Step>, raw: seq<Event>, end: Time, clock: Time,
                                      event: Event)
    requires var s := Run(vcenter, Initial(), steps);
             && IsFetch(s.visible, FetchSince(s.cursor, end), end, raw) && |raw| < CAP
             && s.floor.Some? && event.time >= s.floor.value && event.time <= end && Missing(s, vcenter, event)
    ensures Holds(IngestStep(Run(vcenter, Initial(), steps), vcenter, raw, end, clock).rows, vcenter, event)
  {
    var s := Run(vcenter, Initial(), steps);
    RunKeeps(vcenter, steps);
    KeyedHaveKeys(raw);
    StoringIsExact(s.rows, vcenter, Keyed(raw));
  }

  /** What a fetch below the cap of 50,000 events shows: with a cursor, the events from one second
      before it on; without, those of the last 86,400 seconds. */
  lemma FetchReaches(visible: set<Event>, cursor: Option<Time>, end: Time, raw: seq<Event>)
    requires IsFetch(visible, FetchSince(cursor, end), end, raw)
    ensures |raw| <= 50_000
    ensures |raw| < 50_000 ==> forall e :: e in raw <==>
              e in visible && e.time <= end
              && (cursor.Some? ==> e.time >= cursor.value - 1_000_000)
              && (cursor.None? ==> e.time >= end - 86_400 * 1_000_000)
  {
  }

  // ---- when the cap stops progress

  function Between(visible: set<Event>, from: Time, to: Time): set<Event> {
    set e | e in visible && from <= e.time <= to
  }

  function Elements(events: seq<Event>): set<Event> {
    set e | e in events
  }

  lemma {:induction false} CountElements(events: seq<Event>)
    requires forall i, j :: 0 <= i < j < |events| ==> events[i] != events[j]
    ensures |Elements(events)| == |events|
    decreases |events|
  {
    if events != [] {
      var front, last := events[..|events| - 1], events[|events| - 1];
      CountElements(front);
      assert events == front + [last];
      assert Elements(events) == Elements(front) + {last};
    }
  }

  lemma SubsetCount(a: set<Event>, b: set<Event>)
    requires a <= b
    ensures |a| <= |b|
  {
    assert b == a + (b - a);
  }

  /** A later event is reached if the window up to it is within the cap. */
  lemma CursorAdvances(vcenter: VCenterId, s: State, raw: seq<Event>, end: Time, clock: Time, event: Event)
    requires s.cursor.Some? && IsFetch(s.visible, FetchSince(s.cursor, end), end, raw)
    requires event in s.visible && event.key.Some? && s.cursor.value < event.time <= end
    requires |Between(s.visible, s.cursor.value - SECOND, event.time)| <= CAP
    ensures IngestStep(s, vcenter, raw, end, clock).cursor.value >= event.time
    ensures Holds(IngestStep(s, vcenter, raw, end, clock).rows, vcenter, event)
  {
    KeyedHaveKeys(raw);
    LatestIsMaximum(Keyed(raw));
    StoringIsExact(s.rows, vcenter, Keyed(raw));
    if event !in raw {
      CountElements(raw);
      SubsetCount(Elements(raw) + {event}, Between(s.visible, s.cursor.value - SECOND, event.time));
    }
  }

  /** With a full cap of events in the second up to the cursor, no fetch moves it forward. */
  lemma FullSecondStopsTheCursor(vcenter: VCenterId, s: State, raw: seq<Event>, end: Time, clock: Time)
    requires s.cursor.Some? && IsFetch(s.visible, FetchSince(s.cursor, end), end, raw) && s.cursor.value <= end
    requires |Between(s.visible, s.cursor.value - SECOND, s.cursor.value)| >= CAP
    ensures forall e :: e in raw ==> e.time <= s.cursor.value
    ensures IngestStep(s, vcenter, raw, end, clock).cursor.value <= s.cursor.value
  {
    KeyedHaveKeys(raw);
    LatestIsMaximum(Keyed(raw));
    var second := Between(s.visible, s.cursor.value - SECOND, s.cursor.value);
    CountElements(raw);
    if late :| late in raw && late.time > s.cursor.value {
      assert second <= Elements(raw);
      SubsetCount(second + {late}, Elements(raw));
    }
  }

  /** When every visible event has a key: a fetch with a later event before its end moves the cursor
      forward exactly if the second up to the cursor holds fewer events than the cap. */
  lemma KeyedFetchAdvancesExactly(vcenter: VCenterId, s: State, raw: seq<Event>, end: Time, clock: Time)
    requires s.cursor.Some? && IsFetch(s.visible, FetchSince(s.cursor, end), end, raw)
    requires forall e :: e in s.visible ==> e.key.Some?
    requires exists e :: e in s.visible && s.cursor.value < e.time <= end
    ensures IngestStep(s, vcenter, raw, end, clock).cursor.value > s.cursor.value
            <==> |Between(s.visible, s.cursor.value - SECOND, s.cursor.value)| < CAP
  {
    var later :| later in s.visible && s.cursor.value < later.time <= end;
    var second := Between(s.visible, s.cursor.value - SECOND, s.cursor.value);
    if |second| >= CAP {
      FullSecondStopsTheCursor(vcenter, s, raw, end, clock);
    } else {
      KeyedHaveKeys(raw);
      LatestIsMaximum(Keyed(raw));
      CountElements(raw);
      if forall r :: r in raw ==> r.time <= s.cursor.value {
        assert later !in raw && |raw| == CAP;
        SubsetCount(Elements(raw), second);
      }
    }
  }

  /** An event that moves the cursor forward when it is fetched. */
  predicate MovesCursor(e: Event, cursor: Time) {
    e.key.Some? && e.time > cursor
  }

  /** The first event that would move the cursor forward. */
  ghost predicate IsFirstLater(visible: set<Event>, cursor: Time, end: Time, first: Event) {
    && first in visible && MovesCursor(first, cursor) && first.time <= end
    && forall e :: e in visible && MovesCursor(e, cursor) ==> first.time <= e.time
  }

  /** What may fill a fetch before an event of time `first` is reached: the events up to the
      cursor, and those without a key after it. */
  function Ahead(visible: set<Event>, cursor: Time, first: Time): set<Event> {
    set e | e in visible && cursor - SECOND <= e.time <= first && !MovesCursor(e, cursor)
  }

  /** In general: every fetch moves the cursor forward exactly if fewer events than the cap, those
      without a key included, may come before the first later event with a key. */
  lemma EveryFetchAdvancesExactly(vcenter: VCenterId, s: State, end: Time, clock: Time, first: Event)
    requires s.cursor.Some? && IsFirstLater(s.visible, s.cursor.value, end, first)
    ensures (forall raw :: IsFetch(s.visible, FetchSince(s.cursor, end), end, raw) ==>
               IngestStep(s, vcenter, raw, end, clock).cursor.value > s.cursor.value)
            <==> |Ahead(s.visible, s.cursor.value, first.time)| < CAP
  {
    var ahead := Ahead(s.visible, s.cursor.value, first.time);
    if |ahead| < CAP {
      forall raw | IsFetch(s.visible, FetchSince(s.cursor, end), end, raw)
        ensures IngestStep(s, vcenter, raw, end, clock).cursor.value > s.cursor.value
      {
        FetchPassesAhead(vcenter, s, raw, end, clock, first);
      }
    } else {
      var raw := SlowestFetch(s.visible, s.cursor.value, end, first);
      FetchOfAheadStalls(vcenter, s, raw, end, clock);
    }
  }

  lemma FetchPassesAhead(vcenter: VCenterId, s: State, raw: seq<Event>, end: Time, clock: Time, first: Event)
    requires s.cursor.Some? && IsFirstLater(s.visible, s.cursor.value, end, first)
    requires IsFetch(s.visible, FetchSince(s.cursor, end), end, raw)
    requires |Ahead(s.visible, s.cursor.value, first.time)| < CAP
    ensures IngestStep(s, vcenter, raw, end, clock).cursor.value > s.cursor.value
  {
    KeyedHaveKeys(raw);
    LatestIsMaximum(Keyed(raw));
    CountElements(raw);
    if forall r :: r in raw ==> !MovesCursor(r, s.cursor.value) {
      assert first !in raw && |raw| == CAP;
      SubsetCount(Elements(raw), Ahead(s.visible, s.cursor.value, first.time));
    }
  }

  lemma FetchOfAheadStalls(vcenter: VCenterId, s: State, raw: seq<Event>, end: Time, clock: Time)
    requires s.cursor.Some? && forall r :: r in raw ==> !MovesCursor(r, s.cursor.value)
    ensures IngestStep(s, vcenter, raw, end, clock).cursor.value <= s.cursor.value
  {
    KeyedHaveKeys(raw);
    LatestIsMaximum(Keyed(raw));
  }

  /** Time order, with events that move the cursor last among those of one time. */
  function Rank(e: Event, cursor: Time): int {
    2 * e.time + if MovesCursor(e, cursor) then 1 else 0
  }

  ghost predicate RankOrdered(events: seq<Event>, cursor: Time) {
    forall i, j :: 0 <= i < j < |events| ==>
      events[i] != events[j] && Rank(events[i], cursor) <= Rank(events[j], cursor)
  }

  lemma {:induction false} LowestRank(events: set<Event>, cursor: Time) returns (lowest: Event)
    requires events != {}
    ensures lowest in events && forall e :: e in events ==> Rank(lowest, cursor) <= Rank(e, cursor)
    decreases |events|
  {
    lowest :| lowest in events;
    if events != {lowest} {
      var other := LowestRank(events - {lowest}, cursor);
      lowest := if Rank(other, cursor) < Rank(lowest, cursor) then other else lowest;
    }
  }

  lemma LowestComesFirst(lowest: Event, rest: seq<Event>, cursor: Time)
    requires RankOrdered(rest, cursor) && lowest !in Elements(rest)
    requires forall e :: e in Elements(rest) ==> Rank(lowest, cursor) <= Rank(e, cursor)
    ensures RankOrdered([lowest] + rest, cursor) && Elements([lowest] + rest) == {lowest} + Elements(rest)
  {
    assert forall i :: 0 <= i < |rest| ==> rest[i] in Elements(rest);
  }

  lemma {:induction false} InRankOrder(events: set<Event>, cursor: Time) returns (ordered: seq<Event>)
    ensures RankOrdered(ordered, cursor) && Elements(ordered) == events
    decreases |events|
  {
    if events == {} {
      ordered := [];
    } else {
      var lowest := LowestRank(events, cursor);
      var rest := InRankOrder(events - {lowest}, cursor);
      LowestComesFirst(lowest, rest, cursor);
      ordered := [lowest] + rest;
    }
  }

  /** The fetch that shows what is ahead first. */
  lemma SlowestFetch(visible: set<Event>, cursor: Time, end: Time, first: Event) returns (raw: seq<Event>)
    requires IsFirstLater(visible, cursor, end, first) && |Ahead(visible, cursor, first.time)| >= CAP
    ensures IsFetch(visible, cursor - SECOND, end, raw) && forall r :: r in raw ==> !MovesCursor(r, cursor)
  {
    var window := Between(visible, cursor - SECOND, end);
    var ordered := InRankOrder(window, cursor);
    FrontIsFetch(visible, cursor, end, ordered);
    raw := First(ordered, CAP);
    forall r | r in raw ensures !MovesCursor(r, cursor) {
      if MovesCursor(r, cursor) { AheadComesFirst(visible, cursor, end, first, ordered, r); }
    }
  }

  lemma FrontIsFetch(visible: set<Event>, cursor: Time, end: Time, ordered: seq<Event>)
    requires RankOrdered(ordered, cursor) && Elements(ordered) == Between(visible, cursor - SECOND, end)
    ensures IsFetch(visible, cursor - SECOND, end, First(ordered, CAP))
  {
    var raw := First(ordered, CAP);
    forall e | e in raw ensures e in visible && cursor - SECOND <= e.time <= end {
      assert e in Elements(ordered);
    }
    forall e | e in visible && cursor - SECOND <= e.time <= end && e !in raw
      ensures |raw| == CAP && forall r :: r in raw ==> r.time <= e.time
    {
      assert e in Elements(ordered);
      var j :| 0 <= j < |ordered| && ordered[j] == e;
      assert |raw| == CAP && j >= CAP;
    }
  }

  /** All of `ahead` stands before position `i`. */
  lemma AheadStandsBefore(visible: set<Event>, cursor: Time, end: Time, first: Event, ordered: seq<Event>, i: nat)
    requires IsFirstLater(visible, cursor, end, first) && RankOrdered(ordered, cursor)
    requires Elements(ordered) == Between(visible, cursor - SECOND, end)
    requires i < |ordered| && MovesCursor(ordered[i], cursor) && ordered[i] in visible
    ensures Ahead(visible, cursor, first.time) <= Elements(ordered[..i])
  {
    forall e | e in Ahead(visible, cursor, first.time) ensures e in Elements(ordered[..i]) {
      assert e in Elements(ordered);
      var j :| 0 <= j < |ordered| && ordered[j] == e;
      assert Rank(e, cursor) < Rank(ordered[i], cursor);
      assert ordered[..i][j] == e;
    }
  }

  lemma AheadComesFirst(visible: set<Event>, cursor: Time, end: Time, first: Event, ordered: seq<Event>, r: Event)
    requires IsFirstLater(visible, cursor, end, first) && |Ahead(visible, cursor, first.time)| >= CAP
    requires RankOrdered(ordered, cursor) && Elements(ordered) == Between(visible, cursor - SECOND, end)
    requires MovesCursor(r, cursor) && r in visible
    ensures r !in First(ordered, CAP)
  {
    var raw, ahead := First(ordered, CAP), Ahead(visible, cursor, first.time);
    if i :| 0 <= i < |raw| && raw[i] == r {
      assert raw[i] == ordered[i];
      AheadStandsBefore(visible, cursor, end, first, ordered, i);
      CountElements(ordered[..i]);
      SubsetCount(ahead, Elements(ordered[..i]));
    }
  }

  /** Everything up to `last` is stored, its last second fills the cap, and the cursor is not later. */
  ghost predicate Stuck(s: State, vcenter: VCenterId, last: Time) {
    && s.cursor.Some? && s.cursor.value <= last && |Between(s.visible, last - SECOND, last)| >= CAP
    && forall e :: e in s.visible && e.time <= last ==> Holds(s.rows, vcenter, e)
  }

  lemma StuckFetchChangesNothing(vcenter: VCenterId, s: State, last: Time, raw: seq<Event>, end: Time, clock: Time)
    requires Stuck(s, vcenter, last) && IsFetch(s.visible, FetchSince(s.cursor, end), end, raw)
    ensures var t := IngestStep(s, vcenter, raw, end, clock);
            t.rows == s.rows && t.visible == s.visible && Stuck(t, vcenter, last)
  {
    KeyedHaveKeys(raw);
    LatestIsMaximum(Keyed(raw));
    var second := Between(s.visible, last - SECOND, last);
    CountElements(raw);
    if late :| late in raw && late.time > last {
      assert second <= Elements(raw);
      SubsetCount(second + {late}, Elements(raw));
    }
    StoringNothingNew(s.rows, vcenter, Keyed(raw));
  }

  lemma {:induction false} StoringNothingNew(rows: seq<Row>, vcenter: VCenterId, events: seq<Event>)
    requires forall e :: e in events ==> Holds(rows, vcenter, e)
    ensures InsertAll(rows, vcenter, events) == rows
    decreases |events|
  {
    if events != [] {
      assert events[|events| - 1] in events;
      StoringNothingNew(rows, vcenter, events[..|events| - 1]);
    }
  }

  lemma {:induction false} StuckFetchesChangeNothing(vcenter: VCenterId, s: State, last: Time, fetches: seq<Step>)
    requires Stuck(s, vcenter, last) && forall i :: 0 <= i < |fetches| ==> fetches[i].Ingest?
    ensures var t := Run(vcenter, s, fetches); t.rows == s.rows && t.visible == s.visible && Stuck(t, vcenter, last)
    decreases |fetches|
  {
    if fetches != [] {
      StuckFetchesChangeNothing(vcenter, s, last, fetches[..|fetches| - 1]);
      var t, fetch := Run(vcenter, s, fetches[..|fetches| - 1]), fetches[|fetches| - 1];
      if IsFetch(t.visible, FetchSince(t.cursor, fetch.end), fetch.end, fetch.raw) {
        StuckFetchChangesNothing(vcenter, t, last, fetch.raw, fetch.end, fetch.clock);
      }
    }
  }

  // ---- and stays behind whatever else appears

  /** The cursor is not past `last`, whose last second fills the cap. */
  ghost predicate Behind(s: State, last: Time) {
    s.cursor.Some? && s.cursor.value <= last && |Between(s.visible, last - SECOND, last)| >= CAP
  }

  lemma BehindFetchShowsNothingLater(s: State, last: Time, raw: seq<Event>, end: Time)
    requires Behind(s, last) && IsFetch(s.visible, FetchSince(s.cursor, end), end, raw)
    ensures forall e :: e in raw ==> e.time <= last
  {
    var second := Between(s.visible, last - SECOND, last);
    CountElements(raw);
    if late :| late in raw && late.time > last {
      assert second <= Elements(raw);
      SubsetCount(second + {late}, Elements(raw));
    }
  }

  lemma FetchStaysBehind(vcenter: VCenterId, s: State, last: Time, raw: seq<Event>, end: Time, clock: Time)
    requires Behind(s, last) && IsFetch(s.visible, FetchSince(s.cursor, end), end, raw)
    ensures Behind(IngestStep(s, vcenter, raw, end, clock), last)
  {
    BehindFetchShowsNothingLater(s, last, raw, end);
    KeyedHaveKeys(raw);
    LatestIsMaximum(Keyed(raw));
  }

  lemma StepStaysBehind(vcenter: VCenterId, s: State, last: Time, step: Step)
    requires Behind(s, last) && !step.Forget?
    ensures Behind(Apply(vcenter, s, step), last)
  {
    match step
    case Appear(e) =>
      SubsetCount(Between(s.visible, last - SECOND, last), Between(s.visible + {e}, last - SECOND, last));
    case Ingest(raw, end, clock) =>
      if IsFetch(s.visible, FetchSince(s.cursor, end), end, raw) {
        FetchStaysBehind(vcenter, s, last, raw, end, clock);
      }
    case Other(row) =>
  }

  /** No visible event later than `last` has been stored since the table held `rows`. */
  ghost predicate LaterAreMissing(s: State, vcenter: VCenterId, last: Time, rows: seq<Row>) {
    forall e :: e in s.visible && e.time > last && !Holds(rows, vcenter, e) ==> !Holds(s.rows, vcenter, e)
  }

  lemma FetchStoresNothingLater(vcenter: VCenterId, s: State, last: Time, raw: seq<Event>, end: Time, clock: Time,
                                event: Event)
    requires Behind(s, last) && IsFetch(s.visible, FetchSince(s.cursor, end), end, raw) && RowsInv(s, vcenter)
    requires event in s.visible && event.time > last && !Holds(s.rows, vcenter, event)
    ensures !Holds(IngestStep(s, vcenter, raw, end, clock).rows, vcenter, event)
  {
    var after := InsertAll(s.rows, vcenter, Keyed(raw));
    BehindFetchShowsNothingLater(s, last, raw, end);
    KeyedHaveKeys(raw);
    StoringIsExact(s.rows, vcenter, Keyed(raw));
    if event.key.Some? {
      forall i | 0 <= i < |after| ensures !IsRowOf(after[i], vcenter, event) {
        if i < |s.rows| {
          assert after[i] == s.rows[i];
        } else {
          assert after[i].event in Keyed(raw) && after[i].event in raw && after[i].event != event;
        }
      }
    }
  }

  lemma AppearedIsNotHeld(vcenter: VCenterId, s: State, last: Time, rows: seq<Row>, e: Event)
    requires LaterAreMissing(s, vcenter, last, rows)
    ensures LaterAreMissing(Apply(vcenter, s, Appear(e)), vcenter, last, rows)
  {
  }

  lemma OtherRowHoldsNothing(vcenter: VCenterId, s: State, last: Time, rows: seq<Row>, row: Row)
    requires LaterAreMissing(s, vcenter, last, rows)
    ensures LaterAreMissing(Apply(vcenter, s, Other(row)), vcenter, last, rows)
  {
    var t := Apply(vcenter, s, Other(row));
    if t != s {
      forall e | e in s.visible && Holds(t.rows, vcenter, e) ensures Holds(s.rows, vcenter, e) {
        var i :| 0 <= i < |t.rows| && t.rows[i].vcenter == vcenter && t.rows[i].collector == BUILTIN
                 && t.rows[i].key == e.key.value;
        assert i < |s.rows| && s.rows[i] == t.rows[i];
      }
    }
  }

  lemma StepStoresNothingLater(vcenter: VCenterId, s: State, last: Time, rows: seq<Row>, step: Step)
    requires Behind(s, last) && !step.Forget? && RowsInv(s, vcenter) && LaterAreMissing(s, vcenter, last, rows)
    ensures LaterAreMissing(Apply(vcenter, s, step), vcenter, last, rows)
  {
    match step
    case Appear(e) => AppearedIsNotHeld(vcenter, s, last, rows, e);
    case Other(row) => OtherRowHoldsNothing(vcenter, s, last, rows, row);
    case Ingest(raw, end, clock) =>
      if IsFetch(s.visible, FetchSince(s.cursor, end), end, raw) {
        forall e | e in s.visible && e.time > last && !Holds(rows, vcenter, e)
          ensures !Holds(IngestStep(s, vcenter, raw, end, clock).rows, vcenter, e)
        {
          FetchStoresNothingLater(vcenter, s, last, raw, end, clock, e);
        }
      }
  }

  /** While the server forgets nothing, the cursor stays behind in every run, whatever events
      appear and however often the collector runs, and no event later than `last` that is not
      stored yet ever will be, those that appear later included. */
  lemma {:induction false} StuckForever(vcenter: VCenterId, before: seq<Step>, last: Time, steps: seq<Step>)
    requires Behind(Run(vcenter, Initial(), before), last)
    requires forall i :: 0 <= i < |steps| ==> !steps[i].Forget?
    ensures var s, t := Run(vcenter, Initial(), before), Run(vcenter, Initial(), before + steps);
            Behind(t, last) && LaterAreMissing(t, vcenter, last, s.rows)
    decreases |steps|
  {
    if steps == [] {
      assert before + steps == before;
    } else {
      var front, step := steps[..|steps| - 1], steps[|steps| - 1];
      StuckForever(vcenter, before, last, front);
      assert (before + steps)[..|before + steps| - 1] == before + front;
      OneMoreStuckStep(vcenter, before + front, last, Run(vcenter, Initial(), before).rows, step);
      assert before + steps == (before + front) + [step];
    }
  }

  lemma OneMoreStuckStep(vcenter: VCenterId, run: seq<Step>, last: Time, rows: seq<Row>, step: Step)
    requires Behind(Run(vcenter, Initial(), run), last) && !step.Forget?
    requires LaterAreMissing(Run(vcenter, Initial(), run), vcenter, last, rows)
    ensures var t := Run(vcenter, Initial(), run + [step]); Behind(t, last) && LaterAreMissing(t, vcenter, last, rows)
  {
    var s := Run(vcenter, Initial(), run);
    RunKeeps(vcenter, run);
    StepStaysBehind(vcenter, s, last, step);
    StepStoresNothingLater(vcenter, s, last, rows, step);
    assert (run + [step])[..|run|] == run;
  }

  // ---- such a state is reached by a burst that fills the cap within one second

  function Burst(n: nat): seq<Event> {
    seq(n, i => Event(Some(i), 0, ""))
  }

  function BurstSteps(n: nat): seq<Step> {
    seq(n, i => Appear(Event(Some(i), 0, "")))
  }

  const LATE := Event(Some(-1), 1, "")

  lemma {:induction false} BurstAppears(vcenter: VCenterId, n: nat)
    ensures Run(vcenter, Initial(), BurstSteps(n))
            == Initial().(visible := Elements(Burst(n)), latest := if n == 0 then None else Some(0))
    decreases n
  {
    if n > 0 {
      var e := Event(Some(n - 1), 0, "");
      BurstAppears(vcenter, n - 1);
      assert BurstSteps(n)[..n - 1] == BurstSteps(n - 1);
      assert Burst(n) == Burst(n - 1) + [e];
      assert Elements(Burst(n)) == Elements(Burst(n - 1)) + {e};
    }
  }

  /** 50,000 events at one moment, a fetch that stores them, and a later event. */
  function BurstRun(): seq<Step> {
    BurstSteps(CAP) + [Ingest(Burst(CAP), 0, 0)] + [Appear(LATE)]
  }

  /** After it the later event is never stored, however often the collector runs and whatever
      else appears, as long as the server forgets nothing. */
  lemma BurstStopsCollection(vcenter: VCenterId, steps: seq<Step>)
    requires forall i :: 0 <= i < |steps| ==> !steps[i].Forget?
    ensures Missing(Run(vcenter, Initial(), BurstRun() + steps), vcenter, LATE)
  {
    BurstRunIsBehind(vcenter);
    StuckForever(vcenter, BurstRun(), 0, steps);
    StaysVisible(vcenter, BurstRun(), steps, LATE);
  }

  lemma {:induction false} StaysVisible(vcenter: VCenterId, before: seq<Step>, steps: seq<Step>, event: Event)
    requires event in Run(vcenter, Initial(), before).visible && forall i :: 0 <= i < |steps| ==> !steps[i].Forget?
    ensures event in Run(vcenter, Initial(), before + steps).visible
    decreases |steps|
  {
    if steps == [] {
      assert before + steps == before;
    } else {
      StaysVisible(vcenter, before, steps[..|steps| - 1], event);
      assert (before + steps)[..|before + steps| - 1] == before + steps[..|steps| - 1];
    }
  }

  lemma RunExtends(vcenter: VCenterId, steps: seq<Step>, step: Step)
    ensures Run(vcenter, Initial(), steps + [step]) == Apply(vcenter, Run(vcenter, Initial(), steps), step)
  {
    assert (steps + [step])[..|steps|] == steps;
  }

  lemma BurstRunIsBehind(vcenter: VCenterId)
    ensures var s := Run(vcenter, Initial(), BurstRun()); Behind(s, 0) && Missing(s, vcenter, LATE)
  {
    var stored := AfterBurst(vcenter);
    RunExtends(vcenter, BurstSteps(CAP), Ingest(Burst(CAP), 0, 0));
    RunExtends(vcenter, BurstSteps(CAP) + [Ingest(Burst(CAP), 0, 0)], Appear(LATE));
    BurstIsStored(vcenter);
    assert Between(stored.visible, -SECOND, 0) == Between(stored.visible + {LATE}, -SECOND, 0);
  }

  ghost function AfterBurst(vcenter: VCenterId): State {
    Apply(vcenter, Run(vcenter, Initial(), BurstSteps(CAP)), Ingest(Burst(CAP), 0, 0))
  }

  lemma BurstFacts(n: nat)
    ensures |Elements(Burst(n))| == n && Between(Elements(Burst(n)), -SECOND, 0) == Elements(Burst(n))
    ensures forall e :: e in Burst(n) ==> e.time == 0 && e.key.Some? && e != LATE && e.key != LATE.key
  {
    CountElements(Burst(n));
  }

  lemma BurstIsFetched(n: nat)
    requires 0 < n <= CAP
    ensures IsFetch(Elements(Burst(n)), -DAY, 0, Burst(n))
    ensures Latest(Keyed(Burst(n))) == Some(0)
  {
    BurstFacts(n);
    KeyedHaveKeys(Burst(n));
    LatestIsMaximum(Keyed(Burst(n)));
    assert Burst(n)[0] in Burst(n);
  }

  lemma BurstIsStored(vcenter: VCenterId)
    ensures var s := AfterBurst(vcenter);
            && Stuck(s, vcenter, 0) && MayAppear(s, vcenter, LATE) && !Holds(s.rows, vcenter, LATE)
            && LATE !in s.visible && s.visible == Elements(Burst(CAP))
  {
    BurstAppears(vcenter, CAP);
    BurstFacts(CAP);
    BurstIsFetched(CAP);
    BurstRows(vcenter, CAP);
  }

  lemma BurstRows(vcenter: VCenterId, n: nat)
    ensures var rows := InsertAll([], vcenter, Keyed(Burst(n)));
            (forall e :: e in Burst(n) ==> Holds(rows, vcenter, e)) && !Holds(rows, vcenter, LATE)
  {
    BurstFacts(n);
    KeyedHaveKeys(Burst(n));
    StoringIsExact([], vcenter, Keyed(Burst(n)));
  }
}
