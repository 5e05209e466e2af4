/** The three CSV downloads: metric points, events, and one row of the log export. Each
    printer is a loop; what it prints is read back by the RFC 4180 reader. */
module CsvPrinters {
  import opened Csv
  import opened Decimal
  import opened Options

  predicate Plain(text: string) {
    forall i :: 0 <= i < |text| ==> !IsSpecial(text[i])
  }

  /** Text that a number prints as: digits, signs, point, exponent, NaN, Infinity. */
  predicate IsNumberText(text: string) {
    forall i :: 0 <= i < |text| ==> IsDigit(text[i]) || text[i] in "+-.eNaInfity"
  }

  lemma NumberTextIsPlain(text: string)
    requires IsNumberText(text)
    ensures Quote(text) == text
  {
  }

  lemma IntTextIsNumberText(n: int)
    ensures IsNumberText(IntText(n)) && Quote(IntText(n)) == IntText(n)
  {
    DecimalRoundTrip(if n < 0 then -n else n);
    NumberTextIsPlain(IntText(n));
  }

  // ---- shared by the two front-end printers: lines joined and ended by CR LF

  lemma {:induction false} JoinLinesIsPrintRecords(lines: seq<string>, records: seq<seq<string>>)
    requires |lines| == |records| > 0
    requires forall i :: 0 <= i < |lines| ==> lines[i] == PrintRecord(records[i])
    ensures Join(lines, "\r\n") + "\r\n" == PrintRecords(records)
    decreases |lines|
  {
    if |lines| > 1 {
      JoinLinesIsPrintRecords(lines[1..], records[1..]);
      assert lines[0] + "\r\n" + Join(lines[1..], "\r\n") + "\r\n"
          == lines[0] + "\r\n" + (Join(lines[1..], "\r\n") + "\r\n");
    } else {
      assert PrintRecords(records[1..]) == "";
      assert PrintRecords(records) == lines[0] + "\r\n" + "";
    }
  }

  ghost predicate PrintsAll(lines: seq<string>, records: seq<seq<string>>) {
    && |lines| == |records|
    && forall i :: 0 <= i < |lines| ==> lines[i] == PrintRecord(records[i]) && records[i] != []
  }

  lemma AddLine(lines: seq<string>, records: seq<seq<string>>, line: string, record: seq<string>)
    requires PrintsAll(lines, records) && line == PrintRecord(record) && record != []
    ensures PrintsAll(lines + [line], records + [record])
  {
  }

  lemma FileReadsBack(lines: seq<string>, records: seq<seq<string>>)
    requires PrintsAll(lines, records) && lines != []
    ensures Read(Join(lines, "\r\n") + "\r\n") == Some(records)
  {
    JoinLinesIsPrintRecords(lines, records);
    PrintedRecordsReadBack(records);
  }

  // ---- metric points

  datatype MetricPoint = MetricPoint(sampledAt: string, value: string, entityName: string,
                                     entityMoid: string, metricKey: string, vcenterId: string)

  datatype MetricCsvExportOptions = MetricCsvExportOptions(
    bucketSeconds: Option<int>, eventCounts: Option<map<int, nat>>, overlayEventType: Option<string>)

  const METRIC_HEADER := ["sampled_at", "value", "entity_name", "entity_moid", "metric_key", "vcenter_id"]

  const OVERLAY_HEADER := ["event_type_overlay", "bucket_epoch_utc_sec", "event_count_in_bucket"]

  /** Rounds toward minus infinity; the divisor may be negative. */
  function FloorDiv(a: int, b: int): (q: int)
    requires b != 0
    ensures if b > 0 then q * b <= a < q * b + b else q * b + b < a <= q * b
  {
    if b > 0 then a / b else (-a) / (-b)
  }

  /** None stands for NaN: an unreadable time, or a bucket width of 0. */
  function BucketEpochUtcSec(utcMs: Option<int>, bucketSeconds: int): Option<int> {
    if utcMs.None? || bucketSeconds == 0 then None
    else Some(FloorDiv(utcMs.value / 1000, bucketSeconds) * bucketSeconds)
  }

  predicate HasOverlay(options: MetricCsvExportOptions, trim: string -> string) {
    options.overlayEventType.Some? && trim(options.overlayEventType.value) != ""
    && options.bucketSeconds.Some? && options.eventCounts.Some?
  }

  /** The values that a reader of the file must get for one point. */
  function MetricRecord(p: MetricPoint): seq<string> {
    [NeutralizeCsvFormula(p.sampledAt), p.value, NeutralizeCsvFormula(p.entityName),
     NeutralizeCsvFormula(p.entityMoid), NeutralizeCsvFormula(p.metricKey), NeutralizeCsvFormula(p.vcenterId)]
  }

  function OverlayRecord(bucket: Option<int>, counts: map<int, nat>, eventType: string): seq<string> {
    [NeutralizeCsvFormula(eventType), if bucket.None? then "NaN" else IntText(bucket.value),
     IntText(if bucket.Some? && bucket.value in counts then counts[bucket.value] else 0)]
  }

  function MetricRow(p: MetricPoint, options: MetricCsvExportOptions,
                     trim: string -> string, parseMs: string -> Option<int>): seq<string> {
    if HasOverlay(options, trim) then
      MetricRecord(p) + OverlayRecord(BucketEpochUtcSec(parseMs(p.sampledAt), options.bucketSeconds.value),
                                      options.eventCounts.value, trim(options.overlayEventType.value))
    else MetricRecord(p)
  }

  function MetricTable(points: seq<MetricPoint>, options: MetricCsvExportOptions,
                       trim: string -> string, parseMs: string -> Option<int>): seq<seq<string>> {
    [if HasOverlay(options, trim) then METRIC_HEADER + OVERLAY_HEADER else METRIC_HEADER]
    + seq(|points|, i requires 0 <= i < |points| => MetricRow(points[i], options, trim, parseMs))
  }

  lemma MetricBaseIsQuoted(p: MetricPoint)
    requires IsNumberText(p.value)
    ensures QuoteAll(MetricRecord(p))
            == [EscapeCsvField(p.sampledAt), p.value, EscapeCsvField(p.entityName), EscapeCsvField(p.entityMoid),
                EscapeCsvField(p.metricKey), EscapeCsvField(p.vcenterId)]
  {
    NumberTextIsPlain(p.value);
  }

  lemma OverlayIsQuoted(bucket: Option<int>, counts: map<int, nat>, eventType: string)
    ensures var r := OverlayRecord(bucket, counts, eventType);
            QuoteAll(r) == [EscapeCsvField(eventType), r[1], r[2]]
  {
    var r := OverlayRecord(bucket, counts, eventType);
    if bucket.Some? { IntTextIsNumberText(bucket.value); } else { NumberTextIsPlain("NaN"); }
    IntTextIsNumberText(if bucket.Some? && bucket.value in counts then counts[bucket.value] else 0);
  }

  lemma QuoteAllAppend(a: seq<string>, b: seq<string>)
    ensures QuoteAll(a + b) == QuoteAll(a) + QuoteAll(b)
  {
  }

  lemma PlainFieldsStay(fields: seq<string>)
    requires forall i :: 0 <= i < |fields| ==> Plain(fields[i])
    ensures QuoteAll(fields) == fields
  {
  }

  lemma MetricHeadersArePlain()
    ensures QuoteAll(METRIC_HEADER) == METRIC_HEADER
    ensures QuoteAll(METRIC_HEADER + OVERLAY_HEADER) == METRIC_HEADER + OVERLAY_HEADER
  {
    assert Plain("sampled_at") && Plain("value") && Plain("entity_name") && Plain("entity_moid");
    assert Plain("metric_key") && Plain("vcenter_id");
    PlainFieldsStay(METRIC_HEADER);
    assert Plain("event_type_overlay") && Plain("bucket_epoch_utc_sec") && Plain("event_count_in_bucket");
    PlainFieldsStay(OVERLAY_HEADER);
    QuoteAllAppend(METRIC_HEADER, OVERLAY_HEADER);
  }

  method MetricLine(p: MetricPoint, options: MetricCsvExportOptions,
                    trim: string -> string, parseMs: string -> Option<int>) returns (line: string)
    requires IsNumberText(p.value)
    ensures line == PrintRecord(MetricRow(p, options, trim, parseMs))
  {
    var base := [EscapeCsvField(p.sampledAt), p.value, EscapeCsvField(p.entityName), EscapeCsvField(p.entityMoid),
                 EscapeCsvField(p.metricKey), EscapeCsvField(p.vcenterId)];
    MetricBaseIsQuoted(p);
    if HasOverlay(options, trim) {
      var bucket := BucketEpochUtcSec(parseMs(p.sampledAt), options.bucketSeconds.value);
      var counts, eventType := options.eventCounts.value, trim(options.overlayEventType.value);
      OverlayIsQuoted(bucket, counts, eventType);
      QuoteAllAppend(MetricRecord(p), OverlayRecord(bucket, counts, eventType));
      base := base + [EscapeCsvField(eventType), if bucket.None? then "NaN" else IntText(bucket.value),
                      IntText(if bucket.Some? && bucket.value in counts then counts[bucket.value] else 0)];
    }
    line := Join(base, ",");
  }

  lemma MetricTableGrows(points: seq<MetricPoint>, i: nat, options: MetricCsvExportOptions,
                         trim: string -> string, parseMs: string -> Option<int>)
    requires i < |points|
    ensures MetricTable(points[..i + 1], options, trim, parseMs)
            == MetricTable(points[..i], options, trim, parseMs) + [MetricRow(points[i], options, trim, parseMs)]
  {
    var more, fewer := MetricTable(points[..i + 1], options, trim, parseMs),
      MetricTable(points[..i], options, trim, parseMs);
    assert more[..i + 1] == fewer && |more| == i + 2;
    assert more[i + 1] == MetricRow(points[i], options, trim, parseMs);
  }

  /** What a reader finds under each name of the metric file; `overlay` is the width of the overlay's
      buckets, its counts and its event type. */
  ghost predicate MetricColumnsFit(header: seq<string>, record: seq<string>, p: MetricPoint,
                                   overlay: Option<(int, map<int, nat>, string)>, utcMs: Option<int>) {
    && |header| == |record| == (if overlay.Some? then 9 else 6)
    && Column(header, record, 0, "sampled_at", NeutralizeCsvFormula(p.sampledAt))
    && Column(header, record, 1, "value", p.value)
    && Column(header, record, 2, "entity_name", NeutralizeCsvFormula(p.entityName))
    && Column(header, record, 3, "entity_moid", NeutralizeCsvFormula(p.entityMoid))
    && Column(header, record, 4, "metric_key", NeutralizeCsvFormula(p.metricKey))
    && Column(header, record, 5, "vcenter_id", NeutralizeCsvFormula(p.vcenterId))
    && (overlay.Some? ==>
          var (width, counts, eventType) := overlay.value;
          var bucket := BucketEpochUtcSec(utcMs, width);
          && Column(header, record, 6, "event_type_overlay", NeutralizeCsvFormula(eventType))
          && Column(header, record, 7, "bucket_epoch_utc_sec", if bucket.Some? then IntText(bucket.value) else "NaN")
          && Column(header, record, 8, "event_count_in_bucket",
                    IntText(if bucket.Some? && bucket.value in counts then counts[bucket.value] else 0)))
  }

  /** There is an overlay if all three options are given and the event type is more than white space. */
  function OverlayOf(options: MetricCsvExportOptions, trim: string -> string): Option<(int, map<int, nat>, string)> {
    match (options.bucketSeconds, options.eventCounts, options.overlayEventType)
    case (Some(width), Some(counts), Some(eventType)) =>
      if trim(eventType) == "" then None else Some((width, counts, trim(eventType)))
    case _ => None
  }

  lemma MetricColumns(p: MetricPoint, options: MetricCsvExportOptions, trim: string -> string,
                      parseMs: string -> Option<int>)
    ensures MetricColumnsFit(if HasOverlay(options, trim) then METRIC_HEADER + OVERLAY_HEADER else METRIC_HEADER,
                             MetricRow(p, options, trim, parseMs), p, OverlayOf(options, trim), parseMs(p.sampledAt))
  {
  }

  lemma MetricTableColumns(points: seq<MetricPoint>, options: MetricCsvExportOptions, trim: string -> string,
                           parseMs: string -> Option<int>)
    ensures var table := MetricTable(points, options, trim, parseMs);
            |table| == |points| + 1
            && forall i :: 0 <= i < |points| ==>
                 MetricColumnsFit(table[0], table[i + 1], points[i], OverlayOf(options, trim),
                   parseMs(points[i].sampledAt))
  {
    var table := MetricTable(points, options, trim, parseMs);
    forall i | 0 <= i < |points|
      ensures MetricColumnsFit(table[0], table[i + 1], points[i], OverlayOf(options, trim),
                parseMs(points[i].sampledAt))
    {
      MetricColumns(points[i], options, trim, parseMs);
    }
  }

  /** Whatever the texts hold, a reader gets the header and exactly these fields, each under its name. */
  method MetricPointsToCsv(points: seq<MetricPoint>, options: MetricCsvExportOptions,
                           trim: string -> string, parseMs: string -> Option<int>) returns (csv: string)
    requires forall i :: 0 <= i < |points| ==> IsNumberText(points[i].value)
    ensures Read(csv) == Some(MetricTable(points, options, trim, parseMs))
    ensures var table := Read(csv).value;
            |table| == |points| + 1
            && forall i :: 0 <= i < |points| ==>
                 MetricColumnsFit(table[0], table[i + 1], points[i], OverlayOf(options, trim),
                   parseMs(points[i].sampledAt))
  {
    var header := if HasOverlay(options, trim) then METRIC_HEADER + OVERLAY_HEADER else METRIC_HEADER;
    MetricHeadersArePlain();
    var lines := [Join(header, ",")];
    for i := 0 to |points|
      invariant lines != [] && PrintsAll(lines, MetricTable(points[..i], options, trim, parseMs))
    {
      var line := MetricLine(points[i], options, trim, parseMs);
      MetricTableGrows(points, i, options, trim, parseMs);
      AddLine(lines, MetricTable(points[..i], options, trim, parseMs), line,
        MetricRow(points[i], options, trim, parseMs));
      lines := lines + [line];
    }
    assert points[..|points|] == points;
    csv := Join(lines, "\r\n") + "\r\n";
    FileReadsBack(lines, MetricTable(points, options, trim, parseMs));
    MetricTableColumns(points, options, trim, parseMs);
  }

  // ---- events

  datatype EventCsvRow = EventCsvRow(id: int, occurredAt: string, vcenterName: string, eventType: string,
                                     message: string, severity: Option<string>, userName: Option<string>,
                                     entityName: Option<string>, entityType: Option<string>,
                                     notableScore: int, notableTagsJson: Option<string>, userComment: Option<string>)

  const EVENT_HEADER := ["id", "occurred_at", "vcenter_name", "event_type", "severity", "message", "user_name",
                         "entity_name", "entity_type", "notable_score", "notable_tags", "user_comment"]

  function OrEmpty(text: Option<string>): string {
    if text.Some? then text.value else ""
  }

  function NotableTagsToField(json: Option<string>): string {
    if json.None? then "" else EscapeCsvField(json.value)
  }

  function EventRecord(e: EventCsvRow): seq<string> {
    [IntText(e.id), NeutralizeCsvFormula(e.occurredAt), NeutralizeCsvFormula(e.vcenterName),
     NeutralizeCsvFormula(e.eventType), NeutralizeCsvFormula(OrEmpty(e.severity)), NeutralizeCsvFormula(e.message),
     NeutralizeCsvFormula(OrEmpty(e.userName)), NeutralizeCsvFormula(OrEmpty(e.entityName)),
     NeutralizeCsvFormula(OrEmpty(e.entityType)), IntText(e.notableScore),
     NeutralizeCsvFormula(OrEmpty(e.notableTagsJson)), NeutralizeCsvFormula(OrEmpty(e.userComment))]
  }

  function EventTable(rows: seq<EventCsvRow>): seq<seq<string>> {
    [EVENT_HEADER] + seq(|rows|, i requires 0 <= i < |rows| => EventRecord(rows[i]))
  }

  function EventFields(e: EventCsvRow): seq<string> {
    [IntText(e.id), EscapeCsvField(e.occurredAt), EscapeCsvField(e.vcenterName), EscapeCsvField(e.eventType),
     EscapeCsvField(OrEmpty(e.severity)), EscapeCsvField(e.message), EscapeCsvField(OrEmpty(e.userName)),
     EscapeCsvField(OrEmpty(e.entityName)), EscapeCsvField(OrEmpty(e.entityType)), IntText(e.notableScore),
     NotableTagsToField(e.notableTagsJson), EscapeCsvField(OrEmpty(e.userComment))]
  }

  lemma EventFieldsAreQuoted(e: EventCsvRow)
    ensures QuoteAll(EventRecord(e)) == EventFields(e)
  {
    IntTextIsNumberText(e.id);
    IntTextIsNumberText(e.notableScore);
    assert NotableTagsToField(e.notableTagsJson) == EscapeCsvField(OrEmpty(e.notableTagsJson));
  }

  lemma EventHeaderIsPlain()
    ensures QuoteAll(EVENT_HEADER) == EVENT_HEADER
  {
    assert Plain("id") && Plain("occurred_at") && Plain("vcenter_name") && Plain("event_type") && Plain("severity");
    assert Plain("message") && Plain("user_name") && Plain("entity_name") && Plain("entity_type");
    assert Plain("notable_score") && Plain("notable_tags") && Plain("user_comment");
    PlainFieldsStay(EVENT_HEADER);
  }

  lemma EventLineIsRecord(e: EventCsvRow)
    ensures Join(EventFields(e), ",") == PrintRecord(EventRecord(e))
  {
    EventFieldsAreQuoted(e);
  }

  lemma EventTableGrows(rows: seq<EventCsvRow>, i: nat)
    requires i < |rows|
    ensures EventTable(rows[..i + 1]) == EventTable(rows[..i]) + [EventRecord(rows[i])]
  {
  }

  /** What a reader finds under each name of the event file. */
  ghost predicate EventColumnsFit(header: seq<string>, record: seq<string>, e: EventCsvRow) {
    && |header| == |record| == 12
    && Column(header, record, 0, "id", IntText(e.id))
    && Column(header, record, 1, "occurred_at", NeutralizeCsvFormula(e.occurredAt))
    && Column(header, record, 2, "vcenter_name", NeutralizeCsvFormula(e.vcenterName))
    && Column(header, record, 3, "event_type", NeutralizeCsvFormula(e.eventType))
    && Column(header, record, 4, "severity", NeutralizeCsvFormula(if e.severity.Some? then e.severity.value else ""))
    && Column(header, record, 5, "message", NeutralizeCsvFormula(e.message))
    && Column(header, record, 6, "user_name", NeutralizeCsvFormula(if e.userName.Some? then e.userName.value else ""))
    && Column(header, record, 7, "entity_name",
      NeutralizeCsvFormula(if e.entityName.Some? then e.entityName.value else ""))
    && Column(header, record, 8, "entity_type",
      NeutralizeCsvFormula(if e.entityType.Some? then e.entityType.value else ""))
    && Column(header, record, 9, "notable_score", IntText(e.notableScore))
    && Column(header, record, 10, "notable_tags",
              NeutralizeCsvFormula(if e.notableTagsJson.Some? then e.notableTagsJson.value else ""))
    && Column(header, record, 11, "user_comment",
              NeutralizeCsvFormula(if e.userComment.Some? then e.userComment.value else ""))
  }

  lemma EventColumns(e: EventCsvRow)
    ensures EventColumnsFit(EVENT_HEADER, EventRecord(e), e)
  {
  }

  lemma EventTableColumns(rows: seq<EventCsvRow>)
    ensures var table := EventTable(rows);
            |table| == |rows| + 1 && forall i :: 0 <= i < |rows| ==> EventColumnsFit(table[0], table[i + 1], rows[i])
  {
    forall i | 0 <= i < |rows| ensures EventColumnsFit(EVENT_HEADER, EventTable(rows)[i + 1], rows[i]) {
      EventColumns(rows[i]);
    }
  }

  /** Whatever the texts hold, a reader gets the header and exactly these fields, each under its name. */
  method EventRowsToCsv(rows: seq<EventCsvRow>) returns (csv: string)
    ensures Read(csv) == Some(EventTable(rows))
    ensures var table := Read(csv).value;
            |table| == |rows| + 1 && forall i :: 0 <= i < |rows| ==> EventColumnsFit(table[0], table[i + 1], rows[i])
  {
    EventHeaderIsPlain();
    var lines := [Join(EVENT_HEADER, ",")];
    for i := 0 to |rows|
      invariant lines != [] && PrintsAll(lines, EventTable(rows[..i]))
    {
      EventLineIsRecord(rows[i]);
      EventTableGrows(rows, i);
      AddLine(lines, EventTable(rows[..i]), Join(EventFields(rows[i]), ","), EventRecord(rows[i]));
      lines := lines + [Join(EventFields(rows[i]), ",")];
    }
    assert rows[..|rows|] == rows;
    csv := Join(lines, "\r\n") + "\r\n";
    FileReadsBack(lines, EventTable(rows));
    EventTableColumns(rows);
  }

  // ---- one row of the log export

  /** The columns of a log row after the time columns are formatted. */
  datatype LogFields = LogFields(id: int, vcenterId: string, vcenterName: Option<string>, sourceId: string,
                                 host: string,
                                 logKind: string, effectiveAt: string, occurredAt: string, collectedAt: string,
                                 severity: Option<string>, message: string, fileGeneration: string, byteOffset: int,
                                 timeZone: string, offsetSeconds: int)

  function TwoDigitText(n: nat): string {
    if n < 10 then "0" + ToDecimal(n) else ToDecimal(n)
  }

  /** Sign, hours and minutes of an offset; seconds only when there are any. */
  function UtcOffsetText(seconds: int): string {
    var abs := if seconds < 0 then -seconds else seconds;
    ClockText(if seconds < 0 then "-" else "+", abs / 3600, abs % 3600 / 60, abs % 3600 % 60)
  }

  function ClockText(sign: string, h: nat, m: nat, s: nat): string {
    sign + TwoDigitText(h) + ":" + TwoDigitText(m) + if s != 0 then ":" + TwoDigitText(s) else ""
  }

  /** A missing or empty vCenter name is replaced by the vCenter id. */
  function NameOf(f: LogFields): string {
    if f.vcenterName.Some? && f.vcenterName.value != "" then f.vcenterName.value else f.vcenterId
  }

  function LogRecordOf(f: LogFields): seq<string> {
    [IntText(f.id), f.vcenterId, NeutralizeCsvFormula(NameOf(f)), NeutralizeCsvFormula(f.sourceId),
     NeutralizeCsvFormula(f.host), NeutralizeCsvFormula(f.logKind), f.effectiveAt, f.occurredAt, f.collectedAt,
     NeutralizeCsvFormula(OrEmpty(f.severity)), NeutralizeCsvFormula(f.message), NeutralizeCsvFormula(f.fileGeneration),
     IntText(f.byteOffset), f.timeZone, UtcOffsetText(f.offsetSeconds)]
  }

  const LOG_HEADER: seq<string> := [
    "id", "vcenter_id", "vcenter_name", "source_id", "host", "log_kind", "effective_at", "occurred_at",
    "collected_at", "severity", "message", "file_generation", "byte_offset", "time_zone", "utc_offset"]

  /** The i-th column has this name and holds this value. */
  predicate Column(header: seq<string>, record: seq<string>, i: nat, name: string, value: string) {
    i < |header| && i < |record| && header[i] == name && record[i] == value
  }

  /** What a reader finds under each name of the log export. */
  ghost predicate LogColumnsFit(header: seq<string>, record: seq<string>, f: LogFields) {
    var name := if f.vcenterName.Some? && f.vcenterName.value != "" then f.vcenterName.value else f.vcenterId;
    var severity := if f.severity.Some? then f.severity.value else "";
    && |header| == |record| == 15
    && Column(header, record, 0, "id", IntText(f.id))
    && Column(header, record, 1, "vcenter_id", f.vcenterId)
    && Column(header, record, 2, "vcenter_name", NeutralizeCsvFormula(name))
    && Column(header, record, 3, "source_id", NeutralizeCsvFormula(f.sourceId))
    && Column(header, record, 4, "host", NeutralizeCsvFormula(f.host))
    && Column(header, record, 5, "log_kind", NeutralizeCsvFormula(f.logKind))
    && Column(header, record, 6, "effective_at", f.effectiveAt)
    && Column(header, record, 7, "occurred_at", f.occurredAt)
    && Column(header, record, 8, "collected_at", f.collectedAt)
    && Column(header, record, 9, "severity", NeutralizeCsvFormula(severity))
    && Column(header, record, 10, "message", NeutralizeCsvFormula(f.message))
    && Column(header, record, 11, "file_generation", NeutralizeCsvFormula(f.fileGeneration))
    && Column(header, record, 12, "byte_offset", IntText(f.byteOffset))
    && Column(header, record, 13, "time_zone", f.timeZone)
    && Column(header, record, 14, "utc_offset", UtcOffsetText(f.offsetSeconds))
  }

  lemma FirstNames()
    ensures LOG_HEADER[0] == "id" && LOG_HEADER[1] == "vcenter_id" && LOG_HEADER[2] == "vcenter_name"
    ensures LOG_HEADER[3] == "source_id" && LOG_HEADER[4] == "host" && LOG_HEADER[5] == "log_kind"
  {
  }

  lemma TimeNames()
    ensures LOG_HEADER[6] == "effective_at" && LOG_HEADER[7] == "occurred_at" && LOG_HEADER[8] == "collected_at"
    ensures LOG_HEADER[9] == "severity" && LOG_HEADER[10] == "message" && LOG_HEADER[11] == "file_generation"
  {
  }

  lemma LastNames()
    ensures |LOG_HEADER| == 15
    ensures LOG_HEADER[12] == "byte_offset" && LOG_HEADER[13] == "time_zone" && LOG_HEADER[14] == "utc_offset"
  {
  }

  lemma IdColumns(f: LogFields)
    ensures var r := LogRecordOf(f); |r| == 15 && r[0] == IntText(f.id) && r[1] == f.vcenterId
  {
  }

  lemma TimeColumns(f: LogFields)
    ensures var r := LogRecordOf(f);
            |r| == 15 && r[6] == f.effectiveAt && r[7] == f.occurredAt && r[8] == f.collectedAt
  {
  }

  lemma PlaceColumns(f: LogFields)
    ensures var r := LogRecordOf(f);
            |r| == 15 && r[12] == IntText(f.byteOffset) && r[13] == f.timeZone
            && r[14] == UtcOffsetText(f.offsetSeconds)
  {
  }

  lemma LogColumns(f: LogFields)
    ensures LogColumnsFit(LOG_HEADER, LogRecordOf(f), f)
  {
    FirstNames();
    TimeNames();
    LastNames();
    IdColumns(f);
    NameColumns(f);
    KindColumns(f);
    TimeColumns(f);
    LastTextColumns(f);
    PlaceColumns(f);
  }

  function CsvRow(f: LogFields): string {
    PrintRecord(LogRecordOf(f)) + "\r\n"
  }

  /** A printed log row reads back as one record with exactly its columns. */
  lemma CsvRowReadsBack(f: LogFields)
    ensures Read(CsvRow(f)) == Some([LogRecordOf(f)])
  {
    assert CsvRow(f) + PrintRecords([]) == CsvRow(f);
    assert PrintRecords([LogRecordOf(f)]) == CsvRow(f) + PrintRecords([LogRecordOf(f)][1..]);
    PrintedRecordsReadBack([LogRecordOf(f)]);
  }

  /** What a reader computes from an offset column. */
  function OffsetOf(text: string): Option<int> {
    if |text| < 6 || !AllDigits(text[1..3]) || !AllDigits(text[4..6]) then None
    else if |text| == 9 && !AllDigits(text[7..9]) then None
    else
      var abs := 3600 * ValueOf(text[1..3]) + 60 * ValueOf(text[4..6]) + if |text| == 9 then ValueOf(text[7..9]) else 0;
      Some(if text[0] == '-' then -abs else abs)
  }

  lemma TwoDigitRoundTrip(n: nat)
    requires n < 100
    ensures |TwoDigitText(n)| == 2 && AllDigits(TwoDigitText(n)) && ValueOf(TwoDigitText(n)) == n
  {
    DecimalRoundTrip(n);
    if n < 10 {
      var s := TwoDigitText(n);
      assert s[..|s| - 1] == "0" && "0"[..0] == "";
      assert ValueOf("0") == 10 * ValueOf("") + DigitValue('0');
      assert s[1] == DigitChar(n);
      DigitCharIsDigit(n);
    } else {
      assert ToDecimal(n) == ToDecimal(n / 10) + [DigitChar(n % 10)];
    }
  }

  lemma OffsetSlices(sign: string, h: string, m: string, tail: string)
    requires |sign| == 1 && |h| == |m| == 2
    ensures var text := sign + h + ":" + m + tail;
            && |text| == 6 + |tail| && text[0] == sign[0] && text[1..3] == h && text[4..6] == m && text[6..] == tail
  {
  }

  lemma OffsetOfParts(sign: string, h: string, m: string, tail: string)
    requires |sign| == 1 && |h| == |m| == 2 && AllDigits(h) && AllDigits(m)
    requires tail == "" || (|tail| == 3 && AllDigits(tail[1..]))
    ensures OffsetOf(sign + h + ":" + m + tail)
            == var abs := 3600 * ValueOf(h) + 60 * ValueOf(m) + if tail == "" then 0 else ValueOf(tail[1..]);
               Some(if sign[0] == '-' then -abs else abs)
  {
    OffsetSlices(sign, h, m, tail);
    OffsetOfText(sign + h + ":" + m + tail, h, m, tail);
  }

  lemma OffsetOfText(text: string, h: string, m: string, tail: string)
    requires |text| == 6 + |tail| && text[1..3] == h && text[4..6] == m && text[6..] == tail && AllDigits(h)
             && AllDigits(m)
    requires tail == "" || (|tail| == 3 && AllDigits(tail[1..]))
    ensures OffsetOf(text)
            == var abs := 3600 * ValueOf(h) + 60 * ValueOf(m) + if tail == "" then 0 else ValueOf(tail[1..]);
               Some(if text[0] == '-' then -abs else abs)
  {
    if tail != "" { assert text[7..9] == text[6..][1..]; }
  }

  /** The offset column determines the offset, to the second. */
  lemma OffsetReadsBack(seconds: int)
    requires -360_000 < seconds < 360_000
    ensures OffsetOf(UtcOffsetText(seconds)) == Some(seconds)
  {
    var abs := if seconds < 0 then -seconds else seconds;
    var h, rest := abs / 3600, abs % 3600;
    assert abs == 3600 * h + rest && rest == 60 * (rest / 60) + rest % 60;
    ClockReadsBack(if seconds < 0 then "-" else "+", h, rest / 60, rest % 60);
  }

  lemma ClockReadsBack(sign: string, h: nat, m: nat, s: nat)
    requires |sign| == 1 && h < 100 && m < 100 && s < 100
    ensures OffsetOf(ClockText(sign, h, m, s))
            == var abs := 3600 * h + 60 * m + s; Some(if sign[0] == '-' then -abs else abs)
  {
    TwoDigitRoundTrip(h);
    TwoDigitRoundTrip(m);
    TwoDigitRoundTrip(s);
    var tail := if s != 0 then ":" + TwoDigitText(s) else "";
    if s != 0 { assert tail[1..] == TwoDigitText(s); }
    OffsetOfParts(sign, TwoDigitText(h), TwoDigitText(m), tail);
  }

  /** No text column of any of the three files starts like a formula when it is read back. */
  lemma MetricTextIsHarmless(p: MetricPoint, options: MetricCsvExportOptions,
                             trim: string -> string, parseMs: string -> Option<int>, i: nat)
    requires i < |MetricRow(p, options, trim, parseMs)|
    requires i != 1 && i != 7 && i != 8 // the value, the bucket and its count are numbers
    ensures !StartsFormula(MetricRow(p, options, trim, parseMs)[i])
  {
    if i == 6 {
      NeutralizedIsHarmless(trim(options.overlayEventType.value));
    } else {
      assert MetricRow(p, options, trim, parseMs)[i] == MetricRecord(p)[i];
    }
  }

  lemma EventTextIsHarmless(e: EventCsvRow, i: nat)
    requires 1 <= i < 12 && i != 9
    ensures !StartsFormula(EventRecord(e)[i])
  {
    var text := match i
      case 1 => e.occurredAt
      case 2 => e.vcenterName
      case 3 => e.eventType
      case 4 => OrEmpty(e.severity)
      case 5 => e.message
      case 6 => OrEmpty(e.userName)
      case 7 => OrEmpty(e.entityName)
      case 8 => OrEmpty(e.entityType)
      case 10 => OrEmpty(e.notableTagsJson)
      case _ => OrEmpty(e.userComment);
    NeutralizedIsHarmless(text);
  }

  /** The text that goes into a text column, before it is neutralised. */
  function LogText(f: LogFields, i: nat): string {
    match i
    case 2 => NameOf(f)
    case 3 => f.sourceId
    case 4 => f.host
    case 5 => f.logKind
    case 9 => OrEmpty(f.severity)
    case 10 => f.message
    case _ => f.fileGeneration
  }

  lemma NameColumns(f: LogFields)
    ensures var r := LogRecordOf(f);
            |r| == 15 && r[2] == NeutralizeCsvFormula(NameOf(f)) && r[3] == NeutralizeCsvFormula(f.sourceId)
  {
  }

  lemma KindColumns(f: LogFields)
    ensures var r := LogRecordOf(f);
            |r| == 15 && r[4] == NeutralizeCsvFormula(f.host) && r[5] == NeutralizeCsvFormula(f.logKind)
  {
  }

  lemma LastTextColumns(f: LogFields)
    ensures var r := LogRecordOf(f);
            && |r| == 15
            && r[9] == NeutralizeCsvFormula(OrEmpty(f.severity)) && r[10] == NeutralizeCsvFormula(f.message)
            && r[11] == NeutralizeCsvFormula(f.fileGeneration)
  {
  }

  lemma LogTextIsHarmless(f: LogFields, i: nat)
    requires 2 <= i <= 5 || 9 <= i <= 11
    ensures !StartsFormula(LogRecordOf(f)[i])
  {
    NameColumns(f);
    KindColumns(f);
    LastTextColumns(f);
    NeutralizedIsHarmless(LogText(f, i));
  }
}
