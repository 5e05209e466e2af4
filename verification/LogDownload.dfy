/** The whole log download: the paged export printed by the real row printer. */
module LogDownload {
  import opened Csv
  import opened CsvPrinters
  import opened LogExport
  import opened Options

  const BYTE_ORDER_MARK: char := '\U{FEFF}'

  /** The bytes of each character. */
  type Encoding = char -> seq<Byte>

  function Encode(text: string, bytes: Encoding): seq<Byte> {
    if text == "" then [] else Encode(text[..|text| - 1], bytes) + bytes(text[|text| - 1])
  }

  /** `fields` formats a row's columns for the wanted time zone. */
  function RowPrinter(fields: LogRow -> LogFields, bytes: Encoding): LogRow -> seq<Byte> {
    r => Encode(CsvRow(fields(r)), bytes)
  }

  function HeaderBytes(bytes: Encoding): seq<Byte> {
    Encode([BYTE_ORDER_MARK] + (Join(LOG_HEADER, ",") + "\r\n"), bytes)
  }

  /** What a reader of the file must get. */
  function LogTable(rows: seq<LogRow>, fields: LogRow -> LogFields): seq<seq<string>> {
    [LOG_HEADER] + LogRecords(rows, fields)
  }

  /** The record that a row is printed from. */
  function RecordOf(fields: LogRow -> LogFields): LogRow -> seq<string> {
    r => LogRecordOf(fields(r))
  }

  function Mapped<A, B>(s: seq<A>, f: A -> B): seq<B> {
    if s == [] then [] else Mapped(s[..|s| - 1], f) + [f(s[|s| - 1])]
  }

  lemma {:induction false} MappedAt<A, B>(s: seq<A>, f: A -> B)
    ensures |Mapped(s, f)| == |s| && forall i :: 0 <= i < |s| ==> Mapped(s, f)[i] == f(s[i])
    decreases |s|
  {
    if s != [] { MappedAt(s[..|s| - 1], f); }
  }

  function LogRecords(rows: seq<LogRow>, fields: LogRow -> LogFields): seq<seq<string>> {
    Mapped(rows, RecordOf(fields))
  }

  lemma {:induction false} EncodeAdd(a: string, b: string, bytes: Encoding)
    ensures Encode(a + b, bytes) == Encode(a, bytes) + Encode(b, bytes)
    decreases |b|
  {
    if b == "" {
      assert a + b == a;
    } else {
      EncodeAdd(a, b[..|b| - 1], bytes);
      assert (a + b)[..|a + b| - 1] == a + b[..|b| - 1];
    }
  }

  lemma {:induction false} PrintRecordsAdd(records: seq<seq<string>>, record: seq<string>)
    ensures PrintRecords(records + [record]) == PrintRecords(records) + (PrintRecord(record) + "\r\n")
    decreases |records|
  {
    if records == [] {
      assert PrintRecords([record][1..]) == "" && [record][1..] == [];
      assert [] + [record] == [record] && PrintRecord(record) + "\r\n" + "" == PrintRecord(record) + "\r\n";
    } else {
      PrintRecordsAdd(records[1..], record);
      assert (records + [record])[1..] == records[1..] + [record];
      assert PrintRecord(records[0]) + "\r\n" + (PrintRecords(records[1..]) + (PrintRecord(record) + "\r\n"))
          == PrintRecord(records[0]) + "\r\n" + PrintRecords(records[1..]) + (PrintRecord(record) + "\r\n");
    }
  }

  lemma HeaderIsPlain()
    ensures QuoteAll(LOG_HEADER) == LOG_HEADER
  {
    assert Plain("id") && Plain("vcenter_id") && Plain("vcenter_name") && Plain("source_id") && Plain("host");
    assert Plain("log_kind") && Plain("effective_at") && Plain("occurred_at") && Plain("collected_at")
           && Plain("severity");
    assert Plain("message") && Plain("file_generation") && Plain("byte_offset") && Plain("time_zone")
           && Plain("utc_offset");
    PlainFieldsStay(LOG_HEADER);
  }

  lemma HeaderIsFirstRecord(bytes: Encoding)
    ensures HeaderBytes(bytes) == Encode([BYTE_ORDER_MARK] + PrintRecords([LOG_HEADER]), bytes)
  {
    HeaderIsPlain();
    PrintRecordsAdd([], LOG_HEADER);
    assert [] + [LOG_HEADER] == [LOG_HEADER];
    assert PrintRecords([]) + (PrintRecord(LOG_HEADER) + "\r\n") == PrintRecord(LOG_HEADER) + "\r\n";
  }

  lemma OneMoreRecord(records: seq<seq<string>>, record: seq<string>, bytes: Encoding)
    ensures Encode([BYTE_ORDER_MARK] + PrintRecords(records + [record]), bytes)
            == Encode([BYTE_ORDER_MARK] + PrintRecords(records), bytes) + Encode(PrintRecord(record) + "\r\n", bytes)
  {
    PrintRecordsAdd(records, record);
    var before, line := PrintRecords(records), PrintRecord(record) + "\r\n";
    assert [BYTE_ORDER_MARK] + (before + line) == ([BYTE_ORDER_MARK] + before) + line;
    EncodeAdd([BYTE_ORDER_MARK] + before, line, bytes);
  }

  lemma OneMoreRow(header: seq<Byte>, rows: seq<LogRow>, csvRow: LogRow -> seq<Byte>)
    requires rows != []
    ensures FullCsv(header, rows, csvRow) == FullCsv(header, rows[..|rows| - 1], csvRow) + csvRow(rows[|rows| - 1])
  {
  }

  lemma LogTableGrows(rows: seq<LogRow>, fields: LogRow -> LogFields)
    requires rows != []
    ensures LogTable(rows, fields) == LogTable(rows[..|rows| - 1], fields) + [LogRecordOf(fields(rows[|rows| - 1]))]
  {
    var front, record := LogRecords(rows[..|rows| - 1], fields), LogRecordOf(fields(rows[|rows| - 1]));
    assert [LOG_HEADER] + (front + [record]) == ([LOG_HEADER] + front) + [record];
  }

  /** The bytes of the download are those of the mark and the printed table. */
  lemma {:induction false} DownloadIsTable(rows: seq<LogRow>, fields: LogRow -> LogFields, bytes: Encoding)
    ensures FullCsv(HeaderBytes(bytes), rows, RowPrinter(fields, bytes))
            == Encode([BYTE_ORDER_MARK] + PrintRecords(LogTable(rows, fields)), bytes)
    decreases |rows|
  {
    if rows == [] {
      HeaderIsFirstRecord(bytes);
      assert LogTable(rows, fields) == [LOG_HEADER];
    } else {
      var front, last := rows[..|rows| - 1], fields(rows[|rows| - 1]);
      DownloadIsTable(front, fields, bytes);
      OneMoreRow(HeaderBytes(bytes), rows, RowPrinter(fields, bytes));
      LogTableGrows(rows, fields);
      OneMoreRecord(LogTable(front, fields), LogRecordOf(last), bytes);
    }
  }

  lemma RecordIsNotEmpty(r: LogRow, fields: LogRow -> LogFields)
    ensures RecordOf(fields)(r) != []
  {
    NameColumns(fields(r));
  }

  lemma NoEmptyRecord(rows: seq<LogRow>, fields: LogRow -> LogFields)
    ensures forall i :: 0 <= i < |LogTable(rows, fields)| ==> LogTable(rows, fields)[i] != []
  {
    var records := LogRecords(rows, fields);
    MappedAt(rows, RecordOf(fields));
    forall i | 0 <= i < |records| ensures records[i] != [] {
      RecordIsNotEmpty(rows[i], fields);
    }
  }

  /** As in UTF-8, no character's bytes are the beginning of another's. */
  ghost predicate PrefixFree(bytes: Encoding) {
    forall c, d :: bytes(c) <= bytes(d) ==> bytes(c) != [] && c == d
  }

  lemma EncodeFirst(text: string, bytes: Encoding)
    requires text != ""
    ensures Encode(text, bytes) == bytes(text[0]) + Encode(text[1..], bytes)
  {
    EncodeAdd(text[..1], text[1..], bytes);
    assert text[..1] + text[1..] == text && text[..1][..0] == "";
    assert Encode(text[..1], bytes) == [] + bytes(text[0]);
  }

  lemma SameFirst(x: seq<Byte>, y: seq<Byte>, a: seq<Byte>, b: seq<Byte>)
    requires x + a == y + b
    ensures x <= y || y <= x
  {
    var n := if |x| <= |y| then |x| else |y|;
    assert forall i :: 0 <= i < n ==> x[i] == (x + a)[i] && y[i] == (y + b)[i];
  }

  lemma SameRest(x: seq<Byte>, a: seq<Byte>, b: seq<Byte>)
    requires x + a == x + b
    ensures a == b
  {
    assert a == (x + a)[|x|..] && b == (x + b)[|x|..];
  }

  lemma NotEmpty(text: string, bytes: Encoding)
    requires PrefixFree(bytes) && text != ""
    ensures Encode(text, bytes) != []
  {
    EncodeFirst(text, bytes);
    assert bytes(text[0]) <= bytes(text[0]);
  }

  /** Then different texts have different bytes. */
  lemma {:induction false} EncodeIsInjective(a: string, b: string, bytes: Encoding)
    requires PrefixFree(bytes) && Encode(a, bytes) == Encode(b, bytes)
    ensures a == b
    decreases |a|
  {
    if a == "" {
      if b != "" { NotEmpty(b, bytes); }
    } else if b == "" {
      NotEmpty(a, bytes);
    } else {
      EncodeFirst(a, bytes);
      EncodeFirst(b, bytes);
      SameFirst(bytes(a[0]), bytes(b[0]), Encode(a[1..], bytes), Encode(b[1..], bytes));
      SameRest(bytes(a[0]), Encode(a[1..], bytes), Encode(b[1..], bytes));
      EncodeIsInjective(a[1..], b[1..], bytes);
      assert a == [a[0]] + a[1..] && b == [b[0]] + b[1..];
    }
  }

  lemma RowColumns(rows: seq<LogRow>, fields: LogRow -> LogFields, i: nat)
    requires i < |rows|
    ensures |LogRecords(rows, fields)| == |rows|
    ensures LogColumnsFit(LOG_HEADER, LogRecords(rows, fields)[i], fields(rows[i]))
  {
    MappedAt(rows, RecordOf(fields));
    LogColumns(fields(rows[i]));
  }

  /** Under every header name the reader finds the column of that name, in every row. */
  lemma LogTableColumns(rows: seq<LogRow>, fields: LogRow -> LogFields)
    ensures var table := LogTable(rows, fields);
            |table| == |rows| + 1 && forall i :: 0 <= i < |rows| ==>
              LogColumnsFit(table[0], table[i + 1], fields(rows[i]))
  {
    MappedAt(rows, RecordOf(fields));
    var table, records := LogTable(rows, fields), LogRecords(rows, fields);
    AfterHeader(LOG_HEADER, records);
    forall i | 0 <= i < |rows| ensures LogColumnsFit(table[0], table[i + 1], fields(rows[i])) {
      RowColumns(rows, fields, i);
    }
  }

  lemma AfterHeader(header: seq<string>, records: seq<seq<string>>)
    ensures var table := [header] + records;
            table[0] == header && forall i :: 0 <= i < |records| ==> table[i + 1] == records[i]
  {
  }

  /** Unless the client goes away, the chunks are the encoding of a file that reads back, after its
      byte order mark, as the header and exactly the fields of the exported rows. */
  method DownloadLog(history: seq<Table>, query: Query, fields: LogRow -> LogFields, bytes: Encoding,
                     request: Connection, firstBatch: seq<LogRow>)
    returns (chunks: seq<seq<Byte>>, complete: bool, ghost text: string)
    requires history != [] && firstBatch == ReadLogBatch(history[0], query, None)
    modifies request
    ensures Read(text) == Some(LogTable(Exported(history, query, 0, None), fields))
    ensures var rows, table := Exported(history, query, 0, None), Read(text).value;
            |table| == |rows| + 1 && forall i :: 0 <= i < |rows| ==>
              LogColumnsFit(table[0], table[i + 1], fields(rows[i]))
    ensures complete ==> Concat(chunks) == Encode([BYTE_ORDER_MARK] + text, bytes)
    ensures complete && PrefixFree(bytes) ==>
              forall other: string :: Encode(other, bytes) == Concat(chunks) ==> other == [BYTE_ORDER_MARK] + text
    ensures Concat(chunks) <= Encode([BYTE_ORDER_MARK] + text, bytes)
    ensures request.goneAt.None? ==> complete
    ensures ChunksBounded(chunks, 1, Exported(history, query, 0, None), RowPrinter(fields, bytes))
  {
    ghost var rows := Exported(history, query, 0, None);
    text := PrintRecords(LogTable(rows, fields));
    NoEmptyRecord(rows, fields);
    LogTableColumns(rows, fields);
    PrintedRecordsReadBack(LogTable(rows, fields));
    DownloadIsTable(rows, fields, bytes);
    chunks, complete := StreamLogCsv(history, query, RowPrinter(fields, bytes), HeaderBytes(bytes), request,
                                     firstBatch);
    if complete && PrefixFree(bytes) {
      forall other: string | Encode(other, bytes) == Concat(chunks) ensures other == [BYTE_ORDER_MARK] + text {
        EncodeIsInjective(other, [BYTE_ORDER_MARK] + text, bytes);
      }
    }
  }
}
