/** Comma-separated values: the escaping that both printers use, and a reader for section 2
    of RFC 4180. */
module Csv {
  import opened Options

  // ---- a reader, one character at a time

  datatype Mode = FieldStart | Bare | Quoted | QuoteSeen | ReturnSeen | Malformed

  datatype Reader = Reader(mode: Mode, field: string, record: seq<string>, records: seq<seq<string>>)

  const START := Reader(FieldStart, "", [], [])

  function EndField(r: Reader): Reader {
    Reader(FieldStart, "", r.record + [r.field], r.records)
  }

  /** Commas end a field and CR LF ends a record; quotes stand only around a whole field, and
      inside it a doubled quote stands for one. */
  function Step(r: Reader, c: char): Reader {
    match r.mode
    case FieldStart =>
      if c == '"' then r.(mode := Quoted)
      else if c == ',' then EndField(r)
      else if c == '\r' then r.(mode := ReturnSeen)
      else if c == '\n' then r.(mode := Malformed)
      else r.(mode := Bare, field := r.field + [c])
    case Bare =>
      if c == ',' then EndField(r)
      else if c == '\r' then r.(mode := ReturnSeen)
      else if c == '\n' || c == '"' then r.(mode := Malformed)
      else r.(field := r.field + [c])
    case Quoted =>
      if c == '"' then r.(mode := QuoteSeen) else r.(field := r.field + [c])
    case QuoteSeen =>
      if c == '"' then r.(mode := Quoted, field := r.field + [c])
      else if c == ',' then EndField(r)
      else if c == '\r' then r.(mode := ReturnSeen)
      else r.(mode := Malformed)
    case ReturnSeen =>
      if c == '\n' then Reader(FieldStart, "", [], r.records + [r.record + [r.field]]) else r.(mode := Malformed)
    case Malformed => r
  }

  function ReadFrom(r: Reader, text: string): Reader
    decreases |text|
  {
    if text == "" then r else ReadFrom(Step(r, text[0]), text[1..])
  }

  /** The records of a file; the last line break may be missing. */
  function Read(text: string): Option<seq<seq<string>>> {
    var r := ReadFrom(START, text);
    match r.mode
    case Malformed => None
    case Quoted => None
    case ReturnSeen => None
    case _ => if r.mode == FieldStart && r.record == [] then Some(r.records)
      else Some(r.records + [r.record + [r.field]])
  }

  // ---- the printers' escaping

  predicate IsSpecial(c: char) {
    c == '"' || c == ',' || c == '\r' || c == '\n'
  }

  predicate NeedsQuotes(value: string) {
    exists i :: 0 <= i < |value| && IsSpecial(value[i])
  }

  function DoubleQuotes(value: string): string {
    if value == "" then ""
    else (if value[0] == '"' then "\"\"" else [value[0]]) + DoubleQuotes(value[1..])
  }

  function Quote(value: string): string {
    if NeedsQuotes(value) then "\"" + DoubleQuotes(value) + "\"" else value
  }

  predicate IsFormulaChar(c: char) {
    c in "=+-@\t\r\n" || c == '\U{FF1D}' || c == '\U{FF0B}' || c == '\U{FF0D}' || c == '\U{FF20}'
  }

  predicate StartsFormula(value: string) {
    value != "" && IsFormulaChar(value[0])
  }

  function NeutralizeCsvFormula(value: string): string {
    if StartsFormula(value) then "'" + value else value
  }

  /** A text field: made harmless for spreadsheets, then quoted where it has to be. */
  function EscapeCsvField(value: string): string {
    Quote(NeutralizeCsvFormula(value))
  }

  function Join(parts: seq<string>, separator: string): string {
    if parts == [] then ""
    else if |parts| == 1 then parts[0]
    else parts[0] + separator + Join(parts[1..], separator)
  }

  function QuoteAll(fields: seq<string>): seq<string> {
    seq(|fields|, i requires 0 <= i < |fields| => Quote(fields[i]))
  }

  function PrintRecord(fields: seq<string>): string {
    Join(QuoteAll(fields), ",")
  }

  function PrintRecords(records: seq<seq<string>>): string {
    if records == [] then "" else PrintRecord(records[0]) + "\r\n" + PrintRecords(records[1..])
  }

  // ---- reading back

  lemma {:induction false} ReadFromAppend(r: Reader, a: string, b: string)
    ensures ReadFrom(r, a + b) == ReadFrom(ReadFrom(r, a), b)
    decreases |a|
  {
    if a == "" {
      assert a + b == b;
    } else {
      assert (a + b)[1..] == a[1..] + b;
      ReadFromAppend(Step(r, a[0]), a[1..], b);
    }
  }

  lemma {:induction false} ReadBare(r: Reader, value: string)
    requires (r.mode == FieldStart || r.mode == Bare) && !NeedsQuotes(value) && value != ""
    ensures ReadFrom(r, value) == r.(mode := Bare, field := r.field + value)
    decreases |value|
  {
    assert !IsSpecial(value[0]);
    var r' := Step(r, value[0]);
    assert r' == r.(mode := Bare, field := r.field + [value[0]]);
    if |value| == 1 {
      assert value == [value[0]];
      assert ReadFrom(r', value[1..]) == r';
    } else {
      assert forall i :: 0 <= i < |value[1..]| ==> value[1..][i] == value[i + 1];
      ReadBare(r', value[1..]);
      assert [value[0]] + value[1..] == value;
      assert r.field + [value[0]] + value[1..] == r.field + value;
    }
  }

  lemma {:induction false} ReadQuoted(r: Reader, value: string)
    requires r.mode == Quoted
    ensures ReadFrom(r, DoubleQuotes(value)) == r.(field := r.field + value)
    decreases |value|
  {
    if value == "" {
      assert r.field + value == r.field;
    } else {
      var first := if value[0] == '"' then "\"\"" else [value[0]];
      var r' := r.(field := r.field + [value[0]]);
      if value[0] == '"' {
        assert first[1..] == "\"" && first[1..][1..] == "";
        assert ReadFrom(r, first) == ReadFrom(Step(r, '"'), "\"");
        assert ReadFrom(Step(r, '"'), "\"") == Step(Step(r, '"'), '"');
      } else {
        assert first[1..] == "";
      }
      assert ReadFrom(r, first) == r';
      ReadFromAppend(r, first, DoubleQuotes(value[1..]));
      ReadQuoted(r', value[1..]);
      assert r.field + [value[0]] + value[1..] == r.field + value;
    }
  }

  /** After a printed field the reader holds its value and stands before `,` or a line end. */
  lemma ReadField(r: Reader, value: string)
    requires r.mode == FieldStart && r.field == ""
    ensures var r' := ReadFrom(r, Quote(value));
            && (r'.mode == FieldStart || r'.mode == Bare || r'.mode == QuoteSeen)
            && r' == r.(mode := r'.mode, field := value)
  {
    if NeedsQuotes(value) {
      var body := DoubleQuotes(value);
      ReadFromAppend(r, "\"", body + "\"");
      assert "\"" + body + "\"" == "\"" + (body + "\"");
      assert ReadFrom(r, "\"") == r.(mode := Quoted);
      ReadFromAppend(r.(mode := Quoted), body, "\"");
      ReadQuoted(r.(mode := Quoted), value);
      assert "" + value == value;
    } else if value != "" {
      ReadBare(r, value);
      assert "" + value == value;
    }
  }

  lemma ReadComma(r: Reader)
    requires r.mode == FieldStart || r.mode == Bare || r.mode == QuoteSeen
    ensures ReadFrom(r, ",") == EndField(r)
  {
  }

  lemma ReadLineEnd(r: Reader)
    requires r.mode == FieldStart || r.mode == Bare || r.mode == QuoteSeen
    ensures ReadFrom(r, "\r\n") == Reader(FieldStart, "", [], r.records + [r.record + [r.field]])
  {
  }

  lemma {:induction false} ReadRecord(r: Reader, fields: seq<string>)
    requires r.mode == FieldStart && r.field == "" && fields != []
    ensures ReadFrom(r, PrintRecord(fields) + "\r\n") == Reader(FieldStart, "", [], r.records + [r.record + fields])
    decreases |fields|
  {
    var first := Quote(fields[0]);
    ReadField(r, fields[0]);
    var r1 := ReadFrom(r, first);
    if |fields| == 1 {
      assert QuoteAll(fields) == [first] && fields == [fields[0]];
      ReadFromAppend(r, first, "\r\n");
      ReadLineEnd(r1);
    } else {
      assert QuoteAll(fields)[1..] == QuoteAll(fields[1..]);
      var rest := PrintRecord(fields[1..]) + "\r\n";
      assert PrintRecord(fields) + "\r\n" == first + ("," + rest);
      ReadFromAppend(r, first, "," + rest);
      ReadFromAppend(r1, ",", rest);
      ReadComma(r1);
      ReadRecord(EndField(r1), fields[1..]);
      assert r.record + [fields[0]] + fields[1..] == r.record + fields;
    }
  }

  lemma {:induction false} ReadRecords(r: Reader, records: seq<seq<string>>)
    requires r.mode == FieldStart && r.field == "" && r.record == []
    requires forall i :: 0 <= i < |records| ==> records[i] != []
    ensures ReadFrom(r, PrintRecords(records)) == r.(records := r.records + records)
    decreases |records|
  {
    if records == [] {
      assert r.records + records == r.records;
    } else {
      var line := PrintRecord(records[0]) + "\r\n";
      ReadFromAppend(r, line, PrintRecords(records[1..]));
      ReadRecord(r, records[0]);
      assert [] + records[0] == records[0];
      var r' := Reader(FieldStart, "", [], r.records + [records[0]]);
      ReadRecords(r', records[1..]);
      assert r.records + [records[0]] + records[1..] == r.records + records;
    }
  }

  /** Reading what was printed gives the same records, whatever characters they hold. */
  lemma PrintedRecordsReadBack(records: seq<seq<string>>)
    requires forall i :: 0 <= i < |records| ==> records[i] != []
    ensures Read(PrintRecords(records)) == Some(records)
  {
    ReadRecords(START, records);
    assert [] + records == records;
  }

  /** No text field starts like a formula, and only such fields are changed. */
  lemma NeutralizedIsHarmless(value: string)
    ensures !StartsFormula(NeutralizeCsvFormula(value))
    ensures var c := if value == "" then 'a' else value[0];
            StartsFormula(value)
            <==> || c == '=' || c == '+' || c == '-' || c == '@' || c == '\t' || c == '\r' || c == '\n'
                 || c == '\U{FF1D}' || c == '\U{FF0B}' || c == '\U{FF0D}' || c == '\U{FF20}'
    ensures NeutralizeCsvFormula(value) == value <==> !StartsFormula(value)
    ensures StartsFormula(value) ==> NeutralizeCsvFormula(value)[1..] == value
  {
  }
}
