/** Keyset paging over a table that changes between pages, re-chunked into bytes. */
module LogExport {
  import opened Options

  type Byte = bv8

  const BATCH_SIZE: nat := 2000
  const CHUNK_BYTES: nat := 64 * 1024

  datatype Entry = Entry(effectiveAt: int, body: string)

  datatype LogRow = LogRow(id: nat, entry: Entry)

  /** The log table at one moment: row ids are unique. */
  type Table = map<nat, Entry>

  /** What a client asked for: its filter and the largest id when the export began. */
  datatype Query = Query(matches: LogRow -> bool, upperId: nat)

  predicate Below(a: LogRow, b: LogRow) {
    a.entry.effectiveAt < b.entry.effectiveAt || (a.entry.effectiveAt == b.entry.effectiveAt && a.id < b.id)
  }

  ghost predicate Descending(rows: seq<LogRow>) {
    forall i, j :: 0 <= i < j < |rows| ==>
      var newer, older := rows[i], rows[j];
      || newer.entry.effectiveAt > older.entry.effectiveAt
      || (newer.entry.effectiveAt == older.entry.effectiveAt && newer.id > older.id)
  }

  /** The rows that one page query may return. */
  function Selected(table: Table, query: Query, cursor: Option<LogRow>): set<LogRow> {
    set id | id in table && id <= query.upperId
             && query.matches(LogRow(id, table[id]))
             && (cursor.None? || Below(LogRow(id, table[id]), cursor.value)) :: LogRow(id, table[id])
  }

  predicate DistinctKeys(rows: set<LogRow>) {
    forall a, b :: a in rows && b in rows && a != b ==> Below(a, b) || Below(b, a)
  }

  predicate IsNewest(rows: set<LogRow>, r: LogRow) {
    r in rows && forall x :: x in rows && x != r ==> Below(x, r)
  }

  lemma {:induction false} NewestExists(rows: set<LogRow>)
    requires rows != {} && DistinctKeys(rows)
    ensures exists r :: IsNewest(rows, r)
  {
    var x :| x in rows;
    if rows == {x} {
      assert IsNewest(rows, x);
    } else {
      NewestExists(rows - {x});
      var r :| IsNewest(rows - {x}, r);
      forall y | y in rows && y != x && y != r ensures Below(y, r) {
        assert y in rows - {x};
      }
      assert IsNewest(rows, if Below(r, x) then x else r);
    }
  }

  /** ORDER BY effective_at DESC, id DESC. */
  function Sorted(rows: set<LogRow>): seq<LogRow>
    requires DistinctKeys(rows)
  {
    if rows == {} then [] else
    NewestExists(rows);
    var r :| r in rows && IsNewest(rows, r);
    [r] + Sorted(rows - {r})
  }

  lemma DescendingFrom(first: LogRow, rest: seq<LogRow>)
    requires Descending(rest) && forall r :: r in rest ==> Below(r, first)
    ensures Descending([first] + rest)
  {
    var s := [first] + rest;
    forall i, j | 0 <= i < j < |s| ensures Below(s[j], s[i]) {
      assert s[j] == rest[j - 1] && rest[j - 1] in rest;
      if i > 0 { assert s[i] == rest[i - 1]; }
    }
  }

  lemma {:induction false} SortedIsSorted(rows: set<LogRow>)
    requires DistinctKeys(rows)
    ensures Descending(Sorted(rows)) && |Sorted(rows)| == |rows|
    ensures forall r :: r in Sorted(rows) <==> r in rows
  {
    if rows != {} {
      var first := Sorted(rows)[0];
      SortedIsSorted(rows - {first});
      assert Sorted(rows) == [first] + Sorted(rows - {first}) && IsNewest(rows, first);
      DescendingFrom(first, Sorted(rows - {first}));
    }
  }

  lemma SelectedIsOrdered(table: Table, query: Query, cursor: Option<LogRow>)
    ensures DistinctKeys(Selected(table, query, cursor))
  {
  }

  /** One page: the first BATCH_SIZE selected rows. */
  function ReadLogBatch(table: Table, query: Query, cursor: Option<LogRow>): seq<LogRow> {
    SelectedIsOrdered(table, query, cursor);
    var rows := Sorted(Selected(table, query, cursor));
    if |rows| <= BATCH_SIZE then rows else rows[..BATCH_SIZE]
  }

  /** The first `n` of all rows in order. */
  ghost predicate IsTop(page: seq<LogRow>, rows: set<LogRow>, n: nat) {
    && Descending(page) && |page| <= n
    && (forall r :: r in page ==> r in rows)
    && (|page| < n ==> forall r :: r in rows ==> r in page)
    && (forall r :: r in rows && r !in page && page != [] ==> Below(r, page[|page| - 1]))
  }

  lemma FrontIsTop(sorted: seq<LogRow>, rows: set<LogRow>, n: nat)
    requires Descending(sorted) && forall r :: r in sorted <==> r in rows
    ensures IsTop(if |sorted| <= n then sorted else sorted[..n], rows, n)
  {
    var page := if |sorted| <= n then sorted else sorted[..n];
    forall r | r in rows && r !in page && page != [] ensures Below(r, page[|page| - 1]) {
      var j :| 0 <= j < |sorted| && sorted[j] == r;
      assert j >= |page|;
    }
  }

  lemma PageIsTop(table: Table, query: Query, cursor: Option<LogRow>)
    ensures IsTop(ReadLogBatch(table, query, cursor), Selected(table, query, cursor), BATCH_SIZE)
  {
    SelectedIsOrdered(table, query, cursor);
    SortedIsSorted(Selected(table, query, cursor));
    FrontIsTop(Sorted(Selected(table, query, cursor)), Selected(table, query, cursor), BATCH_SIZE);
  }

  // ---- the whole export

  /** The table seen by the k-th page query. After the last recorded change it stays. */
  function TableAt(history: seq<Table>, k: nat): Table
    requires history != []
  {
    if k < |history| then history[k] else history[|history| - 1]
  }

  /** The rows exported from page `k` on: a short page is the last one. */
  function Exported(history: seq<Table>, query: Query, k: nat, cursor: Option<LogRow>): seq<LogRow>
    requires history != []
    decreases if k < |history| then |history| - k else 0, |Selected(TableAt(history, k), query, cursor)|
  {
    var page := ReadLogBatch(TableAt(history, k), query, cursor);
    if |page| < BATCH_SIZE then page else
    PageShrinks(TableAt(history, k), query, cursor);
    page + Exported(history, query, k + 1, Some(page[|page| - 1]))
  }

  /** Rows below the last row of a full page are fewer than before. */
  lemma PageShrinks(table: Table, query: Query, cursor: Option<LogRow>)
    requires |ReadLogBatch(table, query, cursor)| == BATCH_SIZE
    ensures var page := ReadLogBatch(table, query, cursor);
            |Selected(table, query, Some(page[|page| - 1]))| < |Selected(table, query, cursor)|
  {
    PageIsTop(table, query, cursor);
    var page := ReadLogBatch(table, query, cursor);
    var last := page[|page| - 1];
    var after := Selected(table, query, Some(last));
    var before := Selected(table, query, cursor);
    assert last in before && last !in after;
    forall r | r in after ensures r in before {
      if cursor.Some? { assert Below(last, cursor.value); }
    }
    Smaller(after, before, last);
  }

  lemma Smaller(a: set<LogRow>, b: set<LogRow>, x: LogRow)
    requires a <= b && x in b && x !in a
    ensures |a| < |b|
  {
    assert a <= b - {x};
    SubsetSize(a, b - {x});
  }

  lemma {:induction false} SubsetSize(a: set<LogRow>, b: set<LogRow>)
    requires a <= b
    ensures |a| <= |b|
    decreases |a|
  {
    if a != {} {
      var x :| x in a;
      SubsetSize(a - {x}, b - {x});
    }
  }

  predicate InTable(table: Table, r: LogRow) {
    r.id in table && table[r.id] == r.entry
  }

  /** Every row matched the query and was in the table when its own page was read; pages before
      the last one are full. */
  ghost predicate AllSeen(history: seq<Table>, query: Query, k: nat, rows: seq<LogRow>)
    requires history != []
  {
    forall i :: 0 <= i < |rows| ==>
      rows[i].id <= query.upperId && query.matches(rows[i]) && InTable(TableAt(history, k + i / 2000), rows[i])
  }

  ghost predicate AllBelow(rows: seq<LogRow>, cursor: Option<LogRow>) {
    cursor.Some? ==> forall i :: 0 <= i < |rows| ==> Below(rows[i], cursor.value)
  }

  lemma PageSeen(history: seq<Table>, query: Query, k: nat, cursor: Option<LogRow>)
    requires history != []
    ensures var page := ReadLogBatch(TableAt(history, k), query, cursor);
            && AllBelow(page, cursor)
            && forall i :: 0 <= i < |page| ==>
                 page[i].id <= query.upperId && query.matches(page[i]) && InTable(TableAt(history, k), page[i])
  {
    var page := ReadLogBatch(TableAt(history, k), query, cursor);
    PageIsTop(TableAt(history, k), query, cursor);
    forall i | 0 <= i < |page|
      ensures page[i].id <= query.upperId && query.matches(page[i]) && InTable(TableAt(history, k), page[i])
      ensures cursor.Some? ==> Below(page[i], cursor.value)
    {
      assert page[i] in Selected(TableAt(history, k), query, cursor);
    }
  }

  lemma DescendingJoin(a: seq<LogRow>, b: seq<LogRow>)
    requires a != [] && Descending(a) && Descending(b) && AllBelow(b, Some(a[|a| - 1]))
    ensures Descending(a + b)
  {
  }

  lemma BelowJoin(a: seq<LogRow>, b: seq<LogRow>, cursor: Option<LogRow>)
    requires a != [] && AllBelow(a, cursor) && AllBelow(b, Some(a[|a| - 1]))
    ensures AllBelow(a + b, cursor)
  {
  }

  lemma OnePageSeen(history: seq<Table>, query: Query, k: nat, page: seq<LogRow>)
    requires history != [] && |page| < BATCH_SIZE
    requires forall i :: 0 <= i < |page| ==>
               page[i].id <= query.upperId && query.matches(page[i]) && InTable(TableAt(history, k), page[i])
    ensures AllSeen(history, query, k, page)
  {
    forall i | 0 <= i < |page| ensures InTable(TableAt(history, k + i / BATCH_SIZE), page[i]) {
      assert i / BATCH_SIZE == 0;
    }
  }

  lemma PagesSeen(history: seq<Table>, query: Query, k: nat, page: seq<LogRow>, rest: seq<LogRow>)
    requires history != [] && |page| == BATCH_SIZE && AllSeen(history, query, k + 1, rest)
    requires forall i :: 0 <= i < |page| ==>
               page[i].id <= query.upperId && query.matches(page[i]) && InTable(TableAt(history, k), page[i])
    ensures AllSeen(history, query, k, page + rest)
  {
    var rows := page + rest;
    forall i | 0 <= i < |rows|
      ensures rows[i].id <= query.upperId && query.matches(rows[i])
              && InTable(TableAt(history, k + i / BATCH_SIZE), rows[i])
    {
      if i >= BATCH_SIZE {
        assert rows[i] == rest[i - BATCH_SIZE] && i / BATCH_SIZE == 1 + (i - BATCH_SIZE) / BATCH_SIZE;
      }
    }
  }

  lemma JoinPages(history: seq<Table>, query: Query, k: nat, cursor: Option<LogRow>, page: seq<LogRow>,
                  rest: seq<LogRow>)
    requires history != [] && |page| == BATCH_SIZE && Descending(page) && AllBelow(page, cursor)
    requires forall i :: 0 <= i < |page| ==>
               page[i].id <= query.upperId && query.matches(page[i]) && InTable(TableAt(history, k), page[i])
    requires Descending(rest) && AllBelow(rest, Some(page[|page| - 1])) && AllSeen(history, query, k + 1, rest)
    ensures Descending(page + rest) && AllBelow(page + rest, cursor) && AllSeen(history, query, k, page + rest)
  {
    DescendingJoin(page, rest);
    BelowJoin(page, rest, cursor);
    PagesSeen(history, query, k, page, rest);
  }

  /** Whatever happens between pages, rows come out in strictly descending order, so never
      twice, and every one matched the query in the table of its page. */
  lemma {:induction false} ExportIsOrdered(history: seq<Table>, query: Query, k: nat, cursor: Option<LogRow>)
    requires history != []
    ensures var rows := Exported(history, query, k, cursor);
            Descending(rows) && AllBelow(rows, cursor) && AllSeen(history, query, k, rows)
    decreases if k < |history| then |history| - k else 0, |Selected(TableAt(history, k), query, cursor)|
  {
    var page := ReadLogBatch(TableAt(history, k), query, cursor);
    PageIsTop(TableAt(history, k), query, cursor);
    PageSeen(history, query, k, cursor);
    if |page| < BATCH_SIZE {
      OnePageSeen(history, query, k, page);
    } else {
      var last := page[|page| - 1];
      PageShrinks(TableAt(history, k), query, cursor);
      ExportIsOrdered(history, query, k + 1, Some(last));
      var rest := Exported(history, query, k + 1, Some(last));
      JoinPages(history, query, k, cursor, page, rest);
      assert Exported(history, query, k, cursor) == page + rest;
    }
  }

  /** A matching row with an id up to the upper id that is present throughout comes out. */
  lemma {:induction false} ExportIsComplete(history: seq<Table>, query: Query, k: nat, cursor: Option<LogRow>,
                                            r: LogRow)
    requires history != []
    requires forall n :: n >= k ==> r.id in TableAt(history, n) && TableAt(history, n)[r.id] == r.entry
    requires r.id <= query.upperId && query.matches(r) && (cursor.Some? ==> Below(r, cursor.value))
    ensures r in Exported(history, query, k, cursor)
    decreases if k < |history| then |history| - k else 0, |Selected(TableAt(history, k), query, cursor)|
  {
    var table := TableAt(history, k);
    var page := ReadLogBatch(table, query, cursor);
    PageIsTop(table, query, cursor);
    assert r in Selected(table, query, cursor);
    if r !in page {
      PageShrinks(table, query, cursor);
      ExportIsComplete(history, query, k + 1, Some(page[|page| - 1]), r);
    }
  }

  /** Every row present throughout is exported at exactly one position. */
  lemma ExportedExactlyOnce(history: seq<Table>, query: Query, r: LogRow)
    requires history != []
    requires forall n :: 0 <= n < |history| ==> r.id in history[n] && history[n][r.id] == r.entry
    requires r.id <= query.upperId && query.matches(r)
    ensures multiset(Exported(history, query, 0, None))[r] == 1
  {
    var rows := Exported(history, query, 0, None);
    ExportIsComplete(history, query, 0, None, r);
    ExportIsOrdered(history, query, 0, None);
    var i :| 0 <= i < |rows| && rows[i] == r;
    DescendingOnce(rows, i);
  }

  lemma DescendingOnce(rows: seq<LogRow>, i: nat)
    requires Descending(rows) && i < |rows|
    ensures multiset(rows)[rows[i]] == 1
  {
    assert rows == rows[..i] + [rows[i]] + rows[i + 1..];
    assert rows[i] !in rows[..i] && rows[i] !in rows[i + 1..];
  }

  /** No id is ever used again for another row. */
  ghost predicate IdsNotReused(history: seq<Table>)
    requires history != []
  {
    forall m: nat, n: nat, id ::
      id in TableAt(history, m) && id in TableAt(history, n) ==> TableAt(history, m)[id] == TableAt(history, n)[id]
  }

  /** Then no id comes out twice either. */
  lemma ExportedIdsAreDistinct(history: seq<Table>, query: Query, i: nat, j: nat)
    requires history != [] && IdsNotReused(history)
    requires i < j < |Exported(history, query, 0, None)|
    ensures Exported(history, query, 0, None)[i].id != Exported(history, query, 0, None)[j].id
  {
    var rows := Exported(history, query, 0, None);
    ExportIsOrdered(history, query, 0, None);
    assert InTable(TableAt(history, i / BATCH_SIZE), rows[i]) && InTable(TableAt(history, j / BATCH_SIZE), rows[j]);
    assert Below(rows[j], rows[i]);
  }

  ghost predicate SameRows(a: seq<LogRow>, b: seq<LogRow>) {
    forall r :: r in a <==> r in b
  }

  lemma HeadsAgree(a: seq<LogRow>, b: seq<LogRow>)
    requires Descending(a) && Descending(b) && SameRows(a, b) && a != []
    ensures b != [] && a[0] == b[0] && SameRows(a[1..], b[1..])
  {
    assert a[0] in b && b[0] in a;
    forall r | r in a[1..] ensures r in b[1..] {
      var n :| 0 <= n < |a| - 1 && a[1..][n] == r;
      assert r != a[0] && r in a && r in b;
      assert b == [b[0]] + b[1..];
    }
    forall r | r in b[1..] ensures r in a[1..] {
      var n :| 0 <= n < |b| - 1 && b[1..][n] == r;
      assert r != b[0] && r in b && r in a;
      assert a == [a[0]] + a[1..];
    }
  }

  lemma {:induction false} DescendingIsUnique(a: seq<LogRow>, b: seq<LogRow>)
    requires Descending(a) && Descending(b) && SameRows(a, b)
    ensures a == b
  {
    if a != [] {
      HeadsAgree(a, b);
      DescendingIsUnique(a[1..], b[1..]);
      assert a == [a[0]] + a[1..] && b == [b[0]] + b[1..];
    } else if b != [] {
      HeadsAgree(b, a);
    }
  }

  lemma SameRowsWhenQuiet(table: Table, query: Query)
    ensures forall r :: r in Exported([table], query, 0, None) <==> r in Selected(table, query, None)
  {
    var all := Selected(table, query, None);
    var rows := Exported([table], query, 0, None);
    ExportIsOrdered([table], query, 0, None);
    forall r | r in all ensures r in rows {
      ExportIsComplete([table], query, 0, None, r);
    }
    forall r | r in rows ensures r in all {
      var i :| 0 <= i < |rows| && rows[i] == r;
      assert InTable(TableAt([table], i / BATCH_SIZE), rows[i]);
    }
  }

  /** With no change between pages, paging is the same as sorting everything. */
  lemma ExportRefinesSorting(table: Table, query: Query)
    ensures DistinctKeys(Selected(table, query, None))
    ensures Exported([table], query, 0, None) == Sorted(Selected(table, query, None))
  {
    SelectedIsOrdered(table, query, None);
    SortedIsSorted(Selected(table, query, None));
    ExportIsOrdered([table], query, 0, None);
    SameRowsWhenQuiet(table, query);
    DescendingIsUnique(Exported([table], query, 0, None), Sorted(Selected(table, query, None)));
  }

  // ---- chunks

  function Print(rows: seq<LogRow>, csvRow: LogRow -> seq<Byte>): seq<Byte> {
    if rows == [] then [] else Print(rows[..|rows| - 1], csvRow) + csvRow(rows[|rows| - 1])
  }

  function Concat(chunks: seq<seq<Byte>>): seq<Byte> {
    if chunks == [] then [] else Concat(chunks[..|chunks| - 1]) + chunks[|chunks| - 1]
  }

  lemma ConcatAdd(chunks: seq<seq<Byte>>, chunk: seq<Byte>)
    ensures Concat(chunks + [chunk]) == Concat(chunks) + chunk
  {
  }

  lemma {:induction false} PrintAdd(a: seq<LogRow>, b: seq<LogRow>, csvRow: LogRow -> seq<Byte>)
    ensures Print(a + b, csvRow) == Print(a, csvRow) + Print(b, csvRow)
    decreases |b|
  {
    if b == [] {
      assert a + b == a;
    } else {
      assert (a + b)[..|a + b| - 1] == a + b[..|b| - 1];
      PrintAdd(a, b[..|b| - 1], csvRow);
    }
  }

  /** Answers of the disconnect check: false until the poll where the client is gone. */
  class Connection {
    const goneAt: Option<nat>
    var polls: nat

    constructor (goneAt: Option<nat>)
      ensures this.goneAt == goneAt && polls == 0
    {
      this.goneAt := goneAt;
      polls := 0;
    }

    method IsDisconnected() returns (gone: bool)
      modifies this
      ensures gone == (goneAt.Some? && goneAt.value <= old(polls))
      ensures polls == old(polls) + 1
    {
      gone := goneAt.Some? && goneAt.value <= polls;
      polls := polls + 1;
    }
  }

  /** A chunk carries something, and without the row that filled it fewer than 65,536 bytes. */
  ghost predicate ChunkBounded(chunk: seq<Byte>, rows: seq<LogRow>, csvRow: LogRow -> seq<Byte>) {
    chunk != [] && (|chunk| < 65_536 || exists r :: r in rows && FilledBy(chunk, csvRow(r)))
  }

  predicate FilledBy(chunk: seq<Byte>, text: seq<Byte>) {
    |text| <= |chunk| < 65_536 + |text| && chunk[|chunk| - |text|..] == text
  }

  ghost predicate ChunksBounded(chunks: seq<seq<Byte>>, from: nat, rows: seq<LogRow>, csvRow: LogRow -> seq<Byte>) {
    forall c :: from <= c < |chunks| ==> ChunkBounded(chunks[c], rows, csvRow)
  }

  /** Prints one page, handing out a chunk whenever it has grown to CHUNK_BYTES. */
  method StreamBatch(batch: seq<LogRow>, csvRow: LogRow -> seq<Byte>, request: Connection, sent: seq<seq<Byte>>)
    returns (chunks: seq<seq<Byte>>, gone: bool)
    modifies request
    ensures sent <= chunks && ChunksBounded(chunks, |sent|, batch, csvRow)
    ensures forall c :: |sent| <= c < |chunks| - 1 ==> 65_536 <= |chunks[c]|
    ensures !gone ==> Concat(chunks) == Concat(sent) + Print(batch, csvRow)
    ensures gone ==> Concat(chunks) <= Concat(sent) + Print(batch, csvRow)
    ensures request.goneAt.None? ==> !gone
  {
    chunks, gone := sent, false;
    var chunk: seq<Byte> := [];
    for i := 0 to |batch|
      invariant sent <= chunks && !gone && |chunk| < CHUNK_BYTES
      invariant Concat(chunks) + chunk == Concat(sent) + Print(batch[..i], csvRow)
      invariant ChunksBounded(chunks, |sent|, batch, csvRow)
      invariant forall c :: |sent| <= c < |chunks| ==> 65_536 <= |chunks[c]|
    {
      PrintOne(batch, i, csvRow);
      assert Concat(chunks) + (chunk + csvRow(batch[i])) == (Concat(chunks) + chunk) + csvRow(batch[i]);
      assert FilledBy(chunk + csvRow(batch[i]), csvRow(batch[i]));
      chunk := chunk + csvRow(batch[i]);
      assert Concat(chunks) + chunk == Concat(sent) + Print(batch[..i + 1], csvRow);
      if CHUNK_BYTES <= |chunk| {
        gone := request.IsDisconnected();
        if gone {
          PrintPrefix(batch, i + 1, csvRow);
          assert Concat(chunks) <= Concat(chunks) + chunk;
          return;
        }
        ConcatAdd(chunks, chunk);
        chunks := chunks + [chunk];
        chunk := [];
      }
    }
    assert batch[..|batch|] == batch;
    if chunk != [] {
      ConcatAdd(chunks, chunk);
      chunks := chunks + [chunk];
    }
  }

  lemma PrintOne(rows: seq<LogRow>, i: nat, csvRow: LogRow -> seq<Byte>)
    requires i < |rows|
    ensures Print(rows[..i + 1], csvRow) == Print(rows[..i], csvRow) + csvRow(rows[i])
  {
    assert rows[..i + 1][..i] == rows[..i];
  }

  lemma PrintPrefix(rows: seq<LogRow>, i: nat, csvRow: LogRow -> seq<Byte>)
    requires i <= |rows|
    ensures Print(rows[..i], csvRow) <= Print(rows, csvRow)
  {
    assert rows == rows[..i] + rows[i..];
    PrintAdd(rows[..i], rows[i..], csvRow);
  }

  /** The upper id is read first, then the first page. */
  method PrepareLogExport(before: Table, now: Table, matches: LogRow -> bool) returns (query: Query, batch: seq<LogRow>)
    ensures query.matches == matches && (forall id :: id in before ==> id <= query.upperId)
    ensures query.upperId in before || query.upperId == 0
    ensures batch == ReadLogBatch(now, query, None)
  {
    var upper, ids := 0, before.Keys;
    while ids != {}
      invariant ids <= before.Keys && (upper in before || upper == 0)
      invariant forall id :: id in before && id !in ids ==> id <= upper
      decreases ids
    {
      var id :| id in ids;
      upper := if upper < id then id else upper;
      ids := ids - {id};
    }
    query := Query(matches, upper);
    batch := ReadLogBatch(now, query, None);
  }

  /** The bytes of the whole download when nobody disconnects. */
  function FullCsv(header: seq<Byte>, rows: seq<LogRow>, csvRow: LogRow -> seq<Byte>): seq<Byte> {
    header + Print(rows, csvRow)
  }

  /** Exactly the header and the rows before `rest` have been handed out. */
  ghost predicate Sent(chunks: seq<seq<Byte>>, header: seq<Byte>, all: seq<LogRow>, rest: seq<LogRow>,
                       csvRow: LogRow -> seq<Byte>) {
    && 1 <= |chunks| && ChunksBounded(chunks, 1, all, csvRow)
    && |rest| <= |all| && all[|all| - |rest|..] == rest
    && Concat(chunks) == FullCsv(header, all[..|all| - |rest|], csvRow)
  }

  lemma SentIsPrefix(chunks: seq<seq<Byte>>, header: seq<Byte>, all: seq<LogRow>, rest: seq<LogRow>,
                     csvRow: LogRow -> seq<Byte>)
    requires Sent(chunks, header, all, rest, csvRow)
    ensures Concat(chunks) <= FullCsv(header, all, csvRow)
    ensures rest == [] ==> Concat(chunks) == FullCsv(header, all, csvRow)
  {
    var done := all[..|all| - |rest|];
    assert all == done + rest;
    PrintPart(header, all, done, rest, csvRow);
    if rest == [] { assert done == all; }
  }

  lemma SplitRows(all: seq<LogRow>, rest: seq<LogRow>, batch: seq<LogRow>)
    requires batch <= rest && |rest| <= |all| && all[|all| - |rest|..] == rest
    ensures all == (all[..|all| - |rest|] + batch) + rest[|batch|..]
    ensures all[..|all| - |rest| + |batch|] == all[..|all| - |rest|] + batch
    ensures all[|all| - |rest| + |batch|..] == rest[|batch|..]
  {
  }

  lemma TextOfParts(header: seq<Byte>, done: seq<LogRow>, batch: seq<LogRow>, next: seq<LogRow>,
                    csvRow: LogRow -> seq<Byte>)
    ensures FullCsv(header, done + batch, csvRow) == FullCsv(header, done, csvRow) + Print(batch, csvRow)
    ensures FullCsv(header, done + batch, csvRow) <= FullCsv(header, (done + batch) + next, csvRow)
  {
    PrintAdd(done, batch, csvRow);
    assert header + (Print(done, csvRow) + Print(batch, csvRow))
             == (header + Print(done, csvRow)) + Print(batch, csvRow);
    PrintPart(header, (done + batch) + next, done + batch, next, csvRow);
  }

  /** What a page adds to the download. */
  lemma PageText(header: seq<Byte>, all: seq<LogRow>, rest: seq<LogRow>, batch: seq<LogRow>,
                 csvRow: LogRow -> seq<Byte>)
    requires batch <= rest && |rest| <= |all| && all[|all| - |rest|..] == rest
    ensures FullCsv(header, all[..|all| - |rest| + |batch|], csvRow)
            == FullCsv(header, all[..|all| - |rest|], csvRow) + Print(batch, csvRow)
    ensures FullCsv(header, all[..|all| - |rest| + |batch|], csvRow) <= FullCsv(header, all, csvRow)
    ensures all[|all| - |rest| + |batch|..] == rest[|batch|..]
  {
    SplitRows(all, rest, batch);
    TextOfParts(header, all[..|all| - |rest|], batch, rest[|batch|..], csvRow);
  }

  /** One round of the download loop: `batch` is the front of what is left. */
  method StreamPage(batch: seq<LogRow>, csvRow: LogRow -> seq<Byte>, header: seq<Byte>, request: Connection,
                    sent: seq<seq<Byte>>, ghost all: seq<LogRow>, ghost rest: seq<LogRow>)
    returns (chunks: seq<seq<Byte>>, gone: bool)
    requires batch <= rest
    requires Sent(sent, header, all, rest, csvRow)
    modifies request
    ensures !gone ==> Sent(chunks, header, all, rest[|batch|..], csvRow)
    ensures Concat(chunks) <= FullCsv(header, all, csvRow) && ChunksBounded(chunks, 1, all, csvRow)
    ensures request.goneAt.None? ==> !gone
  {
    SentIsPrefix(sent, header, all, rest, csvRow);
    gone := request.IsDisconnected();
    if gone { return sent, true; }
    PageText(header, all, rest, batch, csvRow);
    chunks, gone := StreamBatch(batch, csvRow, request, sent);
    forall r | r in batch ensures r in all {
      var i :| 0 <= i < |batch| && batch[i] == r;
      assert all[|all| - |rest| + i] == rest[i];
    }
    JoinBounds(sent, chunks, batch, all, csvRow);
  }

  /** `history` is what the table holds at each page query. Unless the client goes away the
      chunks add up to the header and the printed export, wherever the chunk boundaries
      fall; if it goes away, to a prefix of that. */
  method StreamLogCsv(history: seq<Table>, query: Query, csvRow: LogRow -> seq<Byte>, header: seq<Byte>,
                      request: Connection, firstBatch: seq<LogRow>)
    returns (chunks: seq<seq<Byte>>, complete: bool)
    requires history != [] && firstBatch == ReadLogBatch(history[0], query, None)
    modifies request
    ensures complete ==> Concat(chunks) == FullCsv(header, Exported(history, query, 0, None), csvRow)
    ensures Concat(chunks) <= FullCsv(header, Exported(history, query, 0, None), csvRow)
    ensures request.goneAt.None? ==> complete
    ensures ChunksBounded(chunks, 1, Exported(history, query, 0, None), csvRow)
  {
    chunks, complete := [], false;
    var gone := request.IsDisconnected();
    if gone { return; }
    ConcatAdd([], header);
    chunks := [header];
    var batch, k := firstBatch, 0;
    ghost var cursor: Option<LogRow> := None;
    ghost var all := Exported(history, query, 0, None);
    ghost var rest := all;
    while batch != []
      invariant Sent(chunks, header, all, rest, csvRow)
      invariant batch == ReadLogBatch(TableAt(history, k), query, cursor)
      invariant rest == Exported(history, query, k, cursor)
      decreases ChangesLeft(history, k), RowsLeft(history, query, k, cursor)
    {
      NextPage(history, query, k, cursor, batch, rest);
      chunks, gone := StreamPage(batch, csvRow, header, request, chunks, all, rest);
      if gone { return; }
      rest := rest[|batch|..];
      if |batch| < BATCH_SIZE { break; }
      gone := request.IsDisconnected();
      if gone {
        SentIsPrefix(chunks, header, all, rest, csvRow);
        return;
      }
      var last := batch[|batch| - 1];
      batch := ReadLogBatch(TableAt(history, k + 1), query, Some(last));
      k, cursor := k + 1, Some(last);
    }
    if batch == [] { NextPage(history, query, k, cursor, batch, rest); }
    SentIsPrefix(chunks, header, all, rest, csvRow);
    complete := true;
  }

  ghost function ChangesLeft(history: seq<Table>, k: nat): nat {
    if k < |history| then |history| - k else 0
  }

  ghost function RowsLeft(history: seq<Table>, query: Query, k: nat, cursor: Option<LogRow>): nat
    requires history != []
  {
    |Selected(TableAt(history, k), query, cursor)|
  }

  /** A short page is all that is left; a full page is followed by the next one. */
  lemma NextPage(history: seq<Table>, query: Query, k: nat, cursor: Option<LogRow>, batch: seq<LogRow>,
                 rows: seq<LogRow>)
    requires history != []
    requires batch == ReadLogBatch(TableAt(history, k), query, cursor) && rows == Exported(history, query, k, cursor)
    ensures |batch| <= BATCH_SIZE && batch <= rows
    ensures |batch| < BATCH_SIZE ==> rows == batch
    ensures |batch| == BATCH_SIZE ==>
              var next := Some(batch[|batch| - 1]);
              && rows[|batch|..] == Exported(history, query, k + 1, next)
              && (ChangesLeft(history, k + 1) < ChangesLeft(history, k)
                  || (ChangesLeft(history, k + 1) == ChangesLeft(history, k)
                      && RowsLeft(history, query, k + 1, next) < RowsLeft(history, query, k, cursor)))
  {
    PageIsTop(TableAt(history, k), query, cursor);
    if |batch| == BATCH_SIZE { PageShrinks(TableAt(history, k), query, cursor); }
  }

  lemma PrintPart(header: seq<Byte>, all: seq<LogRow>, done: seq<LogRow>, rest: seq<LogRow>,
                  csvRow: LogRow -> seq<Byte>)
    requires all == done + rest
    ensures header + Print(done, csvRow) <= header + Print(all, csvRow)
  {
    PrintAdd(done, rest, csvRow);
    assert header + Print(all, csvRow) == (header + Print(done, csvRow)) + Print(rest, csvRow);
  }

  lemma JoinBounds(sent: seq<seq<Byte>>, chunks: seq<seq<Byte>>, batch: seq<LogRow>, rows: seq<LogRow>,
                   csvRow: LogRow -> seq<Byte>)
    requires 1 <= |sent| && sent <= chunks && ChunksBounded(sent, 1, rows, csvRow)
    requires ChunksBounded(chunks, |sent|, batch, csvRow) && forall r :: r in batch ==> r in rows
    ensures ChunksBounded(chunks, 1, rows, csvRow)
  {
    forall c | 1 <= c < |chunks| ensures ChunkBounded(chunks[c], rows, csvRow) {
      if c < |sent| { assert chunks[c] == sent[c]; } else { assert ChunkBounded(chunks[c], batch, csvRow); }
    }
  }
}
