/**
 * The CSV export: a printer with a formula guard, and a reader for the format of section 2 of
 * RFC 4180 that also accepts a carriage return on its own inside an unquoted field.
 */
module CsvExport {
  import opened Wrappers
  import opened Text

  const BOM := "\U{FEFF}"
  const CRLF := "\r\n"

  const TRIGGERS := {'=', '+', '-', '@', '\t', '\r'}

  /* ---------- the printer ---------- */

  /** A cell that a spreadsheet would take for a formula gets a leading apostrophe. */
  function Guard(s: string): string {
    if s != "" && s[0] in TRIGGERS then "'" + s else s
  }

  predicate NeedsQuotes(s: string) {
    '"' in s || ',' in s || '\n' in s
  }

  function DoubleQuotes(s: string): string {
    if s == "" then ""
    else (if s[0] == '"' then "\"\"" else [s[0]]) + DoubleQuotes(s[1..])
  }

  function Escape(s: string): string {
    var safe := Guard(s);
    if NeedsQuotes(safe) then "\"" + DoubleQuotes(safe) + "\"" else safe
  }

  function EscapeAll(cells: seq<string>): (r: seq<string>)
    ensures |r| == |cells|
  {
    if cells == [] then [] else [Escape(cells[0])] + EscapeAll(cells[1..])
  }

  function Line(cells: seq<string>): string { Join(EscapeAll(cells), ",") }

  function Lines(table: seq<seq<string>>): (r: seq<string>)
    ensures |r| == |table|
  {
    if table == [] then [] else [Line(table[0])] + Lines(table[1..])
  }

  /** The export of a header and rows of cells, already turned to text. */
  function Csv(header: seq<string>, rows: seq<seq<string>>): string {
    BOM + Join(Lines([header] + rows), CRLF)
  }

  /* ---------- the reader ---------- */

  predicate AtBreak(t: string) { |t| >= 2 && t[0] == '\r' && t[1] == '\n' }

  /** Where a field may end: the end of the text, a comma, or a line break. */
  predicate AtEnd(t: string) { t == "" || t[0] == ',' || AtBreak(t) }

  /** An unquoted field; a quote or a lone line feed in it is malformed. */
  function ReadPlain(t: string): (r: Option<(string, string)>)
    ensures r.Some? ==> |r.value.1| <= |t| && AtEnd(r.value.1)
  {
    if AtEnd(t) then Some(("", t))
    else if t[0] == '"' || t[0] == '\n' then None
    else
      match ReadPlain(t[1..])
      case None => None
      case Some((field, rest)) => Some(([t[0]] + field, rest))
  }

  /** The inside of a quoted field: a doubled quote stands for one, a single one closes. */
  function ReadQuoted(t: string): (r: Option<(string, string)>)
    ensures r.Some? ==> |r.value.1| < |t|
  {
    if t == "" then None
    else if t[0] != '"' then
      match ReadQuoted(t[1..])
      case None => None
      case Some((field, rest)) => Some(([t[0]] + field, rest))
    else if |t| >= 2 && t[1] == '"' then
      match ReadQuoted(t[2..])
      case None => None
      case Some((field, rest)) => Some(("\"" + field, rest))
    else Some(("", t[1..]))
  }

  function ReadField(t: string): (r: Option<(string, string)>)
    ensures r.Some? ==> |r.value.1| <= |t| && AtEnd(r.value.1)
  {
    if t != "" && t[0] == '"' then
      match ReadQuoted(t[1..])
      case None => None
      case Some((field, rest)) => if AtEnd(rest) then Some((field, rest)) else None
    else ReadPlain(t)
  }

  function ReadRecord(t: string): (r: Option<(seq<string>, string)>)
    ensures r.Some? ==> |r.value.1| <= |t| && (r.value.1 == "" || AtBreak(r.value.1))
    decreases |t|
  {
    match ReadField(t)
    case None => None
    case Some((field, rest)) =>
      if rest != "" && rest[0] == ',' then
        match ReadRecord(rest[1..])
        case None => None
        case Some((fields, after)) => Some(([field] + fields, after))
      else Some(([field], rest))
  }

  /** Records separated by line breaks. */
  function ReadTable(t: string): Option<seq<seq<string>>>
    decreases |t|
  {
    match ReadRecord(t)
    case None => None
    case Some((record, rest)) =>
      if rest == "" then Some([record])
      else
        match ReadTable(rest[2..])
        case None => None
        case Some(records) => Some([record] + records)
  }

  function ReadCsv(t: string): Option<seq<seq<string>>> {
    ReadTable(if BOM <= t then t[1..] else t)
  }

  function GuardAll(cells: seq<string>): (r: seq<string>)
    ensures |r| == |cells|
  {
    if cells == [] then [] else [Guard(cells[0])] + GuardAll(cells[1..])
  }

  function GuardTable(table: seq<seq<string>>): (r: seq<seq<string>>)
    ensures |r| == |table|
  {
    if table == [] then [] else [GuardAll(table[0])] + GuardTable(table[1..])
  }

  /* ---------- the round trip ---------- */

  lemma {:induction false} PlainRoundTrip(s: string, rest: string)
    requires !NeedsQuotes(s) && AtEnd(rest)
    ensures ReadPlain(s + rest) == Some((s, rest))
  {
    if s == "" {
      assert s + rest == rest;
    } else {
      assert (s + rest)[1..] == s[1..] + rest;
      assert (s + rest)[0] == s[0] && s[0] in s;
      assert !AtEnd(s + rest) by {
        if |s| > 1 { assert (s + rest)[1] == s[1] && s[1] in s; }
      }
      PlainRoundTrip(s[1..], rest);
      assert [s[0]] + s[1..] == s;
    }
  }

  lemma {:induction false} QuotedRoundTrip(s: string, rest: string)
    requires rest == "" || rest[0] != '"'
    ensures ReadQuoted(DoubleQuotes(s) + "\"" + rest) == Some((s, rest))
  {
    var t := DoubleQuotes(s) + "\"" + rest;
    if s == "" {
      assert t == "\"" + rest && t[1..] == rest;
    } else {
      QuotedRoundTrip(s[1..], rest);
      assert [s[0]] + s[1..] == s;
      var tail := DoubleQuotes(s[1..]) + "\"" + rest;
      if s[0] == '"' {
        assert t == "\"\"" + tail && t[2..] == tail;
      } else {
        assert t == [s[0]] + tail && t[1..] == tail;
      }
    }
  }

  lemma PlainField(safe: string, rest: string)
    requires !NeedsQuotes(safe) && AtEnd(rest)
    ensures ReadField(safe + rest) == Some((safe, rest))
  {
    PlainRoundTrip(safe, rest);
    if safe == "" {
      assert safe + rest == rest;
    } else {
      assert (safe + rest)[0] == safe[0] && safe[0] in safe;
    }
  }

  lemma QuotedField(safe: string, rest: string)
    requires AtEnd(rest)
    ensures ReadField("\"" + DoubleQuotes(safe) + "\"" + rest) == Some((safe, rest))
  {
    var body := DoubleQuotes(safe) + "\"" + rest;
    var t := "\"" + DoubleQuotes(safe) + "\"" + rest;
    QuotedRoundTrip(safe, rest);
    assert t == "\"" + body;
    assert t[0] == '"' && t[1..] == body;
  }

  /** A printed cell reads back as the guarded cell, and the reader stops right after it. */
  lemma FieldRoundTrip(s: string, rest: string)
    requires AtEnd(rest)
    ensures ReadField(Escape(s) + rest) == Some((Guard(s), rest))
  {
    if NeedsQuotes(Guard(s)) {
      QuotedField(Guard(s), rest);
    } else {
      PlainField(Guard(s), rest);
    }
  }

  lemma RecordOfOne(cell: string, rest: string)
    requires rest == "" || AtBreak(rest)
    ensures ReadRecord(Escape(cell) + rest) == Some(([Guard(cell)], rest))
  {
    FieldRoundTrip(cell, rest);
  }

  lemma RecordOfMore(cell: string, tail: string, fields: seq<string>, rest: string)
    requires ReadRecord(tail) == Some((fields, rest))
    ensures ReadRecord(Escape(cell) + "," + tail) == Some(([Guard(cell)] + fields, rest))
  {
    var after := "," + tail;
    Text.Regroup(Escape(cell), ",", tail);
    assert after != "" && after[0] == ',' && after[1..] == tail;
    FieldRoundTrip(cell, after);
    FieldThenMore(Escape(cell) + after, Guard(cell), after, fields, rest);
  }

  lemma FieldThenMore(t: string, field: string, after: string, fields: seq<string>, rest: string)
    requires ReadField(t) == Some((field, after)) && after != "" && after[0] == ','
    requires ReadRecord(after[1..]) == Some((fields, rest))
    ensures ReadRecord(t) == Some(([field] + fields, rest))
  {
  }

  lemma LineUnfolds(cells: seq<string>)
    requires cells != []
    ensures |cells| == 1 ==> Line(cells) == Escape(cells[0])
    ensures |cells| > 1 ==> Line(cells) == Escape(cells[0]) + "," + Line(cells[1..])
    ensures |cells| == 1 ==> GuardAll(cells) == [Guard(cells[0])]
    ensures GuardAll(cells) == [Guard(cells[0])] + GuardAll(cells[1..])
  {
    var escaped := EscapeAll(cells);
    assert escaped == [Escape(cells[0])] + EscapeAll(cells[1..]);
    assert escaped[0] == Escape(cells[0]) && escaped[1..] == EscapeAll(cells[1..]);
  }

  lemma Regroup(a: string, b: string, c: string, d: string)
    ensures (a + b + c) + d == a + b + (c + d)
  {
  }

  lemma {:induction false} RecordRoundTrip(cells: seq<string>, rest: string)
    requires cells != [] && (rest == "" || AtBreak(rest))
    ensures ReadRecord(Line(cells) + rest) == Some((GuardAll(cells), rest))
  {
    LineUnfolds(cells);
    if |cells| == 1 {
      RecordOfOne(cells[0], rest);
    } else {
      var tail := Line(cells[1..]) + rest;
      RecordRoundTrip(cells[1..], rest);
      RecordOfMore(cells[0], tail, GuardAll(cells[1..]), rest);
      Regroup(Escape(cells[0]), ",", Line(cells[1..]), rest);
    }
  }

  lemma ReadTableStep(t: string, record: seq<string>, rest: string)
    requires ReadRecord(t) == Some((record, rest))
    ensures rest == "" ==> ReadTable(t) == Some([record])
    ensures rest != "" && ReadTable(rest[2..]).Some? ==> ReadTable(t) == Some([record] + ReadTable(rest[2..]).value)
  {
  }

  lemma LinesUnfold(table: seq<seq<string>>)
    requires table != []
    ensures |table| == 1 ==> Join(Lines(table), CRLF) == Line(table[0])
    ensures |table| > 1 ==> Join(Lines(table), CRLF) == Line(table[0]) + CRLF + Join(Lines(table[1..]), CRLF)
    ensures |table| == 1 ==> GuardTable(table) == [GuardAll(table[0])]
    ensures GuardTable(table) == [GuardAll(table[0])] + GuardTable(table[1..])
  {
    var lines := Lines(table);
    assert lines == [Line(table[0])] + Lines(table[1..]);
    JoinUnfolds(lines, CRLF);
    assert lines[0] == Line(table[0]) && lines[1..] == Lines(table[1..]);
  }

  lemma JoinUnfolds(parts: seq<string>, separator: string)
    requires parts != []
    ensures |parts| == 1 ==> Join(parts, separator) == parts[0]
    ensures |parts| > 1 ==> Join(parts, separator) == parts[0] + separator + Join(parts[1..], separator)
  {
  }

  /** A line, a line break, and a text that reads as the rest of a table. */
  lemma LineThenTable(cells: seq<string>, tail: string, records: seq<seq<string>>)
    requires cells != [] && ReadTable(tail) == Some(records)
    ensures ReadTable(Line(cells) + CRLF + tail) == Some([GuardAll(cells)] + records)
  {
    var after := CRLF + tail;
    Text.Regroup(Line(cells), CRLF, tail);
    assert after != "" && AtBreak(after) && after[2..] == tail;
    RecordRoundTrip(cells, after);
    ReadTableStep(Line(cells) + after, GuardAll(cells), after);
  }

  lemma {:induction false} TableRoundTrip(table: seq<seq<string>>)
    requires table != [] && forall i | 0 <= i < |table| :: table[i] != []
    ensures ReadTable(Join(Lines(table), CRLF)) == Some(GuardTable(table))
  {
    LinesUnfold(table);
    if |table| == 1 {
      RecordRoundTrip(table[0], "");
      assert Line(table[0]) == Line(table[0]) + "";
      ReadTableStep(Line(table[0]), GuardAll(table[0]), "");
    } else {
      TableRoundTrip(table[1..]);
      LineThenTable(table[0], Join(Lines(table[1..]), CRLF), GuardTable(table[1..]));
    }
  }

  /** No cell of the record starts like a formula. */
  ghost predicate Harmless(cells: seq<string>) {
    forall j | 0 <= j < |cells| :: cells[j] == "" || cells[j][0] !in TRIGGERS
  }

  lemma GuardIsHarmless(cells: seq<string>)
    ensures Harmless(GuardAll(cells))
  {
    forall j | 0 <= j < |cells| ensures GuardAll(cells)[j] == "" || GuardAll(cells)[j][0] !in TRIGGERS {
      GuardAllAt(cells, j);
    }
  }

  /** What a reader gets for a cell: the cell, or an apostrophe and the cell when it starts like a formula. */
  ghost predicate Recovered(read: string, cell: string) {
    read == if cell != "" && cell[0] in {'=', '+', '-', '@', '\t', '\r'} then "'" + cell else cell
  }

  ghost predicate AllRecovered(read: seq<seq<string>>, table: seq<seq<string>>) {
    && |read| == |table|
    && (forall i | 0 <= i < |table| :: |read[i]| == |table[i]|)
    && (forall i, j | 0 <= i < |table| && 0 <= j < |table[i]| && |read[i]| == |table[i]| ::
          Recovered(read[i][j], table[i][j]))
  }

  lemma GuardedIsRecovered(table: seq<seq<string>>)
    ensures AllRecovered(GuardTable(table), table)
  {
    var read := GuardTable(table);
    forall i | 0 <= i < |table| ensures |read[i]| == |table[i]| {
      GuardTableAt(table, i);
    }
    forall i, j | 0 <= i < |table| && 0 <= j < |table[i]| && |read[i]| == |table[i]|
      ensures Recovered(read[i][j], table[i][j])
    {
      GuardTableAt(table, i);
      GuardAllAt(table[i], j);
    }
  }

  /**
   * Reading the export gives back the header and every cell as it was, but for an apostrophe
   * before a cell that starts like a formula; so no recovered cell starts like one.
   */
  lemma CsvRoundTrip(header: seq<string>, rows: seq<seq<string>>)
    requires header != [] && forall i | 0 <= i < |rows| :: |rows[i]| == |header|
    ensures ReadCsv(Csv(header, rows)) == Some(GuardTable([header] + rows))
    ensures forall i | 0 <= i < |rows| + 1 :: Harmless(GuardTable([header] + rows)[i])
    ensures ReadCsv(Csv(header, rows)).Some? && AllRecovered(ReadCsv(Csv(header, rows)).value, [header] + rows)
  {
    var table := [header] + rows;
    CsvReads(header, rows);
    GuardedIsRecovered(table);
    forall i | 0 <= i < |table| ensures Harmless(GuardTable(table)[i]) {
      GuardTableAt(table, i);
      GuardIsHarmless(table[i]);
    }
  }

  lemma {:induction false} GuardAllAt(cells: seq<string>, j: nat)
    requires j < |cells|
    ensures GuardAll(cells)[j] == Guard(cells[j])
  {
    if j > 0 {
      GuardAllAt(cells[1..], j - 1);
    }
  }

  lemma {:induction false} GuardTableAt(table: seq<seq<string>>, i: nat)
    requires i < |table|
    ensures GuardTable(table)[i] == GuardAll(table[i])
  {
    if i > 0 {
      GuardTableAt(table[1..], i - 1);
    }
  }

  lemma BomIsDropped(text: string)
    ensures ReadCsv(BOM + text) == ReadTable(text)
  {
    assert BOM <= BOM + text && (BOM + text)[1..] == text;
  }

  /** The guard loses nothing on cells that hold no formula, and one apostrophe on those that do. */
  lemma GuardIsInjectiveUpToApostrophe(s: string, t: string)
    requires Guard(s) == Guard(t)
    ensures s == t || s == "'" + t || t == "'" + s
  {
    assert ("'" + s)[1..] == s && ("'" + t)[1..] == t;
  }

  /* ---------- what is written ---------- */

  /** Neither quoted nor guarded: no quote, comma or line feed, and no formula trigger in front. */
  ghost predicate Plain(cell: string) {
    && '"' !in cell && ',' !in cell && '\n' !in cell
    && (cell != "" ==> cell[0] !in {'=', '+', '-', '@', '\t', '\r'})
  }

  ghost predicate PlainRow(cells: seq<string>) { forall cell | cell in cells :: Plain(cell) }

  /** The lines of a table whose cells are written as they are. */
  function BareLines(table: seq<seq<string>>): seq<string> {
    if table == [] then [] else [Join(table[0], ",")] + BareLines(table[1..])
  }

  lemma PlainCellIsWritten(cell: string)
    requires Plain(cell)
    ensures Escape(cell) == cell
  {
    assert Guard(cell) == cell && !NeedsQuotes(cell);
  }

  lemma {:induction false} PlainCellsAreWritten(cells: seq<string>)
    requires PlainRow(cells)
    ensures EscapeAll(cells) == cells
  {
    if cells != [] {
      assert cells[0] in cells && cells == [cells[0]] + cells[1..];
      PlainCellIsWritten(cells[0]);
      assert PlainRow(cells[1..]);
      PlainCellsAreWritten(cells[1..]);
    }
  }

  lemma {:induction false} PlainLines(table: seq<seq<string>>)
    requires forall row | row in table :: PlainRow(row)
    ensures Lines(table) == BareLines(table)
  {
    if table != [] {
      assert table[0] in table && forall row | row in table[1..] :: row in table;
      PlainCellsAreWritten(table[0]);
      PlainLines(table[1..]);
    }
  }

  /** A table of plain cells is written as they are: commas between, CR LF between lines, the mark in front. */
  lemma PlainExport(header: seq<string>, rows: seq<seq<string>>)
    requires forall row | row in [header] + rows :: PlainRow(row)
    ensures Csv(header, rows) == "\U{FEFF}" + Join(BareLines([header] + rows), "\r\n")
  {
    PlainLines([header] + rows);
  }

  /** A cell is put in quotes exactly when it holds a quote, a comma or a line feed. */
  lemma QuotedIffNeeded(s: string)
    ensures (Escape(s) != "" && Escape(s)[0] == '"') <==> ('"' in s || ',' in s || '\n' in s)
  {
    if s != "" {
      assert s[0] in s;
    }
    assert forall c | c in "'" + s :: c == '\'' || c in s;
  }

  /* ---------- an optional final line break ---------- */

  /** A reader that takes a line break at the very end as closing the last record. */
  function ReadClosed(t: string): Option<seq<seq<string>>> {
    match ReadCsv(t)
    case None => None
    case Some(records) =>
      if |records| > 1 && records[|records| - 1] == [""] then Some(records[..|records| - 1]) else Some(records)
  }

  lemma LoneEmptyLast(width: nat, table: seq<seq<string>>)
    requires table != [] && width > 0 && |table[|table| - 1]| == width
    ensures GuardTable(table)[|table| - 1] == [""] <==> width == 1 && table[|table| - 1][0] == ""
  {
    var last := table[|table| - 1];
    GuardTableAt(table, |table| - 1);
    GuardAllAt(last, 0);
    if width == 1 {
      assert GuardAll(last) == [Guard(last[0])];
    }
  }

  lemma CsvReads(header: seq<string>, rows: seq<seq<string>>)
    requires header != [] && forall i | 0 <= i < |rows| :: |rows[i]| == |header|
    ensures ReadCsv(Csv(header, rows)) == Some(GuardTable([header] + rows))
  {
    TableRoundTrip([header] + rows);
    BomIsDropped(Join(Lines([header] + rows), CRLF));
  }

  /** Such a reader loses the last row exactly when it is a lone empty cell. */
  lemma ClosedReaderRoundTrip(header: seq<string>, rows: seq<seq<string>>)
    requires header != [] && forall i | 0 <= i < |rows| :: |rows[i]| == |header|
    ensures ReadClosed(Csv(header, rows)) == Some(GuardTable([header] + rows)) <==>
            !(|header| == 1 && rows != [] && rows[|rows| - 1][0] == "")
  {
    CsvReads(header, rows);
    if rows != [] {
      assert ([header] + rows)[|rows|] == rows[|rows| - 1];
      LoneEmptyLast(|header|, [header] + rows);
    }
  }
}
