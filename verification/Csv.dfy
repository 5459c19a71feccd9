/** The CSV writer of the compliance exports, read back by a strict RFC 4180 reader. */
module Csv {

  datatype Cell = Null | Text(s: string)

  /** A row is looked up by field; a missing field reads as undefined. */
  type Row = map<string, Cell>

  // ---- the writer -----------------------------------------------------------------

  predicate Special(c: char) { c == '"' || c == ',' || c == '\r' || c == '\n' }

  predicate NeedsQuotes(s: string) { exists i :: 0 <= i < |s| && Special(s[i]) }

  /** Every quote doubled. */
  function Doubled(s: string): string {
    if s == [] then [] else (if s[0] == '"' then "\"\"" else [s[0]]) + Doubled(s[1..])
  }

  function EscapeText(s: string): string {
    if NeedsQuotes(s) then "\"" + Doubled(s) + "\"" else s
  }

  function EscapeField(c: Cell): string {
    match c
    case Null => ""
    case Text(s) => EscapeText(s)
  }

  function Lookup(row: Row, field: string): Cell { if field in row then row[field] else Null }

  function Join(parts: seq<string>, separator: string): string {
    if parts == [] then ""
    else if |parts| == 1 then parts[0]
    else parts[0] + separator + Join(parts[1..], separator)
  }

  function Line(cells: seq<Cell>): string {
    Join(seq(|cells|, i requires 0 <= i < |cells| => EscapeField(cells[i])), ",")
  }

  function Header(fields: seq<string>): seq<Cell> {
    seq(|fields|, i requires 0 <= i < |fields| => Text(fields[i]))
  }

  function CellsOf(fields: seq<string>, row: Row): seq<Cell> {
    seq(|fields|, i requires 0 <= i < |fields| => Lookup(row, fields[i]))
  }

  function Lines(fields: seq<string>, rows: seq<Row>): seq<string> {
    seq(|rows|, i requires 0 <= i < |rows| => Line(CellsOf(fields, rows[i])))
  }

  function ToCsv(fields: seq<string>, rows: seq<Row>): string {
    Join([Line(Header(fields))] + Lines(fields, rows), "\r\n")
  }

  // ---- a strict reader (RFC 4180, section 2) ------------------------------------------

  datatype Mode = Start | Plain | Quoted | Closed

  datatype Table = Rejected | Records(records: seq<seq<string>>)

  predicate AtBreak(text: string) { |text| >= 2 && text[0] == '\r' && text[1] == '\n' }

  /** Reads `text` from inside a field; CRLF, outside quotes, separates records, and a
      bare CR, LF or quote in an unquoted field is an error. */
  function Scan(text: string, mode: Mode, field: string, record: seq<string>, records: seq<seq<string>>): Table
    decreases |text|
  {
    if text == [] then
      if mode == Quoted then Rejected else Records(records + [record + [field]])
    else if mode == Quoted then
      Scan(text[1..], if text[0] == '"' then Closed else Quoted,
           if text[0] == '"' then field else field + [text[0]], record, records)
    else if text[0] == ',' then Scan(text[1..], Start, "", record + [field], records)
    else if AtBreak(text) then Scan(text[2..], Start, "", [], records + [record + [field]])
    else if text[0] == '\r' || text[0] == '\n' then Rejected
    else if text[0] == '"' then
      match mode
      case Start => Scan(text[1..], Quoted, "", record, records)
      case Closed => Scan(text[1..], Quoted, field + "\"", record, records)
      case _ => Rejected
    else if mode == Closed then Rejected
    else Scan(text[1..], Plain, field + [text[0]], record, records)
  }

  function Read(text: string): Table { Scan(text, Start, "", [], []) }

  // ---- what the reader should recover ----------------------------------------------------

  /** The text of a cell: null reads back as empty. */
  function TextOf(c: Cell): string {
    match c
    case Null => ""
    case Text(s) => s
  }

  function TextsOf(cells: seq<Cell>): seq<string> {
    seq(|cells|, i requires 0 <= i < |cells| => TextOf(cells[i]))
  }

  function Expected(fields: seq<string>, rows: seq<Row>): seq<seq<string>> {
    [fields] + seq(|rows|, i requires 0 <= i < |rows| => TextsOf(CellsOf(fields, rows[i])))
  }

  // ---- when a cell is quoted ----------------------------------------------------------------

  function Quotes(s: string): nat {
    if s == [] then 0 else (if s[0] == '"' then 1 else 0) + Quotes(s[1..])
  }

  lemma {:induction false} DoubledLength(s: string)
    ensures |Doubled(s)| == |s| + Quotes(s)
  {
    if s != [] { DoubledLength(s[1..]); }
  }

  /** A cell is written as it is exactly if it holds no comma, quote, CR or LF; otherwise it
      grows by the two quotes around it and one more for every quote in it. */
  lemma QuotedExactly(s: string)
    ensures EscapeField(Text(s)) == s <==> forall c :: c in s ==> c != ',' && c != '"' && c != '\r' && c != '\n'
    ensures EscapeField(Text(s)) != s ==>
              var written := EscapeField(Text(s));
              written[0] == '"' == written[|written| - 1] && |written| == |s| + 2 + Quotes(s)
  {
    DoubledLength(s);
    if c :| c in s && Special(c) {
      var i :| 0 <= i < |s| && s[i] == c;
      assert NeedsQuotes(s);
      assert |EscapeText(s)| > |s|;
    }
  }

  // ---- one field --------------------------------------------------------------------------

  lemma {:induction false} ScanPlain(s: string, tail: string, mode: Mode, field: string,
                                     record: seq<string>, records: seq<seq<string>>)
    requires !NeedsQuotes(s) && s != [] && (mode == Start || mode == Plain)
    ensures Scan(s + tail, mode, field, record, records) == Scan(tail, Plain, field + s, record, records)
  {
    assert !Special(s[0]) && (s + tail)[0] == s[0] && (s + tail)[1..] == s[1..] + tail;
    if |s| == 1 {
      assert s[1..] + tail == tail && field + [s[0]] == field + s;
    } else {
      ScanPlain(s[1..], tail, Plain, field + [s[0]], record, records);
      assert field + [s[0]] + s[1..] == field + s;
    }
  }

  lemma {:induction false} ScanQuoted(s: string, tail: string, field: string,
                                      record: seq<string>, records: seq<seq<string>>)
    ensures Scan(Doubled(s) + "\"" + tail, Quoted, field, record, records)
         == Scan(tail, Closed, field + s, record, records)
  {
    var text := Doubled(s) + "\"" + tail;
    if s == [] {
      assert text[0] == '"' && text[1..] == tail && field + s == field;
    } else {
      ScanQuoted(s[1..], tail, field + [s[0]], record, records);
      assert field + [s[0]] + s[1..] == field + s;
      if s[0] == '"' {
        assert text == "\"\"" + (Doubled(s[1..]) + "\"" + tail);
        assert text[1..][0] == '"' && text[1..][1..] == Doubled(s[1..]) + "\"" + tail;
      } else {
        assert text == [s[0]] + (Doubled(s[1..]) + "\"" + tail);
        assert text[1..] == Doubled(s[1..]) + "\"" + tail;
      }
    }
  }

  /** Where a written field may end. */
  predicate EndsField(tail: string) { tail == [] || tail[0] == ',' || AtBreak(tail) }

  /** At the end of a field the three open modes agree. */
  lemma EndAgrees(tail: string, mode: Mode, field: string, record: seq<string>, records: seq<seq<string>>)
    requires EndsField(tail) && mode != Quoted
    ensures Scan(tail, mode, field, record, records) == Scan(tail, Plain, field, record, records)
  {
  }

  lemma ScanQuotedCell(s: string, tail: string, record: seq<string>, records: seq<seq<string>>)
    requires NeedsQuotes(s) && EndsField(tail)
    ensures Scan("\"" + Doubled(s) + "\"" + tail, Start, "", record, records) == Scan(tail, Plain, s, record, records)
  {
    var text := "\"" + Doubled(s) + "\"" + tail;
    var inner := Doubled(s) + "\"" + tail;
    assert text == "\"" + inner;
    assert text[0] == '"' && text[1..] == inner;
    assert "" + s == s;
    ScanQuoted(s, tail, "", record, records);
    EndAgrees(tail, Closed, s, record, records);
  }

  /** Reading one written cell recovers its text. */
  lemma ScanCell(c: Cell, tail: string, record: seq<string>, records: seq<seq<string>>)
    requires EndsField(tail)
    ensures Scan(EscapeField(c) + tail, Start, "", record, records)
         == Scan(tail, Plain, TextOf(c), record, records)
  {
    var s := TextOf(c);
    assert EscapeField(c) == EscapeText(s);
    if NeedsQuotes(s) {
      ScanQuotedCell(s, tail, record, records);
    } else if s == [] {
      assert "" + tail == tail;
      EndAgrees(tail, Start, "", record, records);
    } else {
      assert "" + s == s;
      ScanPlain(s, tail, Start, "", record, records);
    }
  }

  // ---- one record ------------------------------------------------------------------------------

  function Escaped(cells: seq<Cell>): seq<string> {
    seq(|cells|, i requires 0 <= i < |cells| => EscapeField(cells[i]))
  }

  lemma LineStep(cells: seq<Cell>, tail: string)
    requires |cells| > 1
    ensures Line(cells) + tail == EscapeField(cells[0]) + ("," + (Line(cells[1..]) + tail))
  {
    assert Escaped(cells)[1..] == Escaped(cells[1..]);
    assert Line(cells) == EscapeField(cells[0]) + "," + Line(cells[1..]);
  }

  /** A cell followed by a comma is read and the record grows by its text. */
  lemma ScanCellComma(c: Cell, rest: string, record: seq<string>, records: seq<seq<string>>)
    ensures Scan(EscapeField(c) + ("," + rest), Start, "", record, records)
         == Scan(rest, Start, "", record + [TextOf(c)], records)
  {
    var tail := "," + rest;
    ScanCell(c, tail, record, records);
    assert tail[0] == ',' && tail[1..] == rest;
  }

  lemma TextsStep(cells: seq<Cell>, record: seq<string>)
    requires |cells| > 1
    ensures record + [TextOf(cells[0])] + TextsOf(cells[1..][..|cells[1..]| - 1])
         == record + TextsOf(cells[..|cells| - 1])
  {
    var rest := cells[1..];
    assert TextsOf(cells[..|cells| - 1]) == [TextOf(cells[0])] + TextsOf(rest[..|rest| - 1]);
  }

  lemma {:induction false} ScanLine(cells: seq<Cell>, tail: string, record: seq<string>, records: seq<seq<string>>)
    requires cells != [] && (tail == [] || AtBreak(tail))
    ensures Scan(Line(cells) + tail, Start, "", record, records)
         == Scan(tail, Plain, TextOf(cells[|cells| - 1]), record + TextsOf(cells[..|cells| - 1]), records)
  {
    if |cells| == 1 {
      assert Line(cells) == EscapeField(cells[0]);
      assert record + TextsOf(cells[..0]) == record;
      ScanCell(cells[0], tail, record, records);
    } else {
      var rest := cells[1..];
      LineStep(cells, tail);
      ScanCellComma(cells[0], Line(rest) + tail, record, records);
      ScanLine(rest, tail, record + [TextOf(cells[0])], records);
      TextsStep(cells, record);
    }
  }

  /** A line closed by CRLF is one record. */
  lemma ScanRecord(cells: seq<Cell>, tail: string, records: seq<seq<string>>)
    requires cells != []
    ensures Scan(Line(cells) + "\r\n" + tail, Start, "", [], records)
         == Scan(tail, Start, "", [], records + [TextsOf(cells)])
    ensures Scan(Line(cells), Start, "", [], records) == Records(records + [TextsOf(cells)])
  {
    var front, last := TextsOf(cells[..|cells| - 1]), TextOf(cells[|cells| - 1]);
    assert [] + front == front && front + [last] == TextsOf(cells);
    assert Line(cells) + "\r\n" + tail == Line(cells) + ("\r\n" + tail);
    ScanLine(cells, "\r\n" + tail, [], records);
    assert ("\r\n" + tail)[2..] == tail;
    assert Line(cells) + "" == Line(cells);
    ScanLine(cells, "", [], records);
  }

  // ---- the whole table ----------------------------------------------------------------------------

  function LinesOf(table: seq<seq<Cell>>): seq<string> {
    seq(|table|, i requires 0 <= i < |table| => Line(table[i]))
  }

  function TextTable(table: seq<seq<Cell>>): seq<seq<string>> {
    seq(|table|, i requires 0 <= i < |table| => TextsOf(table[i]))
  }

  lemma {:induction false} ScanTable(table: seq<seq<Cell>>, records: seq<seq<string>>)
    requires table != [] && forall i :: 0 <= i < |table| ==> table[i] != []
    ensures Scan(Join(LinesOf(table), "\r\n"), Start, "", [], records) == Records(records + TextTable(table))
  {
    if |table| == 1 {
      ScanRecord(table[0], "", records);
      assert TextTable(table) == [TextsOf(table[0])];
    } else {
      assert LinesOf(table)[1..] == LinesOf(table[1..]);
      ScanRecord(table[0], Join(LinesOf(table[1..]), "\r\n"), records);
      ScanTable(table[1..], records + [TextsOf(table[0])]);
      assert records + [TextsOf(table[0])] + TextTable(table[1..]) == records + TextTable(table);
    }
  }

  function CellTable(fields: seq<string>, rows: seq<Row>): seq<seq<Cell>> {
    [Header(fields)] + seq(|rows|, i requires 0 <= i < |rows| => CellsOf(fields, rows[i]))
  }

  lemma TableShape(fields: seq<string>, rows: seq<Row>)
    ensures LinesOf(CellTable(fields, rows)) == [Line(Header(fields))] + Lines(fields, rows)
    ensures TextTable(CellTable(fields, rows)) == Expected(fields, rows)
  {
    var t := CellTable(fields, rows);
    assert TextsOf(Header(fields)) == fields;
    forall i | 0 <= i < |t| ensures TextTable(t)[i] == Expected(fields, rows)[i] {
      if i > 0 { assert t[i] == CellsOf(fields, rows[i - 1]); }
    }
    forall i | 0 <= i < |t| ensures LinesOf(t)[i] == ([Line(Header(fields))] + Lines(fields, rows))[i] {
      if i > 0 { assert t[i] == CellsOf(fields, rows[i - 1]); }
    }
  }

  /** With no columns the writer prints only record separators, which read back as records
      of one empty field. */
  lemma NoColumns(rows: seq<Row>)
    ensures Read(ToCsv([], rows)).Records? ==> Read(ToCsv([], rows)).records != Expected([], rows)
    ensures Read(ToCsv([], rows)).Records? ==>
              Read(ToCsv([], rows)).records != [] && Read(ToCsv([], rows)).records[0] == [""]
  {
    var text := ToCsv([], rows);
    var none: seq<seq<string>> := [];
    var blank: seq<string> := [];
    assert blank + [""] == [""];
    assert none + [[""]] == [[""]];
    assert Line(Header([])) == "";
    if |rows| == 0 {
      assert text == "";
    } else {
      assert ([Line(Header([]))] + Lines([], rows))[1..] == Lines([], rows);
      assert text == "\r\n" + Join(Lines([], rows), "\r\n");
      assert text[2..] == Join(Lines([], rows), "\r\n");
      FirstRecordStays(text[2..], Start, "", [], [[""]]);
    }
    if Read(text).Records? {
      assert Read(text).records[0] == [""];
      assert Expected([], rows)[0] == [];
    }
  }

  lemma {:induction false} FirstRecordStays(text: string, mode: Mode, field: string, record: seq<string>,
      records: seq<seq<string>>)
    requires records != []
    ensures var t := Scan(text, mode, field, record, records);
            t.Records? ==> t.records != [] && t.records[0] == records[0]
    decreases |text|
  {
    if text != [] {
      forall m: Mode, f: string, r: seq<string> {
        FirstRecordStays(text[1..], m, f, r, records);
      }
      if AtBreak(text) {
        FirstRecordStays(text[2..], Start, "", [], records + [record + [field]]);
      }
    }
  }

  /** Round trip: the strict reader recovers the header and every cell of the export, for
      any content, exactly when there is at least one column. */
  lemma CsvRoundTrip(fields: seq<string>, rows: seq<Row>)
    ensures Read(ToCsv(fields, rows)) == Records(Expected(fields, rows)) <==> fields != []
  {
    if fields == [] {
      NoColumns(rows);
    } else {
      TableShape(fields, rows);
      ScanTable(CellTable(fields, rows), []);
      assert [] + Expected(fields, rows) == Expected(fields, rows);
    }
  }

  // ---- the optional ending line break ---------------------------------------------------------------

  predicate EndsInBreak(text: string) {
    |text| >= 2 && text[|text| - 2] == '\r' && text[|text| - 1] == '\n'
  }

  /** A reader that takes a CRLF at the very end as the ending break of the last record,
      which section 2 of RFC 4180 leaves optional. */
  function ReadEnded(text: string): Table {
    var t := Read(text);
    if t.Records? && t.records != [] && EndsInBreak(text) then Records(t.records[..|t.records| - 1]) else t
  }

  /** A written cell never ends in a line feed. */
  lemma FieldEnd(c: Cell)
    ensures EscapeField(c) == "" <==> TextOf(c) == ""
    ensures EscapeField(c) != "" ==> EscapeField(c)[|EscapeField(c)| - 1] != '\n'
  {
    if c.Text? && c.s != "" && !NeedsQuotes(c.s) { assert !Special(c.s[|c.s| - 1]); }
  }

  predicate LastIsNot(s: string, c: char) { s != "" ==> s[|s| - 1] != c }

  /** A line is empty only if it is one empty cell, and never ends in a line feed. */
  lemma {:induction false} LineEnd(cells: seq<Cell>)
    requires cells != []
    ensures Line(cells) == "" <==> |cells| == 1 && TextOf(cells[0]) == ""
    ensures LastIsNot(Line(cells), '\n')
  {
    var parts := seq(|cells|, i requires 0 <= i < |cells| => EscapeField(cells[i]));
    FieldEnd(cells[0]);
    if |cells| > 1 {
      LineEnd(cells[1..]);
      assert parts[1..] == seq(|cells[1..]|, i requires 0 <= i < |cells[1..]| => EscapeField(cells[1..][i]));
      assert Line(cells) == EscapeField(cells[0]) + "," + Line(cells[1..]);
    }
  }

  /** Joined lines end in a break only if the last of several is empty. */
  lemma {:induction false} JoinEnd(lines: seq<string>)
    requires lines != [] && forall i :: 0 <= i < |lines| ==> LastIsNot(lines[i], '\n')
    ensures EndsInBreak(Join(lines, "\r\n")) <==> |lines| > 1 && lines[|lines| - 1] == ""
    ensures |lines| > 1 ==> |Join(lines, "\r\n")| >= 2
  {
    if |lines| > 1 {
      var rest := Join(lines[1..], "\r\n");
      JoinEnd(lines[1..]);
      assert Join(lines, "\r\n") == lines[0] + "\r\n" + rest;
      if |rest| == 1 { assert rest == lines[1]; }
    }
  }

  /** The export ends in a break exactly if it has rows and its last row is written empty. */
  lemma ExportEnd(fields: seq<string>, rows: seq<Row>)
    requires fields != []
    ensures EndsInBreak(ToCsv(fields, rows)) <==>
              rows != [] && |fields| == 1 && TextOf(Lookup(rows[|rows| - 1], fields[0])) == ""
  {
    var table := CellTable(fields, rows);
    TableShape(fields, rows);
    forall i | 0 <= i < |table| ensures LastIsNot(LinesOf(table)[i], '\n') {
      LineEnd(table[i]);
    }
    JoinEnd(LinesOf(table));
    if rows != [] {
      assert table[|table| - 1] == CellsOf(fields, rows[|rows| - 1]);
      LineEnd(CellsOf(fields, rows[|rows| - 1]));
    }
  }

  /** With a reader that accepts the optional ending break, the round trip holds exactly if
      there is a column and the export is not a one-column table whose last cell is empty;
      of such a table precisely that last record is lost. */
  lemma EndedRoundTrip(fields: seq<string>, rows: seq<Row>)
    ensures var lost := rows != [] && |fields| == 1 && TextOf(Lookup(rows[|rows| - 1], fields[0])) == "";
            && (ReadEnded(ToCsv(fields, rows)) == Records(Expected(fields, rows)) <==> fields != [] && !lost)
            && (lost ==> ReadEnded(ToCsv(fields, rows)) == Records(Expected(fields, rows[..|rows| - 1])))
  {
    if fields == [] {
      NoColumnsEnded(rows);
    } else {
      CsvRoundTrip(fields, rows);
      ExportEnd(fields, rows);
      if rows != [] {
        var all, fewer := Expected(fields, rows), Expected(fields, rows[..|rows| - 1]);
        assert all[..|all| - 1] == fewer;
      }
    }
  }

  lemma NoColumnsEnded(rows: seq<Row>)
    ensures ReadEnded(ToCsv([], rows)) != Records(Expected([], rows))
  {
    NoColumns(rows);
    var t := ReadEnded(ToCsv([], rows));
    if t.Records? && t.records != [] { assert t.records[0] == Read(ToCsv([], rows)).records[0]; }
    assert Expected([], rows)[0] == [];
  }
}
