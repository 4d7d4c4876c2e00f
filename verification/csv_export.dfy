/** The CSV export, read back by a reader of RFC 4180 section 2 with a line feed between records. */
module CsvExport {
  import opened Wrappers

  /** A row by column name; a missing or null value has no text. */
  type Row = map<string, Option<string>>

  // ---- the printer ----

  function DoubledChar(c: char): string { if c == '"' then "\"\"" else [c] }

  function Doubled(s: string): string {
    if s == "" then "" else DoubledChar(s[0]) + Doubled(s[1..])
  }

  predicate Plain(s: string) { ',' !in s && '"' !in s && '\n' !in s }

  function Escape(cell: Option<string>): string {
    if cell.None? then ""
    else if Plain(cell.value) then cell.value
    else "\"" + Doubled(cell.value) + "\""
  }

  function Cell(row: Row, header: string): Option<string> { if header in row then row[header] else None }

  function Join(parts: seq<string>, separator: char): string {
    if parts == [] then ""
    else if |parts| == 1 then parts[0]
    else parts[0] + [separator] + Join(parts[1..], separator)
  }

  function Line(headers: seq<string>, row: Row): string {
    Join(seq(|headers|, i requires 0 <= i < |headers| => Escape(Cell(row, headers[i]))), ',')
  }

  function ToCsv(headers: seq<string>, rows: seq<Row>): string {
    Join([Join(headers, ',')] + seq(|rows|, i requires 0 <= i < |rows| => Line(headers, rows[i])), '\n')
  }

  // ---- the reader ----

  datatype Read<T> = Read(value: T, rest: string)

  /** What follows an opening quote: up to the first quote that is not doubled. */
  function ReadQuoted(s: string): (r: Option<Read<string>>)
    ensures r.Some? ==> |r.value.rest| < |s|
  {
    if s == "" then None
    else if s[0] == '"' && (|s| == 1 || s[1] != '"') then Some(Read("", s[1..]))
    else
      var next := if s[0] == '"' then s[2..] else s[1..];
      var more := ReadQuoted(next);
      if more.None? then None else Some(Read([s[0]] + more.value.value, more.value.rest))
  }

  /** A field without quotes: up to a comma, a line feed or the end. */
  function ReadPlain(s: string): (r: Option<Read<string>>)
    ensures r.Some? ==> |r.value.rest| <= |s| && Plain(r.value.value)
  {
    if s == "" || s[0] == ',' || s[0] == '\n' then Some(Read("", s))
    else if s[0] == '"' then None
    else
      var more := ReadPlain(s[1..]);
      if more.None? then None else Some(Read([s[0]] + more.value.value, more.value.rest))
  }

  function ReadField(s: string): (r: Option<Read<string>>)
    ensures r.Some? ==> |r.value.rest| <= |s|
  {
    if s != "" && s[0] == '"' then ReadQuoted(s[1..]) else ReadPlain(s)
  }

  function ReadRecord(s: string): (r: Option<Read<seq<string>>>)
    ensures r.Some? ==> |r.value.rest| <= |s| && (r.value.rest == "" || r.value.rest[0] == '\n')
    decreases |s|
  {
    var field := ReadField(s);
    if field.None? then None
    else if field.value.rest == "" || field.value.rest[0] == '\n' then Some(Read([field.value.value], field.value.rest))
    else if field.value.rest[0] != ',' then None
    else
      var more := ReadRecord(field.value.rest[1..]);
      if more.None? then None else Some(Read([field.value.value] + more.value.value, more.value.rest))
  }

  function ReadTable(s: string): Option<seq<seq<string>>>
    decreases |s|
  {
    var record := ReadRecord(s);
    if record.None? then None
    else if record.value.rest == "" then Some([record.value.value])
    else
      var more := ReadTable(record.value.rest[1..]);
      if more.None? then None else Some([record.value.value] + more.value)
  }

  // ---- printing and reading back ----

  predicate EndsField(rest: string) { rest == "" || rest[0] == ',' || rest[0] == '\n' }

  lemma {:induction false} PlainReadsBack(s: string, rest: string)
    requires Plain(s) && EndsField(rest)
    ensures ReadPlain(s + rest) == Some(Read(s, rest))
  {
    if s == "" {
      assert s + rest == rest;
    } else {
      PlainReadsBack(s[1..], rest);
      assert (s + rest)[1..] == s[1..] + rest;
      assert (s + rest)[0] == s[0] && s[0] in s;
      assert [s[0]] + s[1..] == s;
    }
  }

  lemma ReadQuotedStep(c: char, next: string)
    requires ReadQuoted(next).Some?
    ensures var r := ReadQuoted(next).value;
            ReadQuoted(DoubledChar(c) + next) == Some(Read([c] + r.value, r.rest))
  {
    var s := DoubledChar(c) + next;
    assert s[0] == c && s[|DoubledChar(c)|..] == next;
  }

  lemma QuotedSplit(s: string, rest: string)
    requires s != ""
    ensures Doubled(s) + "\"" + rest == DoubledChar(s[0]) + (Doubled(s[1..]) + "\"" + rest)
  {
    assert Doubled(s) == DoubledChar(s[0]) + Doubled(s[1..]);
  }

  lemma {:induction false} DoubledReadsBack(s: string, rest: string)
    requires EndsField(rest)
    ensures ReadQuoted(Doubled(s) + "\"" + rest) == Some(Read(s, rest))
  {
    if s == "" {
      assert Doubled(s) + "\"" + rest == "\"" + rest;
      assert ("\"" + rest)[1..] == rest;
    } else {
      hide ReadQuoted;
      DoubledReadsBack(s[1..], rest);
      QuotedSplit(s, rest);
      ReadQuotedStep(s[0], Doubled(s[1..]) + "\"" + rest);
      assert [s[0]] + s[1..] == s;
    }
  }

  /** The text of a cell, the same for a null and an empty one. */
  function Shown(cell: Option<string>): string { if cell.None? then "" else cell.value }

  lemma FieldReadsBack(cell: Option<string>, rest: string)
    requires EndsField(rest)
    ensures ReadField(Escape(cell) + rest) == Some(Read(Shown(cell), rest))
  {
    if cell.None? || Plain(cell.value) {
      PlainReadsBack(Shown(cell), rest);
      assert Escape(cell) + rest == Shown(cell) + rest;
    } else {
      DoubledReadsBack(cell.value, rest);
      assert (Escape(cell) + rest)[1..] == Doubled(cell.value) + "\"" + rest;
    }
  }

  function Escaped(cells: seq<Option<string>>): seq<string> { seq(|cells|, i requires 0 <= i < |cells| => Escape(cells[i])) }

  function AllShown(cells: seq<Option<string>>): seq<string> { seq(|cells|, i requires 0 <= i < |cells| => Shown(cells[i])) }

  lemma ReadRecordStep(field: string, value: string, tail: string)
    requires ReadField(field + ("," + tail)) == Some(Read(value, "," + tail))
    requires ReadRecord(tail).Some?
    ensures ReadRecord(field + ("," + tail)) == Some(Read([value] + ReadRecord(tail).value.value, ReadRecord(tail).value.rest))
  {
    assert ("," + tail)[1..] == tail;
    hide ReadField;
  }

  lemma {:induction false} RecordReadsBack(cells: seq<Option<string>>, rest: string)
    requires cells != [] && (rest == "" || rest[0] == '\n')
    ensures ReadRecord(Join(Escaped(cells), ',') + rest) == Some(Read(AllShown(cells), rest))
  {
    hide Escape;
    hide ReadField;
    hide Shown;
    if |cells| == 1 {
      FieldReadsBack(cells[0], rest);
      assert AllShown(cells) == [Shown(cells[0])];
    } else {
      var tail := Join(Escaped(cells[1..]), ',') + rest;
      RecordReadsBack(cells[1..], rest);
      FieldReadsBack(cells[0], "," + tail);
      ReadRecordStep(Escape(cells[0]), Shown(cells[0]), tail);
      assert Escaped(cells)[1..] == Escaped(cells[1..]);
      assert Join(Escaped(cells), ',') + rest == Escape(cells[0]) + ("," + tail);
      assert AllShown(cells) == [Shown(cells[0])] + AllShown(cells[1..]);
    }
  }

  function Lines(table: seq<seq<Option<string>>>): seq<string> {
    seq(|table|, i requires 0 <= i < |table| => Join(Escaped(table[i]), ','))
  }

  function TableShown(table: seq<seq<Option<string>>>): seq<seq<string>> {
    seq(|table|, i requires 0 <= i < |table| => AllShown(table[i]))
  }

  lemma ReadTableStep(line: string, record: seq<string>, tail: string)
    requires ReadRecord(line + ("\n" + tail)) == Some(Read(record, "\n" + tail))
    requires ReadTable(tail).Some?
    ensures ReadTable(line + ("\n" + tail)) == Some([record] + ReadTable(tail).value)
  {
    hide ReadRecord;
    assert ("\n" + tail)[1..] == tail;
  }

  lemma ReadTableOne(line: string, record: seq<string>)
    requires ReadRecord(line + "") == Some(Read(record, ""))
    ensures ReadTable(line) == Some([record])
  {
    hide ReadRecord;
    assert line + "" == line;
  }

  lemma {:induction false} TableReadsBack(table: seq<seq<Option<string>>>)
    requires table != [] && forall i :: 0 <= i < |table| ==> table[i] != []
    ensures ReadTable(Join(Lines(table), '\n')) == Some(TableShown(table))
  {
    hide ReadTable;
    hide ReadRecord;
    hide Escaped;
    hide AllShown;
    if |table| == 1 {
      RecordReadsBack(table[0], "");
      ReadTableOne(Join(Escaped(table[0]), ','), AllShown(table[0]));
      assert TableShown(table) == [AllShown(table[0])];
    } else {
      var tail := Join(Lines(table[1..]), '\n');
      TableReadsBack(table[1..]);
      RecordReadsBack(table[0], "\n" + tail);
      ReadTableStep(Join(Escaped(table[0]), ','), AllShown(table[0]), tail);
      assert Lines(table)[1..] == Lines(table[1..]);
      assert Join(Lines(table), '\n') == Lines(table)[0] + ("\n" + tail);
      assert TableShown(table) == [AllShown(table[0])] + TableShown(table[1..]);
    }
  }

  /** The texts of a row in header order. */
  function RowShown(headers: seq<string>, row: Row): seq<string> {
    seq(|headers|, i requires 0 <= i < |headers| =>
      if headers[i] in row && row[headers[i]] != None then row[headers[i]].value else "")
  }

  function RowsShown(headers: seq<string>, rows: seq<Row>): seq<seq<string>> {
    seq(|rows|, i requires 0 <= i < |rows| => RowShown(headers, rows[i]))
  }

  /** Column names are printed as they are, so they must not need quotes. */
  predicate PlainHeaders(headers: seq<string>) {
    headers != [] && forall h <- headers :: forall c <- h :: c != ',' && c != '"' && c != '\n'
  }

  /** How a cell's text is printed: nothing for a missing or null value, as it is when it has no comma, quote
      or line feed, and otherwise between quotes as the one text that a quoted field can be read from. */
  lemma {:induction false} EscapeIsExact(cell: Option<string>)
    ensures cell == None ==> Escape(cell) == ""
    ensures cell != None && (forall c <- cell.value :: c != ',' && c != '"' && c != '\n') ==> Escape(cell) == cell.value
    ensures cell != None && (exists c <- cell.value :: c == ',' || c == '"' || c == '\n') ==>
              forall t: string :: Escape(cell) == t <==>
                t != "" && t[0] == '"' && ReadQuoted(t[1..]) == Some(Read(cell.value, ""))
  {
    if cell != None && exists c <- cell.value :: c == ',' || c == '"' || c == '\n' {
      FieldReadsBack(cell, "");
      assert Escape(cell) + "" == Escape(cell);
      forall t: string ensures Escape(cell) == t <==>
                t != "" && t[0] == '"' && ReadQuoted(t[1..]) == Some(Read(cell.value, "")) {
        if t != "" && t[0] == '"' && ReadQuoted(t[1..]) == Some(Read(cell.value, "")) {
          QuotedShape(t[1..]);
          assert t == "\"" + t[1..] && Doubled(cell.value) + "\"" + "" == Doubled(cell.value) + "\"";
        }
      }
    }
  }

  function Cells(headers: seq<string>, row: Row): seq<Option<string>> {
    seq(|headers|, i requires 0 <= i < |headers| => Cell(row, headers[i]))
  }

  /** The table behind the text: the headers as cells, then the rows. */
  function AsTable(headers: seq<string>, rows: seq<Row>): seq<seq<Option<string>>> {
    [seq(|headers|, i requires 0 <= i < |headers| => Some(headers[i]))]
    + seq(|rows|, i requires 0 <= i < |rows| => Cells(headers, rows[i]))
  }

  lemma HeaderCells(headers: seq<string>)
    requires PlainHeaders(headers)
    ensures var cells := seq(|headers|, i requires 0 <= i < |headers| => Some(headers[i]));
            Escaped(cells) == headers && AllShown(cells) == headers
  {
    forall i | 0 <= i < |headers| ensures Plain(headers[i]) {
      assert headers[i] in headers;
    }
  }

  lemma RowCells(headers: seq<string>, row: Row)
    ensures Join(Escaped(Cells(headers, row)), ',') == Line(headers, row)
    ensures AllShown(Cells(headers, row)) == RowShown(headers, row)
  {
    hide Escape;
    assert Escaped(Cells(headers, row))
      == seq(|headers|, i requires 0 <= i < |headers| => Escape(Cell(row, headers[i])));
  }

  lemma TableOfRows(headers: seq<string>, rows: seq<Row>)
    requires PlainHeaders(headers)
    ensures TableShown(AsTable(headers, rows)) == [headers] + RowsShown(headers, rows)
  {
    HeaderCells(headers);
    hide AllShown;
    hide RowShown;
    hide Cells;
    forall i | 0 <= i < |rows|
      ensures AllShown(Cells(headers, rows[i])) == RowShown(headers, rows[i])
    {
      RowCells(headers, rows[i]);
    }
  }

  lemma LinesOfRows(headers: seq<string>, rows: seq<Row>)
    requires PlainHeaders(headers)
    ensures Lines(AsTable(headers, rows))
            == [Join(headers, ',')] + seq(|rows|, i requires 0 <= i < |rows| => Line(headers, rows[i]))
  {
    HeaderCells(headers);
    hide Escaped;
    hide Line;
    hide Cells;
    hide Join;
    forall i | 0 <= i < |rows|
      ensures Join(Escaped(Cells(headers, rows[i])), ',') == Line(headers, rows[i])
    {
      RowCells(headers, rows[i]);
    }
  }

  lemma CsvIsTable(headers: seq<string>, rows: seq<Row>)
    requires PlainHeaders(headers)
    ensures ToCsv(headers, rows) == Join(Lines(AsTable(headers, rows)), '\n')
    ensures TableShown(AsTable(headers, rows)) == [headers] + RowsShown(headers, rows)
  {
    hide Lines;
    hide AsTable;
    hide TableShown;
    hide Join;
    LinesOfRows(headers, rows);
    TableOfRows(headers, rows);
  }

  // ---- column names that need quotes are not read back ----

  /** What the quoted reader took off is the doubled value and its closing quote. */
  lemma {:induction false} QuotedShape(s: string)
    requires ReadQuoted(s).Some?
    ensures s == Doubled(ReadQuoted(s).value.value) + "\"" + ReadQuoted(s).value.rest
  {
    var r := ReadQuoted(s).value;
    if s[0] == '"' && (|s| == 1 || s[1] != '"') {
      assert s == "\"" + s[1..];
    } else {
      var next := if s[0] == '"' then s[2..] else s[1..];
      QuotedShape(next);
      QuotedSplit(r.value, r.rest);
      assert r.value[1..] == ReadQuoted(next).value.value;
      assert s == DoubledChar(s[0]) + next;
    }
  }

  /** Leading quotes come out twice. */
  lemma {:induction false} DoubledQuotes(s: string, k: nat)
    requires k <= |s| && forall i :: 0 <= i < k ==> s[i] == '"'
    ensures |Doubled(s)| >= 2 * k && forall i :: 0 <= i < 2 * k ==> Doubled(s)[i] == '"'
  {
    if k > 0 {
      DoubledQuotes(s[1..], k - 1);
      assert Doubled(s) == "\"\"" + Doubled(s[1..]);
    }
  }

  /** If a text that starts with a quote were read back as itself, it would be quotes throughout. */
  lemma {:induction false} AllQuotes(h: string, rest: string, after: string, k: nat)
    requires h != "" && h[0] == '"' && k <= |h|
    requires h[1..] + rest == Doubled(h) + "\"" + after
    ensures forall i :: 0 <= i < k ==> h[i] == '"'
  {
    if k > 1 {
      AllQuotes(h, rest, after, k - 1);
      DoubledQuotes(h, k - 1);
      var text := h[1..] + rest;
      assert text[k - 2] == h[k - 1];
      assert text[k - 2] == (Doubled(h) + "\"" + after)[k - 2] == Doubled(h)[k - 2];
    }
  }

  /** So another quote would have to follow it. */
  lemma QuoteFollows(h: string, rest: string, after: string)
    requires h != "" && h[0] == '"' && h[1..] + rest == Doubled(h) + "\"" + after
    ensures rest != "" && rest[0] == '"'
  {
    AllQuotes(h, rest, after, |h|);
    DoubledQuotes(h, |h|);
    var text := Doubled(h) + "\"" + after;
    assert |text| >= 2 * |h| + 1;
    assert text[|h| - 1] == Doubled(h)[|h| - 1] == '"';
    assert (h[1..] + rest)[|h| - 1] == rest[0];
  }

  /** A text that needs quotes is never read back from its bare form. */
  lemma BareNotReadBack(h: string, rest: string)
    requires !Plain(h) && EndsField(rest)
    ensures ReadField(h + rest).Some? ==> ReadField(h + rest).value.value != h
  {
    var r := ReadField(h + rest);
    if h[0] == '"' && r.Some? && r.value.value == h {
      assert (h + rest)[1..] == h[1..] + rest;
      QuotedShape(h[1..] + rest);
      QuoteFollows(h, rest, r.value.rest);
    }
  }

  lemma {:induction false} HeadersReadBackOnlyIfPlain(headers: seq<string>, rest: string)
    requires headers != [] && (rest == "" || rest[0] == '\n')
    requires var r := ReadRecord(Join(headers, ',') + rest); r.Some? && r.value.value == headers
    ensures forall h <- headers :: Plain(h)
  {
    hide ReadField;
    var text := Join(headers, ',') + rest;
    if |headers| == 1 {
      assert text == headers[0] + rest;
      if !Plain(headers[0]) { BareNotReadBack(headers[0], rest); }
    } else {
      var tail := Join(headers[1..], ',') + rest;
      assert text == headers[0] + ("," + tail);
      if !Plain(headers[0]) {
        BareNotReadBack(headers[0], "," + tail);
      } else {
        FieldReadsBack(Some(headers[0]), "," + tail);
        assert ("," + tail)[1..] == tail;
        assert headers == [headers[0]] + headers[1..];
        HeadersReadBackOnlyIfPlain(headers[1..], rest);
      }
    }
  }

  /** Whatever commas, quotes and line feeds the cells hold, reading an export gives back the headers and
      every text exactly when there is a column and no column name needs quotes. */
  lemma ExportReadsBack(headers: seq<string>, rows: seq<Row>)
    ensures ReadTable(ToCsv(headers, rows)) == Some([headers] + RowsShown(headers, rows)) <==> PlainHeaders(headers)
  {
    if PlainHeaders(headers) {
      CsvIsTable(headers, rows);
      TableReadsBack(AsTable(headers, rows));
    } else if ReadTable(ToCsv(headers, rows)) == Some([headers] + RowsShown(headers, rows)) {
      FirstRecord(ToCsv(headers, rows), headers, RowsShown(headers, rows));
      if headers != [] {
        var rest := TextAfterHeaders(headers, rows);
        HeadersReadBackOnlyIfPlain(headers, rest);
      }
    }
  }

  lemma FirstRecord(s: string, first: seq<string>, others: seq<seq<string>>)
    requires ReadTable(s) == Some([first] + others)
    ensures ReadRecord(s).Some? && ReadRecord(s).value.value == first && first != []
  {
    var record := ReadRecord(s).value;
    assert ([first] + others)[0] == first;
  }

  /** The header line and what follows it. */
  lemma TextAfterHeaders(headers: seq<string>, rows: seq<Row>) returns (rest: string)
    ensures ToCsv(headers, rows) == Join(headers, ',') + rest && (rest == "" || rest[0] == '\n')
  {
    var lines := seq(|rows|, i requires 0 <= i < |rows| => Line(headers, rows[i]));
    hide Line;
    if rows == [] {
      rest := "";
      assert [Join(headers, ',')] + lines == [Join(headers, ',')];
    } else {
      rest := ['\n'] + Join(lines, '\n');
      assert ([Join(headers, ',')] + lines)[1..] == lines;
    }
  }

  lemma EscapeShows(cell: Option<string>)
    ensures Escape(cell) == Escape(Some(Shown(cell)))
  {
  }

  lemma SameTextsSameLine(headers: seq<string>, row: Row, other: Row)
    requires RowShown(headers, row) == RowShown(headers, other)
    ensures Line(headers, row) == Line(headers, other)
  {
    hide Escape;
    forall i | 0 <= i < |headers|
      ensures Escape(Cell(row, headers[i])) == Escape(Cell(other, headers[i]))
    {
      EscapeShows(Cell(row, headers[i]));
      EscapeShows(Cell(other, headers[i]));
      assert RowShown(headers, row)[i] == RowShown(headers, other)[i];
    }
    assert seq(|headers|, i requires 0 <= i < |headers| => Escape(Cell(row, headers[i])))
        == seq(|headers|, i requires 0 <= i < |headers| => Escape(Cell(other, headers[i])));
  }

  /** Two exports with the same headers are equal exactly when they show the same texts. */
  lemma ExportIsInjective(headers: seq<string>, rows: seq<Row>, others: seq<Row>)
    requires PlainHeaders(headers)
    ensures ToCsv(headers, rows) == ToCsv(headers, others) <==> RowsShown(headers, rows) == RowsShown(headers, others)
  {
    hide ReadTable;
    ExportReadsBack(headers, rows);
    ExportReadsBack(headers, others);
    if ToCsv(headers, rows) == ToCsv(headers, others) {
      assert ([headers] + RowsShown(headers, rows))[1..] == RowsShown(headers, rows);
      assert ([headers] + RowsShown(headers, others))[1..] == RowsShown(headers, others);
    }
    if RowsShown(headers, rows) == RowsShown(headers, others) {
      forall i | 0 <= i < |rows|
        ensures i < |others| && Line(headers, rows[i]) == Line(headers, others[i])
      {
        assert RowsShown(headers, rows)[i] == RowsShown(headers, others)[i];
        SameTextsSameLine(headers, rows[i], others[i]);
      }
      assert |rows| == |RowsShown(headers, rows)| == |others|;
      assert seq(|rows|, i requires 0 <= i < |rows| => Line(headers, rows[i]))
          == seq(|others|, i requires 0 <= i < |others| => Line(headers, others[i]));
    }
  }
}
