/** toCsv of scripts/perf/audit-pages.ts, and a reader of section 2 of RFC 4180 whose records end
    at a line feed. */
module CsvPrinter {
  import opened Results

  /** null and undefined, or a value with what String makes of it. */
  datatype Value = Missing | Shown(text: string)

  /** The properties of an object, in the order Object.keys lists them. */
  type Row = seq<(string, Value)>

  // ---------------------------------------------------------------- printer

  predicate Special(c: char) {
    c == '"' || c == ',' || c == '\n'
  }

  function HasSpecial(text: string): (special: bool)
    ensures special <==> exists k :: 0 <= k < |text| && Special(text[k])
  {
    text != "" && (Special(text[0]) || HasSpecial(text[1..]))
  }

  function Doubled(text: string): string {
    if text == "" then "" else (if text[0] == '"' then "\"\"" else [text[0]]) + Doubled(text[1..])
  }

  function ShownAs(value: Value): string {
    match value
    case Missing => ""
    case Shown(text) => text
  }

  function CsvCell(value: Value): string {
    match value
    case Missing => ""
    case Shown(text) => if HasSpecial(text) then "\"" + Doubled(text) + "\"" else text
  }

  lemma {:induction false} DoubledIsNoShorter(text: string)
    ensures |Doubled(text)| >= |text|
  {
    if text != "" {
      DoubledIsNoShorter(text[1..]);
    }
  }

  /** A text is printed as it is exactly if it has no quote, comma or line feed. */
  lemma PlainTextsStay(text: string)
    ensures CsvCell(Shown(text)) == text <==> forall k :: 0 <= k < |text| ==> text[k] !in {'"', ',', '\n'}
  {
    DoubledIsNoShorter(text);
  }

  function Join(parts: seq<string>, separator: string): string {
    if parts == [] then ""
    else if |parts| == 1 then parts[0]
    else parts[0] + separator + Join(parts[1..], separator)
  }

  function Headers(row: Row): (headers: seq<string>)
    ensures |headers| == |row| && forall k :: 0 <= k < |row| ==> headers[k] == row[k].0
  {
    seq(|row|, k requires 0 <= k < |row| => row[k].0)
  }

  /** A property the row does not have is undefined. */
  function Lookup(row: Row, header: string): Value {
    if row == [] then Missing
    else if row[0].0 == header then row[0].1
    else Lookup(row[1..], header)
  }

  function Cells(row: Row, headers: seq<string>): (cells: seq<Value>)
    ensures |cells| == |headers| && forall k :: 0 <= k < |headers| ==> cells[k] == Lookup(row, headers[k])
  {
    seq(|headers|, k requires 0 <= k < |headers| => Lookup(row, headers[k]))
  }

  function CsvCells(cells: seq<Value>): (parts: seq<string>)
    ensures |parts| == |cells| && forall k :: 0 <= k < |cells| ==> parts[k] == CsvCell(cells[k])
  {
    seq(|cells|, k requires 0 <= k < |cells| => CsvCell(cells[k]))
  }

  function CsvLines(rows: seq<Row>, headers: seq<string>): seq<string> {
    if rows == [] then [] else [Join(CsvCells(Cells(rows[0], headers)), ",")] + CsvLines(rows[1..], headers)
  }

  function ToCsv(rows: seq<Row>): string {
    if rows == [] then ""
    else
      var headers := Headers(rows[0]);
      Join([Join(headers, ",")] + CsvLines(rows, headers), "\n") + "\n"
  }

  // ---------------------------------------------------------------- reader

  function ReadPlain(s: string): (read: (string, string))
    ensures |read.1| <= |s|
  {
    if s == "" || Special(s[0]) then ("", s)
    else
      var (cell, rest) := ReadPlain(s[1..]);
      ([s[0]] + cell, rest)
  }

  /** From behind the opening quote on. */
  function ReadQuoted(s: string): (read: Option<(string, string)>)
    ensures read.Some? ==> |read.value.1| < |s|
  {
    if s == "" then None
    else if s[0] != '"' then
      var (cell, rest) :- ReadQuoted(s[1..]);
      Some(([s[0]] + cell, rest))
    else if |s| > 1 && s[1] == '"' then
      var (cell, rest) :- ReadQuoted(s[2..]);
      Some(("\"" + cell, rest))
    else Some(("", s[1..]))
  }

  function ReadCell(s: string): (read: Option<(string, string)>)
    ensures read.Some? ==> |read.value.1| <= |s|
  {
    if s != "" && s[0] == '"' then ReadQuoted(s[1..]) else Some(ReadPlain(s))
  }

  /** A quote anywhere but around a cell or doubled in one is an error. */
  function ReadRecord(s: string): (read: Option<(seq<string>, string)>)
    ensures read.Some? && s != "" ==> |read.value.1| < |s|
    decreases |s|
  {
    var (cell, rest) :- ReadCell(s);
    if rest == "" then Some(([cell], ""))
    else if rest[0] == '\n' then Some(([cell], rest[1..]))
    else if rest[0] == ',' then
      var (cells, more) :- ReadRecord(rest[1..]);
      Some(([cell] + cells, more))
    else None
  }

  function ReadCsv(s: string): Option<seq<seq<string>>>
    decreases |s|
  {
    if s == "" then Some([])
    else
      var (record, rest) :- ReadRecord(s);
      var records :- ReadCsv(rest);
      Some([record] + records)
  }

  // ---------------------------------------------------------------- cells

  ghost predicate Ends(rest: string) {
    rest != "" && rest[0] in {',', '\n'}
  }

  /** Printed as part, the cell comes back whatever ends it. */
  ghost predicate ReadsAs(part: string, cell: string) {
    forall rest :: Ends(rest) ==> ReadCell(part + rest) == Some((cell, rest))
  }

  lemma {:induction false} PlainReads(text: string, rest: string)
    requires !HasSpecial(text) && Ends(rest)
    ensures ReadPlain(text + rest) == (text, rest)
  {
    if text == "" {
      assert text + rest == rest;
    } else {
      PlainReads(text[1..], rest);
      assert text + rest == [text[0]] + (text[1..] + rest);
      assert text == [text[0]] + text[1..];
    }
  }

  lemma {:induction false} QuotedReads(text: string, rest: string)
    requires Ends(rest)
    ensures ReadQuoted(Doubled(text) + "\"" + rest) == Some((text, rest))
  {
    var printed := Doubled(text) + "\"" + rest;
    if text == "" {
      assert printed == "\"" + rest;
      assert printed[1..] == rest;
    } else {
      var more := Doubled(text[1..]) + "\"" + rest;
      QuotedReads(text[1..], rest);
      if text[0] == '"' {
        assert printed == "\"\"" + more;
        assert printed[2..] == more;
      } else {
        assert printed == [text[0]] + more;
        assert printed[1..] == more;
      }
      assert text == [text[0]] + text[1..];
    }
  }

  lemma PlainReadsAs(text: string)
    requires !HasSpecial(text)
    ensures ReadsAs(text, text)
  {
    forall rest | Ends(rest)
      ensures ReadCell(text + rest) == Some((text, rest))
    {
      PlainReads(text, rest);
      assert text != "" ==> (text + rest)[0] == text[0];
      assert text == "" ==> text + rest == rest;
    }
  }

  lemma QuotedReadsAs(text: string)
    ensures ReadsAs("\"" + Doubled(text) + "\"", text)
  {
    var part := "\"" + Doubled(text) + "\"";
    forall rest | Ends(rest)
      ensures ReadCell(part + rest) == Some((text, rest))
    {
      var body := Doubled(text) + "\"" + rest;
      QuotedReads(text, rest);
      assert part + rest == "\"" + body;
      assert (part + rest)[1..] == body;
    }
  }

  /** A cell comes back whatever it holds; a missing value as the empty text. */
  lemma CellReadsAs(value: Value)
    ensures ReadsAs(CsvCell(value), ShownAs(value))
  {
    if HasSpecial(ShownAs(value)) {
      QuotedReadsAs(ShownAs(value));
    } else {
      PlainReadsAs(ShownAs(value));
    }
  }

  // ---------------------------------------------------------------- records

  lemma LastCellReads(part: string, cell: string, rest: string)
    requires ReadsAs(part, cell)
    ensures ReadRecord(part + "\n" + rest) == Some(([cell], rest))
  {
    var end := "\n" + rest;
    assert part + "\n" + rest == part + end;
    assert Ends(end) && end[1..] == rest;
  }

  lemma CellThenMore(part: string, cell: string, next: string)
    requires ReadsAs(part, cell) && ReadRecord(next).Some?
    ensures var (cells, rest) := ReadRecord(next).value;
            ReadRecord(part + "," + next) == Some(([cell] + cells, rest))
  {
    var end := "," + next;
    assert part + "," + next == part + end;
    assert Ends(end) && end[1..] == next;
  }

  lemma {:induction false} RecordReads(parts: seq<string>, cells: seq<string>, rest: string)
    requires parts != [] && |parts| == |cells|
    requires forall k :: 0 <= k < |parts| ==> ReadsAs(parts[k], cells[k])
    ensures ReadRecord(Join(parts, ",") + "\n" + rest) == Some((cells, rest))
  {
    if |parts| == 1 {
      LastCellReads(parts[0], cells[0], rest);
      assert cells == [cells[0]];
    } else {
      var next := Join(parts[1..], ",") + "\n" + rest;
      RecordReads(parts[1..], cells[1..], rest);
      CellThenMore(parts[0], cells[0], next);
      assert Join(parts, ",") + "\n" + rest == parts[0] + "," + next;
      assert cells == [cells[0]] + cells[1..];
    }
  }

  /** The cells of a row as the table shows them. */
  function Texts(cells: seq<Value>): (texts: seq<string>)
    ensures |texts| == |cells| && forall k :: 0 <= k < |cells| ==> texts[k] == ShownAs(cells[k])
  {
    seq(|cells|, k requires 0 <= k < |cells| => ShownAs(cells[k]))
  }

  function Table(rows: seq<Row>, headers: seq<string>): seq<seq<string>> {
    if rows == [] then [] else [Texts(Cells(rows[0], headers))] + Table(rows[1..], headers)
  }

  lemma {:induction false} LinesRead(rows: seq<Row>, headers: seq<string>)
    requires headers != [] && rows != []
    ensures ReadCsv(Join(CsvLines(rows, headers), "\n") + "\n") == Some(Table(rows, headers))
  {
    var cells := Cells(rows[0], headers);
    var line := Join(CsvCells(cells), ",");
    var lines := CsvLines(rows, headers);
    forall k | 0 <= k < |cells|
      ensures ReadsAs(CsvCells(cells)[k], Texts(cells)[k])
    {
      CellReadsAs(cells[k]);
    }
    var rest := if |rows| == 1 then "" else Join(CsvLines(rows[1..], headers), "\n") + "\n";
    RecordReads(CsvCells(cells), Texts(cells), rest);
    assert lines[1..] == CsvLines(rows[1..], headers);
    assert Join(lines, "\n") + "\n" == line + "\n" + rest;
    if |rows| > 1 {
      LinesRead(rows[1..], headers);
    }
  }

  // ---------------------------------------------------------------- the header

  /** Header names are printed as they are: the table comes back exactly if there is a column and
      no name has a character that a cell would be quoted for. */
  ghost predicate PlainHeaders(headers: seq<string>) {
    headers != [] && forall k :: 0 <= k < |headers| ==> !HasSpecial(headers[k])
  }

  lemma {:induction false} PlainStops(s: string)
    ensures var (cell, rest) := ReadPlain(s);
            s == cell + rest && !HasSpecial(cell)
  {
    if s != "" && !Special(s[0]) {
      PlainStops(s[1..]);
      var (cell, rest) := ReadPlain(s[1..]);
      assert ([s[0]] + cell)[1..] == cell;
    }
  }

  /** What was read as a quoted cell stands in the text with its quotes doubled. */
  lemma {:induction false} QuotedStood(s: string)
    requires ReadQuoted(s).Some?
    ensures var (cell, rest) := ReadQuoted(s).value;
            s == Doubled(cell) + "\"" + rest
  {
    if s[0] != '"' {
      QuotedStood(s[1..]);
      var (cell, rest) := ReadQuoted(s[1..]).value;
      assert ([s[0]] + cell)[1..] == cell;
      assert s == [s[0]] + (Doubled(cell) + "\"" + rest);
    } else if |s| > 1 && s[1] == '"' {
      QuotedStood(s[2..]);
      var (cell, rest) := ReadQuoted(s[2..]).value;
      assert ("\"" + cell)[1..] == cell;
      assert s == "\"\"" + (Doubled(cell) + "\"" + rest);
    } else {
      assert s == "\"" + s[1..];
    }
  }

  lemma {:induction false} DoubledQuotes(text: string, count: nat)
    requires count <= |text| && forall k :: 0 <= k < count ==> text[k] == '"'
    ensures |Doubled(text)| >= 2 * count
    ensures forall k :: 0 <= k < 2 * count ==> Doubled(text)[k] == '"'
  {
    if count > 0 {
      DoubledQuotes(text[1..], count - 1);
    }
  }

  function LeadingQuotes(text: string): (count: nat)
    ensures count <= |text| && forall k :: 0 <= k < count ==> text[k] == '"'
    ensures count < |text| ==> text[count] != '"'
  {
    if text == "" || text[0] != '"' then 0 else 1 + LeadingQuotes(text[1..])
  }

  /** No text in front of a separator is its own quoted form: the quoted form has more quotes at
      its head than the text. */
  lemma NotItsOwnQuoting(text: string, rest: string, more: string)
    requires Ends(rest)
    ensures text + rest != "\"" + (Doubled(text) + "\"" + more)
  {
    var count := LeadingQuotes(text);
    DoubledQuotes(text, count);
    var quoted := "\"" + (Doubled(text) + "\"" + more);
    assert (text + rest)[count] != '"';
    if count == 0 {
      assert quoted[0] == '"';
    } else {
      assert quoted[count] == Doubled(text)[count - 1];
    }
  }

  lemma OnlyPlainReadsBack(name: string, rest: string)
    requires Ends(rest)
    requires ReadCell(name + rest).Some? && ReadCell(name + rest).value.0 == name
    ensures !HasSpecial(name)
  {
    var s := name + rest;
    if s[0] == '"' {
      QuotedStood(s[1..]);
      var more := ReadQuoted(s[1..]).value.1;
      assert s == "\"" + s[1..];
      NotItsOwnQuoting(name, rest, more);
    } else {
      PlainStops(s);
    }
  }

  lemma {:induction false} HeaderReadsBackIfPlain(headers: seq<string>, rest: string)
    requires headers != []
    requires var read := ReadRecord(Join(headers, ",") + "\n" + rest);
             read.Some? && read.value.0 == headers
    ensures PlainHeaders(headers)
  {
    var s := Join(headers, ",") + "\n" + rest;
    var next := Join(headers[1..], ",") + "\n" + rest;
    var end := if |headers| == 1 then "\n" + rest else "," + next;
    assert s == headers[0] + end;
    assert ReadCell(s).value.0 == headers[0];
    OnlyPlainReadsBack(headers[0], end);
    PlainReadsAs(headers[0]);
    if |headers| > 1 {
      assert end[1..] == next;
      assert ReadRecord(s).value.0 == [headers[0]] + ReadRecord(next).value.0;
      assert ReadRecord(next).value.0 == headers[1..];
      HeaderReadsBackIfPlain(headers[1..], rest);
      assert forall k :: 1 <= k < |headers| ==> headers[k] == headers[1..][k - 1];
    }
  }

  lemma FirstRecord(s: string, record: seq<string>, records: seq<seq<string>>)
    requires s != "" && ReadCsv(s) == Some([record] + records)
    ensures ReadRecord(s).Some? && ReadRecord(s).value.0 == record
  {
    assert ([record] + records)[0] == record;
  }

  lemma HeaderReads(headers: seq<string>, rest: string)
    requires PlainHeaders(headers)
    ensures ReadRecord(Join(headers, ",") + "\n" + rest) == Some((headers, rest))
  {
    forall k | 0 <= k < |headers|
      ensures ReadsAs(headers[k], headers[k])
    {
      PlainReadsAs(headers[k]);
    }
    RecordReads(headers, headers, rest);
  }

  /** The text behind the header's line. */
  function Rest(rows: seq<Row>, headers: seq<string>): string {
    Join(CsvLines(rows, headers), "\n") + "\n"
  }

  lemma HeaderComesFirst(rows: seq<Row>)
    requires rows != []
    ensures var headers := Headers(rows[0]);
            ToCsv(rows) == Join(headers, ",") + "\n" + Rest(rows, headers)
  {
    var headers := Headers(rows[0]);
    var line, lines := Join(headers, ","), CsvLines(rows, headers);
    assert ([line] + lines)[1..] == lines;
    assert ToCsv(rows) == line + "\n" + Join(lines, "\n") + "\n";
  }

  lemma PlainTableReadsBack(s: string, rows: seq<Row>, headers: seq<string>)
    requires rows != [] && PlainHeaders(headers)
    requires s == Join(headers, ",") + "\n" + Rest(rows, headers)
    ensures ReadCsv(s) == Some([headers] + Table(rows, headers))
  {
    HeaderReads(headers, Rest(rows, headers));
    LinesRead(rows, headers);
    assert s[|Join(headers, ",")|] == '\n';
  }

  lemma OnlyPlainTableReadsBack(s: string, headers: seq<string>, rest: string, records: seq<seq<string>>)
    requires s == Join(headers, ",") + "\n" + rest
    requires ReadCsv(s) == Some([headers] + records)
    ensures PlainHeaders(headers)
  {
    assert s[|Join(headers, ",")|] == '\n';
    FirstRecord(s, headers, records);
    if headers != [] {
      HeaderReadsBackIfPlain(headers, rest);
    }
  }

  /** Reading a printed table gives the header names and the text of every cell back, exactly if
      the names are plain. */
  lemma TableReadsBack(rows: seq<Row>)
    requires rows != []
    ensures var headers := Headers(rows[0]);
            ReadCsv(ToCsv(rows)) == Some([headers] + Table(rows, headers)) <==> PlainHeaders(headers)
  {
    var headers := Headers(rows[0]);
    HeaderComesFirst(rows);
    if PlainHeaders(headers) {
      PlainTableReadsBack(ToCsv(rows), rows, headers);
    }
    if ReadCsv(ToCsv(rows)) == Some([headers] + Table(rows, headers)) {
      OnlyPlainTableReadsBack(ToCsv(rows), headers, Rest(rows, headers), Table(rows, headers));
    }
  }

  predicate IsIdentifier(name: string) {
    forall k :: 0 <= k < |name| ==> 'a' <= name[k] <= 'z' || 'A' <= name[k] <= 'Z' || '0' <= name[k] <= '9'
  }

  /** Records whose properties are named by letters and digits, as those of both callers are, come
      back whatever their values. */
  lemma RecordsComeBack(rows: seq<Row>)
    requires rows != [] && rows[0] != []
    requires forall k :: 0 <= k < |rows[0]| ==> IsIdentifier(rows[0][k].0)
    ensures ReadCsv(ToCsv(rows)) == Some([Headers(rows[0])] + Table(rows, Headers(rows[0])))
  {
    var headers := Headers(rows[0]);
    assert forall k :: 0 <= k < |headers| ==> IsIdentifier(headers[k]);
    TableReadsBack(rows);
  }

  /** Other objects need not: not one with a comma in a name, and not one without properties. */
  lemma SomeTablesAreLost(value: Value)
    ensures var rows := [[("a,b", value)]];
            ReadCsv(ToCsv(rows)) != Some([Headers(rows[0])] + Table(rows, Headers(rows[0])))
    ensures var rows := [[]];
            ReadCsv(ToCsv(rows)) != Some([Headers(rows[0])] + Table(rows, Headers(rows[0])))
  {
    var comma: seq<Row> := [[("a,b", value)]];
    assert Headers(comma[0])[0] == "a,b" && Special("a,b"[1]);
    TableReadsBack(comma);
    TableReadsBack([[]]);
  }
}
