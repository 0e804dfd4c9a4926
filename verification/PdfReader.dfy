/** A reader of the PDF files in question, which follows every reference in them: the end of the
    file to the cross-reference table, the table to the objects, the references between objects,
    and stream lengths (ISO 32000-1 sections 7.3.4.2, 7.3.8, 7.5.4 and 7.5.5). */
module PdfReader {
  import opened Decimal
  import opened PdfTemplate
  import opened Results

  const EOF: string := "\n%%EOF\n"
  const START_XREF: string := "startxref\n"
  const ENTRY: nat := 20

  function TableHeadShape(): seq<Slot> { [Text("xref\n0 "), Numeral, Text("\n0000000000 65535 f \n")] }

  function TrailerShape(): seq<Slot> {
    [Text("trailer\n<< /Size "), Numeral, Text(" /Root "), Numeral, Text(" 0 R >>\n"),
     Text(START_XREF), Numeral, Text(EOF)]
  }

  function ObjectShape(): seq<Slot> { [Numeral, Text(" 0 obj\n")] }

  function CatalogShape(): seq<Slot> { [Text("<< /Type /Catalog /Pages "), Numeral, Text(" 0 R >>")] }

  function RefShape(): seq<Slot> { [Numeral, Text(" 0 R")] }

  function CountShape(): seq<Slot> { [Text("] /Count "), Numeral, Text(" >>")] }

  function PageShape(): seq<Slot> {
    [Text("<< /Type /Page /Parent "), Numeral, Text(" 0 R /MediaBox [0 0 595 "), Numeral,
     Text("] /Resources << /Font << /F1 "), Numeral, Text(" 0 R >> >> /Contents "), Numeral, Text(" 0 R >>")]
  }

  function LengthShape(): seq<Slot> { [Text("<< /Length "), Numeral, Text(" >>\nstream\n")] }

  function StreamShape(): seq<Slot> { [Text("BT /F1 10 Tf 12 TL 40 "), Numeral, Text(" Td\n")] }

  // ---------------------------------------------------------------- file structure

  function TrailingDigits(s: string): (n: nat)
    ensures n <= |s|
  {
    if s == "" || !IsDigit(s[|s| - 1]) then 0 else 1 + TrailingDigits(s[..|s| - 1])
  }

  predicate EndsWith(s: string, end: string) {
    |end| <= |s| && s[|s| - |end|..] == end
  }

  /** The offset that the end of the file gives for the table. */
  function ReadTail(file: string): Option<nat> {
    if !EndsWith(file, EOF) then None
    else
      var body := file[..|file| - |EOF|];
      var n := TrailingDigits(body);
      if n == 0 || !EndsWith(body[..|body| - n], START_XREF) then None
      else Some(Number(body[|body| - n..]))
  }

  datatype Xref = Xref(size: nat, root: nat, entries: string)

  function ReadXref(file: string): Option<Xref> {
    var at :- ReadTail(file);
    if at > |file| then None
    else
      var (head, after) :- Read(TableHeadShape(), file[at..]);
      if |head| != 1 || head[0] == 0 || |after| < ENTRY * (head[0] - 1) then None
      else
        var size := head[0];
        var (trailer, rest) :- Read(TrailerShape(), after[ENTRY * (size - 1)..]);
        if |trailer| != 3 || trailer[0] != size || trailer[2] != at || rest != "" then None
        else Some(Xref(size, trailer[1], after[..ENTRY * (size - 1)]))
  }

  /** Entry id of the table: ten digits, a generation and the mark of an object in use. */
  function EntryOffset(x: Xref, id: nat): Option<nat> {
    if !(1 <= id < x.size) || |x.entries| < ENTRY * id then None
    else
      var entry := x.entries[ENTRY * (id - 1)..ENTRY * id];
      if DigitCount(entry) != 10 || entry[10..] != " 00000 n \n" then None
      else Some(Number(entry[..10]))
  }

  /** The file from the contents of object id on. */
  function ObjectAt(file: string, x: Xref, id: nat): Option<string> {
    var offset :- EntryOffset(x, id);
    if offset > |file| then None
    else
      var (head, content) :- Read(ObjectShape(), file[offset..]);
      if head != [id] then None else Some(content)
  }

  // ---------------------------------------------------------------- pages

  /** A literal string after its opening parenthesis; depth counts the open inner ones. */
  function ReadString(s: string, depth: nat): (r: Option<(string, string)>)
    ensures r.Some? ==> |r.value.1| < |s|
    decreases |s|
  {
    if s == "" then None
    else if s[0] == '\\' then
      if |s| < 2 || s[1] !in "\\()" then None
      else
        var (t, rest) :- ReadString(s[2..], depth);
        Some(([s[1]] + t, rest))
    else if s[0] == ')' && depth == 0 then Some(("", s[1..]))
    else
      var (t, rest) :- ReadString(s[1..], if s[0] == '(' then depth + 1 else if s[0] == ')' then depth - 1 else depth);
      Some(([s[0]] + t, rest))
  }

  function ReadLines(s: string): Option<seq<string>>
    decreases |s|
  {
    if s == "ET\n" then Some([])
    else
      var open :- Expect(s, "(");
      var (line, shown) :- ReadString(open, 0);
      var after :- Expect(shown, " Tj T*\n");
      var more :- ReadLines(after);
      Some([line] + more)
  }

  /** The contents of an object, by its number. */
  type Lookup = nat -> Option<string>

  /** So many lines, the first at start and each 12 below the one before, lie on a page. */
  predicate LiesOnPage(start: nat, count: nat, height: nat) {
    start < height && start > 12 * (count - 1)
  }

  /** The strings of a page, all of which have to lie on it. */
  function ReadContent(objectAt: Lookup, id: nat, height: nat): Option<seq<string>> {
    var content :- objectAt(id);
    var (length, data) :- Read(LengthShape(), content);
    if |length| != 1 || length[0] > |data| then None
    else
      var _ :- Expect(data[length[0]..], "endstream");
      var (start, text) :- Read(StreamShape(), data[..length[0]]);
      var lines :- ReadLines(text);
      if |start| != 1 || !LiesOnPage(start[0], |lines|, height) then None else Some(lines)
  }

  function ReadPage(objectAt: Lookup, id: nat, parent: nat): Option<seq<string>> {
    var page :- objectAt(id);
    var (numbers, _) :- Read(PageShape(), page);
    if |numbers| != 4 || numbers[0] != parent then None
    else
      var font :- objectAt(numbers[2]);
      var _ :- Expect(font, "<< /Type /Font ");
      ReadContent(objectAt, numbers[3], numbers[1])
  }

  function ReadAll<T>(read: nat -> Option<T>, ids: seq<nat>): Option<seq<T>> {
    if ids == [] then Some([])
    else
      var first :- read(ids[0]);
      var more :- ReadAll(read, ids[1..]);
      Some([first] + more)
  }

  /** References separated by blanks. */
  function ReadRefs(s: string): Option<(seq<nat>, string)>
    decreases |s|
  {
    var (id, rest) :- Read(RefShape(), s);
    if |id| != 1 then None
    else if rest == "" || rest[0] != ' ' then Some((id, rest))
    else
      var (more, end) :- ReadRefs(rest[1..]);
      Some((id + more, end))
  }

  /** The page tree's node and its kids. */
  function ReadKids(objectAt: Lookup, root: nat): Option<(nat, seq<nat>)> {
    var catalog :- objectAt(root);
    var (pagesId, _) :- Read(CatalogShape(), catalog);
    if |pagesId| != 1 then None
    else
      var pages :- objectAt(pagesId[0]);
      var kids :- Expect(pages, "<< /Type /Pages /Kids [");
      var (ids, after) :- ReadRefs(kids);
      var (count, _) :- Read(CountShape(), after);
      if count != [|ids|] then None else Some((pagesId[0], ids))
  }

  function ReadTree(objectAt: Lookup, root: nat): Option<seq<seq<string>>> {
    var (parent, ids) :- ReadKids(objectAt, root);
    ReadAll((id: nat) => ReadPage(objectAt, id, parent), ids)
  }

  /** The strings of each page of the document. */
  function ReadDocument(file: string): Option<seq<seq<string>>> {
    var x :- ReadXref(file);
    ReadTree((id: nat) => ObjectAt(file, x, id), x.root)
  }
}
