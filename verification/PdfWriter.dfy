/** The PDF that tinyPdf writes: objects, byte offsets, cross-reference table and trailer
    (ISO 32000-1 sections 7.3.4.2, 7.3.8, 7.5.4 and 7.5.5). */
module PdfWriter {
  import opened Decimal
  import opened PdfTemplate
  import opened PdfText
  import opened Sequences

  const HEADER: string := "%PDF-1.4\n"
  const FONT: string := "<< /Type /Font " + "/Subtype /Type1 /BaseFont /Helvetica >>"
  const KIDS: string := "<< /Type /Pages /Kids ["
  const SHOW: string := ") Tj T*"
  const TEXT_END: string := "\nET\n"
  const END_STREAM: string := "endstream"
  const END_OBJ: string := "\nendobj\n"
  const IN_USE: string := " 00000 n \n"

  // ---------------------------------------------------------------- objects

  function EscapeChar(c: char): string {
    if c in "\\()" then ['\\', c] else [c]
  }

  function Escape(line: string): string {
    if line == "" then "" else EscapeChar(line[0]) + Escape(line[1..])
  }

  /** Lines joined by newlines. */
  function ShowAll(lines: seq<string>): string {
    if lines == [] then ""
    else "(" + Escape(lines[0]) + SHOW + (if |lines| == 1 then "" else "\n" + ShowAll(lines[1..]))
  }

  function Height(lines: seq<string>): nat {
    if 110 + |lines| * 12 > 842 then 110 + |lines| * 12 else 842
  }

  function StreamStart(lines: seq<string>): seq<Part> {
    [Lit("BT /F1 10 Tf 12 TL 40 "), Num(Height(lines) - 52), Lit(" Td\n")]
  }

  function StreamOf(lines: seq<string>): string {
    Print(StreamStart(lines)) + (ShowAll(lines) + TEXT_END)
  }

  function CatalogParts(): seq<Part> {
    [Lit("<< /Type /Catalog /Pages "), Num(2), Lit(" 0 R >>")]
  }

  function PageParts(lines: seq<string>, contents: nat): seq<Part> {
    [Lit("<< /Type /Page /Parent "), Num(2), Lit(" 0 R /MediaBox [0 0 595 "), Num(Height(lines)),
     Lit("] /Resources << /Font << /F1 "), Num(3), Lit(" 0 R >> >> /Contents "), Num(contents), Lit(" 0 R >>")]
  }

  function PageObject(lines: seq<string>, contents: nat): string {
    Print(PageParts(lines, contents))
  }

  function LengthParts(length: nat): seq<Part> {
    [Lit("<< /Length "), Num(length), Lit(" >>\nstream\n")]
  }

  function ContentObject(lines: seq<string>): string {
    Print(LengthParts(|StreamOf(lines)|)) + (StreamOf(lines) + END_STREAM)
  }

  function RefParts(id: nat): seq<Part> {
    [Num(id), Lit(" 0 R")]
  }

  /** References to objects first, first + 2, ... joined by blanks. */
  function Refs(count: nat, first: nat): string {
    if count == 0 then "" else Print(RefParts(first)) + (if count == 1 then "" else " " + Refs(count - 1, first + 2))
  }

  function CountParts(count: nat): seq<Part> {
    [Lit("] /Count "), Num(count), Lit(" >>")]
  }

  function PagesObject(count: nat): string {
    KIDS + (Refs(count, 4) + Print(CountParts(count)))
  }

  function PagePair(lines: seq<string>, id: nat): seq<string> {
    [PageObject(lines, id + 1), ContentObject(lines)]
  }

  /** Two objects per page, made by pair; the first of them is numbered first. */
  function PairsOf(pair: (seq<string>, nat) -> seq<string>, pages: seq<seq<string>>, first: nat): seq<string> {
    if pages == [] then [] else pair(pages[0], first) + PairsOf(pair, pages[1..], first + 2)
  }

  /** The page and content objects of the pages, the first of them numbered first. */
  function PageObjects(pages: seq<seq<string>>, first: nat): seq<string> {
    PairsOf(PagePair, pages, first)
  }

  /** Catalogue, page tree and font. */
  function FixedObjects(count: nat): (objects: seq<string>)
    ensures |objects| == 3
  {
    [Print(CatalogParts()), PagesObject(count), FONT]
  }

  function Objects(pages: seq<seq<string>>): seq<string> {
    FixedObjects(|pages|) + PageObjects(pages, 4)
  }

  // ---------------------------------------------------------------- the file

  function ObjectHead(id: nat): seq<Part> {
    [Num(id), Lit(" 0 obj\n")]
  }

  function ObjectText(id: nat, content: string): string {
    Print(ObjectHead(id)) + (content + END_OBJ)
  }

  /** The objects, the first of them numbered first. */
  function Body(objects: seq<string>, first: nat): string {
    if objects == [] then "" else ObjectText(first, objects[0]) + Body(objects[1..], first + 1)
  }

  function OffsetOf(objects: seq<string>, i: nat): nat
    requires i <= |objects|
  {
    |HEADER + Body(objects[..i], 1)|
  }

  function Offsets(objects: seq<string>): seq<nat> {
    seq(|objects|, i requires 0 <= i < |objects| => OffsetOf(objects, i))
  }

  function Entries(offsets: seq<nat>): string {
    if offsets == [] then "" else Padded(offsets[0], 10) + IN_USE + Entries(offsets[1..])
  }

  function TableHead(size: nat): seq<Part> {
    [Lit("xref\n0 "), Num(size), Lit("\n0000000000 65535 f \n")]
  }

  function TrailerDict(size: nat): seq<Part> {
    [Lit("trailer\n<< /Size "), Num(size), Lit(" /Root "), Num(1), Lit(" 0 R >>\n")]
  }

  function TrailerParts(size: nat, xref: nat): seq<Part> {
    TrailerDict(size) + [Lit("startxref\n"), Num(xref), Lit("\n%%EOF\n")]
  }

  function Render(objects: seq<string>): string {
    var size := |objects| + 1;
    HEADER + Body(objects, 1)
    + (Print(TableHead(size)) + (Entries(Offsets(objects)) + Print(TrailerParts(size, OffsetOf(objects, |objects|)))))
  }

  /** Every entry of the table has the 20 bytes of section 7.5.4, which is what lets a reader
      find entry n: offsets have at most ten digits. */
  predicate TableFits(objects: seq<string>) {
    forall i :: 0 <= i < |objects| ==> OffsetOf(objects, i) < Power10(10)
  }

  lemma EntryWidth(offset: nat)
    ensures |Padded(offset, 10) + IN_USE| == 20 <==> offset < Power10(10)
  {
    PaddedNumber(offset, 10);
  }

  // ---------------------------------------------------------------- the loops

  lemma {:induction false} BodyConcat(a: seq<string>, b: seq<string>, first: nat)
    ensures Body(a + b, first) == Body(a, first) + Body(b, first + |a|)
  {
    if a == [] {
      assert a + b == b;
    } else {
      assert (a + b)[1..] == a[1..] + b;
      BodyConcat(a[1..], b, first + 1);
      var head := ObjectText(first, a[0]);
      assert head + (Body(a[1..], first + 1) + Body(b, first + |a|)) ==
          head + Body(a[1..], first + 1) + Body(b, first + |a|);
    }
  }

  lemma BodyGrows(objects: seq<string>, k: nat)
    requires k < |objects|
    ensures Body(objects[..k + 1], 1) == Body(objects[..k], 1) + ObjectText(k + 1, objects[k])
  {
    assert objects[..k + 1] == objects[..k] + [objects[k]];
    BodyConcat(objects[..k], [objects[k]], 1);
    assert [objects[k]][1..] == [];
    assert ObjectText(k + 1, objects[k]) + "" == ObjectText(k + 1, objects[k]);
  }

  lemma {:induction false} PairsGrow(pair: (seq<string>, nat) -> seq<string>, pages: seq<seq<string>>, k: nat,
                                     first: nat)
    requires k < |pages| && forall page, id :: |pair(page, id)| == 2
    ensures |PairsOf(pair, pages[..k], first)| == 2 * k
    ensures PairsOf(pair, pages[..k + 1], first) == PairsOf(pair, pages[..k], first) + pair(pages[k], first + 2 * k)
  {
    assert pages[..k + 1][1..] == pages[1..][..k];
    if k == 0 {
      assert pair(pages[0], first) + [] == [] + pair(pages[0], first);
    } else {
      PairsGrow(pair, pages[1..], k - 1, first + 2);
      assert pages[..k][1..] == pages[1..][..k - 1];
      var head, mid := pair(pages[0], first), PairsOf(pair, pages[1..][..k - 1], first + 2);
      var last := pair(pages[k], first + 2 * k);
      assert head + (mid + last) == head + mid + last;
    }
  }

  lemma {:induction false} EntriesConcat(a: seq<nat>, b: seq<nat>)
    ensures Entries(a + b) == Entries(a) + Entries(b)
  {
    if a == [] {
      assert a + b == b;
    } else {
      assert (a + b)[1..] == a[1..] + b;
      EntriesConcat(a[1..], b);
      var head := Padded(a[0], 10) + IN_USE;
      assert head + (Entries(a[1..]) + Entries(b)) == head + Entries(a[1..]) + Entries(b);
    }
  }

  /** Appends the objects of each page to those before the first page. */
  method AppendPages(fixed: seq<string>, pair: (seq<string>, nat) -> seq<string>, pages: seq<seq<string>>)
    returns (objects: seq<string>)
    requires forall page, id :: |pair(page, id)| == 2
    ensures objects == fixed + PairsOf(pair, pages, |fixed| + 1)
  {
    objects := fixed;
    var k := 0;
    while k < |pages|
      invariant 0 <= k <= |pages|
      invariant objects == fixed + PairsOf(pair, pages[..k], |fixed| + 1)
      invariant |objects| == |fixed| + 2 * k
    {
      var pageId := |objects| + 1;
      PairsGrow(pair, pages, k, |fixed| + 1);
      objects := objects + pair(pages[k], pageId);
      k := k + 1;
    }
    assert pages[..k] == pages;
  }

  lemma OffsetIsLength(objects: seq<string>, k: nat)
    requires k < |objects|
    ensures Offsets(objects)[..k + 1] == Offsets(objects)[..k] + [|HEADER + Body(objects[..k], 1)|]
  {
    assert Offsets(objects)[k] == OffsetOf(objects, k);
  }

  lemma OutputGrows(objects: seq<string>, k: nat)
    requires k < |objects|
    ensures HEADER + Body(objects[..k], 1) + ObjectText(k + 1, objects[k]) == HEADER + Body(objects[..k + 1], 1)
  {
    BodyGrows(objects, k);
    Associative(HEADER, Body(objects[..k], 1), ObjectText(k + 1, objects[k]));
  }

  lemma AllWritten(objects: seq<string>)
    ensures objects[..|objects|] == objects && Offsets(objects)[..|objects|] == Offsets(objects)
  {
  }

  /** Appends the objects and notes where each begins. */
  method WriteObjects(objects: seq<string>) returns (output: string, offsets: seq<nat>)
    ensures output == HEADER + Body(objects, 1)
    ensures offsets == Offsets(objects)
  {
    output, offsets := HEADER, [];
    var k := 0;
    assert HEADER + "" == HEADER;
    while k < |objects|
      invariant 0 <= k <= |objects|
      invariant output == HEADER + Body(objects[..k], 1)
      invariant offsets == Offsets(objects)[..k]
    {
      OffsetIsLength(objects, k);
      OutputGrows(objects, k);
      offsets := offsets + [|output|];
      output := output + ObjectText(k + 1, objects[k]);
      k := k + 1;
    }
    AllWritten(objects);
  }

  method WriteEntries(offsets: seq<nat>) returns (entries: string)
    ensures entries == Entries(offsets)
  {
    entries := "";
    var k := 0;
    while k < |offsets|
      invariant 0 <= k <= |offsets|
      invariant entries == Entries(offsets[..k])
    {
      var entry := Padded(offsets[k], 10) + IN_USE;
      EntriesConcat(offsets[..k], [offsets[k]]);
      assert [offsets[k]][1..] == [] && entry + "" == entry;
      assert offsets[..k + 1] == offsets[..k] + [offsets[k]];
      entries := entries + entry;
      k := k + 1;
    }
    assert offsets[..k] == offsets;
  }

  method WriteFile(objects: seq<string>) returns (output: string)
    ensures output == Render(objects)
  {
    var offsets, entries;
    output, offsets := WriteObjects(objects);
    var xref := |output|;
    assert objects[..|objects|] == objects;
    entries := WriteEntries(offsets);
    var size := |objects| + 1;
    output := output + (Print(TableHead(size)) + (entries + Print(TrailerParts(size, xref))));
  }

  lemma PairsHaveTwo()
    ensures forall page, id :: |PagePair(page, id)| == 2
  {
  }

  /** tinyPdf */
  method TinyPdf(text: string) returns (output: string)
    ensures output == Render(Objects(Pages(text)))
  {
    var pages := Pages(text);
    PairsHaveTwo();
    var objects := AppendPages(FixedObjects(|pages|), PagePair, pages);
    output := WriteFile(objects);
  }
}
