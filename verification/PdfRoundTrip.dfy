/** Reading undoes writing: every offset, length and reference in the file that tinyPdf
    writes is right. */
module PdfRoundTrip {
  import opened Decimal
  import opened PdfReader
  import opened PdfTemplate
  import opened PdfText
  import opened PdfWriter
  import opened Results
  import opened Sequences

  // ---------------------------------------------------------------- strings and streams

  lemma ReadsChar(c: char, after: string, t: string, rest: string)
    requires ReadString(after, 0) == Some((t, rest))
    ensures ReadString(EscapeChar(c) + after, 0) == Some(([c] + t, rest))
  {
    if c in "\\()" {
      assert (['\\', c] + after)[2..] == after;
    } else {
      assert ([c] + after)[1..] == after;
    }
  }

  lemma {:induction false} ReadsString(line: string, rest: string)
    ensures ReadString(Escape(line) + (")" + rest), 0) == Some((line, rest))
  {
    if line == "" {
      assert "" + (")" + rest) == ")" + rest;
      assert (")" + rest)[1..] == rest;
    } else {
      ReadsString(line[1..], rest);
      ReadsChar(line[0], Escape(line[1..]) + (")" + rest), line[1..], rest);
      Associative(EscapeChar(line[0]), Escape(line[1..]), ")" + rest);
      assert [line[0]] + line[1..] == line;
    }
  }

  const AFTER: string := " Tj T*\n"

  /** What follows the first line of a text, up to the end of the stream. */
  function AfterFirst(lines: seq<string>): string
    requires lines != []
  {
    if |lines| == 1 then "ET\n" else ShowAll(lines[1..]) + TEXT_END
  }

  lemma ShowStep(lines: seq<string>)
    requires lines != []
    ensures ShowAll(lines) + TEXT_END == "(" + (Escape(lines[0]) + (")" + (AFTER + AfterFirst(lines))))
  {
    var joint := if |lines| == 1 then "" else "\n" + ShowAll(lines[1..]);
    if |lines| == 1 {
      assert joint + TEXT_END == "\n" + AfterFirst(lines);
    } else {
      Associative("\n", ShowAll(lines[1..]), TEXT_END);
    }
    ShowJoint(Escape(lines[0]), joint, AfterFirst(lines));
    ShowAllStep(lines, joint);
  }

  lemma ShowAllStep(lines: seq<string>, joint: string)
    requires lines != [] && joint == if |lines| == 1 then "" else "\n" + ShowAll(lines[1..])
    ensures ShowAll(lines) == "(" + Escape(lines[0]) + SHOW + joint
  {
  }

  lemma ShowJoint(e: string, joint: string, tail: string)
    requires joint + TEXT_END == "\n" + tail
    ensures "(" + e + SHOW + joint + TEXT_END == "(" + (e + (")" + (AFTER + tail)))
  {
    assert SHOW + ("\n" + tail) == ")" + (AFTER + tail);
    Associative("(" + e + SHOW, joint, TEXT_END);
    Associative("(" + e, SHOW, "\n" + tail);
    Associative("(", e, ")" + (AFTER + tail));
  }

  lemma ReadsFirst(line: string, tail: string, more: seq<string>)
    requires ReadLines(tail) == Some(more)
    ensures ReadLines("(" + (Escape(line) + (")" + (AFTER + tail)))) == Some([line] + more)
  {
    var shown := AFTER + tail;
    var open := Escape(line) + (")" + shown);
    Expects("(", open);
    ReadsString(line, shown);
    Expects(AFTER, tail);
    assert ("(" + open)[0] == '(';
  }

  lemma {:induction false} ReadsLines(lines: seq<string>)
    requires lines != []
    ensures ReadLines(ShowAll(lines) + TEXT_END) == Some(lines)
  {
    ShowStep(lines);
    if |lines| == 1 {
      assert lines[1..] == [];
      assert ReadLines("ET\n") == Some([]);
    } else {
      ReadsLines(lines[1..]);
    }
    ReadsFirst(lines[0], AfterFirst(lines), lines[1..]);
    assert [lines[0]] + lines[1..] == lines;
  }

  // ---------------------------------------------------------------- finding objects

  lemma Nested(start: string, body: string, head: string, content: string, close: string, later: string, end: string)
    ensures start + (body + (head + (content + close) + later)) + end ==
            start + body + (head + (content + (close + later + end)))
  {
    Associative(start, body, head + (content + close) + later);
    Associative(start + body, head + (content + close) + later, end);
    Associative(head, content + close, later);
    Associative(head, content + close + later, end);
    Associative(content, close, later);
    Associative(content, close + later, end);
  }

  lemma BodyCons(content: string, rest: seq<string>, first: nat)
    ensures Body([content] + rest, first) == ObjectText(first, content) + Body(rest, first + 1)
  {
    assert ([content] + rest)[1..] == rest;
  }

  lemma BodyOf(front: seq<string>, content: string, rest: seq<string>)
    ensures Body(front + ([content] + rest), 1) ==
            Body(front, 1) + (ObjectText(|front| + 1, content) + Body(rest, |front| + 2))
  {
    BodyConcat(front, [content] + rest, 1);
    BodyCons(content, rest, |front| + 1);
  }

  lemma BodySplit(objects: seq<string>, i: nat)
    requires i < |objects|
    ensures Body(objects, 1) == Body(objects[..i], 1) + (ObjectText(i + 1, objects[i]) + Body(objects[i + 1..], i + 2))
  {
    SplitAt(objects, i);
    BodyOf(objects[..i], objects[i], objects[i + 1..]);
  }

  function End(objects: seq<string>): string {
    var size := |objects| + 1;
    Print(TableHead(size)) + (Entries(Offsets(objects)) + Print(TrailerParts(size, OffsetOf(objects, |objects|))))
  }

  lemma SuffixAt(file: string, a: string, b: string)
    requires file == a + b
    ensures |a| <= |file| && file[|a|..] == b
  {
  }

  /** At the offset noted for it, each object begins. */
  lemma ObjectPlace(objects: seq<string>, i: nat) returns (after: string)
    requires i < |objects|
    ensures OffsetOf(objects, i) <= |Render(objects)|
    ensures Render(objects)[OffsetOf(objects, i)..] == Print(ObjectHead(i + 1)) + (objects[i] + after)
  {
    BodySplit(objects, i);
    var later := Body(objects[i + 1..], i + 2);
    after := END_OBJ + later + End(objects);
    Nested(HEADER, Body(objects[..i], 1), Print(ObjectHead(i + 1)), objects[i], END_OBJ, later, End(objects));
    SuffixAt(Render(objects), HEADER + Body(objects[..i], 1), Print(ObjectHead(i + 1)) + (objects[i] + after));
  }

  // ---------------------------------------------------------------- the table

  lemma {:induction false} EntriesWidth(offsets: seq<nat>)
    requires forall i :: 0 <= i < |offsets| ==> offsets[i] < Power10(10)
    ensures |Entries(offsets)| == ENTRY * |offsets|
  {
    if offsets != [] {
      EntryWidth(offsets[0]);
      EntriesWidth(offsets[1..]);
    }
  }

  lemma {:induction false} EntryAt(offsets: seq<nat>, i: nat)
    requires i < |offsets| && forall j :: 0 <= j < |offsets| ==> offsets[j] < Power10(10)
    ensures |Entries(offsets)| == ENTRY * |offsets|
    ensures Entries(offsets)[ENTRY * i..ENTRY * (i + 1)] == Padded(offsets[i], 10) + IN_USE
  {
    EntriesWidth(offsets);
    EntryWidth(offsets[0]);
    var head, tail := Padded(offsets[0], 10) + IN_USE, Entries(offsets[1..]);
    assert Entries(offsets) == head + tail;
    if i == 0 {
      assert (head + tail)[0..ENTRY] == head;
    } else {
      EntryAt(offsets[1..], i - 1);
      assert (head + tail)[ENTRY * i..ENTRY * (i + 1)] == tail[ENTRY * (i - 1)..ENTRY * i];
    }
  }

  function TableOf(objects: seq<string>): Xref {
    Xref(|objects| + 1, 1, Entries(Offsets(objects)))
  }

  lemma EntryIsRead(objects: seq<string>, i: nat)
    requires i < |objects| && TableFits(objects)
    ensures EntryOffset(TableOf(objects), i + 1) == Some(OffsetOf(objects, i))
  {
    var offset := OffsetOf(objects, i);
    assert Offsets(objects)[i] == offset;
    EntryAt(Offsets(objects), i);
    PaddedNumber(offset, 10);
    var digits := Padded(offset, 10);
    DigitCountOf(digits, IN_USE);
    assert (digits + IN_USE)[..10] == digits && (digits + IN_USE)[10..] == IN_USE;
  }

  lemma HeadReads(id: nat, rest: string)
    ensures Read(ObjectShape(), Print(ObjectHead(id)) + rest) == Some(([id], rest))
  {
    ReadsBack(ObjectHead(id), rest);
    assert Shape(ObjectHead(id)) == ObjectShape();
    assert Numbers(ObjectHead(id)) == [id] by { assert ObjectHead(id)[1..] == [Lit(" 0 obj\n")]; }
  }

  /** Following entry n of the table lands on object n. */
  lemma ObjectIsFound(objects: seq<string>, i: nat) returns (after: string)
    requires i < |objects| && TableFits(objects)
    ensures ObjectAt(Render(objects), TableOf(objects), i + 1) == Some(objects[i] + after)
  {
    EntryIsRead(objects, i);
    after := ObjectPlace(objects, i);
    HeadReads(i + 1, objects[i] + after);
  }

  // ---------------------------------------------------------------- the tail

  lemma {:induction false} TrailingDigitsOf(before: string, digits: string)
    requires AllDigits(digits) && before != "" && !IsDigit(before[|before| - 1])
    ensures TrailingDigits(before + digits) == |digits|
  {
    if digits == "" {
      assert before + digits == before;
    } else {
      assert (before + digits)[..|before + digits| - 1] == before + digits[..|digits| - 1];
      TrailingDigitsOf(before, digits[..|digits| - 1]);
    }
  }

  lemma TailIsRead(before: string, at: nat)
    ensures ReadTail(before + START_XREF + Dec(at) + EOF) == Some(at)
  {
    var head := before + START_XREF;
    var file := head + Dec(at) + EOF;
    var body := file[..|file| - |EOF|];
    assert body == head + Dec(at);
    assert file[|file| - |EOF|..] == EOF;
    assert head[|head| - 1] == START_XREF[|START_XREF| - 1] == '\n';
    TrailingDigitsOf(head, Dec(at));
    assert body[..|body| - |Dec(at)|] == head && body[|body| - |Dec(at)|..] == Dec(at);
    assert head[|head| - |START_XREF|..] == START_XREF;
    NumberOfDec(at);
  }

  lemma {:induction false} PrintConcat(a: seq<Part>, b: seq<Part>)
    ensures Print(a + b) == Print(a) + Print(b)
  {
    if a == [] {
      assert a + b == b;
    } else {
      assert (a + b)[1..] == a[1..] + b;
      PrintConcat(a[1..], b);
      Associative(PrintPart(a[0]), Print(a[1..]), Print(b));
    }
  }

  function NumbersIn(p: Part): seq<nat> {
    if p.Num? then [p.value] else []
  }

  lemma {:induction false} NumbersConcat(a: seq<Part>, b: seq<Part>)
    ensures Numbers(a + b) == Numbers(a) + Numbers(b)
  {
    if a == [] {
      assert a + b == b;
    } else {
      assert (a + b)[1..] == a[1..] + b;
      NumbersConcat(a[1..], b);
      assert NumbersIn(a[0]) + (Numbers(a[1..]) + Numbers(b)) == NumbersIn(a[0]) + Numbers(a[1..]) + Numbers(b);
    }
  }

  lemma OnePart(a: Part)
    ensures Print([a]) == PrintPart(a) && Numbers([a]) == NumbersIn(a)
  {
    assert [a][1..] == [];
    assert PrintPart(a) + "" == PrintPart(a);
  }

  lemma ThreeParts(a: Part, b: Part, c: Part)
    ensures Print([a, b, c]) == PrintPart(a) + PrintPart(b) + PrintPart(c)
    ensures Numbers([a, b, c]) == NumbersIn(a) + NumbersIn(b) + NumbersIn(c)
  {
    OnePart(a);
    OnePart(b);
    OnePart(c);
    PrintConcat([a], [b]);
    PrintConcat([a] + [b], [c]);
    NumbersConcat([a], [b]);
    NumbersConcat([a] + [b], [c]);
    assert [a] + [b] + [c] == [a, b, c];
  }

  lemma TrailerPrint(size: nat, at: nat)
    ensures Print(TrailerParts(size, at)) == Print(TrailerDict(size)) + (START_XREF + Dec(at) + EOF)
  {
    PrintConcat(TrailerDict(size), [Lit("startxref\n"), Num(at), Lit("\n%%EOF\n")]);
    ThreeParts(Lit("startxref\n"), Num(at), Lit("\n%%EOF\n"));
  }

  lemma NumberBetween(before: string, n: nat, after: string)
    ensures Numbers([Lit(before), Num(n), Lit(after)]) == [n]
  {
    ThreeParts(Lit(before), Num(n), Lit(after));
    assert [] + [n] + [] == [n];
  }

  lemma NumbersAround(m: nat, text: string, n: nat)
    ensures Numbers([Num(m), Lit(text), Num(n)]) == [m, n]
  {
    ThreeParts(Num(m), Lit(text), Num(n));
    assert [m] + [] + [n] == [m, n];
  }

  lemma TrailerNumbers(size: nat, at: nat)
    ensures Numbers(TrailerParts(size, at)) == [size, 1, at]
  {
    var head, sizes := [Lit("trailer\n<< /Size ")], [Num(size), Lit(" /Root "), Num(1)];
    var close, start := [Lit(" 0 R >>\n")], [Lit("startxref\n"), Num(at), Lit("\n%%EOF\n")];
    assert TrailerParts(size, at) == head + (sizes + (close + start));
    NumbersConcat(head, sizes + (close + start));
    NumbersConcat(sizes, close + start);
    NumbersConcat(close, start);
    OnePart(head[0]);
    OnePart(close[0]);
    NumbersAround(size, " /Root ", 1);
    NumberBetween("startxref\n", at, "\n%%EOF\n");
  }

  lemma TrailerIsReadable(size: nat, at: nat)
    ensures Readable(TrailerParts(size, at)) && Shape(TrailerParts(size, at)) == TrailerShape()
  {
  }

  lemma TrailerReads(size: nat, at: nat)
    ensures Read(TrailerShape(), Print(TrailerParts(size, at))) == Some(([size, 1, at], ""))
  {
    TrailerIsReadable(size, at);
    ReadsBack(TrailerParts(size, at), "");
    assert Print(TrailerParts(size, at)) + "" == Print(TrailerParts(size, at));
    TrailerNumbers(size, at);
  }

  lemma TableHeadReads(size: nat, rest: string)
    ensures Read(TableHeadShape(), Print(TableHead(size)) + rest) == Some(([size], rest))
  {
    OneNumber("xref\n0 ", size, "\n0000000000 65535 f \n", rest);
  }

  lemma FileTail(objects: seq<string>)
    ensures ReadTail(Render(objects)) == Some(OffsetOf(objects, |objects|))
  {
    var size, at := |objects| + 1, OffsetOf(objects, |objects|);
    var start, head, entries := HEADER + Body(objects, 1), Print(TableHead(size)), Entries(Offsets(objects));
    var dict, end := Print(TrailerDict(size)), START_XREF + Dec(at) + EOF;
    TrailerPrint(size, at);
    FiveTogether(start, head, entries, dict, end);
    var before := start + head + entries + dict;
    Associative(before, START_XREF + Dec(at), EOF);
    Associative(before, START_XREF, Dec(at));
    TailIsRead(before, at);
  }

  /** startxref leads to the table's head, whatever the offsets are. */
  lemma TableIsFound(objects: seq<string>)
    ensures var at, size := OffsetOf(objects, |objects|), |objects| + 1;
            && at <= |Render(objects)|
            && Read(TableHeadShape(), Render(objects)[at..]) ==
                 Some(([size], Entries(Offsets(objects)) + Print(TrailerParts(size, at))))
  {
    var at, size := OffsetOf(objects, |objects|), |objects| + 1;
    assert objects[..|objects|] == objects;
    var after := Entries(Offsets(objects)) + Print(TrailerParts(size, at));
    SuffixAt(Render(objects), HEADER + Body(objects, 1), Print(TableHead(size)) + after);
    TableHeadReads(size, after);
  }

  lemma XrefFrom(file: string, at: nat, size: nat, entries: string, trailer: string)
    requires ReadTail(file) == Some(at) && at <= |file| && size > 0
    requires Read(TableHeadShape(), file[at..]) == Some(([size], entries + trailer))
    requires |entries| == ENTRY * (size - 1) && Read(TrailerShape(), trailer) == Some(([size, 1, at], ""))
    ensures ReadXref(file) == Some(Xref(size, 1, entries))
  {
    SuffixAt(entries + trailer, entries, trailer);
    assert (entries + trailer)[..|entries|] == entries;
  }

  lemma NoXrefFrom(file: string, at: nat, size: nat, entries: string, trailer: string)
    requires ReadTail(file) == Some(at) && at <= |file| && size > 0
    requires Read(TableHeadShape(), file[at..]) == Some(([size], entries + trailer))
    requires |entries| > ENTRY * (size - 1) && entries[ENTRY * (size - 1)] != 't'
    ensures ReadXref(file) == None
  {
    WideTableHidesTrailer(entries, trailer, ENTRY * (size - 1));
  }

  lemma EntriesFit(objects: seq<string>)
    requires TableFits(objects)
    ensures |Entries(Offsets(objects))| == ENTRY * |objects|
  {
    EntriesWidth(Offsets(objects));
  }

  /** startxref leads to the table, and the table is read whole. */
  lemma XrefIsRead(objects: seq<string>)
    requires TableFits(objects)
    ensures ReadXref(Render(objects)) == Some(TableOf(objects))
  {
    var at, size := OffsetOf(objects, |objects|), |objects| + 1;
    FileTail(objects);
    TableIsFound(objects);
    EntriesFit(objects);
    TrailerReads(size, at);
    XrefFrom(Render(objects), at, size, Entries(Offsets(objects)), Print(TrailerParts(size, at)));
  }

  // ---------------------------------------------------------------- the document

  lemma {:induction false} PairAt(pair: (seq<string>, nat) -> seq<string>, pages: seq<seq<string>>, k: nat, first: nat)
    requires k < |pages| && forall page, id :: |pair(page, id)| == 2
    ensures |PairsOf(pair, pages, first)| == 2 * |pages|
    ensures PairsOf(pair, pages, first)[2 * k] == pair(pages[k], first + 2 * k)[0]
    ensures PairsOf(pair, pages, first)[2 * k + 1] == pair(pages[k], first + 2 * k)[1]
  {
    if k > 0 {
      PairAt(pair, pages[1..], k - 1, first + 2);
    } else if |pages| > 1 {
      PairAt(pair, pages[1..], 0, first + 2);
    }
  }

  lemma ObjectsAt(pages: seq<seq<string>>, k: nat)
    requires k < |pages|
    ensures |Objects(pages)| == 3 + 2 * |pages|
    ensures Objects(pages)[3 + 2 * k] == PageObject(pages[k], 5 + 2 * k)
    ensures Objects(pages)[4 + 2 * k] == ContentObject(pages[k])
  {
    PageObjectsAt(pages, k);
    AfterThree(FixedObjects(|pages|), PageObjects(pages, 4), 2 * k);
    AfterThree(FixedObjects(|pages|), PageObjects(pages, 4), 2 * k + 1);
  }

  lemma PageObjectsAt(pages: seq<seq<string>>, k: nat)
    requires k < |pages|
    ensures |PageObjects(pages, 4)| == 2 * |pages|
    ensures PageObjects(pages, 4)[2 * k] == PageObject(pages[k], 5 + 2 * k)
    ensures PageObjects(pages, 4)[2 * k + 1] == ContentObject(pages[k])
  {
    PairsHaveTwo();
    PairAt(PagePair, pages, k, 4);
  }

  lemma AfterThree(fixed: seq<string>, others: seq<string>, k: nat)
    requires |fixed| == 3 && k < |others|
    ensures (fixed + others)[3 + k] == others[k]
  {
  }

  lemma OneNumber(before: string, n: nat, end: string, rest: string)
    requires end != "" && !IsDigit(end[0])
    ensures var parts := [Lit(before), Num(n), Lit(end)];
            Read([Text(before), Numeral, Text(end)], Print(parts) + rest) == Some(([n], rest))
  {
    var parts := [Lit(before), Num(n), Lit(end)];
    ReadsBack(parts, rest);
    ThreeParts(Lit(before), Num(n), Lit(end));
    assert [] + [n] + [] == [n];
    assert Numbers(parts) == [n];
    assert Shape(parts) == [Text(before), Numeral, Text(end)];
  }

  lemma StreamReads(lines: seq<string>)
    requires lines != []
    ensures Read(StreamShape(), StreamOf(lines)) == Some(([Height(lines) - 52], ShowAll(lines) + TEXT_END))
    ensures ReadLines(ShowAll(lines) + TEXT_END) == Some(lines)
  {
    OneNumber("BT /F1 10 Tf 12 TL 40 ", Height(lines) - 52, " Td\n", ShowAll(lines) + TEXT_END);
    ReadsLines(lines);
  }

  /** A page is as high as A4, or higher if its lines need it: the first line is 52 below the top,
      and the last at least 70 above the bottom. */
  lemma HeightFits(lines: seq<string>)
    requires lines != []
    ensures Height(lines) >= 842 && LiesOnPage(Height(lines) - 52, |lines|, Height(lines))
    ensures Height(lines) - 52 - 12 * (|lines| - 1) >= 70
    ensures Height(lines) > 842 ==> Height(lines) - 52 - 12 * (|lines| - 1) == 70
  {
  }

  /** /Length is the length of the stream: taking that many bytes leaves endstream. */
  lemma ContentReads(objectAt: Lookup, id: nat, lines: seq<string>, after: string)
    requires lines != [] && objectAt(id) == Some(ContentObject(lines) + after)
    ensures ReadContent(objectAt, id, Height(lines)) == Some(lines)
  {
    var stream := StreamOf(lines);
    var head, data := Print(LengthParts(|stream|)), stream + (END_STREAM + after);
    Associative(head, stream + END_STREAM, after);
    Associative(stream, END_STREAM, after);
    OneNumber("<< /Length ", |stream|, " >>\nstream\n", data);
    SuffixAt(data, stream, END_STREAM + after);
    assert data[..|stream|] == stream;
    Expects(END_STREAM, after);
    StreamReads(lines);
    HeightFits(lines);
  }

  lemma PageNumbers(lines: seq<string>, contents: nat)
    ensures Numbers(PageParts(lines, contents)) == [2, Height(lines), 3, contents]
  {
    var a := [Lit("<< /Type /Page /Parent "), Num(2), Lit(" 0 R /MediaBox [0 0 595 ")];
    var b := [Num(Height(lines)), Lit("] /Resources << /Font << /F1 "), Num(3)];
    var c := [Lit(" 0 R >> >> /Contents "), Num(contents), Lit(" 0 R >>")];
    assert PageParts(lines, contents) == a + (b + c);
    NumbersConcat(a, b + c);
    NumbersConcat(b, c);
    NumberBetween("<< /Type /Page /Parent ", 2, " 0 R /MediaBox [0 0 595 ");
    NumbersAround(Height(lines), "] /Resources << /Font << /F1 ", 3);
    NumberBetween(" 0 R >> >> /Contents ", contents, " 0 R >>");
  }

  lemma PagePartsAreReadable(lines: seq<string>, contents: nat)
    ensures Readable(PageParts(lines, contents)) && Shape(PageParts(lines, contents)) == PageShape()
  {
  }

  lemma PageHeadReads(lines: seq<string>, contents: nat, after: string)
    ensures Read(PageShape(), PageObject(lines, contents) + after) == Some(([2, Height(lines), 3, contents], after))
  {
    PagePartsAreReadable(lines, contents);
    ReadsBack(PageParts(lines, contents), after);
    PageNumbers(lines, contents);
  }

  lemma FontIsFont(after: string)
    ensures Expect(FONT + after, "<< /Type /Font ").Some?
  {
    var rest := "/Subtype /Type1 /BaseFont /Helvetica >>";
    Associative("<< /Type /Font ", rest, after);
    Expects("<< /Type /Font ", rest + after);
  }

  /** /Parent, /F1 and /Contents name the right objects. */
  lemma PageReads(objectAt: Lookup, id: nat, lines: seq<string>, contents: nat, page: string, font: string,
                  content: string)
    requires lines != []
    requires objectAt(id) == Some(PageObject(lines, contents) + page)
    requires objectAt(3) == Some(FONT + font)
    requires objectAt(contents) == Some(ContentObject(lines) + content)
    ensures ReadPage(objectAt, id, 2) == Some(lines)
  {
    PageHeadReads(lines, contents, page);
    FontIsFont(font);
    ContentReads(objectAt, contents, lines, content);
  }

  function LookupIn(objects: seq<string>): Lookup {
    (id: nat) => ObjectAt(Render(objects), TableOf(objects), id)
  }

  ghost predicate StartsWith(r: Option<string>, content: string) {
    r.Some? && |content| <= |r.value| && r.value[..|content|] == content
  }

  lemma Continues(r: Option<string>, content: string) returns (after: string)
    requires StartsWith(r, content)
    ensures r == Some(content + after)
  {
    after := r.value[|content|..];
    assert r.value == content + after;
  }

  /** Object i + 1 is found where the list of objects has it. */
  ghost predicate Serves(objectAt: Lookup, objects: seq<string>) {
    forall i :: 0 <= i < |objects| ==> StartsWith(objectAt(i + 1), objects[i])
  }

  lemma FileServes(objects: seq<string>)
    requires TableFits(objects)
    ensures Serves(LookupIn(objects), objects)
  {
    forall i | 0 <= i < |objects|
      ensures StartsWith(LookupIn(objects)(i + 1), objects[i])
    {
      var after := ObjectIsFound(objects, i);
      assert (objects[i] + after)[..|objects[i]|] == objects[i];
    }
  }

  lemma Finds(objectAt: Lookup, objects: seq<string>, id: nat, content: string) returns (after: string)
    requires Serves(objectAt, objects) && 1 <= id <= |objects| && objects[id - 1] == content
    ensures objectAt(id) == Some(content + after)
  {
    after := Continues(objectAt(id - 1 + 1), objects[id - 1]);
  }

  lemma PageIsRead(objectAt: Lookup, objects: seq<string>, lines: seq<string>, id: nat)
    requires Serves(objectAt, objects) && lines != []
    requires 4 <= id < |objects| && objects[2] == FONT
    requires objects[id - 1] == PageObject(lines, id + 1) && objects[id] == ContentObject(lines)
    ensures ReadPage(objectAt, id, 2) == Some(lines)
  {
    var page := Finds(objectAt, objects, id, PageObject(lines, id + 1));
    var font := Finds(objectAt, objects, 3, FONT);
    var content := Finds(objectAt, objects, id + 1, ContentObject(lines));
    PageReads(objectAt, id, lines, id + 1, page, font, content);
  }

  function KidIds(count: nat, first: nat): seq<nat> {
    if count == 0 then [] else [first] + KidIds(count - 1, first + 2)
  }

  lemma RefNumbers(id: nat)
    ensures Shape(RefParts(id)) == RefShape() && Numbers(RefParts(id)) == [id]
  {
    assert RefParts(id)[1..] == [Lit(" 0 R")] && [Lit(" 0 R")][1..] == [];
    assert Numbers([Lit(" 0 R")]) == [];
  }

  lemma RefReads(id: nat, rest: string)
    ensures Read(RefShape(), Print(RefParts(id)) + rest) == Some(([id], rest))
  {
    RefNumbers(id);
    ReadsBack(RefParts(id), rest);
  }

  lemma RefsStep(id: nat, more: string, ids: seq<nat>, rest: string)
    requires ReadRefs(more) == Some((ids, rest))
    ensures ReadRefs(Print(RefParts(id)) + (" " + more)) == Some(([id] + ids, rest))
  {
    RefReads(id, " " + more);
    assert (" " + more)[1..] == more;
  }

  lemma LastRef(id: nat, rest: string)
    requires rest != "" && rest[0] != ' '
    ensures ReadRefs(Print(RefParts(id)) + rest) == Some(([id], rest))
  {
    RefReads(id, rest);
  }

  lemma RefsReadMore(count: nat, first: nat, ids: seq<nat>, rest: string)
    requires count > 1 && ReadRefs(Refs(count - 1, first + 2) + rest) == Some((ids, rest))
    ensures ReadRefs(Refs(count, first) + rest) == Some(([first] + ids, rest))
  {
    var refs := Refs(count - 1, first + 2);
    RefsStep(first, refs + rest, ids, rest);
    Associative(Print(RefParts(first)), " " + refs, rest);
    Associative(" ", refs, rest);
  }

  lemma {:induction false} RefsRead(count: nat, first: nat, rest: string)
    requires count > 0 && rest != "" && rest[0] != ' '
    ensures ReadRefs(Refs(count, first) + rest) == Some((KidIds(count, first), rest))
  {
    if count == 1 {
      LastRef(first, rest);
      var head := Print(RefParts(first));
      assert Refs(1, first) == head + "" == head;
      assert KidIds(1, first) == [first] + KidIds(0, first + 2) == [first];
    } else {
      RefsRead(count - 1, first + 2, rest);
      RefsReadMore(count, first, KidIds(count - 1, first + 2), rest);
    }
  }

  lemma {:induction false} AllRead<T>(read: nat -> Option<T>, items: seq<T>, first: nat)
    requires forall k :: 0 <= k < |items| ==> read(first + 2 * k) == Some(items[k])
    ensures ReadAll(read, KidIds(|items|, first)) == Some(items)
  {
    if items != [] {
      assert read(first + 2 * 0) == Some(items[0]);
      forall k | 0 <= k < |items[1..]|
        ensures read(first + 2 + 2 * k) == Some(items[1..][k])
      {
        assert items[1..][k] == items[k + 1];
      }
      AllRead(read, items[1..], first + 2);
      assert KidIds(|items|, first)[1..] == KidIds(|items[1..]|, first + 2);
      assert [items[0]] + items[1..] == items;
    }
  }

  lemma {:induction false} KidIdsLength(count: nat, first: nat)
    ensures |KidIds(count, first)| == count
  {
    if count > 0 {
      KidIdsLength(count - 1, first + 2);
    }
  }

  lemma PagesObjectReads(count: nat, after: string)
    requires count > 0
    ensures var kids := Expect(PagesObject(count) + after, KIDS);
            && kids.Some?
            && var refs := ReadRefs(kids.value);
               && refs.Some? && refs.value.0 == KidIds(count, 4)
               && Read(CountShape(), refs.value.1) == Some(([count], after))
  {
    var end := Print(CountParts(count)) + after;
    Associative(KIDS, Refs(count, 4) + Print(CountParts(count)), after);
    Associative(Refs(count, 4), Print(CountParts(count)), after);
    Expects(KIDS, Refs(count, 4) + end);
    ThreeParts(Lit("] /Count "), Num(count), Lit(" >>"));
    assert end[0] == ']';
    RefsRead(count, 4, end);
    OneNumber("] /Count ", count, " >>", after);
  }

  lemma CatalogReads(after: string)
    ensures Read(CatalogShape(), Print(CatalogParts()) + after) == Some(([2], after))
  {
    OneNumber("<< /Type /Catalog /Pages ", 2, " 0 R >>", after);
  }

  lemma KidsRead(objectAt: Lookup, count: nat, catalog: string, kids: string)
    requires count > 0
    requires objectAt(1) == Some(Print(CatalogParts()) + catalog)
    requires objectAt(2) == Some(PagesObject(count) + kids)
    ensures ReadKids(objectAt, 1) == Some((2, KidIds(count, 4)))
  {
    CatalogReads(catalog);
    PagesObjectReads(count, kids);
    KidIdsLength(count, 4);
  }

  ghost predicate PagesRead(objectAt: Lookup, pages: seq<seq<string>>) {
    forall k :: 0 <= k < |pages| ==> ReadPage(objectAt, 4 + 2 * k, 2) == Some(pages[k])
  }

  lemma TreeIsRead(objectAt: Lookup, pages: seq<seq<string>>)
    requires pages != [] && forall i :: 0 <= i < |pages| ==> pages[i] != []
    requires ReadKids(objectAt, 1) == Some((2, KidIds(|pages|, 4)))
    requires PagesRead(objectAt, pages)
    ensures ReadTree(objectAt, 1) == Some(pages)
  {
    var read := (id: nat) => ReadPage(objectAt, id, 2);
    AllRead(read, pages, 4);
  }

  lemma KidsAreRead(objectAt: Lookup, objects: seq<string>, count: nat)
    requires Serves(objectAt, objects) && |objects| >= 2 && count > 0
    requires objects[0] == Print(CatalogParts()) && objects[1] == PagesObject(count)
    ensures ReadKids(objectAt, 1) == Some((2, KidIds(count, 4)))
  {
    var catalog := Finds(objectAt, objects, 1, Print(CatalogParts()));
    var kids := Finds(objectAt, objects, 2, PagesObject(count));
    KidsRead(objectAt, count, catalog, kids);
  }

  lemma FirstThree(pages: seq<seq<string>>)
    ensures var objects := Objects(pages);
            |objects| >= 3 && objects[0] == Print(CatalogParts()) && objects[1] == PagesObject(|pages|) &&
                objects[2] == FONT
  {
    var fixed, others := FixedObjects(|pages|), PageObjects(pages, 4);
    assert (fixed + others)[0] == fixed[0] && (fixed + others)[1] == fixed[1] && (fixed + others)[2] == fixed[2];
  }

  lemma PageOfDocument(objectAt: Lookup, pages: seq<seq<string>>, k: nat)
    requires k < |pages| && pages[k] != [] && Serves(objectAt, Objects(pages))
    ensures ReadPage(objectAt, 4 + 2 * k, 2) == Some(pages[k])
  {
    FirstThree(pages);
    ObjectsAt(pages, k);
    PageIsRead(objectAt, Objects(pages), pages[k], 4 + 2 * k);
  }

  lemma DocumentIsRead(objectAt: Lookup, pages: seq<seq<string>>)
    requires pages != [] && forall i :: 0 <= i < |pages| ==> pages[i] != []
    requires Serves(objectAt, Objects(pages))
    ensures ReadTree(objectAt, 1) == Some(pages)
  {
    FirstThree(pages);
    KidsAreRead(objectAt, Objects(pages), |pages|);
    forall k | 0 <= k < |pages|
      ensures ReadPage(objectAt, 4 + 2 * k, 2) == Some(pages[k])
    {
      PageOfDocument(objectAt, pages, k);
    }
    TreeIsRead(objectAt, pages);
  }

  // ---------------------------------------------------------------- tables that are too wide

  lemma {:induction false} WideEntries(offsets: seq<nat>)
    ensures |Entries(offsets)| >= ENTRY * |offsets|
    ensures (exists i :: 0 <= i < |offsets| && offsets[i] >= Power10(10)) ==> |Entries(offsets)| > ENTRY * |offsets|
    ensures forall i :: 0 <= i < |Entries(offsets)| ==> Entries(offsets)[i] != 't'
  {
    if offsets != [] {
      EntryWidth(offsets[0]);
      PaddedNumber(offsets[0], 10);
      WideEntries(offsets[1..]);
      var entry := Padded(offsets[0], 10) + IN_USE;
      forall i | 0 <= i < |entry|
        ensures entry[i] != 't'
      {
        if i < |Padded(offsets[0], 10)| {
          assert IsDigit(Padded(offsets[0], 10)[i]);
        }
      }
    }
  }

  /** With one entry of more than 20 bytes the trailer is not where the table should end. */
  lemma WideTableIsUnreadable(objects: seq<string>)
    requires !TableFits(objects)
    ensures ReadXref(Render(objects)) == None
  {
    var at, size := OffsetOf(objects, |objects|), |objects| + 1;
    var entries, trailer := Entries(Offsets(objects)), Print(TrailerParts(size, at));
    FileTail(objects);
    TableIsFound(objects);
    EntriesAreWide(objects);
    NoXrefFrom(Render(objects), at, size, entries, trailer);
  }

  lemma EntriesAreWide(objects: seq<string>)
    requires !TableFits(objects)
    ensures |Entries(Offsets(objects))| > ENTRY * |objects|
    ensures Entries(Offsets(objects))[ENTRY * |objects|] != 't'
  {
    var i :| 0 <= i < |objects| && OffsetOf(objects, i) >= Power10(10);
    assert Offsets(objects)[i] >= Power10(10);
    WideEntries(Offsets(objects));
  }

  lemma WideTableHidesTrailer(entries: string, trailer: string, at: nat)
    requires at < |entries| && entries[at] != 't'
    ensures Read(TrailerShape(), (entries + trailer)[at..]) == None
  {
    NoTrailer((entries + trailer)[at..]);
  }

  lemma NoTrailer(rest: string)
    requires rest != "" && rest[0] != 't'
    ensures Read(TrailerShape(), rest) == None
  {
    assert TrailerShape()[0] == Text("trailer\n<< /Size ");
  }

  /** For every text: reading the file that tinyPdf writes gives back the strings of its pages
      exactly when no object starts at an offset of more than ten digits. */
  lemma TinyPdfRoundTrip(text: string)
    ensures ReadDocument(Render(Objects(Pages(text)))) == Some(Pages(text)) <==> TableFits(Objects(Pages(text)))
  {
    var pages := Pages(text);
    PagesAreNonempty(KeptSections(text));
    if TableFits(Objects(pages)) {
      FittingFileIsRead(pages);
    } else {
      WideTableIsUnreadable(Objects(pages));
    }
  }

  lemma FittingFileIsRead(pages: seq<seq<string>>)
    requires pages != [] && forall i :: 0 <= i < |pages| ==> pages[i] != []
    requires TableFits(Objects(pages))
    ensures ReadDocument(Render(Objects(pages))) == Some(pages)
  {
    var objects := Objects(pages);
    XrefIsRead(objects);
    FileServes(objects);
    DocumentIsRead(LookupIn(objects), pages);
  }

  function RejoinAll(pages: seq<seq<string>>): seq<seq<string>> {
    if pages == [] then [] else [Rejoin(pages[0])] + RejoinAll(pages[1..])
  }

  ghost predicate NoneRunsOn(sections: seq<seq<string>>) {
    forall k: nat, i: nat :: k < |sections| ==> !RunsOn(sections[k], i)
  }

  lemma NoneRunsOnIn(first: seq<string>, more: seq<seq<string>>)
    ensures NoneRunsOn([first] + more) <==> (forall i: nat :: !RunsOn(first, i)) && NoneRunsOn(more)
  {
    var sections := [first] + more;
    assert sections[0] == first && forall k: nat :: k < |more| ==> sections[k + 1] == more[k];
    if NoneRunsOn(sections) {
      forall k: nat, i: nat | k < |more|
        ensures !RunsOn(more[k], i)
      {
        assert !RunsOn(sections[k + 1], i);
      }
    }
  }

  lemma RejoinFirst(first: seq<string>, more: seq<seq<string>>)
    ensures RejoinAll(PagesOf([first] + more)) == [Rejoin(PageOf(first))] + RejoinAll(PagesOf(more))
  {
    assert ([first] + more)[1..] == more;
    assert ([PageOf(first)] + PagesOf(more))[1..] == PagesOf(more);
  }

  lemma SameHeadAndRest(a: seq<string>, rest: seq<seq<string>>, b: seq<string>, more: seq<seq<string>>)
    ensures [a] + rest == [b] + more <==> a == b && rest == more
  {
    assert ([a] + rest)[0] == a && ([a] + rest)[1..] == rest;
    assert ([b] + more)[0] == b && ([b] + more)[1..] == more;
  }

  lemma {:induction false} RejoinAllPages(sections: seq<seq<string>>)
    requires forall k :: 0 <= k < |sections| ==> sections[k] != []
    ensures RejoinAll(PagesOf(sections)) == sections <==> NoneRunsOn(sections)
  {
    if sections != [] {
      var first, more := sections[0], sections[1..];
      assert sections == [first] + more;
      LinesComeBackExactly(first);
      RejoinAllPages(more);
      RejoinFirst(first, more);
      SameHeadAndRest(Rejoin(PageOf(first)), RejoinAll(PagesOf(more)), first, more);
      NoneRunsOnIn(first, more);
    }
  }

  /** From text to file and back: a reader of the file that joins full strings to the next gets
      the lines of every kept section, exactly if no line that fills its last string is followed
      by a line that is not empty. */
  lemma SectionsComeBack(text: string)
    requires TableFits(Objects(Pages(text)))
    ensures var pages := ReadDocument(Render(Objects(Pages(text))));
            && pages.Some?
            && (RejoinAll(pages.value) == KeptSections(text) <==> NoneRunsOn(KeptSections(text)))
  {
    TinyPdfRoundTrip(text);
    RejoinAllPages(KeptSections(text));
  }
}
