/** How large the file of a text can get: small enough for every text of a size that occurs, so
    that the ten digits of a table entry are enough (section 7.5.4 of ISO 32000-1). */
module PdfSize {
  import opened Decimal
  import opened PdfReader
  import opened PdfRoundTrip
  import opened PdfTemplate
  import opened PdfText
  import opened PdfWriter
  import opened Results

  const MAX_TEXT: nat := 10_000_000

  const TEN_DIGITS: nat := 10_000_000_000

  lemma TenDigits()
    ensures Power10(10) == TEN_DIGITS
  {
    assert Power10(5) == 100_000;
  }

  lemma NumeralSize(n: nat)
    requires n < TEN_DIGITS
    ensures |Dec(n)| <= 10
  {
    TenDigits();
    DecLength(n, 10);
  }

  // ---------------------------------------------------------------- pages

  /** A bound on what the strings of a page take in its stream. */
  function LinesCost(lines: seq<string>): nat {
    if lines == [] then 0 else 9 + 2 * |lines[0]| + LinesCost(lines[1..])
  }

  function PagesCost(pages: seq<seq<string>>): nat {
    if pages == [] then 0 else 300 + LinesCost(pages[0]) + PagesCost(pages[1..])
  }

  lemma {:induction false} EscapeSize(line: string)
    ensures |Escape(line)| <= 2 * |line|
  {
    if line != "" {
      EscapeSize(line[1..]);
    }
  }

  lemma {:induction false} ShowAllSize(lines: seq<string>)
    ensures |ShowAll(lines)| <= LinesCost(lines) && |lines| <= LinesCost(lines)
  {
    if lines != [] {
      EscapeSize(lines[0]);
      ShowAllSize(lines[1..]);
      assert |SHOW| == 7;
    }
  }

  lemma ThreePartsSize(before: string, n: nat, after: string)
    requires n < TEN_DIGITS
    ensures |Print([Lit(before), Num(n), Lit(after)])| <= |before| + 10 + |after|
  {
    ThreeParts(Lit(before), Num(n), Lit(after));
    NumeralSize(n);
  }

  lemma HeightSize(lines: seq<string>)
    requires LinesCost(lines) < TEN_DIGITS / 2
    ensures Height(lines) < TEN_DIGITS
  {
    NineEach(lines);
  }

  lemma {:induction false} NineEach(lines: seq<string>)
    ensures 9 * |lines| <= LinesCost(lines)
  {
    if lines != [] {
      NineEach(lines[1..]);
    }
  }

  lemma StreamSize(lines: seq<string>)
    requires LinesCost(lines) < TEN_DIGITS / 2
    ensures |StreamOf(lines)| <= 45 + LinesCost(lines)
  {
    HeightSize(lines);
    ShowAllSize(lines);
    ThreePartsSize("BT /F1 10 Tf 12 TL 40 ", Height(lines) - 52, " Td\n");
    assert |"BT /F1 10 Tf 12 TL 40 "| == 22 && |" Td\n"| == 4 && |TEXT_END| == 4;
  }

  lemma ContentSize(lines: seq<string>)
    requires LinesCost(lines) < TEN_DIGITS / 2
    ensures |ContentObject(lines)| <= 90 + LinesCost(lines)
  {
    StreamSize(lines);
    ThreePartsSize("<< /Length ", |StreamOf(lines)|, " >>\nstream\n");
    assert |"<< /Length "| == 11 && |" >>\nstream\n"| == 11 && |END_STREAM| == 9;
  }

  lemma PageSize(lines: seq<string>, contents: nat)
    requires LinesCost(lines) < TEN_DIGITS / 2 && contents < TEN_DIGITS
    ensures |PageObject(lines, contents)| <= 150
  {
    var a, b, c := Lit("<< /Type /Page /Parent "), Num(2), Lit(" 0 R /MediaBox [0 0 595 ");
    var d, e, f := Num(Height(lines)), Lit("] /Resources << /Font << /F1 "), Num(3);
    var g, h, i := Lit(" 0 R >> >> /Contents "), Num(contents), Lit(" 0 R >>");
    assert PageParts(lines, contents) == [a, b, c] + ([d, e, f] + [g, h, i]);
    PrintConcat([a, b, c], [d, e, f] + [g, h, i]);
    PrintConcat([d, e, f], [g, h, i]);
    ThreeParts(a, b, c);
    ThreeParts(d, e, f);
    ThreeParts(g, h, i);
    HeightSize(lines);
    NumeralSize(2);
    NumeralSize(3);
    NumeralSize(Height(lines));
    NumeralSize(contents);
    assert |a.text| == 23 && |c.text| == 24 && |e.text| == 29 && |g.text| == 21 && |i.text| == 7;
  }

  lemma ObjectSize(id: nat, content: string)
    requires id < TEN_DIGITS
    ensures |ObjectText(id, content)| <= 25 + |content|
  {
    var head := Lit(" 0 obj\n");
    PrintConcat([Num(id)], [head]);
    OnePart(Num(id));
    OnePart(head);
    assert ObjectHead(id) == [Num(id)] + [head];
    NumeralSize(id);
    assert |head.text| == 7 && |END_OBJ| == 8;
  }

  lemma {:induction false} PageObjectsSize(pages: seq<seq<string>>, first: nat)
    requires PagesCost(pages) < TEN_DIGITS / 2 && first + 2 * |pages| < TEN_DIGITS
    ensures |Body(PageObjects(pages, first), first)| <= PagesCost(pages)
  {
    if pages != [] {
      var pair, rest := PagePair(pages[0], first), PageObjects(pages[1..], first + 2);
      PageObjectsSize(pages[1..], first + 2);
      assert PageObjects(pages, first) == pair + rest;
      BodyConcat(pair, rest, first);
      PairSize(pages[0], first);
    }
  }

  lemma PairSize(lines: seq<string>, id: nat)
    requires LinesCost(lines) < TEN_DIGITS / 2 && id + 1 < TEN_DIGITS
    ensures |PagePair(lines, id)| == 2
    ensures |Body(PagePair(lines, id), id)| <= 300 + LinesCost(lines)
  {
    PageSize(lines, id + 1);
    ContentSize(lines);
    TwoObjects(PageObject(lines, id + 1), ContentObject(lines), id);
  }

  lemma OneObject(content: string, id: nat)
    requires id < TEN_DIGITS
    ensures |Body([content], id)| <= 25 + |content|
  {
    BodyCons(content, [], id);
    assert [content] + [] == [content];
    ObjectSize(id, content);
  }

  lemma TwoObjects(a: string, b: string, id: nat)
    requires id + 1 < TEN_DIGITS
    ensures |Body([a, b], id)| <= 50 + |a| + |b|
  {
    assert [a, b] == [a] + [b];
    BodyConcat([a], [b], id);
    OneObject(a, id);
    OneObject(b, id + 1);
  }

  // ---------------------------------------------------------------- the fixed objects

  lemma {:induction false} RefsSize(count: nat, first: nat)
    requires first + 2 * count < TEN_DIGITS
    ensures |Refs(count, first)| <= 15 * count
  {
    if count > 0 {
      RefsSize(count - 1, first + 2);
      PrintConcat([Num(first)], [Lit(" 0 R")]);
      OnePart(Num(first));
      OnePart(Lit(" 0 R"));
      assert RefParts(first) == [Num(first)] + [Lit(" 0 R")];
      NumeralSize(first);
    }
  }

  lemma CatalogSize()
    ensures |Print(CatalogParts())| <= 50
  {
    ThreePartsSize("<< /Type /Catalog /Pages ", 2, " 0 R >>");
  }

  lemma KidsSize(count: nat)
    requires 4 + 2 * count < TEN_DIGITS
    ensures |PagesObject(count)| <= 60 + 15 * count
  {
    RefsSize(count, 4);
    ThreePartsSize("] /Count ", count, " >>");
    assert |KIDS| == 23;
  }

  lemma FixedSize(count: nat)
    requires 4 + 2 * count < TEN_DIGITS
    ensures |Body(FixedObjects(count), 1)| <= 400 + 15 * count
  {
    var catalog, kids := Print(CatalogParts()), PagesObject(count);
    CatalogSize();
    KidsSize(count);
    assert |FONT| <= 60;
    assert FixedObjects(count) == [catalog, kids] + [FONT];
    BodyConcat([catalog, kids], [FONT], 1);
    TwoObjects(catalog, kids, 1);
    OneObject(FONT, 3);
  }

  lemma {:induction false} PagesAreFew(pages: seq<seq<string>>)
    ensures 300 * |pages| <= PagesCost(pages)
  {
    if pages != [] {
      PagesAreFew(pages[1..]);
    }
  }

  lemma BodySize(pages: seq<seq<string>>)
    requires PagesCost(pages) < TEN_DIGITS / 2
    ensures |Body(Objects(pages), 1)| <= 400 + 15 * |pages| + PagesCost(pages)
  {
    PagesAreFew(pages);
    BodyConcat(FixedObjects(|pages|), PageObjects(pages, 4), 1);
    FixedSize(|pages|);
    PageObjectsSize(pages, 4);
  }

  // ---------------------------------------------------------------- sections

  function SectionCost(section: seq<string>): nat {
    if section == [] then 0 else 9 + 11 * |section[0]| + SectionCost(section[1..])
  }

  function SectionsCost(sections: seq<seq<string>>): nat {
    if sections == [] then 0 else 300 + SectionCost(sections[0]) + SectionsCost(sections[1..])
  }

  function TextCost(lines: seq<string>): nat {
    if lines == [] then 0 else 318 + 11 * |lines[0]| + TextCost(lines[1..])
  }

  lemma {:induction false} LinesCostConcat(a: seq<string>, b: seq<string>)
    ensures LinesCost(a + b) == LinesCost(a) + LinesCost(b)
  {
    if a == [] {
      assert a + b == b;
    } else {
      assert (a + b)[1..] == a[1..] + b;
      LinesCostConcat(a[1..], b);
    }
  }

  lemma {:induction false} PiecesCost(line: string)
    ensures LinesCost(Pieces(line)) <= 9 + 11 * |line|
  {
    if |line| <= PIECE {
      assert [line][1..] == [];
    } else {
      PiecesCost(line[PIECE..]);
      assert Pieces(line)[1..] == Pieces(line[PIECE..]);
    }
  }

  lemma {:induction false} PageCost(section: seq<string>)
    ensures LinesCost(PageOf(section)) <= SectionCost(section)
  {
    if section != [] {
      PageCost(section[1..]);
      PiecesCost(section[0]);
      LinesCostConcat(Pieces(section[0]), PageOf(section[1..]));
    }
  }

  lemma {:induction false} PagesOfCost(sections: seq<seq<string>>)
    ensures PagesCost(PagesOf(sections)) <= SectionsCost(sections)
  {
    if sections != [] {
      PagesOfCost(sections[1..]);
      PageCost(sections[0]);
    }
  }

  lemma SectionOf(line: string, section: seq<string>)
    ensures SectionCost([line] + section) == 9 + 11 * |line| + SectionCost(section)
  {
    assert ([line] + section)[1..] == section;
  }

  lemma SectionsOf(first: seq<string>, rest: seq<seq<string>>)
    ensures SectionsCost([first] + rest) == 300 + SectionCost(first) + SectionsCost(rest)
  {
    assert ([first] + rest)[1..] == rest;
  }

  lemma CutOne(line: string)
    ensures SectionsCost(Sections([line])) <= TextCost([line])
  {
    SectionOf(line, []);
    SectionsOf([line], []);
    assert [line] + [] == [line] && [[line]] + [] == [[line]];
    assert Sections([line]) == [[line]];
    assert [line][1..] == [];
  }

  lemma CutMore(line: string, rest: seq<seq<string>>)
    requires rest != []
    ensures SectionsCost([[line, ""]] + rest) <= 318 + 11 * |line| + SectionsCost(rest)
    ensures SectionsCost([[line] + rest[0]] + rest[1..]) <= 318 + 11 * |line| + SectionsCost(rest)
  {
    SectionOf("", []);
    SectionOf(line, [""]);
    assert [""] + [] == [""] && [line] + [""] == [line, ""];
    SectionsOf([line, ""], rest);
    SectionOf(line, rest[0]);
    SectionsOf([line] + rest[0], rest[1..]);
    SectionsOf(rest[0], rest[1..]);
    assert [rest[0]] + rest[1..] == rest;
  }

  lemma {:induction false} CutCost(lines: seq<string>)
    requires lines != []
    ensures SectionsCost(Sections(lines)) <= TextCost(lines)
  {
    if |lines| == 1 {
      assert lines == [lines[0]];
      CutOne(lines[0]);
    } else {
      CutCost(lines[1..]);
      CutMore(lines[0], Sections(lines[1..]));
    }
  }

  lemma {:induction false} KeptCost(sections: seq<seq<string>>)
    requires forall i :: 0 <= i < |sections| ==> sections[i] != []
    ensures SectionsCost(Kept(sections)) <= SectionsCost(sections)
  {
    if sections != [] {
      KeptCost(sections[1..]);
      if HasInk(sections[0]) {
        assert Kept(sections)[1..] == Kept(sections[1..]);
      } else {
        assert Kept(sections) == Kept(sections[1..]);
      }
    }
  }

  lemma {:induction false} SplitCost(s: string)
    ensures TextCost(SplitLines(s)) <= 318 * (|s| + 1)
  {
    if s == "" {
      assert [""][1..] == [];
    } else {
      SplitCost(s[1..]);
      var rest := SplitLines(s[1..]);
      if s[0] == '\n' {
        assert ([""] + rest)[1..] == rest;
      } else {
        var first := [s[0]] + rest[0];
        assert ([first] + rest[1..])[1..] == rest[1..];
      }
    }
  }

  lemma {:induction false} UnixSize(s: string)
    ensures |UnixNewlines(s)| <= |s|
    decreases |s|
  {
    if s != "" {
      if s[0] != '\r' {
        UnixSize(s[1..]);
      } else {
        UnixSize(if |s| > 1 && s[1] == '\n' then s[2..] else s[1..]);
      }
    }
  }

  /** Pages cost no more than a constant per character of the text. */
  lemma PagesAreSmall(text: string)
    ensures PagesCost(Pages(text)) <= 318 * (|text| + 1)
  {
    var lines := SplitLines(Ascii(text));
    UnixSize(text);
    SplitCost(Ascii(text));
    CutCost(lines);
    KeptCost(Sections(lines));
    PagesOfCost(KeptSections(text));
    if Kept(Sections(lines)) == [] {
      assert [[""]][1..] == [] && [""][1..] == [];
      assert SectionsCost([[""]]) == 309;
    }
  }

  // ---------------------------------------------------------------- what a caller can check

  lemma OffsetsAreInside(objects: seq<string>, i: nat)
    requires i < |objects|
    ensures OffsetOf(objects, i) < |HEADER| + |Body(objects, 1)|
  {
    BodySplit(objects, i);
  }

  /** A file of up to ten thousand million bytes has a table whose entries fit. */
  lemma SmallFileFits(objects: seq<string>)
    requires |Render(objects)| <= Power10(10)
    ensures TableFits(objects)
  {
    forall i | 0 <= i < |objects|
      ensures OffsetOf(objects, i) < Power10(10)
    {
      OffsetsAreInside(objects, i);
    }
  }

  /** So has the file of every text of up to ten million characters. */
  lemma SmallTextFits(text: string)
    requires |text| <= MAX_TEXT
    ensures TableFits(Objects(Pages(text)))
  {
    var pages := Pages(text);
    PagesAreSmall(text);
    PagesAreFew(pages);
    BodySize(pages);
    TenDigits();
    forall i | 0 <= i < |Objects(pages)|
      ensures OffsetOf(Objects(pages), i) < Power10(10)
    {
      OffsetsAreInside(Objects(pages), i);
    }
  }

  /** Whatever the text, of up to ten million characters or with a file of up to ten thousand
      million bytes: the reader finds every page string, and, joining full strings to the next, the
      lines of every kept section exactly if no line that fills its last string is followed by a
      line that is not empty. */
  lemma TextComesBack(text: string)
    requires |text| <= MAX_TEXT || |Render(Objects(Pages(text)))| <= Power10(10)
    ensures ReadDocument(Render(Objects(Pages(text)))) == Some(Pages(text))
    ensures RejoinAll(Pages(text)) == KeptSections(text) <==> NoneRunsOn(KeptSections(text))
  {
    if |text| <= MAX_TEXT {
      SmallTextFits(text);
    } else {
      SmallFileFits(Objects(Pages(text)));
    }
    TinyPdfRoundTrip(text);
    RejoinAllPages(KeptSections(text));
  }
}
