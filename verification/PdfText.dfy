/** From text to the strings on the pages of a PDF: the first half of tinyPdf in
    scripts/dev/seed-study-map.ts. */
module PdfText {
  import opened Decimal
  import opened Sequences

  const PIECE: nat := 90

  // ---------------------------------------------------------------- lines

  function Concat(ss: seq<string>): string {
    if ss == [] then "" else ss[0] + Concat(ss[1..])
  }

  function Flatten(ss: seq<seq<string>>): seq<string> {
    if ss == [] then [] else ss[0] + Flatten(ss[1..])
  }

  function SplitLines(s: string): (lines: seq<string>)
    ensures lines != []
  {
    if s == "" then [""]
    else if s[0] == '\n' then [""] + SplitLines(s[1..])
    else
      var rest := SplitLines(s[1..]);
      [[s[0]] + rest[0]] + rest[1..]
  }

  function JoinLines(lines: seq<string>): string
    requires lines != []
  {
    if |lines| == 1 then lines[0] else lines[0] + "\n" + JoinLines(lines[1..])
  }

  ghost predicate NoNewline(line: string) {
    forall i :: 0 <= i < |line| ==> line[i] != '\n'
  }

  ghost predicate AreLines(lines: seq<string>) {
    lines != [] && forall i :: 0 <= i < |lines| ==> NoNewline(lines[i])
  }

  lemma JoinLonger(c: char, lines: seq<string>)
    requires lines != []
    ensures JoinLines([[c] + lines[0]] + lines[1..]) == [c] + JoinLines(lines)
  {
    var longer := [[c] + lines[0]] + lines[1..];
    assert longer[1..] == lines[1..];
    if |lines| > 1 {
      var rest := JoinLines(lines[1..]);
      assert [c] + lines[0] + "\n" + rest == [c] + (lines[0] + "\n" + rest);
    }
  }

  lemma {:induction false} SplitLinesJoin(s: string)
    ensures AreLines(SplitLines(s)) && JoinLines(SplitLines(s)) == s
  {
    if s != "" {
      SplitLinesJoin(s[1..]);
      var rest := SplitLines(s[1..]);
      if s[0] == '\n' {
        assert ([""] + rest)[1..] == rest;
        assert s == "" + "\n" + s[1..];
      } else {
        JoinLonger(s[0], rest);
        assert s == [s[0]] + s[1..];
      }
    }
  }

  lemma {:induction false} SplitOneLine(line: string, rest: string)
    requires NoNewline(line)
    ensures SplitLines(line) == [line]
    ensures SplitLines(line + "\n" + rest) == [line] + SplitLines(rest)
  {
    if line == "" {
      assert (line + "\n" + rest)[1..] == rest;
    } else {
      SplitOneLine(line[1..], rest);
      assert (line + "\n" + rest)[1..] == line[1..] + "\n" + rest;
      assert line == [line[0]] + line[1..];
      var after := [line[1..]] + SplitLines(rest);
      assert after[1..] == SplitLines(rest);
    }
  }

  lemma {:induction false} JoinLinesSplit(lines: seq<string>)
    requires AreLines(lines)
    ensures SplitLines(JoinLines(lines)) == lines
  {
    SplitOneLine(lines[0], if |lines| == 1 then "" else JoinLines(lines[1..]));
    if |lines| > 1 {
      JoinLinesSplit(lines[1..]);
      assert lines == [lines[0]] + lines[1..];
    }
  }

  // ---------------------------------------------------------------- the ASCII filter

  /** replace(/\r\n?/g, "\n") */
  function UnixNewlines(s: string): string {
    if s == "" then ""
    else if s[0] != '\r' then [s[0]] + UnixNewlines(s[1..])
    else "\n" + UnixNewlines(if |s| > 1 && s[1] == '\n' then s[2..] else s[1..])
  }

  /** A Windows, old Mac or Unix line break, and a text that goes on after it. */
  ghost predicate IsBreak(mark: string, after: string) {
    (mark == "\r\n" || mark == "\n" || mark == "\r") && (mark == "\r" && after != "" ==> after[0] != '\n')
  }

  ghost predicate NoBreak(line: string) {
    forall i :: 0 <= i < |line| ==> line[i] != '\n' && line[i] != '\r'
  }

  /** Lines with a break after each but the last. */
  function Broken(lines: seq<string>, marks: seq<string>): string
    requires |lines| == |marks| + 1
  {
    if marks == [] then lines[0] else lines[0] + (marks[0] + Broken(lines[1..], marks[1..]))
  }

  ghost predicate AreBreaks(lines: seq<string>, marks: seq<string>)
    requires |lines| == |marks| + 1
  {
    forall i :: 0 <= i < |marks| ==> IsBreak(marks[i], Broken(lines[i + 1..], marks[i + 1..]))
  }

  lemma {:induction false} LineStays(line: string, rest: string)
    requires NoBreak(line)
    ensures UnixNewlines(line + rest) == line + UnixNewlines(rest)
  {
    if line == "" {
      assert line + rest == rest;
    } else {
      assert (line + rest)[1..] == line[1..] + rest;
      LineStays(line[1..], rest);
      assert line == [line[0]] + line[1..];
      Associative([line[0]], line[1..], UnixNewlines(rest));
    }
  }

  lemma BreakBecomesNewline(mark: string, after: string)
    requires IsBreak(mark, after)
    ensures UnixNewlines(mark + after) == "\n" + UnixNewlines(after)
  {
    if |mark| == 1 {
      assert (mark + after)[1..] == after;
    } else {
      assert (mark + after)[2..] == after;
    }
  }

  /** Whatever breaks stand between the lines of a text, they are read as newlines, and the lines
      as they are. */
  lemma {:induction false} BreaksBecomeNewlines(lines: seq<string>, marks: seq<string>)
    requires |lines| == |marks| + 1 && AreBreaks(lines, marks)
    requires forall i :: 0 <= i < |lines| ==> NoBreak(lines[i])
    ensures UnixNewlines(Broken(lines, marks)) == JoinLines(lines)
  {
    if marks == [] {
      LineStays(lines[0], "");
      assert lines[0] + "" == lines[0];
    } else {
      var rest := Broken(lines[1..], marks[1..]);
      LineStays(lines[0], marks[0] + rest);
      BreakBecomesNewline(marks[0], rest);
      LaterBreaks(lines, marks);
      BreaksBecomeNewlines(lines[1..], marks[1..]);
      Associative(lines[0], "\n", JoinLines(lines[1..]));
    }
  }

  lemma LaterBreaks(lines: seq<string>, marks: seq<string>)
    requires marks != [] && |lines| == |marks| + 1 && AreBreaks(lines, marks)
    ensures AreBreaks(lines[1..], marks[1..]) && IsBreak(marks[0], Broken(lines[1..], marks[1..]))
  {
    forall i | 0 <= i < |marks| - 1
      ensures IsBreak(marks[1..][i], Broken(lines[1..][i + 1..], marks[1..][i + 1..]))
    {
      assert marks[1..][i] == marks[i + 1];
      assert lines[1..][i + 1..] == lines[i + 2..] && marks[1..][i + 1..] == marks[i + 2..];
    }
  }

  function AsciiChar(c: char): char {
    if c == '\n' || ' ' <= c <= '~' then c else ' '
  }

  function Ascii(text: string): string {
    var unix := UnixNewlines(text);
    seq(|unix|, i requires 0 <= i < |unix| => AsciiChar(unix[i]))
  }

  // ---------------------------------------------------------------- sections

  const PAGE_MARK: string := "[Page "

  predicate AllSpaces(s: string) {
    forall i :: 0 <= i < |s| ==> s[i] == ' '
  }

  /** A line "[Page n]" with n not starting in 0, and blanks after it. */
  predicate IsMarker(line: string) {
    && PAGE_MARK <= line
    && var rest := line[|PAGE_MARK|..];
       var n := DigitCount(rest);
       && 0 < n < |rest| && rest[0] != '0' && rest[n] == ']'
       && AllSpaces(rest[n + 1..])
  }

  ghost predicate IsPageMark(line: string, number: string, blanks: string) {
    && line == PAGE_MARK + number + "]" + blanks
    && number != "" && AllDigits(number) && number[0] != '0' && AllSpaces(blanks)
  }

  lemma MarkerIs(line: string)
    ensures IsMarker(line) <==> exists number, blanks :: IsPageMark(line, number, blanks)
  {
    if IsMarker(line) {
      var rest := line[|PAGE_MARK|..];
      var n := DigitCount(rest);
      assert rest == rest[..n] + "]" + rest[n + 1..];
      assert line == PAGE_MARK + rest;
      assert line == PAGE_MARK + rest[..n] + "]" + rest[n + 1..];
      assert IsPageMark(line, rest[..n], rest[n + 1..]);
    }
    if number, blanks :| IsPageMark(line, number, blanks) {
      assert line == PAGE_MARK + (number + ("]" + blanks));
      DigitCountOf(number, "]" + blanks);
      assert line[|PAGE_MARK|..] == number + ("]" + blanks);
    }
  }

  /** The lines of each section. A marker starts a section unless it is the first line of the
      text; a section that another one follows ends in a newline, hence in an empty line. */
  function Sections(lines: seq<string>): (ss: seq<seq<string>>)
    requires lines != []
    ensures ss != [] && forall i :: 0 <= i < |ss| ==> ss[i] != []
  {
    if |lines| == 1 then [lines]
    else
      var rest := Sections(lines[1..]);
      if IsMarker(lines[1]) then [[lines[0], ""]] + rest
      else [[lines[0]] + rest[0]] + rest[1..]
  }

  function SectionTexts(ss: seq<seq<string>>): seq<string>
    requires forall i :: 0 <= i < |ss| ==> ss[i] != []
  {
    if ss == [] then [] else [JoinLines(ss[0])] + SectionTexts(ss[1..])
  }

  /** Nothing is lost or moved: the sections, put together, are the text. */
  lemma {:induction false} SectionsConcatenate(lines: seq<string>)
    requires lines != []
    ensures Concat(SectionTexts(Sections(lines))) == JoinLines(lines)
  {
    if |lines| > 1 {
      SectionsConcatenate(lines[1..]);
      var rest := Sections(lines[1..]);
      if IsMarker(lines[1]) {
        assert Sections(lines)[1..] == rest;
        assert JoinLines([lines[0], ""]) == lines[0] + "\n" + "" by { assert [lines[0], ""][1..] == [""]; }
        assert lines[0] + "\n" + "" + JoinLines(lines[1..]) == lines[0] + "\n" + JoinLines(lines[1..]);
      } else {
        var first := [lines[0]] + rest[0];
        assert Sections(lines)[1..] == rest[1..];
        assert first[1..] == rest[0];
        assert JoinLines(first) == lines[0] + "\n" + JoinLines(rest[0]);
        var tail := Concat(SectionTexts(rest[1..]));
        assert lines[0] + "\n" + JoinLines(rest[0]) + tail == lines[0] + "\n" + (JoinLines(rest[0]) + tail);
      }
    } else {
      assert Sections(lines)[1..] == [];
      assert JoinLines(lines) + "" == JoinLines(lines);
    }
  }

  /** Marker lines begin the sections but the first, and stand nowhere else in them. */
  ghost predicate CutAtMarkers(ss: seq<seq<string>>) {
    && (forall i :: 1 <= i < |ss| ==> ss[i] != [] && IsMarker(ss[i][0]))
    && forall i :: 0 <= i < |ss| ==> NoLaterMarker(ss[i])
  }

  ghost predicate NoLaterMarker(section: seq<string>) {
    forall j :: 1 <= j < |section| ==> !IsMarker(section[j])
  }

  lemma NewSection(line: string, ss: seq<seq<string>>)
    requires CutAtMarkers(ss) && ss != [] && ss[0] != [] && IsMarker(ss[0][0])
    ensures CutAtMarkers([[line, ""]] + ss)
  {
    assert !IsMarker("");
    assert NoLaterMarker([line, ""]);
  }

  lemma LongerSection(line: string, ss: seq<seq<string>>)
    requires CutAtMarkers(ss) && ss != [] && ss[0] != [] && !IsMarker(ss[0][0])
    ensures CutAtMarkers([[line] + ss[0]] + ss[1..])
  {
    var longer := [line] + ss[0];
    assert NoLaterMarker(ss[0]);
    assert NoLaterMarker(longer) by {
      forall j | 1 <= j < |longer|
        ensures !IsMarker(longer[j])
      {
        assert longer[j] == ss[0][j - 1];
      }
    }
  }

  /** Sections are cut at every marker line after the first line, and nowhere else. */
  lemma {:induction false} SectionsStartAtMarkers(lines: seq<string>)
    requires lines != []
    ensures Sections(lines)[0][0] == lines[0] && CutAtMarkers(Sections(lines))
  {
    if |lines| > 1 {
      SectionsStartAtMarkers(lines[1..]);
      if IsMarker(lines[1]) {
        NewSection(lines[0], Sections(lines[1..]));
      } else {
        LongerSection(lines[0], Sections(lines[1..]));
      }
    }
  }

  // ---------------------------------------------------------------- pages

  predicate HasInk(section: seq<string>) {
    exists i :: 0 <= i < |section| && !AllSpaces(section[i])
  }

  function Kept(ss: seq<seq<string>>): (kept: seq<seq<string>>)
    requires forall i :: 0 <= i < |ss| ==> ss[i] != []
    ensures forall i :: 0 <= i < |kept| ==> kept[i] != []
  {
    if ss == [] then [] else (if HasInk(ss[0]) then [ss[0]] else []) + Kept(ss[1..])
  }

  /** match(/.{1,90}/g) ?? [""] */
  function Pieces(line: string): seq<string> {
    if |line| <= PIECE then [line] else [line[..PIECE]] + Pieces(line[PIECE..])
  }

  function PageOf(section: seq<string>): seq<string> {
    if section == [] then [] else Pieces(section[0]) + PageOf(section[1..])
  }

  function PagesOf(sections: seq<seq<string>>): seq<seq<string>> {
    if sections == [] then [] else [PageOf(sections[0])] + PagesOf(sections[1..])
  }

  function KeptSections(text: string): (kept: seq<seq<string>>)
    ensures kept != [] && forall i :: 0 <= i < |kept| ==> kept[i] != []
  {
    var kept := Kept(Sections(SplitLines(Ascii(text))));
    if kept == [] then [[""]] else kept
  }

  /** The strings of each page, in order. */
  function Pages(text: string): (pages: seq<seq<string>>)
  {
    PagesOf(KeptSections(text))
  }

  lemma {:induction false} PagesAreNonempty(sections: seq<seq<string>>)
    requires forall i :: 0 <= i < |sections| ==> sections[i] != []
    ensures |PagesOf(sections)| == |sections|
    ensures forall i :: 0 <= i < |sections| ==> PagesOf(sections)[i] == PageOf(sections[i]) && PageOf(sections[i]) != []
  {
    if sections != [] {
      PagesAreNonempty(sections[1..]);
    }
  }

  /** Joined again, the pieces of a line are the line; all but the last are full. */
  lemma {:induction false} PiecesJoin(line: string)
    ensures var pieces := Pieces(line);
            && pieces != []
            && Concat(pieces) == line
            && (forall i :: 0 <= i < |pieces| - 1 ==> |pieces[i]| == 90)
            && |pieces[|pieces| - 1]| <= 90
            && (line != "" ==> pieces[|pieces| - 1] != "")
  {
    if |line| <= PIECE {
      assert [line][1..] == [];
    } else {
      PiecesJoin(line[PIECE..]);
      var rest := Pieces(line[PIECE..]);
      assert Pieces(line)[1..] == rest;
      assert line == line[..PIECE] + line[PIECE..];
    }
  }

  lemma {:induction false} ConcatBoth(a: seq<string>, b: seq<string>)
    ensures Concat(a + b) == Concat(a) + Concat(b)
  {
    if a == [] {
      assert a + b == b;
    } else {
      assert (a + b)[1..] == a[1..] + b;
      ConcatBoth(a[1..], b);
    }
  }

  /** A page's strings, joined, are its section without the newlines. */
  lemma {:induction false} PageJoin(section: seq<string>)
    ensures Concat(PageOf(section)) == Concat(section)
  {
    if section != [] {
      PiecesJoin(section[0]);
      PageJoin(section[1..]);
      ConcatBoth(Pieces(section[0]), PageOf(section[1..]));
    }
  }

  // ---------------------------------------------------------------- one byte per character

  predicate IsPrintable(line: string) {
    forall i :: 0 <= i < |line| ==> ' ' <= line[i] <= '~'
  }

  ghost predicate AllPrintable(lines: seq<string>) {
    forall i :: 0 <= i < |lines| ==> IsPrintable(lines[i])
  }

  lemma {:induction false} SplitLinesPrintable(s: string)
    requires forall i :: 0 <= i < |s| ==> s[i] == '\n' || ' ' <= s[i] <= '~'
    ensures AllPrintable(SplitLines(s))
  {
    if s != "" {
      SplitLinesPrintable(s[1..]);
      var rest := SplitLines(s[1..]);
      if s[0] != '\n' {
        assert IsPrintable([s[0]] + rest[0]);
      }
    }
  }

  lemma {:induction false} SectionsPrintable(lines: seq<string>)
    requires lines != [] && AllPrintable(lines)
    ensures forall i :: 0 <= i < |Sections(lines)| ==> AllPrintable(Sections(lines)[i])
  {
    if |lines| > 1 {
      SectionsPrintable(lines[1..]);
      var rest := Sections(lines[1..]);
      assert AllPrintable(rest[0]);
      assert AllPrintable([lines[0]] + rest[0]) && AllPrintable([lines[0], ""]);
      if IsMarker(lines[1]) {
        assert forall i :: 1 <= i < |Sections(lines)| ==> Sections(lines)[i] == rest[i - 1];
      } else {
        assert forall i :: 1 <= i < |Sections(lines)| ==> Sections(lines)[i] == rest[i];
      }
    }
  }

  lemma {:induction false} KeptPrintable(ss: seq<seq<string>>)
    requires forall i :: 0 <= i < |ss| ==> ss[i] != [] && AllPrintable(ss[i])
    ensures forall i :: 0 <= i < |Kept(ss)| ==> AllPrintable(Kept(ss)[i])
  {
    if ss != [] {
      KeptPrintable(ss[1..]);
      if HasInk(ss[0]) {
        assert forall i :: 1 <= i < |Kept(ss)| ==> Kept(ss)[i] == Kept(ss[1..])[i - 1];
      } else {
        assert Kept(ss) == Kept(ss[1..]);
      }
    }
  }

  lemma {:induction false} PiecesPrintable(line: string)
    requires IsPrintable(line)
    ensures AllPrintable(Pieces(line))
  {
    if |line| > PIECE {
      PiecesPrintable(line[PIECE..]);
    }
  }

  lemma {:induction false} PagePrintable(section: seq<string>)
    requires AllPrintable(section)
    ensures AllPrintable(PageOf(section))
  {
    if section != [] {
      PiecesPrintable(section[0]);
      PagePrintable(section[1..]);
    }
  }

  /** Every character of every page string is printable ASCII, hence one byte in the file: byte
      offsets and lengths are counts of characters. */
  lemma PagesArePrintable(text: string)
    ensures forall i :: 0 <= i < |Pages(text)| ==> AllPrintable(Pages(text)[i])
  {
    var ascii := Ascii(text);
    SplitLinesPrintable(ascii);
    SectionsPrintable(SplitLines(ascii));
    KeptPrintable(Sections(SplitLines(ascii)));
    var kept := KeptSections(text);
    PagesAreNonempty(kept);
    forall i | 0 <= i < |kept|
      ensures AllPrintable(PageOf(kept[i]))
    {
      PagePrintable(kept[i]);
    }
  }

  // ---------------------------------------------------------------- what is kept

  /** The lines with something to see on them. */
  function Inked(lines: seq<string>): seq<string> {
    if lines == [] then [] else (if AllSpaces(lines[0]) then [] else [lines[0]]) + Inked(lines[1..])
  }

  lemma {:induction false} InkedConcat(a: seq<string>, b: seq<string>)
    ensures Inked(a + b) == Inked(a) + Inked(b)
  {
    if a == [] {
      assert a + b == b;
    } else {
      assert (a + b)[1..] == a[1..] + b;
      InkedConcat(a[1..], b);
      Associative(if AllSpaces(a[0]) then [] else [a[0]], Inked(a[1..]), Inked(b));
    }
  }

  lemma InkedOne(line: string)
    ensures Inked([line]) == (if AllSpaces(line) then [] else [line]) && Inked([line, ""]) == Inked([line])
  {
    assert [line, ""][1..] == [""] && [line][1..] == [] && [""][1..] == [];
  }

  lemma FlattenFirst(first: seq<string>, rest: seq<seq<string>>)
    ensures Flatten([first] + rest) == first + Flatten(rest)
  {
    assert ([first] + rest)[1..] == rest;
  }

  /** Cutting a text into sections keeps its lines, but for empty ones at the cuts. */
  lemma {:induction false} SectionsInked(lines: seq<string>)
    requires lines != []
    ensures Inked(Flatten(Sections(lines))) == Inked(lines)
  {
    assert lines == [lines[0]] + lines[1..];
    if |lines| == 1 {
      FlattenFirst(lines, []);
      assert [lines] + [] == [lines] && lines + [] == lines;
    } else {
      var rest := Sections(lines[1..]);
      SectionsInked(lines[1..]);
      InkedConcat([lines[0]], lines[1..]);
      InkedOne(lines[0]);
      if IsMarker(lines[1]) {
        FlattenFirst([lines[0], ""], rest);
        InkedConcat([lines[0], ""], Flatten(rest));
      } else {
        FlattenFirst([lines[0]] + rest[0], rest[1..]);
        Associative([lines[0]], rest[0], Flatten(rest[1..]));
        InkedConcat([lines[0]], Flatten(rest));
      }
    }
  }

  lemma {:induction false} NoInk(section: seq<string>)
    ensures Inked(section) == [] <==> !HasInk(section)
  {
    if section != [] {
      NoInk(section[1..]);
      if HasInk(section[1..]) {
        var i :| 0 <= i < |section| - 1 && !AllSpaces(section[1..][i]);
        assert section[i + 1] == section[1..][i];
      } else if HasInk(section) {
        var i :| 0 <= i < |section| && !AllSpaces(section[i]);
        assert i > 0 ==> section[1..][i - 1] == section[i];
      }
    }
  }

  lemma {:induction false} KeptInked(ss: seq<seq<string>>)
    requires forall i :: 0 <= i < |ss| ==> ss[i] != []
    ensures Inked(Flatten(Kept(ss))) == Inked(Flatten(ss))
    ensures forall i :: 0 <= i < |Kept(ss)| ==> HasInk(Kept(ss)[i])
  {
    if ss != [] {
      KeptInked(ss[1..]);
      NoInk(ss[0]);
      InkedConcat(ss[0], Flatten(ss[1..]));
      if HasInk(ss[0]) {
        FlattenFirst(ss[0], Kept(ss[1..]));
        InkedConcat(ss[0], Flatten(Kept(ss[1..])));
      } else {
        assert Kept(ss) == Kept(ss[1..]);
      }
    }
  }

  /** A section with a character on it that is not a blank. */
  ghost predicate ShowsSomething(section: seq<string>) {
    exists i, k :: 0 <= i < |section| && 0 <= k < |section[i]| && section[i][k] != ' '
  }

  lemma InkShows(section: seq<string>)
    ensures HasInk(section) <==> ShowsSomething(section)
  {
  }

  /** The pages hold every line of the text that has something to see, each as often as it is
      there and in order; no section is blank, unless the whole text is. */
  lemma InkIsKept(text: string)
    ensures Inked(Flatten(KeptSections(text))) == Inked(SplitLines(Ascii(text)))
    ensures if Inked(SplitLines(Ascii(text))) == [] then KeptSections(text) == [[""]]
            else forall i :: 0 <= i < |KeptSections(text)| ==> ShowsSomething(KeptSections(text)[i])
  {
    var lines := SplitLines(Ascii(text));
    assert Flatten([]) == [] && Inked([]) == [];
    SectionsInked(lines);
    KeptInked(Sections(lines));
    forall i | 0 <= i < |KeptSections(text)|
      ensures HasInk(KeptSections(text)[i]) <==> ShowsSomething(KeptSections(text)[i])
    {
      InkShows(KeptSections(text)[i]);
    }
    if Inked(lines) == [] {
      NoneKept(Sections(lines));
    }
    InkedOne("");
  }

  lemma NoneKept(ss: seq<seq<string>>)
    requires (forall i :: 0 <= i < |ss| ==> ss[i] != []) && Inked(Flatten(ss)) == []
    ensures Kept(ss) == []
  {
    KeptInked(ss);
    if Kept(ss) != [] {
      NoInk(Kept(ss)[0]);
      InkedConcat(Kept(ss)[0], Flatten(Kept(ss)[1..]));
    }
  }

  ghost predicate Ascending(places: seq<nat>) {
    forall i, j :: 0 <= i < j < |places| ==> places[i] < places[j]
  }

  ghost predicate ArePlacesOf<T>(places: seq<nat>, kept: seq<T>, ss: seq<T>) {
    |places| == |kept| && forall i :: 0 <= i < |places| ==> places[i] < |ss| && kept[i] == ss[places[i]]
  }

  ghost predicate AreShown(places: seq<nat>, ss: seq<seq<string>>) {
    forall n: nat :: n < |ss| ==> (n in places <==> ShowsSomething(ss[n]))
  }

  /** The sections kept are those with something on them, whole and in order: section i of them is
      section places[i] of the text. */
  lemma {:induction false} KeptAre(ss: seq<seq<string>>) returns (places: seq<nat>)
    requires forall i :: 0 <= i < |ss| ==> ss[i] != []
    ensures Ascending(places) && ArePlacesOf(places, Kept(ss), ss) && AreShown(places, ss)
  {
    if ss == [] {
      places := [];
    } else {
      var rest := KeptAre(ss[1..]);
      InkShows(ss[0]);
      LaterArePlaces(rest, Kept(ss[1..]), ss);
      places := if HasInk(ss[0]) then [0] + Later(rest) else Later(rest);
      LaterAreShown(rest, ss, places);
      KeptIs(ss);
    }
  }

  lemma KeptIs(ss: seq<seq<string>>)
    requires ss != [] && forall i :: 0 <= i < |ss| ==> ss[i] != []
    ensures Kept(ss) == if HasInk(ss[0]) then [ss[0]] + Kept(ss[1..]) else Kept(ss[1..])
  {
  }

  function Later(places: seq<nat>): (later: seq<nat>)
    ensures |later| == |places| && forall i :: 0 <= i < |later| ==> later[i] == places[i] + 1
  {
    seq(|places|, i requires 0 <= i < |places| => places[i] + 1)
  }

  /** The places in a list that is one longer, with its first element or without. */
  lemma LaterArePlaces<T>(places: seq<nat>, kept: seq<T>, ss: seq<T>)
    requires ss != [] && Ascending(places) && ArePlacesOf(places, kept, ss[1..])
    ensures Ascending(Later(places)) && ArePlacesOf(Later(places), kept, ss)
    ensures Ascending([0] + Later(places)) && ArePlacesOf([0] + Later(places), [ss[0]] + kept, ss)
  {
    assert forall i :: 0 <= i < |places| ==> ss[1..][places[i]] == ss[places[i] + 1];
    assert forall i :: 1 <= i <= |places| ==> ([0] + Later(places))[i] == places[i - 1] + 1;
    assert forall i :: 1 <= i <= |places| ==> ([ss[0]] + kept)[i] == kept[i - 1];
  }

  lemma LaterAreShown(rest: seq<nat>, ss: seq<seq<string>>, places: seq<nat>)
    requires ss != [] && AreShown(rest, ss[1..])
    requires places == if ShowsSomething(ss[0]) then [0] + Later(rest) else Later(rest)
    ensures AreShown(places, ss)
  {
    forall n: nat | n < |ss|
      ensures n in places <==> ShowsSomething(ss[n])
    {
      LaterPlace(rest, n);
      if n > 0 {
        assert ss[1..][n - 1] == ss[n];
      }
    }
  }

  lemma LaterPlace(places: seq<nat>, n: nat)
    ensures n in Later(places) <==> n > 0 && n - 1 in places
  {
    if n > 0 && n - 1 in places {
      var i :| 0 <= i < |places| && places[i] == n - 1;
      assert Later(places)[i] == n;
    }
  }

  // ---------------------------------------------------------------- can lines be told apart?

  /** A reader that takes a full string to go on in the next one, unless that one is empty. */
  function Rejoin(page: seq<string>): seq<string> {
    if page == [] then []
    else if |page| == 1 || |page[0]| != PIECE || page[1] == "" then [page[0]] + Rejoin(page[1..])
    else
      var rest := Rejoin(page[1..]);
      if rest == [] then [page[0]] else [page[0] + rest[0]] + rest[1..]
  }

  predicate EndsFull(line: string) {
    line != "" && |line| % PIECE == 0
  }

  /** Line i ends in a full string and runs into the next line. */
  predicate RunsOn(section: seq<string>, i: nat) {
    i + 1 < |section| && EndsFull(section[i]) && section[i + 1] != ""
  }

  lemma TailEndsFull(line: string)
    requires |line| > PIECE
    ensures EndsFull(line[PIECE..]) <==> EndsFull(line)
  {
  }

  lemma RejoinFullHead(head: string, page: seq<string>)
    requires |head| == PIECE && page != [] && page[0] != ""
    ensures Rejoin(page) != []
    ensures Rejoin([head] + page) == [head + Rejoin(page)[0]] + Rejoin(page)[1..]
  {
    RejoinIsNonempty(page);
    assert ([head] + page)[1..] == page;
  }

  lemma {:induction false} RejoinAppends(line: string, rest: seq<string>)
    requires rest != [] && rest[0] != "" ==> !EndsFull(line)
    ensures Rejoin(Pieces(line) + rest) == [line] + Rejoin(rest)
  {
    if |line| <= PIECE {
      assert ([line] + rest)[1..] == rest;
    } else {
      var head, tail := line[..PIECE], line[PIECE..];
      TailEndsFull(line);
      RejoinAppends(tail, rest);
      MoreWithRest(line, rest);
      RejoinFullHead(head, Pieces(tail) + rest);
      assert ([tail] + Rejoin(rest))[1..] == Rejoin(rest);
      assert head + tail == line;
    }
  }

  lemma {:induction false} RejoinMerges(line: string, rest: seq<string>)
    requires rest != [] && rest[0] != "" && EndsFull(line)
    ensures |Rejoin(Pieces(line) + rest)| == |Rejoin(rest)| > 0
  {
    RejoinIsNonempty(rest);
    if |line| <= PIECE {
      RejoinFullHead(line, rest);
    } else {
      var head, tail := line[..PIECE], line[PIECE..];
      TailEndsFull(line);
      RejoinMerges(tail, rest);
      MoreWithRest(line, rest);
      RejoinFullHead(head, Pieces(tail) + rest);
    }
  }

  lemma MoreWithRest(line: string, rest: seq<string>)
    requires |line| > PIECE
    ensures Pieces(line) + rest == [line[..PIECE]] + (Pieces(line[PIECE..]) + rest)
    ensures (Pieces(line[PIECE..]) + rest) != [] && (Pieces(line[PIECE..]) + rest)[0] != ""
  {
    PiecesJoin(line[PIECE..]);
  }

  lemma {:induction false} RejoinIsNonempty(page: seq<string>)
    ensures page != [] ==> Rejoin(page) != []
  {
    if |page| > 1 {
      RejoinIsNonempty(page[1..]);
    }
  }

  lemma FirstPiece(section: seq<string>)
    requires section != []
    ensures PageOf(section) != [] && (PageOf(section)[0] == "" <==> section[0] == "")
  {
    PiecesJoin(section[0]);
  }

  lemma {:induction false} RejoinLength(section: seq<string>)
    ensures |Rejoin(PageOf(section))| <= |section|
    ensures (exists i: nat :: RunsOn(section, i)) ==> |Rejoin(PageOf(section))| < |section|
    ensures (forall i: nat :: !RunsOn(section, i)) ==> Rejoin(PageOf(section)) == section
  {
    if section != [] {
      var line, more := section[0], section[1..];
      RejoinLength(more);
      var rest := PageOf(more);
      if more != [] {
        FirstPiece(more);
      }
      assert forall i: nat :: RunsOn(more, i) <==> RunsOn(section, i + 1);
      if RunsOn(section, 0) {
        RejoinMerges(line, rest);
      } else {
        RejoinAppends(line, rest);
        assert forall i: nat :: RunsOn(section, i) ==> i > 0 && RunsOn(more, i - 1);
        assert section == [line] + more;
      }
    }
  }

  /** The strings of a page give its lines back exactly when no line whose length is a positive
      multiple of 90 is followed by a line that is not empty. */
  lemma LinesComeBackExactly(section: seq<string>)
    ensures Rejoin(PageOf(section)) == section <==> forall i: nat :: !RunsOn(section, i)
  {
    RejoinLength(section);
  }

  lemma {:induction false} PiecesOfBoth(line: string, next: string)
    requires EndsFull(line) && next != ""
    ensures Pieces(line + next) == Pieces(line) + Pieces(next)
  {
    if |line| == PIECE {
      assert (line + next)[..PIECE] == line && (line + next)[PIECE..] == next;
    } else {
      var tail := line[PIECE..];
      TailEndsFull(line);
      PiecesOfBoth(tail, next);
      assert (line + next)[..PIECE] == line[..PIECE];
      assert (line + next)[PIECE..] == tail + next;
      assert [line[..PIECE]] + (Pieces(tail) + Pieces(next)) == [line[..PIECE]] + Pieces(tail) + Pieces(next);
    }
  }

  lemma {:induction false} PageOfBoth(a: seq<string>, b: seq<string>)
    ensures PageOf(a + b) == PageOf(a) + PageOf(b)
  {
    if a == [] {
      assert a + b == b;
    } else {
      assert (a + b)[1..] == a[1..] + b;
      PageOfBoth(a[1..], b);
      assert Pieces(a[0]) + (PageOf(a[1..]) + PageOf(b)) == Pieces(a[0]) + PageOf(a[1..]) + PageOf(b);
    }
  }

  /** Where a line runs on, no reader can do better: the section with the two lines made one
      has the same page. */
  lemma RunOnIsAmbiguous(section: seq<string>, i: nat)
    requires RunsOn(section, i)
    ensures var merged := section[..i] + [section[i] + section[i + 1]] + section[i + 2..];
            merged != section && PageOf(merged) == PageOf(section)
  {
    var before, line, next, after := section[..i], section[i], section[i + 1], section[i + 2..];
    PiecesOfBoth(line, next);
    assert section == before + ([line, next] + after);
    PageOfBoth(before, [line, next] + after);
    PageOfBoth(before, [line + next] + after);
    assert before + [line + next] + after == before + ([line + next] + after);
    assert ([line, next] + after)[1..] == [next] + after && ([next] + after)[1..] == after;
    assert ([line + next] + after)[1..] == after;
    assert Pieces(line) + (Pieces(next) + PageOf(after)) == Pieces(line) + Pieces(next) + PageOf(after);
  }

  /** Characters that are neither printable ASCII nor a newline are blanks in the PDF. */
  lemma OthersAreBlank(text: string, i: nat)
    requires i < |UnixNewlines(text)|
    ensures |Ascii(text)| == |UnixNewlines(text)|
    ensures var c := UnixNewlines(text)[i];
            Ascii(text)[i] == if c == '\n' || 0x20 <= c as int <= 0x7e then c else ' '
  {
  }

  ghost predicate IsPlain(text: string) {
    forall i :: 0 <= i < |text| ==> text[i] == '\n' || ' ' <= text[i] <= '~'
  }

  lemma {:induction false} PlainStays(text: string)
    requires IsPlain(text)
    ensures UnixNewlines(text) == text && Ascii(text) == text
  {
    if text != "" {
      PlainStays(text[1..]);
      assert text == [text[0]] + text[1..];
    }
  }

  lemma TwoLines(line: string, next: string)
    requires NoNewline(line) && NoNewline(next) && IsPlain(line) && IsPlain(next)
    requires !AllSpaces(line) && !IsMarker(next)
    ensures KeptSections(line + "\n" + next) == [[line, next]]
  {
    var text, section := line + "\n" + next, [line, next];
    PlainStays(text);
    SplitOneLine(line, next);
    SplitOneLine(next, "");
    assert SplitLines(text) == section && section[1..] == [next];
    assert Sections(section) == [section] && !AllSpaces(section[0]);
    assert Kept([section]) == [section];
  }

  lemma OneLine(line: string)
    requires NoNewline(line) && IsPlain(line) && !AllSpaces(line)
    ensures KeptSections(line) == [[line]]
  {
    var section := [line];
    PlainStays(line);
    SplitOneLine(line, "");
    assert !AllSpaces(section[0]);
    assert Kept([section]) == [section];
  }

  lemma PageOfOne(section: seq<string>)
    ensures PagesOf([section]) == [PageOf(section)]
  {
  }

  /** There are such texts: ninety letters, a new line and one letter, and the same without the
      new line. */
  lemma TwoTextsOnePage() returns (text: string, other: string)
    ensures |text| == 92 && |other| == 91 && RunsOn(KeptSections(text)[0], 0)
    ensures KeptSections(text) != KeptSections(other) && Pages(text) == Pages(other)
  {
    var line, next := seq(PIECE, _ => 'a'), "b";
    text, other := line + "\n" + next, line + next;
    assert line[0] == 'a' && other[0] == 'a';
    TwoLines(line, next);
    OneLine(other);
    var section, single := [line, next], [other];
    assert KeptSections(text) == [section] && KeptSections(other) == [single] && |section| != |single|;
    RunOnIsAmbiguous(section, 0);
    assert section[..0] + [line + next] + section[2..] == single;
    PageOfOne(section);
    PageOfOne(single);
  }
}
