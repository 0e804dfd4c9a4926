/** Fixed text with numerals in it, printed and read back. */
module PdfTemplate {
  import opened Decimal
  import opened Results

  datatype Part = Lit(text: string) | Num(value: nat)

  datatype Slot = Text(text: string) | Numeral

  function PrintPart(p: Part): string {
    match p
    case Lit(t) => t
    case Num(n) => Dec(n)
  }

  function SlotOf(p: Part): Slot {
    match p
    case Lit(t) => Text(t)
    case Num(_) => Numeral
  }

  function Print(parts: seq<Part>): string {
    if parts == [] then ""
    else PrintPart(parts[0]) + Print(parts[1..])
  }

  function Shape(parts: seq<Part>): seq<Slot> {
    seq(|parts|, i requires 0 <= i < |parts| => SlotOf(parts[i]))
  }

  function Numbers(parts: seq<Part>): seq<nat> {
    if parts == [] then []
    else (if parts[0].Num? then [parts[0].value] else []) + Numbers(parts[1..])
  }

  /** The numerals found where the shape has them, and what follows. */
  function Read(shape: seq<Slot>, s: string): (r: Option<(seq<nat>, string)>)
    ensures r.Some? ==> |r.value.1| <= |s|
    ensures r.Some? && shape != [] && shape[0].Numeral? ==> |r.value.1| < |s|
    decreases |shape|
  {
    if shape == [] then Some(([], s))
    else match shape[0]
      case Text(t) =>
        var after :- Expect(s, t);
        Read(shape[1..], after)
      case Numeral =>
        var (n, after) :- ReadNumber(s);
        var (more, rest) :- Read(shape[1..], after);
        Some(([n] + more, rest))
  }

  /** A numeral is followed by text that cannot be taken for a part of it. */
  ghost predicate Readable(parts: seq<Part>) {
    forall i :: 0 <= i < |parts| && parts[i].Num? ==>
      && i + 1 < |parts| && parts[i + 1].Lit?
      && parts[i + 1].text != "" && !IsDigit(parts[i + 1].text[0])
  }

  lemma ReadsPart(p: Part, shape: seq<Slot>, after: string, numbers: seq<nat>, rest: string)
    requires Read(shape, after) == Some((numbers, rest))
    requires p.Num? ==> !StartsWithDigit(after)
    ensures Read([SlotOf(p)] + shape, PrintPart(p) + after) ==
            Some(((if p.Num? then [p.value] else []) + numbers, rest))
  {
    assert ([SlotOf(p)] + shape)[1..] == shape;
    match p
    case Lit(t) =>
      Expects(t, after);
      assert [] + numbers == numbers;
    case Num(n) => ReadsDec(n, after);
  }

  lemma PrintStartsAsFirst(parts: seq<Part>, rest: string)
    requires parts != [] && parts[0].Lit? && parts[0].text != "" && !IsDigit(parts[0].text[0])
    ensures !StartsWithDigit(Print(parts) + rest)
  {
    assert (Print(parts) + rest)[0] == parts[0].text[0];
  }

  lemma ReadableTail(parts: seq<Part>)
    requires Readable(parts) && parts != []
    ensures Readable(parts[1..])
    ensures parts[0].Num? ==>
              |parts| > 1 && parts[1].Lit? && parts[1].text != "" && !IsDigit(parts[1].text[0])
  {
    assert forall i :: 0 <= i < |parts[1..]| ==> parts[1..][i] == parts[i + 1];
  }

  /** Printing and reading undo each other. */
  lemma {:induction false} ReadsBack(parts: seq<Part>, rest: string)
    requires Readable(parts)
    ensures Read(Shape(parts), Print(parts) + rest) == Some((Numbers(parts), rest))
  {
    if parts == [] {
      assert "" + rest == rest;
    } else {
      var p, tail := parts[0], parts[1..];
      ReadableTail(parts);
      ReadsBack(tail, rest);
      if p.Num? {
        PrintStartsAsFirst(tail, rest);
      }
      ReadsPart(p, Shape(tail), Print(tail) + rest, Numbers(tail), rest);
      PartFirst(parts, rest);
    }
  }

  lemma PartFirst(parts: seq<Part>, rest: string)
    requires parts != []
    ensures Shape(parts) == [SlotOf(parts[0])] + Shape(parts[1..])
    ensures Print(parts) + rest == PrintPart(parts[0]) + (Print(parts[1..]) + rest)
    ensures Numbers(parts) == (if parts[0].Num? then [parts[0].value] else []) + Numbers(parts[1..])
  {
  }
}
