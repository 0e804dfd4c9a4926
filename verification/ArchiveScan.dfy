/** The resumable archive scan of scripts/exam-papers/archive.ts: a worklist of
    (prefix, year range) slices that is split whenever the archive answers "too many".
    Splitting a prefix can drop rows, so what makes a passing scan complete is the row
    count together with the disjointness of the slices. */
module ArchiveScan {
  import opened Results

  // ---------------------------------------------------------------- data model

  /** A row of the archive: cells is the text that the scan keeps, links are its downloads. */
  datatype Row = Row(code: string, year: int, cells: string, links: seq<string>)

  datatype Slice = Slice(prefix: string, from: int, to: int)

  datatype Reply = Reply(total: nat, limited: bool, rows: seq<Row>)

  datatype ScanState = ScanState(expected: Option<nat>, pending: seq<Slice>, rows: seq<Row>, requests: nat)

  datatype Outcome =
    | Complete
    | CountMismatch
    | InvalidReply
    | TooNarrow(slice: Slice)

  const MAX_SPLIT_PREFIX: nat := 12

  const LETTERS: nat := 36

  // A to Z, then 0 to 9
  function Letter(i: nat): char
    requires i < LETTERS
  {
    if i < 26 then ('A' as int + i) as char else ('0' as int + (i - 26)) as char
  }

  predicate IsLetter(c: char) {
    'A' <= c <= 'Z' || '0' <= c <= '9'
  }

  predicate IsOpen(prefix: string) {
    prefix != "" && prefix[|prefix| - 1] == '%'
  }

  function Stem(prefix: string): string
    requires IsOpen(prefix)
  {
    prefix[..|prefix| - 1]
  }

  /** Whether a search for this slice finds the row: "CT3%" finds every code that
      starts with CT3, a prefix without the wildcard finds that code alone. */
  predicate Matches(s: Slice, r: Row) {
    && (if IsOpen(s.prefix) then Stem(s.prefix) <= r.code else s.prefix == r.code)
    && s.from <= r.year <= s.to
  }

  function Matching(archive: seq<Row>, s: Slice): (m: multiset<Row>)
    ensures forall r :: m[r] == if Matches(s, r) then multiset(archive)[r] else 0
  {
    if archive == [] then multiset{}
    else
      assert archive == [archive[0]] + archive[1..];
      Matching(archive[1..], s) + if Matches(s, archive[0]) then multiset{archive[0]} else multiset{}
  }

  /** What the unchanging archive may answer. The total is right, "limited" is up to the
      adversary, and an unlimited answer may be cut short but invents no row. */
  ghost predicate Faithful(archive: seq<Row>, s: Slice, reply: Reply) {
    && reply.total == |Matching(archive, s)|
    && (!reply.limited ==> multiset(reply.rows) <= Matching(archive, s))
  }

  // ---------------------------------------------------------------- splitting

  function Longer(s: Slice, i: nat): Slice
    requires IsOpen(s.prefix) && i < LETTERS
  {
    s.(prefix := Stem(s.prefix) + [Letter(i)] + "%")
  }

  function LongerAll(s: Slice): seq<Slice>
    requires IsOpen(s.prefix)
  {
    seq(LETTERS, i requires 0 <= i < LETTERS => Longer(s, i))
  }

  function Halves(s: Slice): seq<Slice> {
    var mid := (s.from + s.to) / 2;
    [s.(to := mid), s.(from := mid + 1)]
  }

  function SplitSearch(s: Slice): Option<seq<Slice>> {
    if s.prefix == "%" then Some(LongerAll(s))
    else if s.from < s.to then Some(Halves(s))
    else if !IsOpen(s.prefix) || |s.prefix| > MAX_SPLIT_PREFIX then None
    else Some(LongerAll(s))
  }

  /** Of one year at most, and with a prefix that is a whole code or longer than 12 characters. */
  predicate IsTooNarrow(s: Slice) {
    s.from >= s.to && (s.prefix == "" || s.prefix[|s.prefix| - 1] != '%' || |s.prefix| > 12)
  }

  lemma RefusedIfTooNarrow(s: Slice)
    ensures SplitSearch(s).None? <==> IsTooNarrow(s)
  {
  }

  ghost predicate Disjoint(s: Slice, t: Slice) {
    forall r: Row :: !(Matches(s, r) && Matches(t, r))
  }

  ghost predicate Inside(s: Slice, t: Slice) {
    forall r: Row :: Matches(s, r) ==> Matches(t, r)
  }

  /** No slice of ss finds r. */
  ghost predicate Unclaimed(ss: seq<Slice>, r: Row) {
    forall i :: 0 <= i < |ss| ==> !Matches(ss[i], r)
  }

  lemma UnclaimedConcat(a: seq<Slice>, b: seq<Slice>, r: Row)
    ensures Unclaimed(a + b, r) <==> Unclaimed(a, r) && Unclaimed(b, r)
  {
    if Unclaimed(a + b, r) {
      forall i | 0 <= i < |a| ensures !Matches(a[i], r) { assert a[i] == (a + b)[i]; }
      forall i | 0 <= i < |b| ensures !Matches(b[i], r) { assert b[i] == (a + b)[|a| + i]; }
    }
  }

  ghost predicate PairwiseDisjoint(ss: seq<Slice>) {
    forall i, j :: 0 <= i < j < |ss| ==> Disjoint(ss[i], ss[j])
  }

  /** The rows of s that SplitSearch(s) leaves to no child: the prefix was extended, and the
      code stops at the stem or goes on with a character that is not a letter or a digit. */
  predicate DroppedBySplit(s: Slice, r: Row) {
    && Matches(s, r)
    && IsOpen(s.prefix)
    && (s.prefix == "%" || s.from >= s.to)
    && (|r.code| < |s.prefix| || !IsLetter(r.code[|s.prefix| - 1]))
  }

  lemma LongerMatches(s: Slice, i: nat, r: Row)
    requires IsOpen(s.prefix) && i < LETTERS
    ensures Matches(Longer(s, i), r) <==>
            Matches(s, r) && |s.prefix| <= |r.code| && r.code[|s.prefix| - 1] == Letter(i)
  {
    var stem := Stem(s.prefix);
    var child := Longer(s, i);
    assert Stem(child.prefix) == stem + [Letter(i)];
    if stem + [Letter(i)] <= r.code {
      assert r.code[..|stem|] == stem;
    }
  }

  lemma LettersCoverAlphabet(c: char) returns (i: nat)
    requires IsLetter(c)
    ensures i < LETTERS && Letter(i) == c
  {
    i := if 'A' <= c <= 'Z' then c as int - 'A' as int else c as int - '0' as int + 26;
  }

  /** The children are disjoint and inside s, and leave out exactly what is dropped. */
  ghost predicate IsSplit(s: Slice, children: seq<Slice>) {
    && PairwiseDisjoint(children)
    && (forall i :: 0 <= i < |children| ==> Inside(children[i], s))
    && forall r :: Matches(s, r) ==> (DroppedBySplit(s, r) <==> Unclaimed(children, r))
  }

  lemma LongerAreApart(s: Slice, i: nat, j: nat)
    requires IsOpen(s.prefix) && i < j < LETTERS
    ensures Disjoint(Longer(s, i), Longer(s, j))
  {
    forall r
      ensures !(Matches(Longer(s, i), r) && Matches(Longer(s, j), r))
    {
      LongerMatches(s, i, r);
      LongerMatches(s, j, r);
    }
  }

  lemma LongerIsInside(s: Slice, i: nat)
    requires IsOpen(s.prefix) && i < LETTERS
    ensures Inside(Longer(s, i), s)
  {
    forall r
      ensures Matches(Longer(s, i), r) ==> Matches(s, r)
    {
      LongerMatches(s, i, r);
    }
  }

  lemma LongerMiss(s: Slice, r: Row)
    requires IsOpen(s.prefix) && (s.prefix == "%" || s.from >= s.to) && Matches(s, r)
    ensures DroppedBySplit(s, r) <==> Unclaimed(LongerAll(s), r)
  {
    if DroppedBySplit(s, r) {
      forall i: nat | i < LETTERS
        ensures !Matches(LongerAll(s)[i], r)
      {
        LongerMatches(s, i, r);
      }
    } else {
      var i := LettersCoverAlphabet(r.code[|s.prefix| - 1]);
      LongerMatches(s, i, r);
      assert Matches(LongerAll(s)[i], r);
    }
  }

  lemma LongerIsSplit(s: Slice)
    requires IsOpen(s.prefix) && (s.prefix == "%" || s.from >= s.to)
    ensures IsSplit(s, LongerAll(s))
  {
    forall i: nat, j: nat | i < j < LETTERS
      ensures Disjoint(LongerAll(s)[i], LongerAll(s)[j])
    {
      LongerAreApart(s, i, j);
    }
    forall i: nat | i < LETTERS
      ensures Inside(LongerAll(s)[i], s)
    {
      LongerIsInside(s, i);
    }
    forall r | Matches(s, r)
      ensures DroppedBySplit(s, r) <==> Unclaimed(LongerAll(s), r)
    {
      LongerMiss(s, r);
    }
  }

  lemma HalvesAreSplit(s: Slice)
    requires s.prefix != "%" && s.from < s.to
    ensures IsSplit(s, Halves(s))
  {
    var children := Halves(s);
    forall r | Matches(s, r)
      ensures Matches(children[0], r) || Matches(children[1], r)
    {
    }
  }

  /** A split gives disjoint slices inside the parent, and a row of the parent is in no
      child exactly when it is DroppedBySplit: nothing else can be lost. */
  lemma SplitSearchKeepsDisjoint(s: Slice)
    requires SplitSearch(s).Some?
    ensures IsSplit(s, SplitSearch(s).value)
  {
    if s.prefix == "%" || s.from >= s.to {
      LongerIsSplit(s);
    } else {
      HalvesAreSplit(s);
    }
  }

  // ---------------------------------------------------------------- termination measure

  /** Searches that a single-year slice can cost when its prefix can grow k more times. */
  function Growth(k: nat): nat {
    if k == 0 then 1 else 1 + LETTERS * Growth(k - 1)
  }

  function Span(s: Slice): nat {
    if s.from < s.to then s.to - s.from else 0
  }

  function GrowthOf(prefix: string): nat {
    if IsOpen(prefix) && |prefix| <= MAX_SPLIT_PREFIX then Growth(MAX_SPLIT_PREFIX + 1 - |prefix|) else 1
  }

  function YearsBudget(span: nat, growth: nat): nat {
    span + (span + 1) * growth
  }

  /** A bound on the requests that a slice and everything split from it can cost. */
  function Budget(s: Slice): nat {
    if s.prefix == "%" then 1 + LETTERS * YearsBudget(Span(s), Growth(MAX_SPLIT_PREFIX - 1))
    else YearsBudget(Span(s), GrowthOf(s.prefix))
  }

  function TotalBudget(ss: seq<Slice>): nat {
    if ss == [] then 0 else Budget(ss[0]) + TotalBudget(ss[1..])
  }

  lemma {:induction false} TotalBudgetConcat(a: seq<Slice>, b: seq<Slice>)
    ensures TotalBudget(a + b) == TotalBudget(a) + TotalBudget(b)
  {
    if a == [] {
      assert a + b == b;
    } else {
      TotalBudgetConcat(a[1..], b);
      assert (a + b)[1..] == a[1..] + b;
    }
  }

  lemma {:induction false} TotalBudgetUniform(ss: seq<Slice>, each: nat)
    requires forall i :: 0 <= i < |ss| ==> Budget(ss[i]) == each
    ensures TotalBudget(ss) == |ss| * each
  {
    if ss != [] {
      TotalBudgetUniform(ss[1..], each);
      OneMore(|ss| - 1, each);
    }
  }

  lemma OneMore(n: nat, each: nat)
    ensures n * each + each == (n + 1) * each
  {
  }

  lemma YearsBudgetHalves(a: nat, b: nat, growth: nat)
    ensures 1 + YearsBudget(a, growth) + YearsBudget(b, growth) == YearsBudget(a + b + 1, growth)
  {
    assert (a + 1) * growth + (b + 1) * growth == (a + b + 2) * growth;
  }

  /** A split spends exactly one unit of its slice's budget. */
  lemma SplitSpendsBudget(s: Slice)
    requires SplitSearch(s).Some?
    ensures TotalBudget(SplitSearch(s).value) + 1 == Budget(s)
  {
    var children := SplitSearch(s).value;
    if s.prefix == "%" {
      var each := YearsBudget(Span(s), Growth(MAX_SPLIT_PREFIX - 1));
      forall i | 0 <= i < |children|
        ensures Budget(children[i]) == each
      {
        assert |children[i].prefix| == 2 && IsOpen(children[i].prefix);
      }
      TotalBudgetUniform(children, each);
    } else if s.from < s.to {
      var a, b := children[0], children[1];
      assert TotalBudget(children) == Budget(a) + Budget(b) by {
        assert children[1..] == [b];
        assert TotalBudget([b]) == Budget(b);
      }
      YearsBudgetHalves(Span(a), Span(b), GrowthOf(s.prefix));
    } else {
      var left := MAX_SPLIT_PREFIX + 1 - |s.prefix|;
      forall i | 0 <= i < |children|
        ensures Budget(children[i]) == Growth(left - 1)
      {
        assert |children[i].prefix| == |s.prefix| + 1 && IsOpen(children[i].prefix);
        assert children[i].prefix != "%";
        assert YearsBudget(0, Growth(left - 1)) == Growth(left - 1);
      }
      TotalBudgetUniform(children, Growth(left - 1));
    }
  }

  // ---------------------------------------------------------------- the loop

  /** parseSearchResult: an unlimited answer must hold as many rows as it announces. */
  predicate ValidReply(reply: Reply) {
    reply.limited || reply.total == |reply.rows|
  }

  /** One turn of the loop, for a valid answer to the first pending slice. */
  function Advance(st: ScanState, reply: Reply): Option<ScanState>
    requires st.pending != []
  {
    var expected := if st.expected.None? then Some(reply.total) else st.expected;
    if reply.limited then
      var children := SplitSearch(st.pending[0]);
      if children.None? then None
      else Some(ScanState(expected, children.value + st.pending[1..], st.rows, st.requests + 1))
    else
      Some(ScanState(expected, st.pending[1..], st.rows + reply.rows, st.requests + 1))
  }

  /** An answer that is not limited always takes the scan on, and a limited one exactly if its slice
      is not too narrow to be split. */
  lemma LimitedGoesOn(st: ScanState, reply: Reply)
    requires st.pending != []
    ensures Advance(st, reply).None? <==> reply.limited && IsTooNarrow(st.pending[0])
  {
    RefusedIfTooNarrow(st.pending[0]);
  }

  function InitialState(root: Slice): ScanState {
    ScanState(None, [root], [], 0)
  }

  ghost predicate AllInside(ss: seq<Slice>, root: Slice) {
    forall i :: 0 <= i < |ss| ==> Inside(ss[i], root)
  }

  /** Every collected row matches root, is held as often as the archive holds it, and will
      not be found again. */
  ghost predicate CollectedOnce(archive: seq<Row>, root: Slice, rows: seq<Row>, pending: seq<Slice>) {
    forall r :: r in multiset(rows) ==>
      && Matches(root, r)
      && multiset(rows)[r] == multiset(archive)[r]
      && Unclaimed(pending, r)
  }

  ghost predicate TidySlices(archive: seq<Row>, root: Slice, rows: seq<Row>, pending: seq<Slice>) {
    && PairwiseDisjoint(pending)
    && AllInside(pending, root)
    && CollectedOnce(archive, root, rows, pending)
  }

  /** What every checkpoint of a scan of root keeps. */
  ghost predicate Tidy(archive: seq<Row>, root: Slice, st: ScanState) {
    && TidySlices(archive, root, st.rows, st.pending)
    && (st.expected.None? ==> st == InitialState(root))
    && (st.expected.Some? ==> st.expected.value == |Matching(archive, root)|)
  }

  lemma SubmultisetOfSameSize<T>(a: multiset<T>, b: multiset<T>)
    requires a <= b && |a| == |b|
    ensures a == b
  {
    assert b == a + (b - a);
    assert |b - a| == 0;
  }

  /** The length check alone turns an answer that may be cut short into all matches. */
  lemma ValidReplyIsWhole(archive: seq<Row>, s: Slice, reply: Reply)
    requires Faithful(archive, s, reply) && ValidReply(reply) && !reply.limited
    ensures multiset(reply.rows) == Matching(archive, s)
  {
    SubmultisetOfSameSize(multiset(reply.rows), Matching(archive, s));
  }

  lemma SpliceKeepsDisjoint(s: Slice, children: seq<Slice>, rest: seq<Slice>)
    requires PairwiseDisjoint([s] + rest) && PairwiseDisjoint(children)
    requires forall i :: 0 <= i < |children| ==> Inside(children[i], s)
    ensures PairwiseDisjoint(children + rest)
  {
    var all := children + rest;
    forall i, j | 0 <= i < j < |all|
      ensures Disjoint(all[i], all[j])
    {
      if i < |children| <= j {
        assert ([s] + rest)[0] == s && ([s] + rest)[j - |children| + 1] == all[j];
        assert Disjoint(s, all[j]);
      } else if |children| <= i {
        assert Disjoint(([s] + rest)[i - |children| + 1], ([s] + rest)[j - |children| + 1]);
      }
    }
  }

  lemma RestIsUnclaimed(s: Slice, rest: seq<Slice>, r: Row)
    requires PairwiseDisjoint([s] + rest) && Matches(s, r)
    ensures Unclaimed(rest, r)
  {
    forall i | 0 <= i < |rest|
      ensures !Matches(rest[i], r)
    {
      assert ([s] + rest)[0] == s && ([s] + rest)[i + 1] == rest[i];
      assert Disjoint(s, rest[i]);
    }
  }

  lemma SplitKeepsCollected(archive: seq<Row>, root: Slice, rows: seq<Row>, s: Slice, rest: seq<Slice>)
    requires CollectedOnce(archive, root, rows, [s] + rest) && SplitSearch(s).Some?
    ensures CollectedOnce(archive, root, rows, SplitSearch(s).value + rest)
  {
    SplitSearchKeepsDisjoint(s);
    var children := SplitSearch(s).value;
    forall r | r in multiset(rows)
      ensures Unclaimed(children + rest, r)
    {
      UnclaimedConcat([s], rest, r);
      assert [s][0] == s && !Matches(s, r);
      UnclaimedConcat(children, rest, r);
    }
  }

  lemma AnswerKeepsCollected(archive: seq<Row>, root: Slice, rows: seq<Row>, s: Slice, rest: seq<Slice>,
                             found: seq<Row>)
    requires CollectedOnce(archive, root, rows, [s] + rest) && PairwiseDisjoint([s] + rest)
    requires Inside(s, root) && multiset(found) == Matching(archive, s)
    ensures CollectedOnce(archive, root, rows + found, rest)
  {
    assert multiset(rows + found) == multiset(rows) + multiset(found);
    forall r | r in multiset(rows + found)
      ensures Matches(root, r) && multiset(rows + found)[r] == multiset(archive)[r] && Unclaimed(rest, r)
    {
      UnclaimedConcat([s], rest, r);
      assert Unclaimed([s], r) <==> !Matches(s, r) by { assert [s][0] == s; }
      if Matches(s, r) {
        RestIsUnclaimed(s, rest, r);
      }
    }
  }

  /** The invariant of the scan: each valid answer, limited or not, keeps the pending slices
      disjoint and inside the root, and the collected rows exact. */
  lemma AdvanceKeepsTidy(archive: seq<Row>, root: Slice, st: ScanState, reply: Reply)
    requires Tidy(archive, root, st) && st.pending != []
    requires Faithful(archive, st.pending[0], reply) && ValidReply(reply)
    requires Advance(st, reply).Some?
    ensures Tidy(archive, root, Advance(st, reply).value)
  {
    var s, rest := st.pending[0], st.pending[1..];
    assert st.pending == [s] + rest;
    if reply.limited {
      SplitKeepsSlices(archive, root, st.rows, s, rest);
    } else {
      AnswerKeepsSlices(archive, root, st.rows, s, rest, reply);
    }
    ExpectedIsKept(archive, root, st, reply);
  }

  /** The first total is that of the root, and stays. */
  lemma ExpectedIsKept(archive: seq<Row>, root: Slice, st: ScanState, reply: Reply)
    requires Tidy(archive, root, st) && st.pending != [] && Advance(st, reply).Some?
    requires reply.total == |Matching(archive, st.pending[0])|
    ensures Advance(st, reply).value.expected == Some(|Matching(archive, root)|)
  {
  }

  lemma AnswerKeepsSlices(archive: seq<Row>, root: Slice, rows: seq<Row>, s: Slice, rest: seq<Slice>, reply: Reply)
    requires TidySlices(archive, root, rows, [s] + rest)
    requires Faithful(archive, s, reply) && ValidReply(reply) && !reply.limited
    ensures TidySlices(archive, root, rows + reply.rows, rest)
  {
    RestKeepsInside(s, rest, root);
    ValidReplyIsWhole(archive, s, reply);
    AnswerKeepsCollected(archive, root, rows, s, rest, reply.rows);
    SpliceKeepsDisjoint(s, [], rest);
    assert [] + rest == rest;
  }

  lemma SplitKeepsSlices(archive: seq<Row>, root: Slice, rows: seq<Row>, s: Slice, rest: seq<Slice>)
    requires TidySlices(archive, root, rows, [s] + rest) && SplitSearch(s).Some?
    ensures TidySlices(archive, root, rows, SplitSearch(s).value + rest)
  {
    var children := SplitSearch(s).value;
    RestKeepsInside(s, rest, root);
    SplitSearchKeepsDisjoint(s);
    SpliceKeepsDisjoint(s, children, rest);
    SpliceKeepsInside(s, children, rest, root);
    SplitKeepsCollected(archive, root, rows, s, rest);
  }

  lemma RestKeepsInside(s: Slice, rest: seq<Slice>, root: Slice)
    requires AllInside([s] + rest, root)
    ensures Inside(s, root) && AllInside(rest, root)
  {
    assert ([s] + rest)[0] == s;
    forall i | 0 <= i < |rest|
      ensures Inside(rest[i], root)
    {
      assert rest[i] == ([s] + rest)[i + 1];
    }
  }

  lemma SpliceKeepsInside(s: Slice, children: seq<Slice>, rest: seq<Slice>, root: Slice)
    requires Inside(s, root) && AllInside(rest, root)
    requires forall i :: 0 <= i < |children| ==> Inside(children[i], s)
    ensures AllInside(children + rest, root)
  {
  }

  lemma TidyRowsAreMatches(archive: seq<Row>, root: Slice, st: ScanState)
    requires Tidy(archive, root, st)
    ensures multiset(st.rows) <= Matching(archive, root)
  {
    forall r
      ensures multiset(st.rows)[r] <= Matching(archive, root)[r]
    {
      if r in multiset(st.rows) {
        assert Matches(root, r);
      }
    }
  }

  /** The count check is sound and complete: it passes exactly when the rows collected are
      the rows that match the scope, each as often as the archive holds it. */
  lemma CountCheckIsCoverage(archive: seq<Row>, root: Slice, st: ScanState)
    requires Tidy(archive, root, st) && st.expected.Some?
    ensures |st.rows| == st.expected.value <==> multiset(st.rows) == Matching(archive, root)
  {
    TidyRowsAreMatches(archive, root, st);
    if |st.rows| == st.expected.value {
      SubmultisetOfSameSize(multiset(st.rows), Matching(archive, root));
    }
  }

  /** A row of the scope that is neither collected nor pending is never found again. */
  ghost predicate Missed(archive: seq<Row>, root: Slice, st: ScanState, r: Row) {
    && r in Matching(archive, root)
    && r !in multiset(st.rows)
    && Unclaimed(st.pending, r)
  }

  /** Rows are lost in one way only: a prefix split of a slice that drops them. */
  lemma AdvanceMissesExactly(archive: seq<Row>, root: Slice, st: ScanState, reply: Reply, r: Row)
    requires Tidy(archive, root, st) && st.pending != []
    requires Faithful(archive, st.pending[0], reply) && ValidReply(reply)
    requires Advance(st, reply).Some?
    ensures Missed(archive, root, Advance(st, reply).value, r) <==>
            || Missed(archive, root, st, r)
            || (reply.limited && r in Matching(archive, st.pending[0]) && DroppedBySplit(st.pending[0], r))
  {
    var s, rest := st.pending[0], st.pending[1..];
    assert st.pending == [s] + rest;
    assert Inside(st.pending[0], root);
    UnclaimedConcat([s], rest, r);
    assert Unclaimed([s], r) <==> !Matches(s, r) by { assert [s][0] == s; }
    if Matches(s, r) {
      RestIsUnclaimed(s, rest, r);
    }
    if reply.limited {
      MissedBySplit(archive, root, st, reply, r);
    } else {
      ValidReplyIsWhole(archive, s, reply);
      assert multiset(st.rows + reply.rows) == multiset(st.rows) + multiset(reply.rows);
    }
  }

  lemma MissedBySplit(archive: seq<Row>, root: Slice, st: ScanState, reply: Reply, r: Row)
    requires Tidy(archive, root, st) && st.pending != [] && reply.limited
    requires Inside(st.pending[0], root) && Advance(st, reply).Some?
    requires Matches(st.pending[0], r) ==> Unclaimed(st.pending[1..], r)
    requires Unclaimed(st.pending, r) <==> !Matches(st.pending[0], r) && Unclaimed(st.pending[1..], r)
    ensures Missed(archive, root, Advance(st, reply).value, r) <==>
            || Missed(archive, root, st, r)
            || (r in Matching(archive, st.pending[0]) && DroppedBySplit(st.pending[0], r))
  {
    var s, rest := st.pending[0], st.pending[1..];
    var children := SplitSearch(s).value;
    SplitSearchKeepsDisjoint(s);
    UnclaimedConcat(children, rest, r);
    if !Matches(s, r) {
      assert Unclaimed(children, r) by {
        forall i | 0 <= i < |children| ensures !Matches(children[i], r) { assert Inside(children[i], s); }
      }
    }
  }

  /** Once the worklist is empty, the count check passes exactly when no row was missed. */
  lemma CountCheckSeesEveryMiss(archive: seq<Row>, root: Slice, st: ScanState)
    requires Tidy(archive, root, st) && st.pending == []
    ensures |st.rows| == st.expected.value <==> forall r :: !Missed(archive, root, st, r)
  {
    CountCheckIsCoverage(archive, root, st);
    TidyRowsAreMatches(archive, root, st);
    if forall r :: !Missed(archive, root, st, r) {
      forall r
        ensures multiset(st.rows)[r] == Matching(archive, root)[r]
      {
        assert !Missed(archive, root, st, r);
      }
      assert multiset(st.rows) == Matching(archive, root);
    }
  }

  lemma BudgetIsPositive(s: Slice)
    ensures Budget(s) >= 1
  {
    if s.prefix != "%" {
      OneMore(Span(s), GrowthOf(s.prefix));
      GrowthIsPositive(s.prefix);
    }
  }

  lemma GrowthIsPositive(prefix: string)
    ensures GrowthOf(prefix) >= 1
  {
  }

  /** Every turn that does not throw spends budget, so that the loop ends. */
  lemma AdvanceSpendsBudget(st: ScanState, reply: Reply)
    requires st.pending != [] && Advance(st, reply).Some?
    ensures var next := Advance(st, reply).value;
            next.requests == st.requests + 1 && TotalBudget(next.pending) < TotalBudget(st.pending)
  {
    var slice, rest := st.pending[0], st.pending[1..];
    BudgetIsPositive(slice);
    if reply.limited {
      SplitSpendsBudget(slice);
      TotalBudgetConcat(SplitSearch(slice).value, rest);
    }
  }

  /** What the count check of an empty worklist says. */
  lemma CountCheckDecides(archive: seq<Row>, root: Slice, st: ScanState)
    requires Tidy(archive, root, st) && st.pending == []
    ensures st.expected.Some?
    ensures |st.rows| == st.expected.value ==> multiset(st.rows) == Matching(archive, root)
    ensures |st.rows| != st.expected.value ==> multiset(st.rows) < Matching(archive, root)
  {
    CountCheckIsCoverage(archive, root, st);
    TidyRowsAreMatches(archive, root, st);
  }

  ghost predicate FaithfulAlways(archive: seq<Row>, ask: (Slice, nat) -> Reply) {
    forall s, n :: Faithful(archive, s, ask(s, n))
  }

  /** The scan loop, against any pattern of "limited" answers (ask may answer the same slice
      differently each time). It always stops; it reports Complete exactly when it holds every
      matching row once, even though a split may have dropped rows. */
  method ScanArchive(ghost archive: seq<Row>, ghost root: Slice, start: ScanState, ask: (Slice, nat) -> Reply)
    returns (outcome: Outcome, st: ScanState)
    requires FaithfulAlways(archive, ask)
    requires Tidy(archive, root, start)
    ensures Tidy(archive, root, st)
    ensures outcome.Complete? ==> st.pending == [] && multiset(st.rows) == Matching(archive, root)
    ensures outcome.CountMismatch? ==> st.pending == [] && multiset(st.rows) < Matching(archive, root)
    ensures outcome.InvalidReply? ==>
              st.pending != [] && !ValidReply(ask(st.pending[0], st.requests))
    ensures outcome.TooNarrow? ==>
              && st.pending != [] && outcome.slice == st.pending[0]
              && IsTooNarrow(outcome.slice) && ask(outcome.slice, st.requests).limited
    ensures start.requests <= st.requests <= start.requests + TotalBudget(start.pending)
  {
    st := start;
    while st.pending != []
      invariant Tidy(archive, root, st)
      invariant start.requests <= st.requests
      invariant st.requests + TotalBudget(st.pending) <= start.requests + TotalBudget(start.pending)
      decreases TotalBudget(st.pending)
    {
      var slice := st.pending[0];
      var reply := ask(slice, st.requests);
      if !ValidReply(reply) {
        return InvalidReply, st;
      }
      var next := Advance(st, reply);
      if next.None? {
        LimitedGoesOn(st, reply);
        return TooNarrow(slice), st;
      }
      AdvanceKeepsTidy(archive, root, st, reply);
      AdvanceSpendsBudget(st, reply);
      st := next.value;
    }
    CountCheckDecides(archive, root, st);
    if |st.rows| != st.expected.value {
      outcome := CountMismatch;
    } else {
      outcome := Complete;
    }
  }

  lemma InitialStateIsTidy(archive: seq<Row>, root: Slice)
    ensures Tidy(archive, root, InitialState(root))
  {
  }

  /** A prefix split really loses rows: the code CT3 is found by CT3% and by none of
      its 36 longer prefixes, and the count check is what reports it. */
  lemma StemIsDropped(year: int, cells: string, links: seq<string>)
    ensures var s := Slice("CT3%", year, year);
            var r := Row("CT3", year, cells, links);
            && DroppedBySplit(s, r)
            && forall reply ::
                 Faithful([r], s, reply) && reply.limited ==>
                   && Advance(InitialState(s), reply).Some?
                   && Missed([r], s, Advance(InitialState(s), reply).value, r)
  {
    var s := Slice("CT3%", year, year);
    var r := Row("CT3", year, cells, links);
    assert Stem(s.prefix) == "CT3";
    forall reply | Faithful([r], s, reply) && reply.limited
      ensures Advance(InitialState(s), reply).Some? && Missed([r], s, Advance(InitialState(s), reply).value, r)
    {
      InitialStateIsTidy([r], s);
      assert multiset([r])[r] == 1;
      AdvanceMissesExactly([r], s, InitialState(s), reply, r);
    }
  }
}
