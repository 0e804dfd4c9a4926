/** Question headings of scripts/exam-papers/pdf.ts: plain numbered lines are trusted only in a
    run that counts up from 1, found greedily from every "1". A candidate is its position in the
    list of candidate lines; numbers holds the number at the start of each. */
module QuestionHeadings {

  // ---------------------------------------------------------------- greedy runs

  /** The candidates taken from position from on, when want is the number looked for. */
  function Follow(numbers: seq<nat>, from: nat, want: nat): (run: seq<nat>)
    ensures forall k :: 0 <= k < |run| ==> from <= run[k] < |numbers|
    decreases |numbers| - from
  {
    if from >= |numbers| then []
    else if numbers[from] == want then [from] + Follow(numbers, from + 1, want + 1)
    else Follow(numbers, from + 1, want)
  }

  function RunFrom(numbers: seq<nat>, start: nat): seq<nat>
    requires start < |numbers|
  {
    [start] + Follow(numbers, start + 1, 2)
  }

  /** Candidates in document order that count up by one from first. */
  ghost predicate IsChain(numbers: seq<nat>, chain: seq<nat>, first: nat) {
    && (forall k :: 0 <= k < |chain| ==> chain[k] < |numbers| && numbers[chain[k]] == first + k)
    && forall j, k :: 0 <= j < k < |chain| ==> chain[j] < chain[k]
  }

  lemma ChainInFront(numbers: seq<nat>, at: nat, chain: seq<nat>, first: nat)
    requires at < |numbers| && numbers[at] == first && IsChain(numbers, chain, first + 1)
    requires forall k :: 0 <= k < |chain| ==> at < chain[k]
    ensures IsChain(numbers, [at] + chain, first)
  {
    var all := [at] + chain;
    assert forall k :: 1 <= k < |all| ==> all[k] == chain[k - 1];
  }

  lemma {:induction false} FollowIsChain(numbers: seq<nat>, from: nat, want: nat)
    ensures IsChain(numbers, Follow(numbers, from, want), want)
    decreases |numbers| - from
  {
    if from < |numbers| {
      if numbers[from] == want {
        FollowIsChain(numbers, from + 1, want + 1);
        ChainInFront(numbers, from, Follow(numbers, from + 1, want + 1), want);
      } else {
        FollowIsChain(numbers, from + 1, want);
      }
    }
  }

  /** Taking a number as soon as it comes is never worse: no chain beats the greedy one. */
  lemma {:induction false} FollowIsLongest(numbers: seq<nat>, from: nat, want: nat, chain: seq<nat>)
    requires IsChain(numbers, chain, want)
    requires chain != [] ==> chain[0] >= from
    ensures |chain| <= |Follow(numbers, from, want)|
    decreases |numbers| - from
  {
    if chain != [] {
      if numbers[from] == want {
        var rest := chain[1..];
        assert IsChain(numbers, rest, want + 1);
        FollowIsLongest(numbers, from + 1, want + 1, rest);
      } else {
        FollowIsLongest(numbers, from + 1, want, chain);
      }
    }
  }

  /** A run is a chain, and a longest one among those that begin at its start. */
  lemma RunIsLongest(numbers: seq<nat>, start: nat, chain: seq<nat>)
    requires start < |numbers| && numbers[start] == 1
    requires IsChain(numbers, chain, 1) && chain != [] && chain[0] >= start
    ensures IsChain(numbers, RunFrom(numbers, start), 1)
    ensures |chain| <= |RunFrom(numbers, start)|
  {
    FollowIsChain(numbers, start, 1);
    FollowIsLongest(numbers, start, 1, chain);
  }

  /** An earlier "1" never gives a shorter run than a later one. */
  lemma EarlierRunIsNoShorter(numbers: seq<nat>, i: nat, j: nat)
    requires i <= j < |numbers| && numbers[i] == 1 && numbers[j] == 1
    ensures |RunFrom(numbers, i)| >= |RunFrom(numbers, j)|
  {
    FollowIsChain(numbers, j, 1);
    RunIsLongest(numbers, i, RunFrom(numbers, j));
  }

  lemma {:induction false} FollowThrough(numbers: seq<nat>, from: nat, want: nat, m: nat)
    requires m in Follow(numbers, from, want)
    ensures from <= m < |numbers|
    ensures want <= numbers[m] < want + |Follow(numbers, from, want)|
    ensures Follow(numbers, from, want)[numbers[m] - want..] == [m] + Follow(numbers, m + 1, numbers[m] + 1)
    decreases |numbers| - from
  {
    if numbers[from] != want {
      FollowThrough(numbers, from + 1, want, m);
    } else if m != from {
      FollowThrough(numbers, from + 1, want + 1, m);
      DropFirst(from, Follow(numbers, from + 1, want + 1), numbers[m] - want);
    }
  }

  lemma DropFirst(first: nat, rest: seq<nat>, count: nat)
    requires 1 <= count <= |rest| + 1
    ensures ([first] + rest)[count..] == rest[count - 1..]
  {
  }

  /** Two runs that share a heading are the same from there on, so that a rival run that shares
      nothing with the best one never meets it. */
  lemma RunsMerge(numbers: seq<nat>, i: nat, j: nat, m: nat)
    requires i < |numbers| && j < |numbers| && numbers[i] == 1 && numbers[j] == 1
    requires m in RunFrom(numbers, i) && m in RunFrom(numbers, j)
    ensures 1 <= numbers[m] <= |RunFrom(numbers, i)| && numbers[m] <= |RunFrom(numbers, j)|
    ensures RunFrom(numbers, i)[numbers[m] - 1..] == RunFrom(numbers, j)[numbers[m] - 1..]
  {
    FollowThrough(numbers, i, 1, m);
    FollowThrough(numbers, j, 1, m);
  }

  // ---------------------------------------------------------------- the choice

  ghost predicate IsFirstOne(numbers: seq<nat>, s: nat) {
    s < |numbers| && numbers[s] == 1 && forall k :: 0 <= k < s ==> numbers[k] != 1
  }

  /** A run of more than one heading. */
  ghost predicate IsPlausible(numbers: seq<nat>, run: seq<nat>) {
    exists s: nat :: StartsRun(numbers, s) && run == RunFrom(numbers, s)
  }

  ghost predicate Share(a: seq<nat>, b: seq<nat>) {
    exists m :: m in a && m in b
  }

  /** At least half as long as the best run and without a heading of it. */
  ghost predicate Competes(best: seq<nat>, run: seq<nat>) {
    |run| * 2 >= |best| && !Share(run, best)
  }

  method GreedyRun(numbers: seq<nat>, start: nat) returns (run: seq<nat>)
    requires start < |numbers|
    ensures run == RunFrom(numbers, start)
  {
    run := [start];
    var k := start + 1;
    while k < |numbers|
      invariant start < k <= |numbers| && run != []
      invariant RunFrom(numbers, start) == run + Follow(numbers, k, |run| + 1)
    {
      if numbers[k] == |run| + 1 {
        run := run + [k];
      }
      k := k + 1;
    }
  }

  /** The runs of more than one heading, by their starts in document order. */
  ghost predicate AreThePlausible(numbers: seq<nat>, runs: seq<seq<nat>>, below: nat) {
    && (forall run :: run in runs ==> IsPlausible(numbers, run))
    && (forall s: nat :: StartsRun(numbers, s) && s < below ==> RunFrom(numbers, s) in runs)
    && forall s: nat :: IsFirstOne(numbers, s) && StartsRun(numbers, s) && s < below ==>
        runs != [] && runs[0] == RunFrom(numbers, s)
  }

  ghost predicate StartsRun(numbers: seq<nat>, s: nat) {
    s < |numbers| && numbers[s] == 1 && |RunFrom(numbers, s)| > 1
  }

  method PlausibleRuns(numbers: seq<nat>) returns (runs: seq<seq<nat>>)
    ensures AreThePlausible(numbers, runs, |numbers|)
  {
    runs := [];
    var i := 0;
    while i < |numbers|
      invariant 0 <= i <= |numbers|
      invariant AreThePlausible(numbers, runs, i)
      invariant runs != [] ==> exists s: nat :: s < i && numbers[s] == 1
    {
      if numbers[i] == 1 {
        var run := GreedyRun(numbers, i);
        if |run| > 1 {
          assert IsPlausible(numbers, run);
          runs := runs + [run];
        }
      }
      i := i + 1;
    }
  }

  lemma {:induction false} FirstOne(numbers: seq<nat>, s: nat) returns (first: nat)
    requires s < |numbers| && numbers[s] == 1
    ensures IsFirstOne(numbers, first) && first <= s
  {
    if k: nat :| k < s && numbers[k] == 1 {
      first := FirstOne(numbers, k);
    } else {
      first := s;
    }
  }

  lemma FirstRunIsBest(numbers: seq<nat>, runs: seq<seq<nat>>, run: seq<nat>)
    requires AreThePlausible(numbers, runs, |numbers|) && run in runs
    ensures |run| <= |runs[0]|
    ensures exists s: nat :: IsFirstOne(numbers, s) && runs[0] == RunFrom(numbers, s)
  {
    assert IsPlausible(numbers, run);
    var s: nat :| StartsRun(numbers, s) && run == RunFrom(numbers, s);
    var first := FirstOne(numbers, s);
    EarlierRunIsNoShorter(numbers, first, s);
    assert StartsRun(numbers, first);
  }

  /** The reduce that keeps the first of the longest runs. */
  method LongestRun(numbers: seq<nat>, runs: seq<seq<nat>>) returns (best: seq<nat>)
    requires AreThePlausible(numbers, runs, |numbers|)
    ensures best == if runs == [] then [] else runs[0]
  {
    best := [];
    var i := 0;
    while i < |runs|
      invariant 0 <= i <= |runs|
      invariant best == if i == 0 then [] else runs[0]
    {
      FirstRunIsBest(numbers, runs, runs[i]);
      assert IsPlausible(numbers, runs[i]);
      if |runs[i]| > |best| {
        best := runs[i];
      }
      i := i + 1;
    }
  }

  /** The length of the longest run that competes with the best one. */
  method RivalLength(best: seq<nat>, runs: seq<seq<nat>>) returns (length: nat)
    ensures forall run :: run in runs && Competes(best, run) ==> |run| <= length
    ensures length > 0 ==> exists run :: run in runs && Competes(best, run) && |run| == length
  {
    length := 0;
    var i := 0;
    while i < |runs|
      invariant 0 <= i <= |runs|
      invariant forall run :: run in runs[..i] && Competes(best, run) ==> |run| <= length
      invariant length > 0 ==> exists run :: run in runs && Competes(best, run) && |run| == length
    {
      assert runs[..i + 1] == runs[..i] + [runs[i]];
      var shares := exists m :: m in runs[i] && m in best;
      if |runs[i]| * 2 >= |best| && !shares && |runs[i]| > length {
        assert Competes(best, runs[i]);
        length := |runs[i]|;
      }
      i := i + 1;
    }
    assert runs[..i] == runs;
  }

  ghost predicate IsBest(numbers: seq<nat>, best: seq<nat>) {
    && IsChain(numbers, best, 1) && |best| != 1
    && (best != [] ==> exists s: nat :: IsFirstOne(numbers, s) && best == RunFrom(numbers, s))
    && forall chain :: IsChain(numbers, chain, 1) ==> |chain| <= |best| || |chain| == 1
  }

  lemma NoChainIsLonger(numbers: seq<nat>, runs: seq<seq<nat>>, chain: seq<nat>)
    requires AreThePlausible(numbers, runs, |numbers|)
    requires IsChain(numbers, chain, 1) && |chain| > 1
    ensures runs != [] && |chain| <= |runs[0]|
  {
    var start := chain[0];
    assert start < |numbers| && numbers[start] == 1;
    var first := FirstOne(numbers, start);
    RunIsLongest(numbers, first, chain);
    assert StartsRun(numbers, first);
  }

  lemma FirstRunIsALongestChain(numbers: seq<nat>, runs: seq<seq<nat>>)
    requires AreThePlausible(numbers, runs, |numbers|)
    ensures IsBest(numbers, if runs == [] then [] else runs[0])
  {
    if runs != [] {
      var s := FirstRunStart(numbers, runs);
      FollowIsChain(numbers, s, 1);
    }
    forall chain | IsChain(numbers, chain, 1) && |chain| > 1
      ensures runs != [] && |chain| <= |runs[0]|
    {
      NoChainIsLonger(numbers, runs, chain);
    }
  }

  lemma FirstRunStart(numbers: seq<nat>, runs: seq<seq<nat>>) returns (s: nat)
    requires AreThePlausible(numbers, runs, |numbers|) && runs != []
    ensures IsFirstOne(numbers, s) && runs[0] == RunFrom(numbers, s) && |runs[0]| > 1
  {
    FirstRunIsBest(numbers, runs, runs[0]);
    assert IsPlausible(numbers, runs[0]);
    s :| IsFirstOne(numbers, s) && runs[0] == RunFrom(numbers, s);
  }

  /** findNumericHeadings: the headings are the run from the first "1", a longest chain 1, 2, ...
      of the whole document, unless no chain has two headings; and rivalLength is the length of
      the longest run, at least half as long, that shares no heading with it. */
  method FindNumericHeadings(numbers: seq<nat>) returns (best: seq<nat>, rivalLength: nat)
    ensures IsBest(numbers, best)
    ensures forall run :: IsPlausible(numbers, run) && Competes(best, run) ==> |run| <= rivalLength
    ensures rivalLength > 0 ==> exists run :: IsPlausible(numbers, run) && Competes(best, run) && |run| == rivalLength
  {
    var plausible := PlausibleRuns(numbers);
    best := LongestRun(numbers, plausible);
    FirstRunIsALongestChain(numbers, plausible);
    rivalLength := RivalLength(best, plausible);
    forall run | IsPlausible(numbers, run)
      ensures run in plausible
    {
      var s: nat :| StartsRun(numbers, s) && run == RunFrom(numbers, s);
    }
  }

  // ---------------------------------------------------------------- the questions

  /** The lines from..to of a question. */
  datatype Question = Question(from: nat, to: nat)

  /** buildQuestion: the lines up to the next heading, less the page furniture that trails into
      it; the heading's own line always stays. */
  method BuildQuestion(furniture: seq<bool>, from: nat, end: nat) returns (question: Question)
    requires from < end <= |furniture|
    ensures IsBuilt(furniture, from, end, question)
  {
    var last := end - from - 1;
    while last > 0 && furniture[from + last]
      invariant 0 <= last < end - from
      invariant forall k :: from + last < k < end ==> furniture[k]
    {
      last := last - 1;
    }
    question := Question(from, from + last + 1);
  }

  ghost predicate Holds(questions: seq<Question>, q: int, line: nat) {
    0 <= q < |questions| && questions[q].from <= line < questions[q].to
  }

  ghost predicate Ascending(headings: seq<nat>, count: nat) {
    && (forall q :: 0 <= q < |headings| ==> headings[q] < count)
    && forall p, q :: 0 <= p < q < |headings| ==> headings[p] < headings[q]
  }

  function EndOf(headings: seq<nat>, q: nat, count: nat): nat
    requires q < |headings|
  {
    if q + 1 < |headings| then headings[q + 1] else count
  }

  /** A question is built from the lines from..end, without the page furniture at their end. */
  ghost predicate IsBuilt(furniture: seq<bool>, from: nat, end: nat, question: Question)
    requires end <= |furniture|
  {
    && question.from == from < question.to <= end
    && (forall k :: question.to <= k < end ==> furniture[k])
    && (question.to == from + 1 || !furniture[question.to - 1])
  }

  /** Question q is built from the lines between its heading and the next. */
  ghost predicate AreBuilt(furniture: seq<bool>, headings: seq<nat>, questions: seq<Question>) {
    && Ascending(headings, |furniture|) && |questions| <= |headings|
    && forall q :: 0 <= q < |questions| ==>
         IsBuilt(furniture, headings[q], EndOf(headings, q, |furniture|), questions[q])
  }

  lemma OneMoreBuilt(furniture: seq<bool>, headings: seq<nat>, questions: seq<Question>, question: Question)
    requires AreBuilt(furniture, headings, questions) && |questions| < |headings|
    requires var i := |questions|; IsBuilt(furniture, headings[i], EndOf(headings, i, |furniture|), question)
    ensures AreBuilt(furniture, headings, questions + [question])
  {
    var more := questions + [question];
    forall q | 0 <= q < |more|
      ensures IsBuilt(furniture, headings[q], EndOf(headings, q, |furniture|), more[q])
    {
      if q < |questions| {
        assert more[q] == questions[q];
      }
    }
  }

  method BuildQuestions(furniture: seq<bool>, headings: seq<nat>) returns (questions: seq<Question>)
    requires Ascending(headings, |furniture|)
    ensures |questions| == |headings| && AreBuilt(furniture, headings, questions)
  {
    questions := [];
    var i := 0;
    while i < |headings|
      invariant 0 <= i <= |headings| && |questions| == i
      invariant AreBuilt(furniture, headings, questions)
    {
      var question := BuildQuestion(furniture, headings[i], EndOf(headings, i, |furniture|));
      OneMoreBuilt(furniture, headings, questions, question);
      questions := questions + [question];
      i := i + 1;
    }
  }

  /** parsePdfText: from the first heading on, no line of the paper is told twice or lost: a line
      is in at most one question, and only page furniture is in none. */
  lemma LinesGoToOneQuestion(furniture: seq<bool>, headings: seq<nat>, questions: seq<Question>, line: nat)
    requires AreBuilt(furniture, headings, questions) && |questions| == |headings|
    requires line < |furniture|
    ensures GoesToOneQuestion(furniture, headings, questions, line)
  {
    if headings != [] && headings[0] <= line {
      var q := LastHeading(headings, |furniture|, line);
      assert IsBuilt(furniture, headings[q], EndOf(headings, q, |furniture|), questions[q]);
      assert Holds(questions, q, line) || furniture[line];
    }
  }

  /** A plain numbered line that may be a heading. */
  datatype Candidate = Candidate(line: nat, number: nat)

  function NumbersOf(candidates: seq<Candidate>): (numbers: seq<nat>)
    ensures |numbers| == |candidates| && forall k :: 0 <= k < |numbers| ==> numbers[k] == candidates[k].number
  {
    seq(|candidates|, k requires 0 <= k < |candidates| => candidates[k].number)
  }

  function LinesOf(candidates: seq<Candidate>): (lines: seq<nat>)
    ensures |lines| == |candidates| && forall k :: 0 <= k < |lines| ==> lines[k] == candidates[k].line
  {
    seq(|candidates|, k requires 0 <= k < |candidates| => candidates[k].line)
  }

  function LinesAt(candidates: seq<Candidate>, chosen: seq<nat>): (lines: seq<nat>)
    requires forall k :: 0 <= k < |chosen| ==> chosen[k] < |candidates|
    ensures |lines| == |chosen| && forall k :: 0 <= k < |chosen| ==> lines[k] == candidates[chosen[k]].line
  {
    seq(|chosen|, k requires 0 <= k < |chosen| => candidates[chosen[k]].line)
  }

  /** The headings are the lines of the best numbered run. */
  ghost predicate AreNumbered(candidates: seq<Candidate>, headings: seq<nat>) {
    exists best :: IsBest(NumbersOf(candidates), best) && headings == LinesAt(candidates, best)
  }

  lemma ChosenLinesAscend(candidates: seq<Candidate>, chosen: seq<nat>, first: nat, count: nat)
    requires Ascending(LinesOf(candidates), count) && IsChain(NumbersOf(candidates), chosen, first)
    ensures Ascending(LinesAt(candidates, chosen), count)
  {
    var lines := LinesOf(candidates);
    assert forall k :: 0 <= k < |chosen| ==> LinesAt(candidates, chosen)[k] == lines[chosen[k]];
  }

  /** parsePdfText, from the lines that may be headings to the questions: explicit headings if
      there are any, else the best numbered run; and every line goes to one question at most. */
  method ParsePaper(furniture: seq<bool>, explicit: seq<nat>, candidates: seq<Candidate>)
    returns (headings: seq<nat>, questions: seq<Question>)
    requires Ascending(explicit, |furniture|) && Ascending(LinesOf(candidates), |furniture|)
    ensures if explicit != [] then headings == explicit else AreNumbered(candidates, headings)
    ensures |questions| == |headings| && AreBuilt(furniture, headings, questions)
    ensures forall line: nat :: line < |furniture| ==> GoesToOneQuestion(furniture, headings, questions, line)
  {
    headings := explicit;
    if explicit == [] {
      var best, _ := FindNumericHeadings(NumbersOf(candidates));
      ChosenLinesAscend(candidates, best, 1, |furniture|);
      headings := LinesAt(candidates, best);
    }
    questions := BuildQuestions(furniture, headings);
    forall line: nat | line < |furniture|
      ensures GoesToOneQuestion(furniture, headings, questions, line)
    {
      LinesGoToOneQuestion(furniture, headings, questions, line);
    }
  }

  ghost predicate GoesToOneQuestion(furniture: seq<bool>, headings: seq<nat>, questions: seq<Question>, line: nat)
    requires line < |furniture|
  {
    && (forall p, q :: Holds(questions, p, line) && Holds(questions, q, line) ==> p == q)
    && ((exists q :: Holds(questions, q, line)) || furniture[line] || headings == [] || line < headings[0])
  }

  /** The heading a line stands under. */
  lemma LastHeading(headings: seq<nat>, count: nat, line: nat) returns (q: nat)
    requires Ascending(headings, count) && headings != [] && headings[0] <= line < count
    ensures q < |headings| && headings[q] <= line < EndOf(headings, q, count)
  {
    q := 0;
    while q + 1 < |headings| && headings[q + 1] <= line
      invariant q < |headings| && headings[q] <= line
    {
      q := q + 1;
    }
  }
}
