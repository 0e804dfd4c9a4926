/** The selection at the end of listPdfObjects in scripts/generate-marker-bench-urls.ts: which of
    count objects, largest first, go into a benchmark of at most limit. Positions stand for the
    objects; ratios are exact, where the script rounds doubles. */
module SampleSelection {

  datatype Strategy = Largest | Balanced | StratifiedRandom

  // ---------------------------------------------------------------- exact division

  lemma QuotientBounds(a: int, b: int)
    requires b > 0
    ensures (a / b) * b <= a < (a / b + 1) * b
  {
  }

  lemma ProductsGrow(x: int, y: int, b: int)
    requires b > 0 && x <= y
    ensures x * b <= y * b
  {
    assert y * b - x * b == (y - x) * b;
  }

  lemma Less(x: int, y: int, b: int)
    requires b > 0 && x * b < y * b
    ensures x < y
  {
    if x >= y {
      ProductsGrow(y, x, b);
    }
  }

  lemma QuotientIs(a: int, b: int, q: int)
    requires b > 0 && q * b <= a < (q + 1) * b
    ensures a / b == q
  {
    QuotientBounds(a, b);
    Less(a / b, q + 1, b);
    Less(q, a / b + 1, b);
  }

  lemma QuotientGrows(a: int, step: int, b: int)
    requires b > 0
    ensures step / b <= (a + step) / b - a / b <= step / b + 1
    ensures step >= b ==> step / b >= 1
  {
    QuotientBounds(a, b);
    QuotientBounds(step, b);
    QuotientBounds(a + step, b);
    SumsOfQuotients(a, step, b, a / b, step / b, (a + step) / b);
    if step >= b {
      Less(1, step / b + 1, b);
    }
  }

  lemma SumsOfQuotients(a: int, step: int, b: int, p: int, q: int, r: int)
    requires b > 0
    requires p * b <= a < (p + 1) * b && q * b <= step < (q + 1) * b && r * b <= a + step < (r + 1) * b
    ensures q <= r - p <= q + 1
  {
    assert (p + q) * b == p * b + q * b;
    assert (p + q + 2) * b == (p + 1) * b + (q + 1) * b;
    Less(p + q, r + 1, b);
    Less(r, p + q + 2, b);
  }

  // ---------------------------------------------------------------- strata

  function Start(index: nat, count: nat, limit: nat): nat
    requires limit > 0
  {
    index * count / limit
  }

  function End(index: nat, count: nat, limit: nat): nat
    requires limit > 0
  {
    var end := (index + 1) * count / limit;
    if end > Start(index, count, limit) + 1 then end else Start(index, count, limit) + 1
  }

  /** Stratum index starts at the last object that lies no further than index parts of limit. */
  lemma StartIs(index: nat, count: nat, limit: nat)
    requires limit > 0
    ensures Start(index, count, limit) * limit <= index * count < (Start(index, count, limit) + 1) * limit
  {
    QuotientBounds(index * count, limit);
  }

  /** The strata lie end to end, and are as equal as whole numbers can be. */
  lemma StrataMeet(index: nat, count: nat, limit: nat)
    requires index < limit < count
    ensures End(index, count, limit) == Start(index + 1, count, limit)
    ensures count / limit <= End(index, count, limit) - Start(index, count, limit) <= count / limit + 1
    ensures Start(0, count, limit) == 0 && Start(limit, count, limit) == count
  {
    assert (index + 1) * count == index * count + count;
    QuotientGrows(index * count, count, limit);
    QuotientIs(limit * count, limit, count);
  }

  /** Every object is in exactly one stratum. */
  lemma {:induction false} StratumOf(k: nat, count: nat, limit: nat, below: nat) returns (index: nat)
    requires 0 < limit < count && below <= limit && k < Start(below, count, limit)
    ensures index < below && Start(index, count, limit) <= k < End(index, count, limit)
  {
    StrataMeet(0, count, limit);
    StrataMeet(below - 1, count, limit);
    if Start(below - 1, count, limit) <= k {
      index := below - 1;
    } else {
      index := StratumOf(k, count, limit, below - 1);
    }
  }

  lemma {:induction false} StartsGrow(i: nat, j: nat, count: nat, limit: nat)
    requires i < j <= limit < count
    ensures End(i, count, limit) <= Start(j, count, limit)
    decreases j
  {
    StrataMeet(j - 1, count, limit);
    if i < j - 1 {
      StartsGrow(i, j - 1, count, limit);
    }
  }

  // ---------------------------------------------------------------- even positions

  /** Math.round rounds halves up. */
  function Round(numerator: nat, denominator: nat): nat
    requires denominator > 0
  {
    (2 * numerator + denominator) / (2 * denominator)
  }

  function Position(index: nat, count: nat, limit: nat): nat
    requires limit > 1 && count > 0
  {
    Round(index * (count - 1), limit - 1)
  }

  lemma PositionsGrow(index: nat, count: nat, limit: nat)
    requires 1 < limit < count && index < limit
    ensures Position(index, count, limit) < Position(index + 1, count, limit)
  {
    var a, d := 2 * (index * (count - 1)) + (limit - 1), 2 * (limit - 1);
    assert (index + 1) * (count - 1) == index * (count - 1) + (count - 1);
    QuotientGrows(a, 2 * (count - 1), d);
  }

  lemma PositionEnds(count: nat, limit: nat)
    requires 1 < limit < count
    ensures Position(0, count, limit) == 0 && Position(limit - 1, count, limit) == count - 1
  {
    var d := 2 * (limit - 1);
    QuotientIs(limit - 1, d, 0);
    var a := 2 * ((limit - 1) * (count - 1)) + (limit - 1);
    assert a == (count - 1) * d + (limit - 1);
    QuotientIs(a, d, count - 1);
  }

  /** No position is further than half an object from its share. */
  ghost predicate Nearest(position: nat, index: nat, count: nat, limit: nat) {
    var share := index * (count - 1) - position * (limit - 1);
    -(limit - 1) <= 2 * share < limit - 1
  }

  lemma PositionIsNearest(index: nat, count: nat, limit: nat)
    requires 1 < limit < count
    ensures Nearest(Position(index, count, limit), index, count, limit)
  {
    var a, d := 2 * (index * (count - 1)) + (limit - 1), 2 * (limit - 1);
    QuotientBounds(a, d);
    var q := a / d;
    assert q * d == 2 * (q * (limit - 1));
    assert (q + 1) * d == 2 * (q * (limit - 1)) + d;
  }

  // ---------------------------------------------------------------- the selection

  ghost predicate Increasing(positions: seq<nat>, count: nat) {
    && (forall i :: 0 <= i < |positions| ==> positions[i] < count)
    && forall i, j :: 0 <= i < j < |positions| ==> positions[i] < positions[j]
  }

  /** The first object of the lowest score in start..end: the head of the sorted stratum. */
  ghost predicate IsLowest(scores: seq<nat>, start: nat, end: nat, at: nat) {
    && start <= at < end <= |scores|
    && (forall k :: start <= k < end ==> scores[at] <= scores[k])
    && forall k :: start <= k < at ==> scores[at] < scores[k]
  }

  /** The pick of each stratum is the lowest score in it. */
  ghost predicate IsStratified(scores: seq<nat>, limit: nat, selected: seq<nat>)
    requires limit > 0
  {
    && |selected| == limit
    && forall i :: 0 <= i < limit ==>
         IsLowest(scores, Start(i, |scores|, limit), End(i, |scores|, limit), selected[i])
  }

  /** From the first object to the last, as even as whole positions can be. */
  ghost predicate IsBalanced(count: nat, limit: nat, selected: seq<nat>) {
    && |selected| == limit > 0 && selected[0] == 0
    && (limit > 1 ==> selected[limit - 1] == count - 1)
    && (limit > 1 ==> forall i :: 0 <= i < limit ==> Nearest(selected[i], i, count, limit))
  }

  method Lowest(scores: seq<nat>, start: nat, end: nat) returns (at: nat)
    requires start < end <= |scores|
    ensures IsLowest(scores, start, end, at)
  {
    at := start;
    for k := start + 1 to end
      invariant IsLowest(scores, start, k, at)
    {
      if scores[k] < scores[at] {
        at := k;
      }
    }
  }

  /** One object of each stratum, the one whose hash with the seed is lowest. */
  method StratifiedSelection(scores: seq<nat>, limit: nat) returns (selected: seq<nat>)
    requires 0 < limit < |scores|
    ensures Increasing(selected, |scores|) && IsStratified(scores, limit, selected)
  {
    selected := [];
    for index := 0 to limit
      invariant |selected| == index && Increasing(selected, |scores|)
      invariant forall i :: 0 <= i < index ==>
                  IsLowest(scores, Start(i, |scores|, limit), End(i, |scores|, limit), selected[i])
    {
      StrataMeet(index, |scores|, limit);
      if index + 1 < limit {
        StartsGrow(index, limit, |scores|, limit);
      }
      var at := Lowest(scores, Start(index, |scores|, limit), End(index, |scores|, limit));
      forall i | 0 <= i < index
        ensures selected[i] < at
      {
        StartsGrow(i, index, |scores|, limit);
      }
      selected := selected + [at];
    }
  }

  /** Even positions from the first to the last object; the filter for positions used before
      never drops one. */
  method BalancedSelection(count: nat, limit: nat) returns (selected: seq<nat>)
    requires 0 < limit < count
    ensures Increasing(selected, count) && IsBalanced(count, limit, selected)
  {
    selected := [];
    var used: set<nat> := {};
    if limit == 1 {
      return [0];
    }
    for index := 0 to limit
      invariant |selected| == index
      invariant forall i, j :: 0 <= i < j < index ==> selected[i] < selected[j]
      invariant forall i :: 0 <= i < index ==>
                  selected[i] == Position(i, count, limit) && Nearest(selected[i], i, count, limit)
      invariant forall p :: p in used ==> index > 0 && p <= selected[index - 1]
    {
      var position := Position(index, count, limit);
      PositionIsNearest(index, count, limit);
      if index > 0 {
        PositionsGrow(index - 1, count, limit);
      }
      if position !in used {
        used := used + {position};
        selected := selected + [position];
      }
    }
    PositionEnds(count, limit);
  }

  /** Whatever the strategy: as many objects as asked for, or all there are, each once; the first
      ones if that is all, or if the largest are wanted. */
  method Select(strategy: Strategy, scores: seq<nat>, limit: nat) returns (selected: seq<nat>)
    requires limit > 0
    ensures |selected| == (if |scores| < limit then |scores| else limit)
    ensures Increasing(selected, |scores|)
    ensures strategy == Largest || |scores| <= limit ==> forall i :: 0 <= i < |selected| ==> selected[i] == i
    ensures strategy == StratifiedRandom && |scores| > limit ==> IsStratified(scores, limit, selected)
    ensures strategy == Balanced && |scores| > limit ==> IsBalanced(|scores|, limit, selected)
  {
    if strategy == Largest || |scores| <= limit {
      var size := if |scores| < limit then |scores| else limit;
      return seq(size, i => i);
    }
    if strategy == StratifiedRandom {
      selected := StratifiedSelection(scores, limit);
    } else {
      selected := BalancedSelection(|scores|, limit);
    }
  }
}
