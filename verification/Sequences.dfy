/** What several models say of sequences and sets. */
module Sequences {

  ghost predicate Distinct<T>(items: seq<T>) {
    forall i, j :: 0 <= i < j < |items| ==> items[i] != items[j]
  }

  lemma RestIsDistinct<T>(items: seq<T>)
    requires items != [] && Distinct(items)
    ensures Distinct(items[1..]) && items[0] !in items[1..]
  {
  }

  lemma Associative<T>(a: seq<T>, b: seq<T>, c: seq<T>)
    ensures a + b + c == a + (b + c)
  {
  }

  lemma FiveTogether<T>(a: seq<T>, b: seq<T>, c: seq<T>, d: seq<T>, e: seq<T>)
    ensures a + (b + (c + (d + e))) == a + b + c + d + e
  {
    Associative(c, d, e);
    Associative(b, c + d, e);
    Associative(b, c, d);
    Associative(a, b + c + d, e);
    Associative(a, b + c, d);
    Associative(a, b, c);
  }

  lemma SplitAt<T>(items: seq<T>, i: nat)
    requires i < |items|
    ensures items[..i] + ([items[i]] + items[i + 1..]) == items && |items[..i]| == i
  {
  }

  lemma SubsetIsNoLarger<T>(a: set<T>, b: set<T>)
    requires a <= b
    ensures |a| <= |b|
  {
    assert b == a + (b - a);
  }
}
