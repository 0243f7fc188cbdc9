/** The ranking shared by `/search` and `/list`: score every candidate
    with `fuzzy_score`, keep those above 0, sort them by descending score
    (Python's sort is stable, so equal scores keep their input order) and
    keep the first few. */
module Ranking {
  import opened Sorting
  import opened Fuzzy

  /** A `(score, candidate)` pair. */
  datatype Scored<T> = Scored(score: int, item: T)

  /** The key of `sort(key=score, reverse=True)`: a reversed stable sort
      is the ascending stable sort on the negated score. */
  function NegScore<T>(s: Scored<T>): int
  {
    -s.score
  }

  /** The candidates scoring above 0, in input order, paired with their
      score; `name` gives the text a candidate is scored on. */
  function Positive<T>(items: seq<T>, name: T -> string, query: string): seq<Scored<T>>
  {
    if items == [] then []
    else
      var e := items[|items| - 1];
      var sc := Score(name(e), query);
      Positive(items[..|items| - 1], name, query) + (if sc > 0 then [Scored(sc, e)] else [])
  }

  /** The first `limit` pairs of the stable descending sort. */
  function Ranked<T>(items: seq<T>, name: T -> string, query: string, limit: nat): seq<Scored<T>>
  {
    Take(SortBy(Positive(items, name, query), NegScore), limit)
  }

  function ItemsOf<T>(ss: seq<Scored<T>>): (r: seq<T>)
    ensures |r| == |ss| && forall i :: 0 <= i < |ss| ==> r[i] == ss[i].item
  {
    seq(|ss|, i requires 0 <= i < |ss| => ss[i].item)
  }

  /** The scoring loop: `scored.append((score, c))` for each candidate
      scoring above 0. */
  method ScoreAll<T>(items: seq<T>, name: T -> string, query: string) returns (scored: seq<Scored<T>>)
    ensures scored == Positive(items, name, query)
  {
    scored := [];
    for k := 0 to |items|
      invariant scored == Positive(items[..k], name, query)
    {
      assert items[..k + 1][..k] == items[..k];
      var score := FuzzyScore(name(items[k]), query);
      if score > 0 {
        scored := scored + [Scored(score, items[k])];
      }
    }
    assert items[..|items|] == items;
  }

  /** Every pair kept holds its candidate's score, which is positive, and
      keeps the candidates' order; every candidate scoring above 0 is kept. */
  lemma {:induction false} PositiveMeaning<T>(items: seq<T>, name: T -> string, query: string)
    ensures forall s :: s in Positive(items, name, query) ==> s.score == Score(name(s.item), query) > 0 && s.item in items
    ensures forall i :: 0 <= i < |items| && Score(name(items[i]), query) > 0
                        ==> Scored(Score(name(items[i]), query), items[i]) in Positive(items, name, query)
  {
    if items != [] {
      var init := items[..|items| - 1];
      PositiveMeaning(init, name, query);
      forall i | 0 <= i < |init|
        ensures init[i] == items[i]
      {
      }
    }
  }

  /** At most `limit` pairs, each scoring above 0, best first. */
  lemma RankedMeaning<T>(items: seq<T>, name: T -> string, query: string, limit: nat)
    ensures var r := Ranked(items, name, query, limit);
            && |r| == (if |Positive(items, name, query)| <= limit then |Positive(items, name, query)| else limit)
            && (forall i :: 0 <= i < |r| ==> r[i].score == Score(name(r[i].item), query) > 0 && r[i].item in items)
            && (forall i, j :: 0 <= i < j < |r| ==> r[i].score >= r[j].score)
  {
    var p := Positive(items, name, query);
    var sorted := SortBy(p, NegScore);
    SortByIsSortedPermutation(p, NegScore);
    PositiveMeaning(items, name, query);
    var r := Ranked(items, name, query, limit);
    forall i | 0 <= i < |r|
      ensures r[i].score == Score(name(r[i].item), query) > 0 && r[i].item in items
    {
      assert r[i] == sorted[i] && sorted[i] in multiset(p);
    }
  }

  /** The pairs cut off are the rest of the sorted ones, and none of them
      scores higher than a pair kept. */
  lemma RankedCutoff<T>(items: seq<T>, name: T -> string, query: string, limit: nat)
    ensures var sorted := SortBy(Positive(items, name, query), NegScore);
            var r := Ranked(items, name, query, limit);
            && multiset(r) + multiset(sorted[|r|..]) == multiset(Positive(items, name, query))
            && forall i, j :: 0 <= i < |r| <= j < |sorted| ==> r[i].score >= sorted[j].score
  {
    var p := Positive(items, name, query);
    var sorted := SortBy(p, NegScore);
    SortByIsSortedPermutation(p, NegScore);
    var r := Ranked(items, name, query, limit);
    assert sorted == r + sorted[|r|..];
  }

  /** Pairs with equal scores are kept in input order: those kept are the
      first ones of the input with that score. */
  lemma RankedStable<T>(items: seq<T>, name: T -> string, query: string, limit: nat, k: int)
    ensures WithKey(Ranked(items, name, query, limit), NegScore, k) <= WithKey(Positive(items, name, query), NegScore, k)
  {
    var sorted := SortBy(Positive(items, name, query), NegScore);
    SortByIsSortedPermutation(Positive(items, name, query), NegScore);
    SortByIsStable(Positive(items, name, query), NegScore, k);
    WithKeyPrefix(sorted, |Ranked(items, name, query, limit)|, NegScore, k);
  }
}
