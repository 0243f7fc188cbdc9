/** `fuzzy_score(title, query)`: a substring score with a fall-back
    subsequence score, both on lower-cased text. */
module Fuzzy {
  import opened Common
  import opened Text
  import opened Constants

  /** `q` is a subsequence of `t`: its characters occur in `t` at strictly
      increasing positions. */
  ghost predicate IsSubsequence(q: string, t: string)
  {
    exists idx: seq<nat> :: Embedding(idx, q, t)
  }

  ghost predicate Embedding(idx: seq<nat>, q: string, t: string)
  {
    && |idx| == |q|
    && (forall i :: 0 <= i < |idx| ==> idx[i] < |t| && t[idx[i]] == q[i])
    && (forall i, j :: 0 <= i < j < |idx| ==> idx[i] < idx[j])
  }

  /** The cursor walk of the fall-back loop: each character is looked up
      with `t.find(c, ti)` and the cursor moves past it. */
  function Greedy(t: string, q: string, ti: nat): bool
    decreases |q|
  {
    if q == [] then true
    else match FindFrom(t, q[0], ti)
      case None => false
      case Some(p) => Greedy(t, q[1..], p + 1)
  }

  ghost predicate EmbedsFrom(q: string, t: string, ti: nat)
  {
    exists idx: seq<nat> :: Embedding(idx, q, t) && (|idx| > 0 ==> idx[0] >= ti)
  }

  /** A successful greedy walk yields an embedding. */
  lemma {:induction false} GreedyEmbeds(t: string, q: string, ti: nat)
    requires Greedy(t, q, ti)
    ensures EmbedsFrom(q, t, ti)
    decreases |q|
  {
    if q == [] {
      assert Embedding([], q, t);
    } else {
      var p := FindFrom(t, q[0], ti).value;
      GreedyEmbeds(t, q[1..], p + 1);
      var rest: seq<nat> :| Embedding(rest, q[1..], t) && (|rest| > 0 ==> rest[0] >= p + 1);
      var idx := [p] + rest;
      forall i | 0 < i < |idx| ensures idx[i] == rest[i - 1] > p {
        assert |rest| > 0;
        if i > 1 { assert rest[0] < rest[i - 1]; }
      }
      assert Embedding(idx, q, t);
    }
  }

  lemma NoEmbeddingPastMiss(t: string, q: string, ti: nat)
    requires q != [] && FindFrom(t, q[0], ti).None?
    ensures !EmbedsFrom(q, t, ti)
  {
    forall idx: seq<nat> ensures !(Embedding(idx, q, t) && (|idx| > 0 ==> idx[0] >= ti)) {
      if |idx| == |q| && ti <= idx[0] < |t| {
        assert t[idx[0]] != q[0];
      }
    }
  }

  /** Any embedding can be replaced by the greedy one: the first greedy
      position is no later than the embedding's first position. */
  lemma {:induction false} EmbeddingGreedy(t: string, q: string, ti: nat)
    requires EmbedsFrom(q, t, ti)
    ensures Greedy(t, q, ti)
    decreases |q|
  {
    if q != [] {
      if FindFrom(t, q[0], ti).None? {
        NoEmbeddingPastMiss(t, q, ti);
      } else {
        var p := FindFrom(t, q[0], ti).value;
        var idx: seq<nat> :| Embedding(idx, q, t) && (|idx| > 0 ==> idx[0] >= ti);
        assert p <= idx[0];
        var rest := idx[1..];
        forall i | 0 <= i < |rest| ensures rest[i] == idx[i + 1] && rest[i] > p {
          assert idx[0] < idx[i + 1];
        }
        assert Embedding(rest, q[1..], t);
        EmbeddingGreedy(t, q[1..], p + 1);
      }
    }
  }

  lemma GreedyIffEmbedsFrom(t: string, q: string, ti: nat)
    ensures Greedy(t, q, ti) <==> EmbedsFrom(q, t, ti)
  {
    if Greedy(t, q, ti) { GreedyEmbeds(t, q, ti); }
    if EmbedsFrom(q, t, ti) { EmbeddingGreedy(t, q, ti); }
  }

  lemma GreedyIffSubsequence(t: string, q: string)
    ensures Greedy(t, q, 0) <==> IsSubsequence(q, t)
  {
    GreedyIffEmbedsFrom(t, q, 0);
    if IsSubsequence(q, t) {
      var idx: seq<nat> :| Embedding(idx, q, t);
      assert EmbedsFrom(q, t, 0);
    }
  }

  /** The score the source computes, written as a definition. */
  function Score(title: string, query: string): int
  {
    var t, q := Lower(title), Lower(query);
    match FindSub(t, q)
    case Some(i) => EXACT_MATCH_SCORE - i * POSITION_PENALTY
    case None => if Greedy(t, q, 0) then CHAR_MATCH_SCORE * |q| else 0
  }

  /** `fuzzy_score(title, query)` */
  method FuzzyScore(title: string, query: string) returns (score: int)
    ensures score == Score(title, query)
  {
    var t := Lower(title);
    var q := Lower(query);
    var idx := FindSub(t, q);
    if idx.Some? {
      return EXACT_MATCH_SCORE - idx.value * POSITION_PENALTY;
    }
    score := 0;
    var ti := 0;
    for k := 0 to |q|
      invariant score == CHAR_MATCH_SCORE * k
      invariant Greedy(t, q, 0) == Greedy(t, q[k..], ti)
    {
      assert q[k..][1..] == q[k + 1..];
      var pos := FindFrom(t, q[k], ti);
      if pos.None? {
        return 0;
      }
      score := score + CHAR_MATCH_SCORE;
      ti := pos.value + 1;
    }
  }

  /** Substring path: the score is 1000 minus twice the first index of the
      query in the title, so a match at index 500 or later scores at most 0;
      the empty query is a substring at 0 and scores 1000. */
  lemma ScoreSubstring(title: string, query: string)
    requires Contains(Lower(title), Lower(query))
    ensures var i := FindSub(Lower(title), Lower(query)).value;
      && Score(title, query) == 1000 - 2 * i
      && OccursAt(Lower(title), Lower(query), i)
      && (forall j: nat :: j < i ==> !OccursAt(Lower(title), Lower(query), j))
      && (i >= 500 <==> Score(title, query) <= 0)
  {
  }

  lemma ScoreEmptyQuery(title: string)
    ensures Score(title, "") == 1000
  {
    assert Lower(title)[..0] == "";
  }

  /** Fall-back path: ten points per query character when the query is a
      subsequence of the title, 0 otherwise. */
  lemma ScoreSubsequence(title: string, query: string)
    requires !Contains(Lower(title), Lower(query))
    ensures IsSubsequence(Lower(query), Lower(title)) ==> Score(title, query) == 10 * |query|
    ensures !IsSubsequence(Lower(query), Lower(title)) ==> Score(title, query) == 0
  {
    GreedyIffSubsequence(Lower(title), Lower(query));
  }
}
