/** Score scales and top-k selection used by the single-mode searches: the
    maximum of a score vector, the two normalisations (keyword scores divided by
    their maximum, neighbour distances turned into similarities) and the choice of
    the k best positions that `argsort(scores)[-k:][::-1]` makes. */
module Ranking {
  import opened Models

  function Min(a: int, b: int): int
  {
    if a <= b then a else b
  }

  /** `numpy.max` of a non-empty vector. */
  function Max(s: seq<real>): (m: real)
    requires |s| > 0
    ensures forall i :: 0 <= i < |s| ==> s[i] <= m
    ensures exists i :: 0 <= i < |s| && s[i] == m
  {
    if |s| == 1 then s[0]
    else
      var rest := Max(s[1..]);
      assert forall i :: 1 <= i < |s| ==> s[i] == s[1..][i - 1];
      if s[0] >= rest then s[0] else rest
  }

  ghost predicate NonNegative(s: seq<real>)
  {
    forall i :: 0 <= i < |s| ==> 0.0 <= s[i]
  }

  ghost predicate Ascending(s: seq<real>)
  {
    forall i, j :: 0 <= i <= j < |s| ==> s[i] <= s[j]
  }

  ghost predicate NonIncreasing(s: seq<real>)
  {
    forall i, j :: 0 <= i <= j < |s| ==> s[j] <= s[i]
  }

  /** `scores / scores.max()`: every keyword score divided by the largest one. */
  function DivideByMax(raw: seq<real>): (r: seq<real>)
    requires |raw| > 0 && Max(raw) > 0.0
    ensures |r| == |raw|
  {
    var m := Max(raw);
    seq(|raw|, i requires 0 <= i < |raw| => raw[i] / m)
  }

  lemma DivisionMonotone(x: real, y: real, m: real)
    requires m > 0.0
    ensures x <= y <==> x / m <= y / m
    ensures x / m == 1.0 <==> x == m
    ensures x <= m ==> x / m <= 1.0
    ensures 0.0 <= x ==> 0.0 <= x / m
  {
    assert x == (x / m) * m;
    assert y == (y / m) * m;
  }

  /** Normalised keyword scores lie in [0, 1], and a score is exactly 1 where
      the raw score is the maximum. */
  lemma DivideByMaxBounds(raw: seq<real>)
    requires |raw| > 0 && NonNegative(raw) && Max(raw) > 0.0
    ensures forall i :: 0 <= i < |raw| ==> 0.0 <= DivideByMax(raw)[i] <= 1.0
    ensures forall i :: 0 <= i < |raw| ==> (DivideByMax(raw)[i] == 1.0 <==> raw[i] == Max(raw))
  {
    var m := Max(raw);
    forall i | 0 <= i < |raw|
      ensures 0.0 <= DivideByMax(raw)[i] <= 1.0
      ensures DivideByMax(raw)[i] == 1.0 <==> raw[i] == m
    {
      DivisionMonotone(raw[i], raw[i], m);
    }
  }

  /** The division keeps the order of the raw scores. */
  lemma DivideByMaxMonotone(raw: seq<real>)
    requires |raw| > 0 && Max(raw) > 0.0
    ensures forall i, j :: 0 <= i < |raw| && 0 <= j < |raw| ==>
      (raw[i] <= raw[j] <==> DivideByMax(raw)[i] <= DivideByMax(raw)[j])
  {
    var m := Max(raw);
    forall i, j | 0 <= i < |raw| && 0 <= j < |raw|
      ensures raw[i] <= raw[j] <==> DivideByMax(raw)[i] <= DivideByMax(raw)[j]
    {
      DivisionMonotone(raw[i], raw[j], m);
    }
  }

  /** `1 - distances / distances.max()`: a neighbour's distance as a similarity. */
  function Similarities(distances: seq<real>): (r: seq<real>)
    requires |distances| > 0 && Max(distances) > 0.0
    ensures |r| == |distances|
  {
    var m := Max(distances);
    seq(|distances|, i requires 0 <= i < |distances| => 1.0 - distances[i] / m)
  }

  /** For non-negative ascending distances the similarities lie in [0, 1], keep
      the neighbours' order (so they do not increase) and the farthest neighbour,
      the last one, scores 0. */
  lemma SimilaritiesProperties(distances: seq<real>)
    requires |distances| > 0 && NonNegative(distances) && Ascending(distances)
    requires Max(distances) > 0.0
    ensures Max(distances) == distances[|distances| - 1]
    ensures forall i :: 0 <= i < |distances| ==> 0.0 <= Similarities(distances)[i] <= 1.0
    ensures NonIncreasing(Similarities(distances))
    ensures Similarities(distances)[|distances| - 1] == 0.0
  {
    var m := Max(distances);
    var last := |distances| - 1;
    var w :| 0 <= w < |distances| && distances[w] == m;
    assert distances[w] <= distances[last];
    var s := Similarities(distances);
    forall i, j | 0 <= i <= j < |distances|
      ensures 0.0 <= s[i] <= 1.0
      ensures s[j] <= s[i]
    {
      DivisionMonotone(distances[i], distances[j], m);
      DivisionMonotone(distances[i], m, m);
    }
    DivisionMonotone(m, m, m);
  }

  /** `top` is a valid outcome of `argsort(scores)[-k:][::-1]`: min(k, n) distinct
      positions, best first, and no position left out scores above one kept. The
      order among equal scores is left open, because the sort behind it is not
      stable. */
  ghost predicate IsTopK(scores: seq<real>, top: seq<nat>, k: nat)
  {
    && |top| == Min(k, |scores|)
    && (forall t :: 0 <= t < |top| ==> top[t] < |scores|)
    && Distinct(top)
    && (forall t, u :: 0 <= t <= u < |top| ==> scores[top[u]] <= scores[top[t]])
    && (forall p, t :: 0 <= p < |scores| && p !in top && 0 <= t < |top| ==> scores[p] <= scores[top[t]])
  }

  /** If a sequence holds every number below n, it has at least n elements. */
  lemma {:induction false} CoverNeedsLength(s: seq<nat>, n: nat)
    requires forall p :: 0 <= p < n ==> p in s
    ensures n <= |s|
  {
    if n > 0 {
      assert n - 1 in s;
      var j :| 0 <= j < |s| && s[j] == n - 1;
      var rest := s[..j] + s[j + 1..];
      forall p | 0 <= p < n - 1
        ensures p in rest
      {
        assert p in s;
        var i :| 0 <= i < |s| && s[i] == p;
        if i < j {
          assert rest[i] == p;
        } else {
          assert rest[i - 1] == p;
        }
      }
      CoverNeedsLength(rest, n - 1);
    }
  }

  /** The selection behind `argsort(scores)[-k:][::-1]`: k rounds, each taking
      the best position not yet taken (the lowest such position on a tie). */
  method TopPositions(scores: seq<real>, k: nat) returns (top: seq<nat>)
    requires 1 <= k
    ensures IsTopK(scores, top, k)
  {
    var m := Min(k, |scores|);
    top := [];
    while |top| < m
      invariant |top| <= m
      invariant forall t :: 0 <= t < |top| ==> top[t] < |scores|
      invariant Distinct(top)
      invariant forall t, u :: 0 <= t <= u < |top| ==> scores[top[u]] <= scores[top[t]]
      invariant forall p, t :: 0 <= p < |scores| && p !in top && 0 <= t < |top| ==> scores[p] <= scores[top[t]]
      decreases m - |top|
    {
      var best := -1;
      for i := 0 to |scores|
        invariant best == -1 ==> forall p :: 0 <= p < i ==> p in top
        invariant best != -1 ==> 0 <= best < i && best !in top
        invariant best != -1 ==> forall p :: 0 <= p < i && p !in top ==> scores[p] <= scores[best]
      {
        if i !in top && (best == -1 || scores[i] > scores[best]) {
          best := i;
        }
      }
      if best == -1 {
        CoverNeedsLength(top, |scores|);
        assert false;
      }
      top := top + [best];
    }
  }

  /** The first position kept is a maximum of the scores. */
  lemma TopFirstIsMax(scores: seq<real>, top: seq<nat>, k: nat)
    requires |scores| > 0 && 1 <= k && IsTopK(scores, top, k)
    ensures scores[top[0]] == Max(scores)
  {
    var w :| 0 <= w < |scores| && scores[w] == Max(scores);
    if w in top {
      var t :| 0 <= t < |top| && top[t] == w;
      assert scores[top[t]] <= scores[top[0]];
    }
  }
}
