/** The pure side of hybrid search: the fused score, the merged list of the two
    result lists (what the insertion-ordered dictionary of the merge holds, read
    in order), the stable descending sort on the combined score and the cut to
    the first k. */
module Fusion {
  import opened Models

  /** `semantic_score * semantic_weight + keyword_score * keyword_weight`. */
  function CombinedScore(semantic: real, keyword: real, semanticWeight: real, keywordWeight: real): real
  {
    semantic * semanticWeight + keyword * keywordWeight
  }

  /** The value of a score component that is set; an unset one reads as 0. */
  function Value(o: Option<real>): real
  {
    match o
    case Some(v) => v
    case None => 0.0
  }

  function Last<T>(s: seq<T>): T
    requires |s| > 0
  {
    s[|s| - 1]
  }

  function DropLast<T>(s: seq<T>): seq<T>
    requires |s| > 0
  {
    s[..|s| - 1]
  }

  /** The keyword score the merge records for `id`: that of the last keyword
      result carrying the id, and 0.0 when the keyword side did not retrieve it. */
  function KeywordScoreFor(keyword: seq<SearchResult>, id: string): real
  {
    if keyword == [] then 0.0
    else if Last(keyword).collectionId == id then Value(Last(keyword).scores.keywordScore)
    else KeywordScoreFor(DropLast(keyword), id)
  }

  /** The keyword results whose id is not among `semanticIds`, in order. */
  function KeywordOnly(keyword: seq<SearchResult>, semanticIds: seq<string>): seq<SearchResult>
  {
    if keyword == [] then []
    else
      var kept := if Last(keyword).collectionId in semanticIds then [] else [Last(keyword)];
      KeywordOnly(DropLast(keyword), semanticIds) + kept
  }

  /** A merged entry as a result: both components set and the combined score. */
  function FusedRow(id: string, name: string, description: string, semantic: real, keyword: real,
                    semanticWeight: real, keywordWeight: real): SearchResult
  {
    SearchResult(id, name, description,
      SearchScore(Some(semantic), Some(keyword), Some(CombinedScore(semantic, keyword, semanticWeight, keywordWeight))))
  }

  /** The merged results before sorting: every semantic result in order, with the
      keyword score of its id, then every keyword-only result in order, with
      semantic score 0. */
  function Merged(semantic: seq<SearchResult>, keyword: seq<SearchResult>,
                  semanticWeight: real, keywordWeight: real): (rows: seq<SearchResult>)
    ensures |rows| == |semantic| + |KeywordOnly(keyword, Ids(semantic))|
  {
    var only := KeywordOnly(keyword, Ids(semantic));
    seq(|semantic|, j requires 0 <= j < |semantic| =>
      FusedRow(semantic[j].collectionId, semantic[j].name, semantic[j].description,
        Value(semantic[j].scores.semanticScore), KeywordScoreFor(keyword, semantic[j].collectionId),
        semanticWeight, keywordWeight))
    + seq(|only|, i requires 0 <= i < |only| =>
      FusedRow(only[i].collectionId, only[i].name, only[i].description,
        0.0, KeywordScoreFor(keyword, only[i].collectionId),
        semanticWeight, keywordWeight))
  }

  ghost predicate DistinctIds(rs: seq<SearchResult>)
  {
    forall i, j :: 0 <= i < j < |rs| ==> rs[i].collectionId != rs[j].collectionId
  }

  lemma {:induction false} KeywordScoreForAbsent(keyword: seq<SearchResult>, id: string)
    requires id !in Ids(keyword)
    ensures KeywordScoreFor(keyword, id) == 0.0
  {
    if keyword != [] {
      assert Ids(DropLast(keyword)) == DropLast(Ids(keyword));
      KeywordScoreForAbsent(DropLast(keyword), id);
    }
  }

  lemma {:induction false} KeywordScoreForPresent(keyword: seq<SearchResult>, i: nat)
    requires i < |keyword| && DistinctIds(keyword)
    ensures KeywordScoreFor(keyword, keyword[i].collectionId) == Value(keyword[i].scores.keywordScore)
  {
    if i < |keyword| - 1 {
      KeywordScoreForPresent(DropLast(keyword), i);
    }
  }

  /** The keyword-only results are the keyword results whose id the semantic side lacks. */
  lemma {:induction false} KeywordOnlyMembers(keyword: seq<SearchResult>, semanticIds: seq<string>)
    ensures forall r :: r in KeywordOnly(keyword, semanticIds) <==> r in keyword && r.collectionId !in semanticIds
  {
    if keyword != [] {
      KeywordOnlyMembers(DropLast(keyword), semanticIds);
      assert keyword == DropLast(keyword) + [Last(keyword)];
    }
  }

  /** Keeping some of a list of results with distinct ids keeps the ids distinct. */
  lemma {:induction false} KeywordOnlyDistinct(keyword: seq<SearchResult>, semanticIds: seq<string>)
    requires DistinctIds(keyword)
    ensures DistinctIds(KeywordOnly(keyword, semanticIds))
  {
    if keyword != [] {
      var init := DropLast(keyword);
      assert DistinctIds(init);
      KeywordOnlyDistinct(init, semanticIds);
      KeywordOnlyMembers(init, semanticIds);
      var only := KeywordOnly(init, semanticIds);
      forall r | r in only ensures r.collectionId != Last(keyword).collectionId {
        var i :| 0 <= i < |init| && init[i] == r;
        assert keyword[i] == r;
      }
    }
  }

  lemma KeywordOnlyFrom(keyword: seq<SearchResult>, semanticIds: seq<string>)
    ensures forall r :: r in KeywordOnly(keyword, semanticIds) <==> r in keyword && r.collectionId !in semanticIds
    ensures DistinctIds(keyword) ==> DistinctIds(KeywordOnly(keyword, semanticIds))
  {
    KeywordOnlyMembers(keyword, semanticIds);
    if DistinctIds(keyword) {
      KeywordOnlyDistinct(keyword, semanticIds);
    }
  }

  lemma MergedIdsOrder(semantic: seq<SearchResult>, keyword: seq<SearchResult>, semanticWeight: real, keywordWeight: real)
    ensures Ids(Merged(semantic, keyword, semanticWeight, keywordWeight)) == Ids(semantic) + Ids(KeywordOnly(keyword, Ids(semantic)))
  {
  }

  lemma MergedIdsDistinct(semantic: seq<SearchResult>, keyword: seq<SearchResult>, semanticWeight: real, keywordWeight: real)
    requires DistinctIds(semantic) && DistinctIds(keyword)
    ensures DistinctIds(Merged(semantic, keyword, semanticWeight, keywordWeight))
  {
    var rows := Merged(semantic, keyword, semanticWeight, keywordWeight);
    var only := KeywordOnly(keyword, Ids(semantic));
    KeywordOnlyFrom(keyword, Ids(semantic));
    MergedIdsOrder(semantic, keyword, semanticWeight, keywordWeight);
    var ids := Ids(rows);
    forall i, j | 0 <= i < j < |rows| ensures ids[i] != ids[j] {
      if j < |semantic| {
        assert ids[i] == semantic[i].collectionId && ids[j] == semantic[j].collectionId;
      } else if i >= |semantic| {
        assert ids[i] == only[i - |semantic|].collectionId && ids[j] == only[j - |semantic|].collectionId;
      } else {
        assert only[j - |semantic|] in only;
        assert ids[j] == only[j - |semantic|].collectionId;
        assert ids[i] == Ids(semantic)[i];
      }
    }
  }

  lemma MergedIdsCover(semantic: seq<SearchResult>, keyword: seq<SearchResult>, semanticWeight: real, keywordWeight: real)
    ensures forall id :: id in Ids(Merged(semantic, keyword, semanticWeight, keywordWeight)) <==>
      id in Ids(semantic) || id in Ids(keyword)
  {
    var only := KeywordOnly(keyword, Ids(semantic));
    KeywordOnlyFrom(keyword, Ids(semantic));
    MergedIdsOrder(semantic, keyword, semanticWeight, keywordWeight);
    forall id ensures id in Ids(only) <==> id in Ids(keyword) && id !in Ids(semantic) {
      if id in Ids(keyword) && id !in Ids(semantic) {
        var i :| 0 <= i < |keyword| && Ids(keyword)[i] == id;
        assert keyword[i] in only;
        var u :| 0 <= u < |only| && only[u] == keyword[i];
        assert Ids(only)[u] == id;
      }
      if id in Ids(only) {
        var u :| 0 <= u < |only| && Ids(only)[u] == id;
        assert only[u] in keyword;
        var i :| 0 <= i < |keyword| && keyword[i] == only[u];
        assert Ids(keyword)[i] == id;
      }
    }
  }

  /** The merge keeps every id of either side exactly once, and the semantic ids
      come first, in their order, followed by the keyword-only ids. */
  lemma MergedIds(semantic: seq<SearchResult>, keyword: seq<SearchResult>, semanticWeight: real, keywordWeight: real)
    requires DistinctIds(semantic) && DistinctIds(keyword)
    ensures var rows := Merged(semantic, keyword, semanticWeight, keywordWeight);
      && DistinctIds(rows)
      && Ids(rows) == Ids(semantic) + Ids(KeywordOnly(keyword, Ids(semantic)))
      && forall id :: id in Ids(rows) <==> id in Ids(semantic) || id in Ids(keyword)
  {
    MergedIdsOrder(semantic, keyword, semanticWeight, keywordWeight);
    MergedIdsDistinct(semantic, keyword, semanticWeight, keywordWeight);
    MergedIdsCover(semantic, keyword, semanticWeight, keywordWeight);
  }

  /** A merged entry whose id a semantic result carries is the entry built from that result. */
  lemma MergedRowOfSemantic(semantic: seq<SearchResult>, keyword: seq<SearchResult>, semanticWeight: real, keywordWeight: real,
                            t: nat, j: nat)
    requires DistinctIds(semantic) && DistinctIds(keyword)
    requires t < |Merged(semantic, keyword, semanticWeight, keywordWeight)| && j < |semantic|
    requires Merged(semantic, keyword, semanticWeight, keywordWeight)[t].collectionId == semantic[j].collectionId
    ensures t == j
  {
    MergedIds(semantic, keyword, semanticWeight, keywordWeight);
    var ids := Ids(Merged(semantic, keyword, semanticWeight, keywordWeight));
    assert ids[j] == semantic[j].collectionId;
    assert ids[t] == ids[j];
  }

  /** A merged entry whose id only the keyword side retrieved is built from that keyword result. */
  lemma MergedRowOfKeyword(semantic: seq<SearchResult>, keyword: seq<SearchResult>, semanticWeight: real, keywordWeight: real,
                           t: nat, i: nat)
    requires DistinctIds(keyword)
    requires t < |Merged(semantic, keyword, semanticWeight, keywordWeight)| && i < |keyword|
    requires Merged(semantic, keyword, semanticWeight, keywordWeight)[t].collectionId == keyword[i].collectionId
    requires keyword[i].collectionId !in Ids(semantic)
    ensures t >= |semantic| && KeywordOnly(keyword, Ids(semantic))[t - |semantic|] == keyword[i]
  {
    var only := KeywordOnly(keyword, Ids(semantic));
    KeywordOnlyFrom(keyword, Ids(semantic));
    if t < |semantic| {
      assert false;
    } else {
      var o := only[t - |semantic|];
      assert o in keyword;
      var i' :| 0 <= i' < |keyword| && keyword[i'] == o;
      assert keyword[i'].collectionId == keyword[i].collectionId;
    }
  }

  /** Each merged entry takes each side's score where that side retrieved the id
      and 0.0 where it did not; name and description come from the semantic
      result when both sides have the id; the combined score is the weighted sum. */
  lemma MergedScores(semantic: seq<SearchResult>, keyword: seq<SearchResult>, semanticWeight: real, keywordWeight: real)
    requires DistinctIds(semantic) && DistinctIds(keyword)
    requires forall j :: 0 <= j < |semantic| ==> semantic[j].scores.semanticScore.Some?
    requires forall i :: 0 <= i < |keyword| ==> keyword[i].scores.keywordScore.Some?
    ensures var rows := Merged(semantic, keyword, semanticWeight, keywordWeight);
      && (forall t, j :: 0 <= t < |rows| && 0 <= j < |semantic| && rows[t].collectionId == semantic[j].collectionId ==>
            rows[t].name == semantic[j].name && rows[t].description == semantic[j].description
            && rows[t].scores.semanticScore == semantic[j].scores.semanticScore)
      && (forall t, i :: 0 <= t < |rows| && 0 <= i < |keyword| && rows[t].collectionId == keyword[i].collectionId ==>
            rows[t].scores.keywordScore == keyword[i].scores.keywordScore
            && (keyword[i].collectionId !in Ids(semantic) ==>
                  rows[t].name == keyword[i].name && rows[t].description == keyword[i].description))
      && (forall t :: 0 <= t < |rows| && rows[t].collectionId !in Ids(semantic) ==> rows[t].scores.semanticScore == Some(0.0))
      && (forall t :: 0 <= t < |rows| && rows[t].collectionId !in Ids(keyword) ==> rows[t].scores.keywordScore == Some(0.0))
      && (forall t :: 0 <= t < |rows| ==>
            rows[t].scores.combinedScore == Some(CombinedScore(Value(rows[t].scores.semanticScore),
              Value(rows[t].scores.keywordScore), semanticWeight, keywordWeight)))
  {
    var rows := Merged(semantic, keyword, semanticWeight, keywordWeight);
    forall t, j | 0 <= t < |rows| && 0 <= j < |semantic| && rows[t].collectionId == semantic[j].collectionId
      ensures rows[t].name == semantic[j].name && rows[t].description == semantic[j].description
      ensures rows[t].scores.semanticScore == semantic[j].scores.semanticScore
    {
      MergedRowOfSemantic(semantic, keyword, semanticWeight, keywordWeight, t, j);
    }
    forall t, i | 0 <= t < |rows| && 0 <= i < |keyword| && rows[t].collectionId == keyword[i].collectionId
      ensures rows[t].scores.keywordScore == keyword[i].scores.keywordScore
      ensures keyword[i].collectionId !in Ids(semantic) ==>
        rows[t].name == keyword[i].name && rows[t].description == keyword[i].description
    {
      KeywordScoreForPresent(keyword, i);
      if keyword[i].collectionId !in Ids(semantic) {
        MergedRowOfKeyword(semantic, keyword, semanticWeight, keywordWeight, t, i);
      }
    }
    forall t | 0 <= t < |rows| && rows[t].collectionId !in Ids(semantic)
      ensures rows[t].scores.semanticScore == Some(0.0)
    {
      if t < |semantic| {
        assert false;
      }
    }
    forall t | 0 <= t < |rows| && rows[t].collectionId !in Ids(keyword)
      ensures rows[t].scores.keywordScore == Some(0.0)
    {
      KeywordScoreForAbsent(keyword, rows[t].collectionId);
    }
  }

  ghost predicate SortedByCombined(rs: seq<SearchResult>)
  {
    forall i, j :: 0 <= i <= j < |rs| ==> Combined(rs[j]) <= Combined(rs[i])
  }

  /** Places `x` after every element whose score is at least its own. */
  function Insert(sorted: seq<SearchResult>, x: SearchResult): (r: seq<SearchResult>)
    ensures |r| == |sorted| + 1
  {
    if sorted == [] then [x]
    else if Combined(x) <= Combined(sorted[0]) then [sorted[0]] + Insert(sorted[1..], x)
    else [x] + sorted
  }

  /** `results.sort(key=combined_score, reverse=True)`: Python's sort is stable,
      so results with equal scores keep the order they had. */
  function SortByCombinedDesc(rows: seq<SearchResult>): (r: seq<SearchResult>)
    ensures |r| == |rows|
  {
    if rows == [] then [] else Insert(SortByCombinedDesc(DropLast(rows)), Last(rows))
  }

  /** The results whose combined score is `v`, in order. */
  function WithScore(rs: seq<SearchResult>, v: real): seq<SearchResult>
  {
    if rs == [] then []
    else WithScore(DropLast(rs), v) + (if Combined(Last(rs)) == v then [Last(rs)] else [])
  }

  lemma {:induction false} WithScoreAppend(a: seq<SearchResult>, b: seq<SearchResult>, v: real)
    ensures WithScore(a + b, v) == WithScore(a, v) + WithScore(b, v)
    decreases |b|
  {
    if b == [] {
      assert a + b == a;
    } else {
      assert DropLast(a + b) == a + DropLast(b);
      assert Last(a + b) == Last(b);
      WithScoreAppend(a, DropLast(b), v);
    }
  }

  lemma {:induction false} WithScoreNone(rs: seq<SearchResult>, v: real)
    requires forall i :: 0 <= i < |rs| ==> Combined(rs[i]) < v
    ensures WithScore(rs, v) == []
  {
    if rs != [] {
      WithScoreNone(DropLast(rs), v);
    }
  }

  lemma {:induction false} InsertPermutes(sorted: seq<SearchResult>, x: SearchResult)
    ensures multiset(Insert(sorted, x)) == multiset(sorted) + multiset{x}
  {
    if sorted != [] && Combined(x) <= Combined(sorted[0]) {
      assert sorted == [sorted[0]] + sorted[1..];
      InsertPermutes(sorted[1..], x);
    }
  }

  lemma {:induction false} InsertSorted(sorted: seq<SearchResult>, x: SearchResult)
    requires SortedByCombined(sorted)
    ensures SortedByCombined(Insert(sorted, x))
  {
    if sorted == [] {
    } else if Combined(x) <= Combined(sorted[0]) {
      var rest := sorted[1..];
      assert forall i :: 0 <= i < |rest| ==> rest[i] == sorted[i + 1];
      InsertSorted(rest, x);
      InsertBounded(rest, x, Combined(sorted[0]));
      var ins := Insert(rest, x);
      var r := [sorted[0]] + ins;
      forall i, j | 0 <= i <= j < |r| ensures Combined(r[j]) <= Combined(r[i]) {
        if i > 0 {
          assert r[i] == ins[i - 1] && r[j] == ins[j - 1];
        } else if j > 0 {
          assert r[j] == ins[j - 1];
        }
      }
    } else {
      var r := [x] + sorted;
      forall i, j | 0 <= i <= j < |r| ensures Combined(r[j]) <= Combined(r[i]) {
        if i > 0 {
          assert r[i] == sorted[i - 1] && r[j] == sorted[j - 1];
        } else if j > 0 {
          assert r[j] == sorted[j - 1];
          assert Combined(sorted[j - 1]) <= Combined(sorted[0]);
        }
      }
    }
  }

  lemma InsertBounded(rest: seq<SearchResult>, x: SearchResult, bound: real)
    requires forall i :: 0 <= i < |rest| ==> Combined(rest[i]) <= bound
    requires Combined(x) <= bound
    ensures forall i :: 0 <= i < |Insert(rest, x)| ==> Combined(Insert(rest, x)[i]) <= bound
  {
    InsertPermutes(rest, x);
    forall i | 0 <= i < |Insert(rest, x)| ensures Combined(Insert(rest, x)[i]) <= bound {
      var e := Insert(rest, x)[i];
      assert e in multiset(Insert(rest, x));
      if e != x {
        assert e in multiset(rest);
      }
    }
  }

  lemma {:induction false} InsertKeepsTies(sorted: seq<SearchResult>, x: SearchResult, v: real)
    requires SortedByCombined(sorted)
    ensures WithScore(Insert(sorted, x), v) == WithScore(sorted, v) + (if Combined(x) == v then [x] else [])
  {
    if sorted == [] {
      assert WithScore([x], v) == WithScore([], v) + (if Combined(x) == v then [x] else []) by {
        assert DropLast([x]) == [];
      }
    } else if Combined(x) <= Combined(sorted[0]) {
      var rest := sorted[1..];
      assert sorted == [sorted[0]] + rest;
      InsertKeepsTies(rest, x, v);
      WithScoreAppend([sorted[0]], Insert(rest, x), v);
      WithScoreAppend([sorted[0]], rest, v);
    } else {
      WithScoreAppend([x], sorted, v);
      assert WithScore([x], v) == (if Combined(x) == v then [x] else []) by {
        assert DropLast([x]) == [];
      }
      if Combined(x) == v {
        WithScoreNone(sorted, v);
      }
    }
  }

  lemma {:induction false} SortByCombinedDescSorted(rows: seq<SearchResult>)
    ensures SortedByCombined(SortByCombinedDesc(rows))
  {
    if rows != [] {
      SortByCombinedDescSorted(DropLast(rows));
      InsertSorted(SortByCombinedDesc(DropLast(rows)), Last(rows));
    }
  }

  lemma {:induction false} SortByCombinedDescPermutes(rows: seq<SearchResult>)
    ensures multiset(SortByCombinedDesc(rows)) == multiset(rows)
  {
    if rows != [] {
      var init := DropLast(rows);
      SortByCombinedDescPermutes(init);
      InsertPermutes(SortByCombinedDesc(init), Last(rows));
      assert rows == init + [Last(rows)];
      assert multiset(rows) == multiset(init) + multiset{Last(rows)};
    }
  }

  /** The sort orders by non-increasing combined score and only permutes. */
  lemma SortByCombinedDescSorts(rows: seq<SearchResult>)
    ensures SortedByCombined(SortByCombinedDesc(rows))
    ensures multiset(SortByCombinedDesc(rows)) == multiset(rows)
  {
    SortByCombinedDescSorted(rows);
    SortByCombinedDescPermutes(rows);
  }

  /** The sort is stable: for every score, the results with that score come out
      in the order they went in. */
  lemma {:induction false} SortByCombinedDescStable(rows: seq<SearchResult>, v: real)
    ensures WithScore(SortByCombinedDesc(rows), v) == WithScore(rows, v)
  {
    if rows != [] {
      SortByCombinedDescSorts(DropLast(rows));
      SortByCombinedDescStable(DropLast(rows), v);
      InsertKeepsTies(SortByCombinedDesc(DropLast(rows)), Last(rows), v);
    }
  }

  /** With distinct ids, no element occurs twice. */
  lemma {:induction false} OccursAtMostOnce(b: seq<SearchResult>, e: SearchResult)
    requires DistinctIds(b)
    ensures multiset(b)[e] <= 1
  {
    if b != [] {
      assert b == [b[0]] + b[1..];
      OccursAtMostOnce(b[1..], e);
      if b[0] == e {
        assert e !in b[1..] by {
          forall t | 0 <= t < |b[1..]| ensures b[1..][t] != e {
            assert b[1..][t] == b[t + 1];
          }
        }
      }
    }
  }

  /** An element at two positions occurs at least twice. */
  lemma TwoPositions(a: seq<SearchResult>, i: nat, j: nat)
    requires i < j < |a|
    ensures a[i] == a[j] ==> multiset(a)[a[i]] >= 2
  {
    assert a == a[..j] + [a[j]] + a[j + 1..];
    assert a[i] == a[..j][i];
  }

  /** Two elements of a list with distinct ids that share an id are the same element. */
  lemma SameIdSameElement(b: seq<SearchResult>, x: SearchResult, y: SearchResult)
    requires DistinctIds(b) && x in b && y in b
    ensures x.collectionId == y.collectionId ==> x == y
  {
  }

  lemma MultisetKeepsDistinctIds(a: seq<SearchResult>, b: seq<SearchResult>)
    requires multiset(a) == multiset(b) && DistinctIds(b)
    ensures DistinctIds(a)
  {
    forall i, j | 0 <= i < j < |a| ensures a[i].collectionId != a[j].collectionId {
      assert a[i] in multiset(b) && a[j] in multiset(b);
      SameIdSameElement(b, a[i], a[j]);
      TwoPositions(a, i, j);
      OccursAtMostOnce(b, a[i]);
    }
  }

  /** `results[:k]`. */
  function Take(rs: seq<SearchResult>, k: nat): (r: seq<SearchResult>)
    ensures |r| <= k && |r| <= |rs|
  {
    if |rs| <= k then rs else rs[..k]
  }

  /** What hybrid search returns, given the two single-mode result lists. */
  function HybridRanking(semantic: seq<SearchResult>, keyword: seq<SearchResult>,
                         semanticWeight: real, keywordWeight: real, k: nat): seq<SearchResult>
  {
    Take(SortByCombinedDesc(Merged(semantic, keyword, semanticWeight, keywordWeight)), k)
  }

  /** The hybrid ranking is a prefix of the sorted merge. */
  lemma HybridRankingPrefix(semantic: seq<SearchResult>, keyword: seq<SearchResult>,
                            semanticWeight: real, keywordWeight: real, k: nat)
    ensures var sorted := SortByCombinedDesc(Merged(semantic, keyword, semanticWeight, keywordWeight));
      var ranked := HybridRanking(semantic, keyword, semanticWeight, keywordWeight, k);
      && |ranked| == (if |sorted| <= k then |sorted| else k)
      && sorted == ranked + sorted[|ranked|..]
  {
  }

  /** At most k results, in non-increasing combined score, each a merged entry. */
  lemma HybridRankingSorted(semantic: seq<SearchResult>, keyword: seq<SearchResult>,
                            semanticWeight: real, keywordWeight: real, k: nat)
    ensures var rows := Merged(semantic, keyword, semanticWeight, keywordWeight);
      var ranked := HybridRanking(semantic, keyword, semanticWeight, keywordWeight, k);
      && |ranked| == (if |rows| <= k then |rows| else k)
      && SortedByCombined(ranked)
      && (forall t :: 0 <= t < |ranked| ==> ranked[t] in rows)
  {
    var rows := Merged(semantic, keyword, semanticWeight, keywordWeight);
    var sorted := SortByCombinedDesc(rows);
    var ranked := HybridRanking(semantic, keyword, semanticWeight, keywordWeight, k);
    HybridRankingPrefix(semantic, keyword, semanticWeight, keywordWeight, k);
    SortByCombinedDescSorts(rows);
    forall t | 0 <= t < |ranked| ensures ranked[t] in rows {
      assert ranked[t] == sorted[t];
      assert sorted[t] in multiset(rows);
    }
    forall i, j | 0 <= i <= j < |ranked| ensures Combined(ranked[j]) <= Combined(ranked[i]) {
      assert ranked[i] == sorted[i] && ranked[j] == sorted[j];
    }
  }

  /** A cut of a list with distinct ids has distinct ids. */
  lemma TakeKeepsDistinctIds(rs: seq<SearchResult>, k: nat)
    requires DistinctIds(rs)
    ensures DistinctIds(Take(rs, k))
  {
    var r := Take(rs, k);
    forall i, j | 0 <= i < j < |r| ensures r[i].collectionId != r[j].collectionId {
      assert r[i] == rs[i] && r[j] == rs[j];
    }
  }

  /** The results have distinct ids. */
  lemma HybridRankingDistinct(semantic: seq<SearchResult>, keyword: seq<SearchResult>,
                              semanticWeight: real, keywordWeight: real, k: nat)
    requires DistinctIds(semantic) && DistinctIds(keyword)
    ensures DistinctIds(HybridRanking(semantic, keyword, semanticWeight, keywordWeight, k))
  {
    var rows := Merged(semantic, keyword, semanticWeight, keywordWeight);
    var sorted := SortByCombinedDesc(rows);
    MergedIdsDistinct(semantic, keyword, semanticWeight, keywordWeight);
    SortByCombinedDescSorts(rows);
    MultisetKeepsDistinctIds(sorted, rows);
    TakeKeepsDistinctIds(sorted, k);
  }

  /** Every result was retrieved by at least one side. */
  lemma HybridRankingRetrieved(semantic: seq<SearchResult>, keyword: seq<SearchResult>,
                               semanticWeight: real, keywordWeight: real, k: nat)
    requires DistinctIds(semantic) && DistinctIds(keyword)
    ensures var ranked := HybridRanking(semantic, keyword, semanticWeight, keywordWeight, k);
      forall t :: 0 <= t < |ranked| ==> ranked[t].collectionId in Ids(semantic) || ranked[t].collectionId in Ids(keyword)
  {
    var rows := Merged(semantic, keyword, semanticWeight, keywordWeight);
    var ranked := HybridRanking(semantic, keyword, semanticWeight, keywordWeight, k);
    MergedIdsCover(semantic, keyword, semanticWeight, keywordWeight);
    HybridRankingSorted(semantic, keyword, semanticWeight, keywordWeight, k);
    forall t | 0 <= t < |ranked|
      ensures ranked[t].collectionId in Ids(semantic) || ranked[t].collectionId in Ids(keyword)
    {
      var u :| 0 <= u < |rows| && rows[u] == ranked[t];
      assert Ids(rows)[u] == ranked[t].collectionId;
    }
  }

  /** No merged entry left out of the cut scores above one kept. */
  lemma HybridRankingCut(semantic: seq<SearchResult>, keyword: seq<SearchResult>,
                         semanticWeight: real, keywordWeight: real, k: nat)
    ensures var rows := Merged(semantic, keyword, semanticWeight, keywordWeight);
      var ranked := HybridRanking(semantic, keyword, semanticWeight, keywordWeight, k);
      forall r, t :: r in rows && r !in ranked && 0 <= t < |ranked| ==> Combined(r) <= Combined(ranked[t])
  {
    var rows := Merged(semantic, keyword, semanticWeight, keywordWeight);
    var sorted := SortByCombinedDesc(rows);
    var ranked := HybridRanking(semantic, keyword, semanticWeight, keywordWeight, k);
    HybridRankingPrefix(semantic, keyword, semanticWeight, keywordWeight, k);
    SortByCombinedDescSorts(rows);
    forall r, t | r in rows && r !in ranked && 0 <= t < |ranked|
      ensures Combined(r) <= Combined(ranked[t])
    {
      assert r in multiset(sorted);
      var q :| 0 <= q < |sorted| && sorted[q] == r;
      assert ranked[t] == sorted[t];
    }
  }

  /** Among equal combined scores the results keep the merge order (semantic
      results first, then keyword-only ones): for every score, the kept results
      with that score are a prefix of the merged entries with that score. */
  lemma HybridRankingTies(semantic: seq<SearchResult>, keyword: seq<SearchResult>,
                          semanticWeight: real, keywordWeight: real, k: nat, v: real)
    ensures var rows := Merged(semantic, keyword, semanticWeight, keywordWeight);
      var ranked := HybridRanking(semantic, keyword, semanticWeight, keywordWeight, k);
      WithScore(rows, v) == WithScore(ranked, v) + WithScore(SortByCombinedDesc(rows)[|ranked|..], v)
  {
    var rows := Merged(semantic, keyword, semanticWeight, keywordWeight);
    var sorted := SortByCombinedDesc(rows);
    var ranked := HybridRanking(semantic, keyword, semanticWeight, keywordWeight, k);
    HybridRankingPrefix(semantic, keyword, semanticWeight, keywordWeight, k);
    SortByCombinedDescStable(rows, v);
    WithScoreAppend(ranked, sorted[|ranked|..], v);
  }
}
