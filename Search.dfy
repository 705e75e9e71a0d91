/** The hybrid retrieval engine: a semantic search over the answer of a vector
    index, a keyword search over BM25 scores, their fusion, and the dispatcher
    that picks one of the three. The two external scorers are inputs: the vector
    index's answer is a list of neighbours, and BM25 gives one raw score per
    corpus document. Position `i` of the corpus is the `i`-th vector of the index
    and the `i`-th BM25 document. */
module Search {
  import opened Models
  import opened Tokens
  import opened Ranking
  import opened Fusion
  import opened Startup

  /** One row of a nearest-neighbour answer: the distance to the query and the
      position of the vector in the index. */
  datatype Neighbour = Neighbour(distance: real, position: nat)

  /** The one way construction can fail. */
  datatype SearchError = WeightsMustSumToOne

  function Abs(x: real): real
  {
    if x < 0.0 then -x else x
  }

  /** The constructor's weight check: the two weights sum to 1 within 0.001. */
  predicate WeightsSumToOne(semanticWeight: real, keywordWeight: real)
  {
    Abs(semanticWeight + keywordWeight - 1.0) <= 0.001
  }

  function Distances(neighbours: seq<Neighbour>): (d: seq<real>)
    ensures |d| == |neighbours|
    ensures forall i :: 0 <= i < |neighbours| ==> d[i] == neighbours[i].distance
  {
    seq(|neighbours|, i requires 0 <= i < |neighbours| => neighbours[i].distance)
  }

  function Positions(neighbours: seq<Neighbour>): (p: seq<nat>)
    ensures |p| == |neighbours|
    ensures forall i :: 0 <= i < |neighbours| ==> p[i] == neighbours[i].position
  {
    seq(|neighbours|, i requires 0 <= i < |neighbours| => neighbours[i].position)
  }

  /** What a flat L2 index answers for an index of `n` vectors: distinct
      positions in range, distances non-negative and ascending, and (as the
      normalisation needs) a positive largest distance. */
  ghost predicate NeighboursValid(neighbours: seq<Neighbour>, n: nat)
  {
    && |neighbours| > 0
    && (forall i :: 0 <= i < |neighbours| ==> neighbours[i].position < n)
    && Distinct(Positions(neighbours))
    && NonNegative(Distances(neighbours))
    && Ascending(Distances(neighbours))
    && Max(Distances(neighbours)) > 0.0
  }

  /** What BM25 gives for a corpus of `n` documents: one non-negative score per
      document, and (as the normalisation needs) a positive largest one. */
  ghost predicate RawScoresValid(rawScores: seq<real>, n: nat)
  {
    |rawScores| == n && n > 0 && NonNegative(rawScores) && Max(rawScores) > 0.0
  }

  /** The BM25 scorer of the keyword index: the raw score of each document of
      the corpus for a tokenised query. */
  type Bm25Scorer = (seq<seq<string>>, seq<string>) -> seq<real>

  /** The raw BM25 scores of a query: the query lower-cased and split, as the
      documents were, then scored against every document. */
  function QueryScores(bm25: Bm25Scorer, corpus: seq<seq<string>>, query: string): seq<real>
  {
    bm25(corpus, Tokenize(query))
  }

  /** The positional join: the `i`-th vector of the index was embedded from the
      text of the `i`-th collection. */
  ghost predicate Aligned(collections: seq<Collection>, index: seq<string>)
  {
    |index| == |collections|
    && forall i :: 0 <= i < |collections| ==> index[i] == EmbeddingText(collections[i].name, collections[i].description)
  }

  /** The BM25 documents: one token list per collection, from its name and description. */
  function Bm25Corpus(collections: seq<Collection>): (corpus: seq<seq<string>>)
    ensures |corpus| == |collections|
    ensures forall i :: 0 <= i < |collections| ==>
      corpus[i] == Tokenize(collections[i].name) + Tokenize(collections[i].description)
  {
    var corpus := seq(|collections|, i requires 0 <= i < |collections| =>
      DocumentTokens(collections[i].name, collections[i].description));
    assert forall i :: 0 <= i < |collections| ==>
      corpus[i] == Tokenize(collections[i].name) + Tokenize(collections[i].description) by {
      forall i | 0 <= i < |collections|
        ensures corpus[i] == Tokenize(collections[i].name) + Tokenize(collections[i].description)
      {
        DocumentTokensSplit(collections[i].name, collections[i].description);
      }
    }
    corpus
  }

  /** A semantic result: semantic and combined score set to the similarity. */
  function SemanticRow(c: Collection, score: real): SearchResult
  {
    SearchResult(c.collectionId, c.name, c.description, Unset.(semanticScore := Some(score), combinedScore := Some(score)))
  }

  /** A keyword result: keyword and combined score set to the normalised score. */
  function KeywordRow(c: Collection, score: real): SearchResult
  {
    SearchResult(c.collectionId, c.name, c.description, Unset.(keywordScore := Some(score), combinedScore := Some(score)))
  }

  /** The semantic results for a neighbour list: one per neighbour, in order. */
  function SemanticRows(collections: seq<Collection>, neighbours: seq<Neighbour>): (rs: seq<SearchResult>)
    requires NeighboursValid(neighbours, |collections|)
    ensures |rs| == |neighbours|
  {
    var scores := Similarities(Distances(neighbours));
    seq(|neighbours|, i requires 0 <= i < |neighbours| => SemanticRow(collections[neighbours[i].position], scores[i]))
  }

  /** The keyword results for the chosen positions, in order. */
  function KeywordRows(collections: seq<Collection>, scores: seq<real>, top: seq<nat>): (rs: seq<SearchResult>)
    requires |scores| == |collections|
    requires forall t :: 0 <= t < |top| ==> top[t] < |scores|
    ensures |rs| == |top|
  {
    seq(|top|, t requires 0 <= t < |top| => KeywordRow(collections[top[t]], scores[top[t]]))
  }

  /** Semantic results come from the neighbours' collections in neighbour order,
      with semantic score equal to the combined score and no keyword score; the
      scores lie in [0, 1], do not increase, and the farthest neighbour scores 0. */
  lemma SemanticRowsProperties(collections: seq<Collection>, neighbours: seq<Neighbour>)
    requires NeighboursValid(neighbours, |collections|)
    ensures var rs := SemanticRows(collections, neighbours);
      && (forall i :: 0 <= i < |rs| ==>
            rs[i].collectionId == collections[neighbours[i].position].collectionId
            && rs[i].scores.semanticScore.Some? && rs[i].scores.keywordScore.None?
            && rs[i].scores.semanticScore == rs[i].scores.combinedScore
            && 0.0 <= Combined(rs[i]) <= 1.0)
      && SortedByCombined(rs)
      && Combined(rs[|rs| - 1]) == 0.0
  {
    SemanticRowsScores(collections, neighbours);
    SimilaritiesProperties(Distances(neighbours));
  }

  /** Each semantic result is scored by its neighbour's similarity. */
  lemma SemanticRowsScores(collections: seq<Collection>, neighbours: seq<Neighbour>)
    requires NeighboursValid(neighbours, |collections|)
    ensures var rs := SemanticRows(collections, neighbours);
      forall i :: 0 <= i < |rs| ==>
        rs[i].collectionId == collections[neighbours[i].position].collectionId
        && rs[i].scores.semanticScore.Some? && rs[i].scores.keywordScore.None?
        && rs[i].scores.semanticScore == rs[i].scores.combinedScore
        && Combined(rs[i]) == Similarities(Distances(neighbours))[i]
  {
  }

  /** Over an ordered corpus the semantic results have distinct ids. */
  lemma SemanticRowsDistinct(collections: seq<Collection>, neighbours: seq<Neighbour>)
    requires NeighboursValid(neighbours, |collections|) && CorpusOrdered(collections)
    ensures DistinctIds(SemanticRows(collections, neighbours))
  {
    var rs := SemanticRows(collections, neighbours);
    forall i, j | 0 <= i < j < |rs| ensures rs[i].collectionId != rs[j].collectionId {
      assert Positions(neighbours)[i] != Positions(neighbours)[j];
      OrderedCorpusIdsDistinct(collections, neighbours[i].position, neighbours[j].position);
    }
  }

  /** Keyword results come from the chosen positions' collections, with keyword
      score equal to the combined score and no semantic score; the scores lie in
      [0, 1], do not increase, the first is exactly 1, and no collection left out
      scores above one kept. */
  lemma KeywordRowsProperties(collections: seq<Collection>, rawScores: seq<real>, top: seq<nat>, k: nat)
    requires RawScoresValid(rawScores, |collections|) && 1 <= k
    requires IsTopK(DivideByMax(rawScores), top, k)
    ensures var scores := DivideByMax(rawScores);
      var rs := KeywordRows(collections, scores, top);
      && |rs| == Min(k, |collections|)
      && (forall t :: 0 <= t < |rs| ==>
            rs[t].collectionId == collections[top[t]].collectionId
            && rs[t].scores.keywordScore.Some? && rs[t].scores.semanticScore.None?
            && rs[t].scores.keywordScore == rs[t].scores.combinedScore
            && 0.0 <= Combined(rs[t]) <= 1.0)
      && SortedByCombined(rs)
      && Combined(rs[0]) == 1.0
      && (forall p, t :: 0 <= p < |collections| && p !in top && 0 <= t < |rs| ==> scores[p] <= Combined(rs[t]))
  {
    var scores := DivideByMax(rawScores);
    KeywordRowsScores(collections, scores, top);
    KeywordRowsBounds(collections, rawScores, top, k);
    KeywordRowsOrder(collections, scores, top, k);
  }

  lemma KeywordRowsBounds(collections: seq<Collection>, rawScores: seq<real>, top: seq<nat>, k: nat)
    requires RawScoresValid(rawScores, |collections|) && 1 <= k
    requires IsTopK(DivideByMax(rawScores), top, k)
    ensures var rs := KeywordRows(collections, DivideByMax(rawScores), top);
      && (forall t :: 0 <= t < |rs| ==> 0.0 <= Combined(rs[t]) <= 1.0)
      && Combined(rs[0]) == 1.0
  {
    var scores := DivideByMax(rawScores);
    DivideByMaxBounds(rawScores);
    KeywordRowsScores(collections, scores, top);
    TopFirstIsMax(scores, top, k);
    var w :| 0 <= w < |rawScores| && rawScores[w] == Max(rawScores);
    assert scores[w] == 1.0;
    assert scores[top[0]] >= scores[w];
  }

  lemma KeywordRowsOrder(collections: seq<Collection>, scores: seq<real>, top: seq<nat>, k: nat)
    requires |scores| == |collections| && IsTopK(scores, top, k)
    ensures var rs := KeywordRows(collections, scores, top);
      && SortedByCombined(rs)
      && (forall p, t :: 0 <= p < |collections| && p !in top && 0 <= t < |rs| ==> scores[p] <= Combined(rs[t]))
  {
    KeywordRowsScores(collections, scores, top);
  }

  /** Each keyword result is scored by the normalised score of its position. */
  lemma KeywordRowsScores(collections: seq<Collection>, scores: seq<real>, top: seq<nat>)
    requires |scores| == |collections|
    requires forall t :: 0 <= t < |top| ==> top[t] < |scores|
    ensures var rs := KeywordRows(collections, scores, top);
      forall t :: 0 <= t < |rs| ==>
        rs[t].collectionId == collections[top[t]].collectionId
        && rs[t].scores.keywordScore.Some? && rs[t].scores.semanticScore.None?
        && rs[t].scores.keywordScore == rs[t].scores.combinedScore
        && Combined(rs[t]) == scores[top[t]]
  {
  }

  /** Over an ordered corpus the keyword results have distinct ids. */
  lemma KeywordRowsDistinct(collections: seq<Collection>, scores: seq<real>, top: seq<nat>)
    requires |scores| == |collections| && CorpusOrdered(collections)
    requires forall t :: 0 <= t < |top| ==> top[t] < |scores|
    requires Distinct(top)
    ensures DistinctIds(KeywordRows(collections, scores, top))
  {
    var rs := KeywordRows(collections, scores, top);
    forall t, u | 0 <= t < u < |rs| ensures rs[t].collectionId != rs[u].collectionId {
      OrderedCorpusIdsDistinct(collections, top[t], top[u]);
    }
  }

  /** A value of the merge dictionary. */
  datatype Entry = Entry(name: string, description: string, semanticScore: real, keywordScore: real)

  /** The merge dictionary after the semantic pass over `semantic[..i]`:
      `order` lists its keys in insertion order. */
  ghost predicate SemanticPass(semantic: seq<SearchResult>, i: nat, order: seq<string>, table: map<string, Entry>)
    requires i <= |semantic|
  {
    && order == Ids(semantic[..i])
    && (forall id :: id in table <==> id in order)
    && (forall j :: 0 <= j < i ==>
          table[semantic[j].collectionId] == Entry(semantic[j].name, semantic[j].description,
            Value(semantic[j].scores.semanticScore), 0.0))
  }

  /** The merge dictionary after the keyword pass over `seen`, a prefix of the
      keyword results: its keys in insertion order are the semantic ids followed
      by the ids only `seen` retrieved; a semantic id holds the semantic result's
      name, description and score with the keyword score `seen` gives it; a
      keyword-only id holds the keyword result's name and description, semantic
      score 0 and its keyword score. */
  ghost predicate KeywordPass(semantic: seq<SearchResult>, seen: seq<SearchResult>,
                              order: seq<string>, table: map<string, Entry>)
  {
    && order == Ids(semantic) + Ids(KeywordOnly(seen, Ids(semantic)))
    && (forall id :: id in table <==> id in order)
    && SemanticEntries(semantic, seen, table)
    && KeywordOnlyEntries(semantic, seen, table)
  }

  ghost predicate SemanticEntries(semantic: seq<SearchResult>, seen: seq<SearchResult>, table: map<string, Entry>)
  {
    forall j :: 0 <= j < |semantic| ==>
      semantic[j].collectionId in table
      && table[semantic[j].collectionId] == Entry(semantic[j].name, semantic[j].description,
           Value(semantic[j].scores.semanticScore), KeywordScoreFor(seen, semantic[j].collectionId))
  }

  ghost predicate KeywordOnlyEntries(semantic: seq<SearchResult>, seen: seq<SearchResult>, table: map<string, Entry>)
  {
    forall o :: o in KeywordOnly(seen, Ids(semantic)) ==>
      o.collectionId in table
      && table[o.collectionId] == Entry(o.name, o.description, 0.0, KeywordScoreFor(seen, o.collectionId))
  }

  lemma SemanticPassStep(semantic: seq<SearchResult>, i: nat, order: seq<string>, table: map<string, Entry>)
    requires i < |semantic| && DistinctIds(semantic) && SemanticPass(semantic, i, order, table)
    ensures semantic[i].collectionId !in table
    ensures var r := semantic[i];
      SemanticPass(semantic, i + 1, order + [r.collectionId],
        table[r.collectionId := Entry(r.name, r.description, Value(r.scores.semanticScore), 0.0)])
  {
    assert semantic[..i + 1] == semantic[..i] + [semantic[i]];
    assert Ids(semantic[..i + 1]) == Ids(semantic[..i]) + [semantic[i].collectionId];
    forall j | 0 <= j < i ensures order[j] != semantic[i].collectionId {
      assert order[j] == semantic[j].collectionId;
    }
  }

  /** After the semantic pass the dictionary is the keyword pass over nothing yet. */
  lemma SemanticPassDone(semantic: seq<SearchResult>, order: seq<string>, table: map<string, Entry>)
    requires SemanticPass(semantic, |semantic|, order, table)
    ensures KeywordPass(semantic, [], order, table)
  {
    assert semantic[..|semantic|] == semantic;
  }

  /** Extending the keyword prefix by one result appends it to the keyword-only
      results unless the semantic side has its id. */
  lemma KeywordOnlyStep(keyword: seq<SearchResult>, i: nat, semanticIds: seq<string>)
    requires i < |keyword|
    ensures KeywordOnly(keyword[..i + 1], semanticIds) ==
      KeywordOnly(keyword[..i], semanticIds) + (if keyword[i].collectionId in semanticIds then [] else [keyword[i]])
  {
    assert DropLast(keyword[..i + 1]) == keyword[..i];
    assert Last(keyword[..i + 1]) == keyword[i];
  }

  /** Extending the keyword prefix by one result sets the keyword score of its id. */
  lemma KeywordScoreStep(keyword: seq<SearchResult>, i: nat)
    requires i < |keyword|
    ensures KeywordScoreFor(keyword[..i + 1], keyword[i].collectionId) == Value(keyword[i].scores.keywordScore)
    ensures forall id :: id != keyword[i].collectionId ==>
      KeywordScoreFor(keyword[..i + 1], id) == KeywordScoreFor(keyword[..i], id)
  {
    assert DropLast(keyword[..i + 1]) == keyword[..i];
    assert Last(keyword[..i + 1]) == keyword[i];
  }

  /** With distinct keyword ids, a keyword result's id is not among the
      keyword-only results before it. */
  lemma KeywordIdNotSeen(keyword: seq<SearchResult>, i: nat, semanticIds: seq<string>)
    requires i < |keyword| && DistinctIds(keyword)
    ensures keyword[i].collectionId !in Ids(KeywordOnly(keyword[..i], semanticIds))
  {
    var only := KeywordOnly(keyword[..i], semanticIds);
    KeywordOnlyFrom(keyword[..i], semanticIds);
    forall u | 0 <= u < |only| ensures only[u].collectionId != keyword[i].collectionId {
      assert only[u] in keyword[..i];
      var m :| 0 <= m < i && keyword[..i][m] == only[u];
      assert keyword[m] == only[u];
    }
  }

  /** The keyword pass meets an id the dictionary already holds: with distinct
      keyword ids that id came from the semantic side, and only its keyword score
      changes. */
  lemma KeywordPassKnown(semantic: seq<SearchResult>, keyword: seq<SearchResult>, i: nat,
                         order: seq<string>, table: map<string, Entry>)
    requires i < |keyword| && DistinctIds(keyword)
    requires KeywordPass(semantic, keyword[..i], order, table)
    requires keyword[i].collectionId in table
    ensures var r := keyword[i];
      KeywordPass(semantic, keyword[..i + 1], order,
        table[r.collectionId := table[r.collectionId].(keywordScore := Value(r.scores.keywordScore))])
  {
    var ids := Ids(semantic);
    KeywordIdNotSeen(keyword, i, ids);
    assert keyword[i].collectionId in ids;
    KeywordOnlyStep(keyword, i, ids);
    KeywordPassKnownSemantic(semantic, keyword, i, table);
    KeywordPassKnownOnly(semantic, keyword, i, table);
  }

  lemma KeywordPassKnownSemantic(semantic: seq<SearchResult>, keyword: seq<SearchResult>, i: nat, table: map<string, Entry>)
    requires i < |keyword| && keyword[i].collectionId in table
    requires SemanticEntries(semantic, keyword[..i], table)
    ensures var r := keyword[i];
      SemanticEntries(semantic, keyword[..i + 1],
        table[r.collectionId := table[r.collectionId].(keywordScore := Value(r.scores.keywordScore))])
  {
    KeywordScoreStep(keyword, i);
  }

  lemma KeywordPassKnownOnly(semantic: seq<SearchResult>, keyword: seq<SearchResult>, i: nat, table: map<string, Entry>)
    requires i < |keyword| && keyword[i].collectionId in Ids(semantic) && keyword[i].collectionId in table
    requires KeywordOnlyEntries(semantic, keyword[..i], table)
    ensures var r := keyword[i];
      KeywordOnlyEntries(semantic, keyword[..i + 1],
        table[r.collectionId := table[r.collectionId].(keywordScore := Value(r.scores.keywordScore))])
  {
    var ids := Ids(semantic);
    KeywordScoreStep(keyword, i);
    KeywordOnlyStep(keyword, i, ids);
    KeywordOnlyFrom(keyword[..i], ids);
  }

  /** The keyword pass meets a new id: it was not retrieved by the semantic side,
      and it is appended with semantic score 0. */
  lemma KeywordPassNew(semantic: seq<SearchResult>, keyword: seq<SearchResult>, i: nat,
                       order: seq<string>, table: map<string, Entry>)
    requires i < |keyword|
    requires KeywordPass(semantic, keyword[..i], order, table)
    requires keyword[i].collectionId !in table
    ensures var r := keyword[i];
      KeywordPass(semantic, keyword[..i + 1], order + [r.collectionId],
        table[r.collectionId := Entry(r.name, r.description, 0.0, Value(r.scores.keywordScore))])
  {
    var r := keyword[i];
    var ids := Ids(semantic);
    var only := KeywordOnly(keyword[..i], ids);
    assert r.collectionId !in ids;
    KeywordOnlyStep(keyword, i, ids);
    assert Ids(only + [r]) == Ids(only) + [r.collectionId];
    KeywordPassNewSemantic(semantic, keyword, i, table);
    KeywordPassNewOnly(semantic, keyword, i, table);
  }

  lemma KeywordPassNewSemantic(semantic: seq<SearchResult>, keyword: seq<SearchResult>, i: nat, table: map<string, Entry>)
    requires i < |keyword| && keyword[i].collectionId !in Ids(semantic)
    requires SemanticEntries(semantic, keyword[..i], table)
    ensures var r := keyword[i];
      SemanticEntries(semantic, keyword[..i + 1],
        table[r.collectionId := Entry(r.name, r.description, 0.0, Value(r.scores.keywordScore))])
  {
    KeywordScoreStep(keyword, i);
    assert forall j :: 0 <= j < |semantic| ==> semantic[j].collectionId == Ids(semantic)[j];
  }

  lemma KeywordPassNewOnly(semantic: seq<SearchResult>, keyword: seq<SearchResult>, i: nat, table: map<string, Entry>)
    requires i < |keyword| && keyword[i].collectionId !in table
    requires KeywordOnlyEntries(semantic, keyword[..i], table)
    ensures var r := keyword[i];
      KeywordOnlyEntries(semantic, keyword[..i + 1],
        table[r.collectionId := Entry(r.name, r.description, 0.0, Value(r.scores.keywordScore))])
  {
    var ids := Ids(semantic);
    KeywordScoreStep(keyword, i);
    KeywordOnlyStep(keyword, i, ids);
  }

  /** Reading the finished dictionary in insertion order gives the merged results. */
  lemma KeywordPassRow(semantic: seq<SearchResult>, keyword: seq<SearchResult>,
                       order: seq<string>, table: map<string, Entry>,
                       semanticWeight: real, keywordWeight: real, t: nat)
    requires KeywordPass(semantic, keyword, order, table) && t < |order|
    ensures order[t] in table
    ensures var e := table[order[t]];
      FusedRow(order[t], e.name, e.description, e.semanticScore, e.keywordScore, semanticWeight, keywordWeight)
      == Merged(semantic, keyword, semanticWeight, keywordWeight)[t]
  {
    var only := KeywordOnly(keyword, Ids(semantic));
    if t >= |semantic| {
      assert only[t - |semantic|] in only;
    }
  }

  /** The two merge loops of hybrid search: every semantic result enters the
      dictionary with keyword score 0; then each keyword result either sets the
      keyword score of an id already present or enters with semantic score 0.
      The dictionary's keys, in insertion order, are the merged ids. */
  method MergeByCollectionId(semantic: seq<SearchResult>, keyword: seq<SearchResult>)
    returns (order: seq<string>, table: map<string, Entry>)
    requires DistinctIds(semantic) && DistinctIds(keyword)
    ensures KeywordPass(semantic, keyword, order, table)
  {
    order := [];
    table := map[];
    for i := 0 to |semantic|
      invariant SemanticPass(semantic, i, order, table)
    {
      SemanticPassStep(semantic, i, order, table);
      var r := semantic[i];
      if r.collectionId !in table {
        order := order + [r.collectionId];
      }
      table := table[r.collectionId := Entry(r.name, r.description, Value(r.scores.semanticScore), 0.0)];
    }
    SemanticPassDone(semantic, order, table);
    for i := 0 to |keyword|
      invariant KeywordPass(semantic, keyword[..i], order, table)
    {
      var r := keyword[i];
      if r.collectionId in table {
        KeywordPassKnown(semantic, keyword, i, order, table);
        table := table[r.collectionId := table[r.collectionId].(keywordScore := Value(r.scores.keywordScore))];
      } else {
        KeywordPassNew(semantic, keyword, i, order, table);
        order := order + [r.collectionId];
        table := table[r.collectionId := Entry(r.name, r.description, 0.0, Value(r.scores.keywordScore))];
      }
    }
    assert keyword[..|keyword|] == keyword;
  }

  /** The scoring loop of hybrid search: the dictionary read in insertion order,
      each entry scored by the weighted sum, gives the merged results. */
  method FuseScores(ghost semantic: seq<SearchResult>, ghost keyword: seq<SearchResult>,
                    order: seq<string>, table: map<string, Entry>,
                    semanticWeight: real, keywordWeight: real)
    returns (fused: seq<SearchResult>)
    requires KeywordPass(semantic, keyword, order, table)
    ensures fused == Merged(semantic, keyword, semanticWeight, keywordWeight)
  {
    ghost var rows := Merged(semantic, keyword, semanticWeight, keywordWeight);
    fused := [];
    for t := 0 to |order|
      invariant |fused| == t
      invariant forall u :: 0 <= u < t ==> fused[u] == rows[u]
    {
      KeywordPassRow(semantic, keyword, order, table, semanticWeight, keywordWeight, t);
      var data := table[order[t]];
      var combined := CombinedScore(data.semanticScore, data.keywordScore, semanticWeight, keywordWeight);
      fused := fused + [SearchResult(order[t], data.name, data.description,
        SearchScore(Some(data.semanticScore), Some(data.keywordScore), Some(combined)))];
    }
    MergedIdsOrder(semantic, keyword, semanticWeight, keywordWeight);
  }

  class HybridSearch {
    var collections: seq<Collection>
    /** The embedded texts, one per vector of the index, in insertion order. */
    var faissIndex: seq<string>
    var semanticWeight: real
    var keywordWeight: real
    var k: int
    var bm25Corpus: seq<seq<string>>

    /** The weights passed the check, and the BM25 documents are the collections' token lists, position by position. */
    ghost predicate Valid()
      reads this
    {
      WeightsSumToOne(semanticWeight, keywordWeight) && bm25Corpus == Bm25Corpus(collections)
    }

    /** Stores its arguments and builds the BM25 documents. */
    constructor (collections: seq<Collection>, faissIndex: seq<string>,
                 semanticWeight: real := 0.5, keywordWeight: real := 0.5, k: int := 5)
      requires WeightsSumToOne(semanticWeight, keywordWeight)
      ensures Valid()
      ensures this.collections == collections && this.faissIndex == faissIndex
      ensures this.semanticWeight == semanticWeight && this.keywordWeight == keywordWeight && this.k == k
    {
      this.collections := collections;
      this.faissIndex := faissIndex;
      this.semanticWeight := semanticWeight;
      this.keywordWeight := keywordWeight;
      this.k := k;
      this.bm25Corpus := Bm25Corpus(collections);
    }

    /** Construction with its check: rejected exactly when the weights do not sum
        to 1 within 0.001; otherwise everything passed in is stored unchanged.
        The weights default to 0.5 each and `k` to 5. */
    static method Create(collections: seq<Collection>, faissIndex: seq<string>,
                         semanticWeight: real := 0.5, keywordWeight: real := 0.5, k: int := 5)
      returns (r: Result<HybridSearch, SearchError>)
      ensures r.Failure? <==> Abs(semanticWeight + keywordWeight - 1.0) > 0.001
      ensures r.Success? ==>
        && fresh(r.value) && r.value.Valid()
        && r.value.collections == collections && r.value.faissIndex == faissIndex
        && r.value.semanticWeight == semanticWeight && r.value.keywordWeight == keywordWeight
        && r.value.k == k
    {
      if Abs(semanticWeight + keywordWeight - 1.0) > 0.001 {
        return Failure(WeightsMustSumToOne);
      }
      var engine := new HybridSearch(collections, faissIndex, semanticWeight, keywordWeight, k);
      return Success(engine);
    }

    /** `semantic_search`: the index answered `count` neighbours (`count` is the
        `k` argument, or the engine's `k` when none is given); each becomes a
        result for the collection at its position, scored by its similarity. */
    method SemanticSearch(neighbours: seq<Neighbour>, kArgument: Option<int>) returns (results: seq<SearchResult>)
      requires Aligned(collections, faissIndex)
      requires NeighboursValid(neighbours, |faissIndex|)
      requires |neighbours| == (if kArgument.Some? then kArgument.value else k)
      ensures results == SemanticRows(collections, neighbours)
    {
      var scores := Similarities(Distances(neighbours));
      ghost var rows := SemanticRows(collections, neighbours);
      results := [];
      for i := 0 to |neighbours|
        invariant |results| == i
        invariant forall t :: 0 <= t < i ==> results[t] == rows[t]
      {
        var collection := collections[neighbours[i].position];
        results := results + [SemanticRow(collection, scores[i])];
      }
    }

    /** `keyword_search`: the query is lower-cased and split, its raw BM25 scores
        are divided by their maximum, and the k best positions, best first, become
        results scored by their normalised score. `top` is the choice of positions
        made. */
    method KeywordSearch(query: string, bm25: Bm25Scorer) returns (results: seq<SearchResult>, ghost top: seq<nat>)
      requires Valid() && 1 <= k
      requires RawScoresValid(QueryScores(bm25, bm25Corpus, query), |bm25Corpus|)
      ensures IsTopK(DivideByMax(QueryScores(bm25, bm25Corpus, query)), top, k)
      ensures results == KeywordRows(collections, DivideByMax(QueryScores(bm25, bm25Corpus, query)), top)
      ensures |results| == Min(k, |collections|)
      ensures forall t :: 0 <= t < |results| ==>
        results[t].scores.semanticScore.None? && results[t].scores.keywordScore == results[t].scores.combinedScore
        && 0.0 <= Combined(results[t]) <= 1.0
      ensures SortedByCombined(results) && Combined(results[0]) == 1.0
    {
      var tokens := Tokenize(query);
      var rawScores := bm25(bm25Corpus, tokens);
      var scores := DivideByMax(rawScores);
      var chosen := TopPositions(scores, k);
      top := chosen;
      results := [];
      for t := 0 to |chosen|
        invariant |results| == t
        invariant forall u :: 0 <= u < t ==> results[u] == KeywordRow(collections[chosen[u]], scores[chosen[u]])
      {
        var collection := collections[chosen[t]];
        results := results + [KeywordRow(collection, scores[chosen[t]])];
      }
      KeywordRowsProperties(collections, rawScores, top, k);
    }

    /** `hybrid_search`: both single-mode searches with the engine's `k`, merged
        by collection id into an insertion-ordered dictionary (a side that did not
        retrieve an id contributes 0), scored by the weighted sum, stably sorted
        by descending combined score and cut to `k`. */
    method HybridSearch(query: string, neighbours: seq<Neighbour>, bm25: Bm25Scorer)
      returns (results: seq<SearchResult>, ghost top: seq<nat>)
      requires Valid() && 1 <= k
      requires Aligned(collections, faissIndex) && CorpusOrdered(collections)
      requires NeighboursValid(neighbours, |faissIndex|) && |neighbours| == k
      requires RawScoresValid(QueryScores(bm25, bm25Corpus, query), |bm25Corpus|)
      ensures IsTopK(DivideByMax(QueryScores(bm25, bm25Corpus, query)), top, k)
      ensures |results| <= k && SortedByCombined(results) && DistinctIds(results)
      ensures var semantic := SemanticRows(collections, neighbours);
        var keyword := KeywordRows(collections, DivideByMax(QueryScores(bm25, bm25Corpus, query)), top);
        && results == HybridRanking(semantic, keyword, semanticWeight, keywordWeight, k)
        && |results| <= k
        && SortedByCombined(results)
        && DistinctIds(results)
        && (forall t :: 0 <= t < |results| ==>
              results[t].collectionId in Ids(semantic) || results[t].collectionId in Ids(keyword))
    {
      var semantic := SemanticSearch(neighbours, None);
      var keyword;
      keyword, top := KeywordSearch(query, bm25);
      ghost var rawScores := QueryScores(bm25, bm25Corpus, query);
      SemanticRowsProperties(collections, neighbours);
      SemanticRowsDistinct(collections, neighbours);
      KeywordRowsProperties(collections, rawScores, top, k);
      KeywordRowsDistinct(collections, DivideByMax(rawScores), top);

      var order, table := MergeByCollectionId(semantic, keyword);
      var fused := FuseScores(semantic, keyword, order, table, semanticWeight, keywordWeight);
      results := Take(SortByCombinedDesc(fused), k);

      HybridRankingSorted(semantic, keyword, semanticWeight, keywordWeight, k);
      HybridRankingDistinct(semantic, keyword, semanticWeight, keywordWeight, k);
      HybridRankingRetrieved(semantic, keyword, semanticWeight, keywordWeight, k);
    }

    /** `search`: semantic search for the semantic method, keyword search for the
        keyword method, hybrid search otherwise; the response carries the method
        asked for. The method defaults to hybrid. */
    method Search(query: string, neighbours: seq<Neighbour>, bm25: Bm25Scorer, searchMethod: SearchMethod := Hybrid)
      returns (response: SearchResponse, ghost top: seq<nat>)
      requires Valid()
      requires searchMethod == Semantic ==>
        Aligned(collections, faissIndex) && NeighboursValid(neighbours, |faissIndex|) && |neighbours| == k
      requires searchMethod == Keyword ==> 1 <= k && RawScoresValid(QueryScores(bm25, bm25Corpus, query), |bm25Corpus|)
      requires searchMethod == Hybrid ==>
        && 1 <= k && Aligned(collections, faissIndex) && CorpusOrdered(collections)
        && NeighboursValid(neighbours, |faissIndex|) && |neighbours| == k
        && RawScoresValid(QueryScores(bm25, bm25Corpus, query), |bm25Corpus|)
      ensures response.searchMethod == searchMethod
      ensures searchMethod == Semantic ==> response.results == SemanticRows(collections, neighbours)
      ensures searchMethod == Keyword ==>
        IsTopK(DivideByMax(QueryScores(bm25, bm25Corpus, query)), top, k)
        && response.results == KeywordRows(collections, DivideByMax(QueryScores(bm25, bm25Corpus, query)), top)
      ensures searchMethod == Hybrid ==>
        IsTopK(DivideByMax(QueryScores(bm25, bm25Corpus, query)), top, k)
        && response.results == HybridRanking(SemanticRows(collections, neighbours),
             KeywordRows(collections, DivideByMax(QueryScores(bm25, bm25Corpus, query)), top), semanticWeight, keywordWeight, k)
    {
      var results;
      if searchMethod == Semantic {
        results := SemanticSearch(neighbours, None);
        top := [];
      } else if searchMethod == Keyword {
        results, top := KeywordSearch(query, bm25);
      } else {
        results, top := HybridSearch(query, neighbours, bm25);
      }
      response := SearchResponse(results, searchMethod);
    }
  }
}
