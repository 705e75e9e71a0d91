/** Record and enum types shared by the search engine: the corpus documents
    (collections), the per-result score triple, a ranked result and the response
    that pairs the result list with the search method that produced it. */
module Models {

  datatype Option<+T> = None | Some(value: T)

  datatype Result<+T, +E> = Success(value: T) | Failure(error: E)

  /** One collection of the corpus, as the search engine reads it. */
  datatype Collection = Collection(collectionId: string, name: string, description: string)

  /** The three search modes. */
  datatype SearchMethod = Semantic | Keyword | Hybrid

  /** Every component is unset (None) until a search fills it in. */
  datatype SearchScore = SearchScore(
    semanticScore: Option<real>,
    keywordScore: Option<real>,
    combinedScore: Option<real>)

  datatype SearchResult = SearchResult(
    collectionId: string,
    name: string,
    description: string,
    scores: SearchScore)

  datatype SearchResponse = SearchResponse(results: seq<SearchResult>, searchMethod: SearchMethod)

  /** A score record with no component set. */
  const Unset := SearchScore(None, None, None)

  /** The string value of each enum member, as it is serialised. */
  function MethodValue(m: SearchMethod): string
  {
    match m
    case Semantic => "semantic"
    case Keyword => "keyword"
    case Hybrid => "hybrid"
  }

  /** Looking an enum member up by its value; any other string names no member. */
  function ParseMethod(s: string): (r: Option<SearchMethod>)
    ensures r.Some? ==> MethodValue(r.value) == s
  {
    if s == "semantic" then Some(Semantic)
    else if s == "keyword" then Some(Keyword)
    else if s == "hybrid" then Some(Hybrid)
    else None
  }

  /** Every member is found again from its value, and the three values are distinct. */
  lemma MethodValueRoundTrip(m: SearchMethod, n: SearchMethod)
    ensures ParseMethod(MethodValue(m)) == Some(m)
    ensures MethodValue(m) == MethodValue(n) ==> m == n
  {
  }

  /** The score a result is ranked by; an unset combined score ranks as 0. */
  function Combined(r: SearchResult): real
  {
    match r.scores.combinedScore
    case Some(v) => v
    case None => 0.0
  }

  /** The collection ids of a result list, in order. */
  function Ids(rs: seq<SearchResult>): (ids: seq<string>)
    ensures |ids| == |rs|
    ensures forall i :: 0 <= i < |rs| ==> ids[i] == rs[i].collectionId
  {
    seq(|rs|, i requires 0 <= i < |rs| => rs[i].collectionId)
  }

  ghost predicate Distinct<T>(s: seq<T>)
  {
    forall i, j :: 0 <= i < j < |s| ==> s[i] != s[j]
  }
}
