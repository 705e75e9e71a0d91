# ask_sg_data search core in Dafny

This project models the retrieval engine of ask_sg_data. The engine answers questions about the
data.gov.sg catalogue by finding the collections most relevant to a query. `HybridSearch` holds
the catalogue's collections, a vector index with one embedding per collection, and a BM25 index
with one token list per collection. It offers three searches:

- **semantic**: the vector index's k nearest neighbours, with each distance turned into the
  similarity `1 - d / max d`;
- **keyword**: BM25 scores divided by their maximum, then the k best positions;
- **hybrid**: both result lists merged by collection id in an insertion-ordered dictionary. A side
  that did not retrieve an id contributes 0. Each entry is scored by
  `semantic * semantic_weight + keyword * keyword_weight`, stably sorted by that score in
  descending order, and cut to k.

`search` dispatches on the search method. The model also covers the result and score records, the
file-name sanitiser, the text each collection is embedded from, and the catalogue order that lines
up the two indexes.

The modules are:

- `Models`: the records, the search-method enum, Option and Result.
- `Tokens`: lower-casing and whitespace splitting.
- `Ranking`: maximum, the two normalisations, and top-k selection.
- `Fusion`: the merge as a reference definition, the stable sort and the cut.
- `Startup`: the embedding text and the corpus order.
- `Utils`: the file-name sanitiser.
- `Search`: the `HybridSearch` class and its searches.

Scores are `real`. BM25 and the vector index are external libraries, so they enter as parameters:

- the BM25 scorer, a function from the corpus and a tokenised query to one raw score per document;
  the keyword search lower-cases and splits the query and applies the scorer to it;
- the vector index's answer, a list of (distance, position) neighbours.

Position `i` of the corpus is the `i`-th vector of the index and the `i`-th BM25 document. The
model states this join as the `Aligned` predicate. Because the BM25 corpus is built from the
collections, the join with BM25 holds through `Valid`.

## Model

| member | source | states |
|---|---|---|
| Models.ParseMethod | src/ask_sg_data/models.py:6-9 | a string names a search method only if it is that method's value |
| Models.MethodValueRoundTrip | src/ask_sg_data/models.py:6-9 | every method is found again from its value, and the three values are pairwise different |
| Tokens.SplitKeepsNonSpace | src/ask_sg_data/search.py:37 | splitting loses exactly the whitespace: the tokens, joined, are the text's non-whitespace characters in order |
| Tokens.SplitEmptyIff | src/ask_sg_data/search.py:69 | a query yields no token exactly when it is empty or all whitespace |
| Tokens.TokensAreLowerWords | src/ask_sg_data/search.py:37 | every token is non-empty, has no whitespace and no upper-case letter |
| Tokens.DocumentTokensSplit | src/ask_sg_data/search.py:36-37 | a collection's BM25 document is the query-style tokens of its name followed by those of its description |
| Search.Bm25Corpus | src/ask_sg_data/search.py:36-37 | one BM25 document per collection, at the same position, tokenised as a query is |
| Ranking.Max | src/ask_sg_data/search.py:71 | the maximum bounds every score and is one of them |
| Ranking.DivideByMaxBounds | src/ask_sg_data/search.py:71 | for non-negative scores with a positive maximum, normalised scores lie in [0, 1] and equal 1 exactly at the maximum |
| Ranking.DivideByMaxMonotone | src/ask_sg_data/search.py:71 | normalising keeps the order of any two raw scores, in both directions |
| Ranking.SimilaritiesProperties | src/ask_sg_data/search.py:52 | for non-negative ascending distances with a positive maximum, similarities lie in [0, 1], do not increase, and the farthest neighbour scores 0 |
| Ranking.TopPositions | src/ask_sg_data/search.py:73 | returns min(k, n) distinct positions, best first, and no position left out scores above one kept |
| Ranking.TopFirstIsMax | src/ask_sg_data/search.py:71-73 | the first position chosen holds the maximum score |
| Search.SemanticRowsProperties | src/ask_sg_data/search.py:52-65 | semantic results follow neighbour order, come from the neighbours' collections, set semantic = combined score with no keyword score, lie in [0, 1], do not increase, and the last scores 0 |
| Search.SemanticRowsDistinct | src/ask_sg_data/search.py:55-58 | over an ordered corpus, semantic results have distinct collection ids |
| Search.KeywordRowsProperties | src/ask_sg_data/search.py:71-86 | min(k, n) keyword results from the chosen collections, with keyword = combined score and no semantic score; they lie in [0, 1], do not increase, the first scores exactly 1, and no collection left out scores above one kept |
| Search.KeywordRowsDistinct | src/ask_sg_data/search.py:73-79 | over an ordered corpus, keyword results have distinct collection ids |
| Fusion.MergedIds | src/ask_sg_data/search.py:93-112 | the merge holds every id of either side exactly once: semantic ids first in their order, then the keyword-only ids in theirs |
| Fusion.MergedScores | src/ask_sg_data/search.py:95-120 | each merged entry takes each side's score where that side has the id and 0.0 where it does not; name and description come from the semantic result when both sides have the id; combined = semantic * semantic_weight + keyword * keyword_weight |
| Fusion.SortByCombinedDescSorts | src/ask_sg_data/search.py:134 | the sort orders by non-increasing combined score and is a permutation |
| Fusion.SortByCombinedDescStable | src/ask_sg_data/search.py:134 | the sort is stable: for every score, the results with that score keep their order |
| Fusion.HybridRankingSorted | src/ask_sg_data/search.py:134-135 | the hybrid ranking has min(k, number merged) results, in non-increasing combined score, each a merged entry |
| Fusion.HybridRankingDistinct | src/ask_sg_data/search.py:93-135 | the hybrid ranking has distinct collection ids |
| Fusion.HybridRankingRetrieved | src/ask_sg_data/search.py:93-112 | every hybrid result was retrieved by the semantic side, the keyword side or both |
| Fusion.HybridRankingCut | src/ask_sg_data/search.py:134-135 | no merged entry cut off scores above a kept result |
| Fusion.HybridRankingTies | src/ask_sg_data/search.py:95-135 | among equal combined scores the kept results are the first ones in insertion order (semantic results, then keyword-only ones) |
| Search.MergeByCollectionId | src/ask_sg_data/search.py:93-112 | the two dictionary loops leave the keys in merge order, with the entries the merge definition gives |
| Search.FuseScores | src/ask_sg_data/search.py:115-131 | reading the dictionary in insertion order and scoring each entry gives exactly the merged results |
| Search.HybridSearch.constructor | src/ask_sg_data/search.py:16-38 | stores its arguments unchanged and builds one BM25 document per collection |
| Search.HybridSearch.Create | src/ask_sg_data/search.py:16-32 | rejects exactly when abs(semantic_weight + keyword_weight - 1) > 0.001; otherwise stores collections, index, weights and k unchanged; the weights default to 0.5 and k to 5 |
| Search.HybridSearch.SemanticSearch | src/ask_sg_data/search.py:40-66 | returns one result per neighbour, in order, from the collection at its position, scored by its similarity |
| Search.HybridSearch.KeywordSearch | src/ask_sg_data/search.py:68-87 | returns the results for a valid top-k choice of positions over the normalised BM25 scores of the lower-cased, split query, in that order: min(k, n) results with keyword = combined score and no semantic score, in [0, 1], non-increasing, the first exactly 1 |
| Search.HybridSearch.HybridSearch | src/ask_sg_data/search.py:89-135 | returns the hybrid ranking of the two single-mode results: at most k results with distinct ids, sorted by combined score, each retrieved by at least one side |
| Search.HybridSearch.Search | src/ask_sg_data/search.py:137-153 | the semantic method gives the semantic results, keyword the keyword results, and anything else the hybrid results; the method defaults to hybrid, and the response carries the method asked for |
| Startup.GetTextFromCollection | src/ask_sg_data/startup.py:153-160 | fails exactly when the record has no name; a missing description becomes "No description available"; the text is "Name: " + name + " \nDescription: " + description |
| Startup.EmbeddingTextInjective | src/ask_sg_data/startup.py:160 | when names have no line break, the embedding text determines both the name and the description |
| Startup.TextOfCompleteRecord | src/ask_sg_data/startup.py:157 | a record with both fields is embedded from its own name and description, used verbatim |
| Startup.OrderedCorpusIdsDistinct | src/ask_sg_data/startup.py:56 | in a corpus sorted by strictly ascending integer id, different positions carry different ids |
| Utils.MakeSafeFilename | src/ask_sg_data/utils.py:11-15 | the result has the input's length; each of the ten unsafe characters becomes '_' and every other character stays in place; no unsafe character remains |
| Utils.SafeFilenameIsSafe | src/ask_sg_data/utils.py:11-14 | the safe name has no unsafe character and keeps every safe one in place |
| Utils.SafeFilenameIdempotent | src/ask_sg_data/utils.py:11-15 | sanitising twice gives the same result as sanitising once |
| Utils.SafeFilenameFixpoint | src/ask_sg_data/utils.py:12-15 | a name is unchanged exactly when it has no unsafe character; the empty name maps to itself |

## Left out

- Network and file I/O: the catalogue fetch, the metadata downloads, the embedding calls (the
  remote API with its retry loop, and the local sentence-transformer), building and writing the
  vector index, and `main` running at import time. The query text and `use_hf` only feed the
  embedding call, so the semantic search takes the index's neighbours instead. The keyword side
  does use the query: it is lower-cased and split, then scored.
- BM25 scoring (idf, logarithms) is an external library. The keyword search takes the scorer as a
  function parameter. The model requires its scores for the query to be non-negative, one per
  corpus document, with a positive maximum.
- The vector index search is an external library. Its answer is an input: neighbours with
  distinct positions in range and non-negative ascending distances. The `-1` padding it returns
  when k exceeds the number of vectors is not modelled; the source would then index the last
  collection.
- Floating point: scores and weights are `real`, so rounding, NaN and infinity are not modelled.
- A zero maximum (all raw scores or all distances 0) is excluded by precondition. The source
  divides by it and gets NaN.
- `k < 1` is excluded by precondition. The source never checks `k`, and with `k = 0` the keyword
  search would return every document.
- Search.HybridSearch.SemanticSearch: its `k` argument only fixes how many neighbours the index
  returns, so it appears only in the precondition on the neighbour list's length.
- Search.HybridSearch.KeywordSearch: the tie order of `argsort` is left open, because its default
  sort is not stable. The positions chosen are any valid top-k choice, returned as a ghost value.
- Search.HybridSearch.HybridSearch: the model requires distinct collection ids on each side, which
  follows from an ordered corpus. Duplicate ids are not modelled. With them, a repeated semantic id
  keeps its key at its first position and takes the last occurrence's entry; a keyword-only id
  seen twice keeps the name and description of its first occurrence, and only its keyword score is
  overwritten by the second.
- Sorting in place: `results.sort` is modelled as the pure stable insertion sort
  `SortByCombinedDesc`, applied to the list.
- Collections are a typed record in the search engine. The `KeyError` the source would raise for
  a dictionary missing `collectionId`, `name` or `description` is not modelled there.
  `GetTextFromCollection` works on a raw record with string values. Its diagnostic print on a
  missing description is left out.
- `str.lower` is modelled on ASCII letters only. `str.split` uses Python's whitespace set.
- The configuration object (`Config.load`) is left out.
- search.py and models.py each define a `SearchMethod` enum class with the same three members and
  values. They are two distinct classes, and one datatype models both. The model does not capture
  that a member of the models.py class, passed to `search`, equals neither search.py member and so
  falls to the hybrid branch, while the response's method field is typed with the models.py class.
- The corpus order is a stated precondition (`CorpusOrdered`): ids are decimal and strictly
  ascending by integer value. The sort at startup.py line 56 gives ascending order; strictness is
  the assumption that catalogue ids are unique. Only digit strings are modelled as ids. `int()`
  also accepts signs, spaces and underscores.
- The code has no empty-corpus error and no check of `k` at construction. It has no
  zero-division fallback in either normalisation. Ties in the hybrid ranking keep dictionary
  insertion order (semantic results first), not corpus position. The model follows the code in
  each of these.
