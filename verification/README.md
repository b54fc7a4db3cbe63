# Vector space search engine — Dafny model

This project models the core of `vector_search_engine/engine.py`, a small
vector-space search engine:

- `concordance` turns a text into a term vector, mapping each whitespace token
  to its number of occurrences.
- `VectorCompare` computes magnitudes, dot products and the cosine similarity
  (`relation`) of term vectors.
- `VectorSearchEngine` stores documents under caller-chosen ids. It indexes the
  concordance of each lower-cased text. `search` scores every document against
  the lower-cased query, keeps the positive scores and sorts them best first.
  It then cuts the list to `max_results` and reports `(score, id, snippet)`
  triples. The engine also counts documents and distinct terms.

The modules follow that structure:

| file | module | contents |
|---|---|---|
| `text.dfy` | `Text` | Python's whitespace class, `str.split()`, `str.strip()`, `str.lower()` |
| `seqs.dfy` | `Seqs` | lists without repetitions: growing and shrinking them, their number of distinct elements, listing a finite set |
| `sums.dfy` | `Sums` | sums over the values of a finite map, independent of visiting order |
| `termvectors.dfy` | `TermVectors` | term vectors and `concordance` |
| `similarity.dfy` | `Similarity` | `magnitude`, the dot product, `relation`, exact cosine scores |
| `ranking.dfy` | `Ranking` | the stable descending sort and the `[:max_results]` slice |
| `engine.dfy` | `Engine` | the engine state, `add_document(s)`, `search`, the statistics |

Modelling choices:

- **Exact scores.** The source computes a floating-point cosine
  `dot / (sqrt(ss1) * sqrt(ss2))`. The model keeps it exact as
  `Score(dot, norm2)`, with `norm2 = ss1 * ss2`. `Score.Sq()` is the exact
  squared cosine `dot² / norm2`, or 0 when a magnitude is zero.
  - The square root is monotone, so ordering by `Sq()` is ordering by cosine
    (`Similarity.RankingMatchesCosine`).
  - `Sq() > 0` holds exactly when `score > 0` in the source, since both need
    `dot > 0` and non-zero magnitudes.
- **Dictionary order.** The engine state records `order`, the order in which
  ids were first added, because a Python dictionary iterates in insertion
  order and a re-added id keeps its place. `search` scores documents in that
  order.
- **Ties.** `list.sort(reverse=True, key=...)` is stable, so hits with equal
  scores stay in dictionary order. `Ranking.SortStable` proves this of the
  sort, and `Engine.RankedStable` carries it to what `Engine.Search` returns.
- **Negative `max_results`.** The hits are cut with the Python slice
  `matches[:max_results]`: a non-negative `n` keeps at most `n` hits, and a
  negative `n` drops `-n` hits from the end (all of them when there are
  fewer).
- **Default `max_results`.** `Engine.Search` takes `maxResults` with the
  default `Engine.DefaultMaxResults`, which is 10 as in `search`.
- **Whitespace.** `str.split()` and `str.strip()` use exactly the characters
  for which Python's `str.isspace()` holds, as listed in `Text.IsSpace`.
- **Ids.** Document ids are a type parameter `Id` with equality.

## Model

| member | source | states |
|---|---|---|
| Text.Split | vector_search_engine/engine.py:17 | every token is a non-empty run of non-whitespace characters; there are no tokens exactly when the text is blank |
| Text.SplitJoin | vector_search_engine/engine.py:17 | splitting the space-joined list of any tokens gives back exactly those tokens (the partner of `Split`) |
| Text.SplitKeepsCharacters | vector_search_engine/engine.py:17 | the tokens, concatenated, are the text with its whitespace removed: splitting drops only whitespace |
| Text.SplitAtSpace | vector_search_engine/engine.py:17 | a whitespace character separates tokens: splitting `a + [c] + b` is splitting `a` followed by splitting `b` |
| Text.Strip | vector_search_engine/engine.py:109 | the stripped query is the piece of the query between its leading and trailing whitespace; it is empty exactly when the query is blank, and a non-empty result neither starts nor ends with whitespace |
| Text.Lower | vector_search_engine/engine.py:95 | lower-casing keeps the length, folds every character on its own and leaves no upper-case letter |
| TermVectors.CountTokens | vector_search_engine/engine.py:16-21 | the counting loop yields a vector whose keys are exactly the tokens, each counted as often as it occurs |
| TermVectors.Concordance | vector_search_engine/engine.py:9-22 | the concordance's keys are exactly the tokens of the text; each count is at least 1 and equals the token's occurrences; it is empty exactly for a blank text |
| TermVectors.ConcordanceTotal | vector_search_engine/engine.py:16-22 | the counts of a concordance add up to the number of tokens |
| Similarity.MagnitudeSquared | vector_search_engine/engine.py:30-41 | the loop over the entries, in any order, computes the sum of squared counts; for a well-formed vector this is zero exactly when the vector is empty |
| Similarity.SumSqZero | vector_search_engine/engine.py:38-41 | the squared magnitude of a well-formed vector is zero exactly when the vector is empty |
| Similarity.DotProduct | vector_search_engine/engine.py:53-57 | the loop over the entries of the first vector, in any order, computes the sum of count products over shared terms |
| Similarity.DotSymmetric | vector_search_engine/engine.py:53-57 | the dot product does not depend on which vector the loop walks |
| Similarity.DotOnlyShared | vector_search_engine/engine.py:55-57 | a term absent from the second vector does not affect the dot product, whether it is added to or removed from the first vector |
| Similarity.DotZero | vector_search_engine/engine.py:53-57 | for well-formed vectors the dot product is zero exactly when they share no term |
| Similarity.DotSquareLe | vector_search_engine/engine.py:53-61 | Cauchy–Schwarz: the squared dot product is at most the product of the squared magnitudes |
| Similarity.Relation | vector_search_engine/engine.py:43-67 | `relation` computes the guarded cosine; it is symmetric and lies in [0, 1]; for well-formed vectors it is positive exactly when they share a term |
| Similarity.CosineSymmetric | vector_search_engine/engine.py:43-67 | the cosine of `a` and `b` is the cosine of `b` and `a` |
| Similarity.CosineEmpty | vector_search_engine/engine.py:63-67 | the cosine with an empty vector, on either side, is 0 |
| Similarity.CosineSelf | vector_search_engine/engine.py:43-67 | a non-empty vector has cosine 1 with itself |
| Similarity.CosinePositive | vector_search_engine/engine.py:53-67 | for well-formed vectors the score is positive exactly when they share a term |
| Similarity.CosineBounded | vector_search_engine/engine.py:43-67 | the squared cosine lies between 0 and 1 |
| Similarity.ScorePositive | vector_search_engine/engine.py:119 | a score's square is positive exactly when its dot product and both magnitudes are non-zero |
| Similarity.RankingMatchesCosine | vector_search_engine/engine.py:124 | for non-negative cosines, comparing the squared scores orders and equates them as the cosines do |
| Ranking.Insert | vector_search_engine/engine.py:124 | inserting into a list sorted best first keeps it sorted and adds exactly the new hit |
| Ranking.Sort | vector_search_engine/engine.py:124 | the sorted hits are best first and a permutation of the hits found |
| Ranking.SortStable | vector_search_engine/engine.py:124 | the sort is stable: for every score, the hits with that score keep their relative order |
| Ranking.SortDistinct | vector_search_engine/engine.py:124 | sorting hits for distinct documents keeps them distinct |
| Ranking.Take | vector_search_engine/engine.py:126 | `s[:n]` is a prefix of `s`; it keeps `n` items (all if there are fewer) for `n >= 0`, and drops `-n` items from the end for `n < 0` |
| Ranking.Top | vector_search_engine/engine.py:124-126 | the returned hits are sorted best first and were all found; no hit left out ranks above a returned one; distinct documents stay distinct; the count follows slice semantics |
| Engine.Terms | vector_search_engine/engine.py:95 | a document's term vector is well formed; its keys are the tokens of the lower-cased text; it is empty exactly when the text is blank |
| Engine.Empty | vector_search_engine/engine.py:81-84 | a new engine holds no documents and no term vectors, and satisfies the engine invariant |
| Engine.AddDocument | vector_search_engine/engine.py:86-95 | the text is stored under the id and its lower-cased concordance is indexed under it; no other id changes; both dictionaries gain exactly that id; a new id goes last in iteration order and a known one keeps its place; the invariant is kept |
| Engine.AddDocumentOverwrites | vector_search_engine/engine.py:92-95 | adding under the same id twice is the same as adding only the second text: last write wins |
| Engine.AddDocuments | vector_search_engine/engine.py:97-103 | adding a batch keeps the invariant; both dictionaries gain exactly the ids of the batch |
| Engine.AddDocumentsAppend | vector_search_engine/engine.py:97-103 | adding two batches one after the other equals adding their concatenation: `add_documents` is a fold of `add_document` |
| Engine.AddDocumentsStores | vector_search_engine/engine.py:97-103 | `add_documents` amounts to assigning each entry's text to `documents` and its term vector to `index`, in batch order |
| Engine.AddDocumentsUnmentioned | vector_search_engine/engine.py:102-103 | an id the batch does not mention keeps its text and term vector, and stays absent if it was absent |
| Engine.AddDocumentsLastWins | vector_search_engine/engine.py:102-103 | for an id the batch mentions, the last entry for it determines the stored text and term vector |
| Engine.Snippet | vector_search_engine/engine.py:120 | a text of at most 150 characters is its own snippet; a longer one gives its first 150 characters followed by `...` |
| Engine.HitsSound | vector_search_engine/engine.py:116-121 | every collected hit is a listed, stored document with a positive score, reported with that score and its snippet |
| Engine.HitsComplete | vector_search_engine/engine.py:116-121 | every listed document with a positive score is collected |
| Engine.HitsDistinct | vector_search_engine/engine.py:116-121 | documents listed once are collected at most once, and there are as many hits as documents with a positive score |
| Engine.ScoreAll | vector_search_engine/engine.py:116-121 | the scoring loop collects exactly the hits, in dictionary order, of the documents whose `relation` to the query is positive |
| Engine.BlankQueryMatchesNothing | vector_search_engine/engine.py:109-113 | a blank query's term vector is empty, so no document scores above zero against it |
| Engine.MatchIffSharedToken | vector_search_engine/engine.py:113-119 | a document scores above zero exactly when its lower-cased text shares a token with the lower-cased query |
| Engine.RankedSound | vector_search_engine/engine.py:116-126 | every result is a stored document reported with its cosine score against the query, which is positive, and with its snippet; no document comes twice |
| Engine.RankedCount | vector_search_engine/engine.py:109-126 | there are min(`max_results`, matching documents) results for `max_results >= 0`, and the slice count otherwise; a blank query has none |
| Engine.RankedTop | vector_search_engine/engine.py:124-126 | the results are best first, and no matching document that was not returned scores above a returned one |
| Engine.RankedStable | vector_search_engine/engine.py:116-126 | the results are a slice of a stable best-first reordering of the hits in dictionary order, so equal scores keep dictionary order |
| Engine.Search | vector_search_engine/engine.py:105-126 | `search` (default `max_results` 10) returns exactly the ranked hits: nothing for a blank query; every result is a stored document with its positive cosine score and snippet; results are distinct and best first; their number follows the slice of the matching count; no matching document left out ranks above a returned one |
| Engine.DocumentCount | vector_search_engine/engine.py:128-129 | the document count is also the number of indexed term vectors and of ids in iteration order |
| Engine.DocumentCountAdd | vector_search_engine/engine.py:128-129 | adding a document under a new id raises the count by one; re-adding under a known id leaves it unchanged |
| Engine.VocabularySize | vector_search_engine/engine.py:131-135 | the loop over the term vectors counts the union of their key sets |
| Engine.VocabularyIsTokens | vector_search_engine/engine.py:131-135 | a term is in the vocabulary exactly when it is a token of some stored document's lower-cased text |

## Left out

- `main` (interactive input/print loop and sample corpus): I/O only.
- Floating-point arithmetic: `math.sqrt` and the division in `relation` are replaced by the exact squared cosine `Score.Sq()`. Rounding is not modelled, and neither is a product of magnitudes that underflows or a positive cosine that rounds to 0.0.
- Similarity.MagnitudeSquared: returns the squared magnitude, not its floating-point square root, because the model keeps magnitudes exact.
- Similarity.Relation: returns the exact `Score` rather than a float; it is compared with other scores only through `Sq()`.
- Type errors: the `isinstance` checks that raise `ValueError`, and a non-string argument failing at `content.lower()` or `query.strip()`. In `add_document` that failure comes after `self.documents[doc_id] = content`, so the partial write leaves `documents` and `index` out of step. The model's `string` parameters make all of these unreachable.
- Unicode case mapping: `Text.Lower` folds only the ASCII letters `A`–`Z`. Python's `str.lower()` also folds other scripts and can change a string's length.
- `VectorCompare.concordance` is the module-level `concordance` called on the same argument, so `TermVectors.Concordance` models both.
- `add_documents` takes a Python dictionary. The model takes its entries as a sequence of (id, text) pairs in the dictionary's iteration order. A real dictionary has no repeated ids; the sequence may repeat them, and then the last entry wins.
- The engine's `vector_compare` field has no state and is not modelled.
- Concurrency and mutation through aliases: the engine is a value, and each operation returns the new state.
