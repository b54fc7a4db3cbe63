/**
 `VectorSearchEngine`: a document store that keeps, next to each document,
 the term vector of its text, and a ranked search over them. Documents are
 stored under caller-chosen ids; each document's term vector is the
 concordance of its lower-cased text. A query is lower-cased and turned
 into a term vector the same way, every stored document is scored against it
 by cosine similarity, and the documents with a positive score are returned
 best first.
 */
module Engine {
  import opened Text
  import opened TermVectors
  import opened Similarity
  import opened Ranking
  import opened Seqs

  /** Texts longer than this are cut for the result snippet. */
  const SnippetLength := 150

  /** Appended to a cut snippet. */
  const Ellipsis := "..."

  /** The default `max_results` of `search`. */
  const DefaultMaxResults := 10

  /** The engine's state. `documents` and `index` are Python dictionaries
      keyed by document id; both iterate in `order`, the order in which ids
      were first added (re-adding an id keeps its place). */
  datatype VectorSearchEngine<Id(==, !new)> = VectorSearchEngine(
    order: seq<Id>,
    documents: map<Id, string>,
    index: map<Id, TermVector>)

  /** The term vector of a document or query: the concordance of its
      lower-cased text. */
  function Terms(text: string): (v: TermVector)
    ensures WellFormed(v)
    ensures forall w :: w in v <==> w in Split(Lower(text))
    ensures v == map[] <==> IsBlank(text)
  {
    LowerIdempotent(text);
    Concordance(Lower(text))
  }

  /** What every engine built by the operations below satisfies: the two
      dictionaries have the same keys, listed once each by `order`, and each
      stored term vector is the one of the stored text. */
  ghost predicate Valid<Id(!new)>(e: VectorSearchEngine<Id>) {
    && Distinct(e.order)
    && (forall id :: id in e.order <==> id in e.documents)
    && e.index.Keys == e.documents.Keys
    && (forall id :: id in e.documents ==> e.index[id] == Terms(e.documents[id]))
  }

  /** `__init__`: no documents. */
  function Empty<Id(==, !new)>(): (e: VectorSearchEngine<Id>)
    ensures Valid(e)
    ensures e.documents == map[] && e.index == map[]
  {
    VectorSearchEngine([], map[], map[])
  }

  /** `add_document(doc_id, content)`: stores the text and its term vector
      under `id`, replacing what was stored there before. */
  function AddDocument<Id(==, !new)>(e: VectorSearchEngine<Id>, id: Id, content: string): (e': VectorSearchEngine<Id>)
    ensures id in e'.documents && e'.documents[id] == content
    ensures id in e'.index && e'.index[id] == Terms(content)
    ensures e'.documents.Keys == e.documents.Keys + {id}
    ensures e'.index.Keys == e.index.Keys + {id}
    ensures forall x :: x != id && x in e.documents ==> e'.documents[x] == e.documents[x]
    ensures forall x :: x != id && x in e.index ==> e'.index[x] == e.index[x]
    ensures Valid(e) ==> Valid(e')
    ensures Valid(e) && id in e.documents ==> e'.order == e.order
    ensures Valid(e) && id !in e.documents ==> e'.order == e.order + [id]
  {
    OrderGrows(e, id);
    var order := if id in e.documents then e.order else e.order + [id];
    VectorSearchEngine(order, e.documents[id := content], e.index[id := Terms(content)])
  }

  /** A new id appended to the order of a valid engine is listed once. */
  lemma OrderGrows<Id(!new)>(e: VectorSearchEngine<Id>, id: Id)
    ensures Valid(e) && id !in e.documents ==> Distinct(e.order + [id])
  {
    if Valid(e) && id !in e.documents {
      DistinctSnoc(e.order, id);
    }
  }

  /** The ids a batch of entries mentions. */
  function Ids<Id(==, !new)>(entries: seq<(Id, string)>): set<Id> {
    set i | 0 <= i < |entries| :: entries[i].0
  }

  /** `add_documents(documents_dict)`: `add_document` for each entry, in the
      dictionary's order. */
  function AddDocuments<Id(==, !new)>(e: VectorSearchEngine<Id>, entries: seq<(Id, string)>): (e': VectorSearchEngine<Id>)
    ensures Valid(e) ==> Valid(e')
    ensures e'.documents.Keys == e.documents.Keys + Ids(entries)
    ensures e'.index.Keys == e.index.Keys + Ids(entries)
    decreases |entries|
  {
    if |entries| == 0 then e
    else
      IdsCons(entries);
      AddDocuments(AddDocument(e, entries[0].0, entries[0].1), entries[1..])
  }

  lemma IdsCons<Id(!new)>(entries: seq<(Id, string)>)
    requires |entries| > 0
    ensures Ids(entries) == {entries[0].0} + Ids(entries[1..])
  {
    forall x | x in Ids(entries) ensures x == entries[0].0 || x in Ids(entries[1..]) {
      var i :| 0 <= i < |entries| && entries[i].0 == x;
      if i > 0 {
        assert entries[1..][i - 1].0 == x;
      }
    }
    forall x | x in Ids(entries[1..]) ensures x in Ids(entries) {
      var i :| 0 <= i < |entries[1..]| && entries[1..][i].0 == x;
      assert entries[i + 1].0 == x;
    }
  }

  /** `add_documents` is a fold: adding two batches one after the other is
      adding their concatenation. */
  lemma {:induction false} AddDocumentsAppend<Id(!new)>(e: VectorSearchEngine<Id>, a: seq<(Id, string)>, b: seq<(Id, string)>)
    ensures AddDocuments(e, a + b) == AddDocuments(AddDocuments(e, a), b)
    decreases |a|
  {
    if |a| == 0 {
      assert a + b == b;
    } else {
      assert (a + b)[0] == a[0];
      assert (a + b)[1..] == a[1..] + b;
      AddDocumentsAppend(AddDocument(e, a[0].0, a[0].1), a[1..], b);
    }
  }

  /** A batch of dictionary assignments `m[k] = f(a)`, one per pair `(k, a)`,
      made one after the other. */
  ghost function Store<K, A, V>(m: map<K, V>, kvs: seq<(K, A)>, f: A -> V): map<K, V>
    decreases |kvs|
  {
    if |kvs| == 0 then m else Store(m[kvs[0].0 := f(kvs[0].1)], kvs[1..], f)
  }

  /** `add_documents` assigns the texts to `documents` and their term vectors
      to `index`, entry by entry. */
  lemma {:induction false} AddDocumentsStores<Id(!new)>(e: VectorSearchEngine<Id>, entries: seq<(Id, string)>)
    ensures AddDocuments(e, entries).documents == Store(e.documents, entries, (t: string) => t)
    ensures AddDocuments(e, entries).index == Store(e.index, entries, Terms)
    decreases |entries|
  {
    if |entries| > 0 {
      AddDocumentsStores(AddDocument(e, entries[0].0, entries[0].1), entries[1..]);
    }
  }

  /** A key no assignment of the batch mentions keeps what it had. */
  lemma {:induction false} StoreUnmentioned<K, A, V>(m: map<K, V>, kvs: seq<(K, A)>, f: A -> V, x: K)
    requires forall j :: 0 <= j < |kvs| ==> kvs[j].0 != x
    ensures x in Store(m, kvs, f) <==> x in m
    ensures x in m ==> Store(m, kvs, f)[x] == m[x]
    decreases |kvs|
  {
    if |kvs| > 0 {
      StoreUnmentioned(m[kvs[0].0 := f(kvs[0].1)], kvs[1..], f, x);
    }
  }

  /** The last assignment to a key wins. */
  lemma {:induction false} StoreLastWins<K, A, V>(m: map<K, V>, kvs: seq<(K, A)>, f: A -> V, i: nat)
    requires i < |kvs|
    requires forall j :: i < j < |kvs| ==> kvs[j].0 != kvs[i].0
    ensures kvs[i].0 in Store(m, kvs, f) && Store(m, kvs, f)[kvs[i].0] == f(kvs[i].1)
    decreases |kvs|
  {
    var m1 := m[kvs[0].0 := f(kvs[0].1)];
    if i == 0 {
      StoreUnmentioned(m1, kvs[1..], f, kvs[0].0);
    } else {
      StoreLastWins(m1, kvs[1..], f, i - 1);
    }
  }

  /** Ids the batch does not mention keep what they had. */
  lemma AddDocumentsUnmentioned<Id(!new)>(e: VectorSearchEngine<Id>, entries: seq<(Id, string)>, x: Id)
    requires forall j :: 0 <= j < |entries| ==> entries[j].0 != x
    ensures x in AddDocuments(e, entries).documents <==> x in e.documents
    ensures x in e.documents ==> AddDocuments(e, entries).documents[x] == e.documents[x]
    ensures x in e.index ==> x in AddDocuments(e, entries).index && AddDocuments(e, entries).index[x] == e.index[x]
  {
    AddDocumentsStores(e, entries);
    StoreUnmentioned(e.documents, entries, (t: string) => t, x);
    StoreUnmentioned(e.index, entries, Terms, x);
  }

  /** For an id the batch mentions, the last entry for it wins. */
  lemma AddDocumentsLastWins<Id(!new)>(e: VectorSearchEngine<Id>, entries: seq<(Id, string)>, i: nat)
    requires i < |entries|
    requires forall j :: i < j < |entries| ==> entries[j].0 != entries[i].0
    ensures AddDocuments(e, entries).documents[entries[i].0] == entries[i].1
    ensures AddDocuments(e, entries).index[entries[i].0] == Terms(entries[i].1)
  {
    AddDocumentsStores(e, entries);
    StoreLastWins(e.documents, entries, (t: string) => t, i);
    StoreLastWins(e.index, entries, Terms, i);
  }

  /** Re-adding a document with new text is the same as adding only the new
      text: nothing of the first text survives. */
  lemma AddDocumentOverwrites<Id(!new)>(e: VectorSearchEngine<Id>, id: Id, c1: string, c2: string)
    ensures AddDocument(AddDocument(e, id, c1), id, c2) == AddDocument(e, id, c2)
  {
    UpdateTwice(e.documents, id, c1, c2);
    UpdateTwice(e.index, id, Terms(c1), Terms(c2));
  }

  lemma UpdateTwice<K, V>(m: map<K, V>, k: K, a: V, b: V)
    ensures m[k := a][k := b] == m[k := b]
  {
  }

  /** The result snippet: the stored text itself up to `SnippetLength`
      characters, otherwise its first `SnippetLength` characters followed by
      `Ellipsis`. */
  function Snippet(text: string): (s: string)
    ensures |text| <= SnippetLength ==> s == text
    ensures |text| > SnippetLength ==>
      |s| == SnippetLength + |Ellipsis| && s[..SnippetLength] == text[..SnippetLength] && s[SnippetLength..] == Ellipsis
  {
    if |text| > SnippetLength then text[..SnippetLength] + Ellipsis else text
  }

  /** The score of every stored document against the query vector `qv`, as
      `relation(query_concordance, self.index[doc_id])` computes it. */
  ghost function Scores<Id(!new)>(e: VectorSearchEngine<Id>, qv: TermVector): map<Id, Score> {
    map id | id in e.index :: Cosine(qv, e.index[id])
  }

  /** Every id of `ids` is a stored document with a score in `sc`. */
  ghost predicate Scored<Id(!new)>(e: VectorSearchEngine<Id>, sc: map<Id, Score>, ids: seq<Id>) {
    forall id :: id in ids ==> id in sc && id in e.documents
  }

  /** The hits the scoring loop of `search` collects from the documents
      `ids`, in that order, given their scores `sc`: each document with a
      positive score, with that score and its snippet. */
  ghost function Hits<Id(!new)>(e: VectorSearchEngine<Id>, sc: map<Id, Score>, ids: seq<Id>): seq<Match<Id>>
    decreases |ids|
  {
    if |ids| == 0 then []
    else
      var id := ids[|ids| - 1];
      var hit := id in sc && id in e.documents && sc[id].Positive();
      Hits(e, sc, ids[..|ids| - 1]) + (if hit then [Match(sc[id], id, Snippet(e.documents[id]))] else [])
  }

  /** The listed documents with a positive score. */
  ghost function Positives<Id(!new)>(sc: map<Id, Score>, ids: seq<Id>): set<Id> {
    set id | id in ids && id in sc && sc[id].Positive()
  }

  /** The stored documents with a positive score. */
  ghost function Matching<Id(!new)>(e: VectorSearchEngine<Id>, sc: map<Id, Score>): set<Id> {
    set id | id in e.documents && id in sc && sc[id].Positive()
  }

  /** Every hit is a listed document with a positive score, reported with
      that score and its snippet. */
  lemma {:induction false} HitsSound<Id(!new)>(e: VectorSearchEngine<Id>, sc: map<Id, Score>, ids: seq<Id>)
    requires Scored(e, sc, ids)
    ensures forall m :: m in Hits(e, sc, ids) ==>
      && m.id in ids && m.id in e.documents && m.id in sc
      && m.score == sc[m.id] && m.score.Positive()
      && m.snippet == Snippet(e.documents[m.id])
    decreases |ids|
  {
    if |ids| > 0 {
      HitsSound(e, sc, ids[..|ids| - 1]);
    }
  }

  /** Every listed document with a positive score is a hit. */
  lemma {:induction false} HitsComplete<Id(!new)>(e: VectorSearchEngine<Id>, sc: map<Id, Score>, ids: seq<Id>, id: Id)
    requires Scored(e, sc, ids)
    requires id in ids && sc[id].Positive()
    ensures Match(sc[id], id, Snippet(e.documents[id])) in Hits(e, sc, ids)
    decreases |ids|
  {
    var init := ids[..|ids| - 1];
    if id != ids[|ids| - 1] {
      assert ids == init + [ids[|ids| - 1]];
      HitsComplete(e, sc, init, id);
    }
  }

  /** Documents listed once are hit at most once, and there are as many hits
      as documents with a positive score. */
  lemma {:induction false} HitsDistinct<Id(!new)>(e: VectorSearchEngine<Id>, sc: map<Id, Score>, ids: seq<Id>)
    requires Scored(e, sc, ids) && Distinct(ids)
    ensures DistinctIds(Hits(e, sc, ids))
    ensures |Hits(e, sc, ids)| == |Positives(sc, ids)|
    decreases |ids|
  {
    if |ids| > 0 {
      var init, id := ids[..|ids| - 1], ids[|ids| - 1];
      assert ids == init + [id];
      assert id !in init by {
        forall i | 0 <= i < |init| ensures init[i] != id {
          assert init[i] == ids[i];
        }
      }
      HitsDistinct(e, sc, init);
      HitsSound(e, sc, init);
      var h := Hits(e, sc, init);
      if sc[id].Positive() {
        assert Positives(sc, ids) == Positives(sc, init) + {id};
        forall j | 0 <= j < |h| ensures h[j].id != id {
          assert h[j] in h;
        }
        DistinctSnocIds(h, Match(sc[id], id, Snippet(e.documents[id])));
      } else {
        assert Positives(sc, ids) == Positives(sc, init);
      }
    }
  }

  lemma DistinctSnocIds<Id>(s: seq<Match<Id>>, m: Match<Id>)
    requires DistinctIds(s)
    requires forall j :: 0 <= j < |s| ==> s[j].id != m.id
    ensures DistinctIds(s + [m])
  {
  }

  /** No result is for document `id`. */
  predicate Unreturned<Id(==)>(r: seq<Match<Id>>, id: Id) {
    forall i :: 0 <= i < |r| ==> r[i].id != id
  }

  /** A document that is unreturned has no hit in the results. */
  lemma UnreturnedHit<Id>(r: seq<Match<Id>>, m: Match<Id>)
    requires Unreturned(r, m.id)
    ensures m !in r
  {
    forall j | 0 <= j < |r| ensures r[j] != m {
      assert r[j].id != m.id;
    }
  }

  /** What `search` returns, gathered from the hit list over all stored
      documents: every result is a hit, and there are as many hits as
      matching documents. */
  lemma RankedHitsSound<Id(!new)>(e: VectorSearchEngine<Id>, sc: map<Id, Score>, n: int)
    requires Valid(e) && e.documents.Keys <= sc.Keys
    ensures forall m :: m in Top(Hits(e, sc, e.order), n) ==>
      && m.id in e.documents && m.id in sc
      && m.score == sc[m.id] && m.score.Positive()
      && m.snippet == Snippet(e.documents[m.id])
    ensures DistinctIds(Top(Hits(e, sc, e.order), n))
    ensures |Hits(e, sc, e.order)| == |Matching(e, sc)|
  {
    HitsSound(e, sc, e.order);
    HitsDistinct(e, sc, e.order);
    assert Positives(sc, e.order) == Matching(e, sc);
  }

  /** ... and no matching document left out ranks above a returned one. */
  lemma RankedHitsTop<Id(!new)>(e: VectorSearchEngine<Id>, sc: map<Id, Score>, n: int)
    requires Valid(e) && e.documents.Keys <= sc.Keys
    ensures forall id, i :: id in Matching(e, sc) && Unreturned(Top(Hits(e, sc, e.order), n), id) && 0 <= i < |Top(Hits(e, sc, e.order), n)| ==>
      Key(Top(Hits(e, sc, e.order), n)[i]) >= sc[id].Sq()
  {
    var h := Hits(e, sc, e.order);
    var r := Top(h, n);
    forall id, i | id in Matching(e, sc) && Unreturned(r, id) && 0 <= i < |r|
      ensures Key(r[i]) >= sc[id].Sq()
    {
      var m := Match(sc[id], id, Snippet(e.documents[id]));
      HitsComplete(e, sc, e.order, id);
      UnreturnedHit(r, m);
      TopLeavesOutLower(h, n, m, i);
    }
  }

  /** A blank query matches nothing: its term vector is empty. */
  lemma BlankQueryMatchesNothing<Id(!new)>(e: VectorSearchEngine<Id>, query: string)
    requires Valid(e) && IsBlank(query)
    ensures Matching(e, Scores(e, Terms(query))) == {}
  {
    var sc := Scores(e, Terms(query));
    forall id | id in e.documents && id in sc ensures !sc[id].Positive() {
      CosineEmpty(e.index[id]);
    }
  }

  /** A document scores above zero exactly when its lower-cased text shares a
      token with the lower-cased query. */
  lemma MatchIffSharedToken<Id(!new)>(e: VectorSearchEngine<Id>, query: string, id: Id)
    requires Valid(e) && id in e.documents
    ensures id in Matching(e, Scores(e, Terms(query))) <==>
      exists w :: w in Split(Lower(query)) && w in Split(Lower(e.documents[id]))
  {
    var qv, dv := Terms(query), e.index[id];
    var sc := Scores(e, qv);
    CosinePositive(qv, dv);
    assert id in Matching(e, sc) <==> Cosine(qv, dv).Positive();
    if exists w :: w in qv && w in dv {
      var w :| w in qv && w in dv;
      assert w in Split(Lower(query)) && w in Split(Lower(e.documents[id]));
    }
    if exists w :: w in Split(Lower(query)) && w in Split(Lower(e.documents[id])) {
      var w :| w in Split(Lower(query)) && w in Split(Lower(e.documents[id]));
      assert w in qv && w in dv;
    }
  }

  /** The scoring loop of `search`: `relation(query_concordance, ...)` for
      each stored document in index order, keeping those with `score > 0`. */
  method ScoreAll<Id(==, !new)>(e: VectorSearchEngine<Id>, qv: TermVector) returns (matches: seq<Match<Id>>)
    requires forall id :: id in e.order ==> id in e.documents && id in e.index
    ensures matches == Hits(e, Scores(e, qv), e.order)
  {
    ghost var sc := Scores(e, qv);
    matches := [];
    var i := 0;
    while i < |e.order|
      invariant 0 <= i <= |e.order|
      invariant matches == Hits(e, sc, e.order[..i])
    {
      var id := e.order[i];
      var score := Relation(qv, e.index[id]);
      ScorePositive(score);
      HitsSnoc(e, sc, e.order[..i], id);
      PrefixSnoc(e.order, i);
      if score.Sq() > 0.0 {
        matches := matches + [Match(score, id, Snippet(e.documents[id]))];
      }
      i := i + 1;
    }
    assert e.order[..i] == e.order;
  }

  lemma PrefixSnoc<T>(xs: seq<T>, i: nat)
    requires i < |xs|
    ensures xs[..i + 1] == xs[..i] + [xs[i]]
  {
  }

  /** One more document scored: its hit, if any, goes at the end. */
  lemma HitsSnoc<Id(!new)>(e: VectorSearchEngine<Id>, sc: map<Id, Score>, ids: seq<Id>, id: Id)
    requires Scored(e, sc, ids) && id in sc && id in e.documents
    ensures Scored(e, sc, ids + [id])
    ensures Hits(e, sc, ids + [id])
         == Hits(e, sc, ids) + (if sc[id].Positive() then [Match(sc[id], id, Snippet(e.documents[id]))] else [])
  {
    assert (ids + [id])[..|ids|] == ids;
  }

  /** The results `search` assembles for `query`: the hits over all stored
      documents, best first, cut to `n`. */
  ghost function Ranked<Id(!new)>(e: VectorSearchEngine<Id>, query: string, n: int): seq<Match<Id>> {
    Top(Hits(e, Scores(e, Terms(query)), e.order), n)
  }

  /** Every result is a stored document with a positive score, reported with
      that score and its snippet, and none comes twice. */
  lemma RankedSound<Id(!new)>(e: VectorSearchEngine<Id>, query: string, n: int)
    requires Valid(e)
    ensures forall m :: m in Ranked(e, query, n) ==>
      && m.id in e.documents && m.id in e.index
      && m.score == Scores(e, Terms(query))[m.id] && m.score.Positive()
      && m.snippet == Snippet(e.documents[m.id])
    ensures DistinctIds(Ranked(e, query, n))
  {
    RankedHitsSound(e, Scores(e, Terms(query)), n);
  }

  /** The results are as many as the matching documents, cut to `n` by slice
      semantics; a blank query has none. */
  lemma RankedCount<Id(!new)>(e: VectorSearchEngine<Id>, query: string, n: int)
    requires Valid(e)
    ensures n >= 0 ==> |Ranked(e, query, n)| == Min(n, |Matching(e, Scores(e, Terms(query)))|)
    ensures n < 0 ==> |Ranked(e, query, n)| == Max(0, |Matching(e, Scores(e, Terms(query)))| + n)
    ensures IsBlank(query) ==> Ranked(e, query, n) == []
  {
    RankedHitsSound(e, Scores(e, Terms(query)), n);
    if IsBlank(query) {
      BlankQueryMatchesNothing(e, query);
    }
  }

  /** The results are best first, and no matching document left out ranks
      above one returned. */
  lemma RankedTop<Id(!new)>(e: VectorSearchEngine<Id>, query: string, n: int)
    requires Valid(e)
    ensures SortedDesc(Ranked(e, query, n))
    ensures forall id, i :: id in Matching(e, Scores(e, Terms(query))) && Unreturned(Ranked(e, query, n), id) && 0 <= i < |Ranked(e, query, n)| ==>
      Key(Ranked(e, query, n)[i]) >= Scores(e, Terms(query))[id].Sq()
  {
    RankedHitsTop(e, Scores(e, Terms(query)), n);
  }

  /** Ties keep dictionary order: the results are the first `n` (by slice
      semantics) of a stable reordering of the hits as the scoring loop
      collected them, in the order of `e.order`. */
  lemma RankedStable<Id(!new)>(e: VectorSearchEngine<Id>, query: string, n: int)
    ensures Ranked(e, query, n) == Take(Sort(Hits(e, Scores(e, Terms(query)), e.order)), n)
    ensures StableReorder(Hits(e, Scores(e, Terms(query)), e.order), Sort(Hits(e, Scores(e, Terms(query)), e.order)))
  {
    SortStable(Hits(e, Scores(e, Terms(query)), e.order));
  }

  /** `search(query, max_results)`: every stored document with a positive
      score against the query, best first, cut to `max_results` by slice
      semantics. A blank query is answered with no results straight away. */
  method Search<Id(==, !new)>(e: VectorSearchEngine<Id>, query: string, maxResults: int := DefaultMaxResults) returns (r: seq<Match<Id>>)
    requires Valid(e)
    ensures r == Ranked(e, query, maxResults)
    ensures IsBlank(query) ==> r == []
    ensures forall m :: m in r ==>
      && m.id in e.documents && m.id in e.index
      && m.score == Scores(e, Terms(query))[m.id] && m.score.Positive()
      && m.snippet == Snippet(e.documents[m.id])
    ensures SortedDesc(r)
    ensures DistinctIds(r)
    ensures maxResults >= 0 ==> |r| == Min(maxResults, |Matching(e, Scores(e, Terms(query)))|)
    ensures maxResults < 0 ==> |r| == Max(0, |Matching(e, Scores(e, Terms(query)))| + maxResults)
    ensures forall id, i :: id in Matching(e, Scores(e, Terms(query))) && Unreturned(r, id) && 0 <= i < |r| ==>
      Key(r[i]) >= Scores(e, Terms(query))[id].Sq()
  {
    RankedSound(e, query, maxResults);
    RankedCount(e, query, maxResults);
    RankedTop(e, query, maxResults);
    if |Strip(query)| == 0 {
      return [];
    }
    var matches := ScoreAll(e, Terms(query));
    r := Top(matches, maxResults);
  }

  /** `get_document_count()`: the number of stored documents. */
  function DocumentCount<Id(==, !new)>(e: VectorSearchEngine<Id>): (n: nat)
    ensures Valid(e) ==> n == |e.order| && n == |e.index|
  {
    OrderCountsDocuments(e);
    |e.documents|
  }

  lemma OrderCountsDocuments<Id(!new)>(e: VectorSearchEngine<Id>)
    ensures Valid(e) ==> |e.documents| == |e.order| && |e.index| == |e.order|
  {
    if Valid(e) {
      assert e.documents.Keys == set id | id in e.order;
      DistinctCard(e.order);
    }
  }

  /** Adding a document counts it once: a new id adds one, a re-added id
      none. */
  lemma DocumentCountAdd<Id(!new)>(e: VectorSearchEngine<Id>, id: Id, content: string)
    requires Valid(e)
    ensures DocumentCount(AddDocument(e, id, content)) == DocumentCount(e) + (if id in e.documents then 0 else 1)
  {
  }

  /** Every token of every stored document. */
  ghost function Vocabulary<Id(!new)>(e: VectorSearchEngine<Id>): set<string> {
    set id, w | id in e.index && w in e.index[id] :: w
  }

  /** The terms of the documents `ids`, as the loop of
      `get_vocabulary_size` accumulates them. */
  ghost function TermsOf<Id(!new)>(e: VectorSearchEngine<Id>, ids: seq<Id>): set<string>
    decreases |ids|
  {
    if |ids| == 0 then {}
    else
      var id := ids[|ids| - 1];
      TermsOf(e, ids[..|ids| - 1]) + (if id in e.index then e.index[id].Keys else {})
  }

  /** One more document's terms join the set. */
  lemma TermsOfSnoc<Id(!new)>(e: VectorSearchEngine<Id>, ids: seq<Id>, id: Id)
    ensures TermsOf(e, ids + [id]) == TermsOf(e, ids) + (if id in e.index then e.index[id].Keys else {})
  {
    assert (ids + [id])[..|ids|] == ids;
  }

  /** A term is accumulated exactly when one of the documents has it. */
  lemma {:induction false} TermsOfMembers<Id(!new)>(e: VectorSearchEngine<Id>, ids: seq<Id>, w: string)
    ensures w in TermsOf(e, ids) <==> exists j :: 0 <= j < |ids| && ids[j] in e.index && w in e.index[ids[j]]
    decreases |ids|
  {
    if |ids| > 0 {
      var init := ids[..|ids| - 1];
      TermsOfMembers(e, init, w);
      assert forall j :: 0 <= j < |init| ==> init[j] == ids[j];
    }
  }

  /** `get_vocabulary_size()`: the number of distinct terms over all stored
      documents. */
  method VocabularySize<Id(==, !new)>(e: VectorSearchEngine<Id>) returns (n: nat)
    requires Valid(e)
    ensures n == |Vocabulary(e)|
  {
    var vocab: set<string> := {};
    var i := 0;
    while i < |e.order|
      invariant 0 <= i <= |e.order|
      invariant vocab == TermsOf(e, e.order[..i])
    {
      var id := e.order[i];
      TermsOfSnoc(e, e.order[..i], id);
      PrefixSnoc(e.order, i);
      vocab := vocab + e.index[id].Keys;
      i := i + 1;
    }
    assert e.order[..i] == e.order;
    VocabularyIsTermsOfAll(e);
    n := |vocab|;
  }

  lemma VocabularyIsTermsOfAll<Id(!new)>(e: VectorSearchEngine<Id>)
    requires Valid(e)
    ensures TermsOf(e, e.order) == Vocabulary(e)
  {
    forall w ensures w in TermsOf(e, e.order) <==> w in Vocabulary(e) {
      TermsOfMembers(e, e.order, w);
      if w in Vocabulary(e) {
        var id :| id in e.index && w in e.index[id];
        var j :| 0 <= j < |e.order| && e.order[j] == id;
      }
    }
  }

  /** The vocabulary is the set of lower-cased tokens of the stored texts. */
  lemma VocabularyIsTokens<Id(!new)>(e: VectorSearchEngine<Id>, w: string)
    requires Valid(e)
    ensures w in Vocabulary(e) <==> exists id :: id in e.documents && w in Split(Lower(e.documents[id]))
  {
    if w in Vocabulary(e) {
      var id :| id in e.index && w in e.index[id];
      assert w in Split(Lower(e.documents[id]));
    }
  }

  function Min(a: int, b: int): int {
    if a <= b then a else b
  }

  function Max(a: int, b: int): int {
    if a >= b then a else b
  }
}
