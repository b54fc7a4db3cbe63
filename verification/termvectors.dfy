/**
 Term vectors ("concordances"): the map from each token of a text to the
 number of times it occurs there.
 */
module TermVectors {
  import opened Text
  import opened Sums

  /** A sparse term-frequency vector. */
  type TermVector = map<string, nat>

  /** Counts of stored terms are at least one: zero entries are never kept. */
  predicate WellFormed(v: TermVector) {
    forall w :: w in v ==> v[w] >= 1
  }

  /** The counting loop of `concordance`: tokens are visited left to right,
      a new token enters with count 1 and a seen one is incremented. */
  function CountTokens(tokens: seq<string>): (v: TermVector)
    ensures forall w :: w in v <==> w in tokens
    ensures forall w :: w in v ==> v[w] == multiset(tokens)[w]
    decreases |tokens|
  {
    if |tokens| == 0 then map[]
    else
      var init := tokens[..|tokens| - 1];
      var w := tokens[|tokens| - 1];
      assert tokens == init + [w];
      var v := CountTokens(init);
      if w in v then v[w := v[w] + 1] else v[w := 1]
  }

  /** `concordance(document)`: the term vector of the whitespace tokens of
      `document`, taken literally (no case folding here). */
  function Concordance(document: string): (v: TermVector)
    ensures WellFormed(v)
    ensures forall w :: w in v <==> w in Split(document)
    ensures forall w :: w in v ==> v[w] == multiset(Split(document))[w]
    ensures v == map[] <==> IsBlank(document)
  {
    var tokens := Split(document);
    var v := CountTokens(tokens);
    assert |tokens| > 0 ==> tokens[0] in v;
    v
  }

  /** The counts add up to the number of tokens. */
  lemma {:induction false} CountTokensTotal(tokens: seq<string>)
    ensures Sum(CountTokens(tokens)) == |tokens|
    decreases |tokens|
  {
    if |tokens| > 0 {
      var init := tokens[..|tokens| - 1];
      var w := tokens[|tokens| - 1];
      var v := CountTokens(init);
      CountTokensTotal(init);
      if w in v {
        SumUpdate(v, w, v[w] + 1);
      } else {
        SumInsert(v, w, 1);
      }
    }
  }

  lemma ConcordanceTotal(document: string)
    ensures Sum(Concordance(document)) == |Split(document)|
  {
    CountTokensTotal(Split(document));
  }
}
