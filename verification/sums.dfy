/**
 Sums over the values of a finite map from terms to integers. The engine's
 loops add up one summand per dictionary entry in whatever order the
 dictionary yields them; `Sum` fixes no order, and `SumRemove` shows the
 result does not depend on which entry is taken first.
 */
module Sums {
  import opened Seqs

  /** The sum of all values of `m`. */
  ghost function Sum(m: map<string, int>): int
    decreases |m|
  {
    if |m| == 0 then 0
    else
      var k :| k in m;
      assert |m - {k}| < |m| by { CardRemove(m, k); }
      m[k] + Sum(m - {k})
  }

  predicate NonNegative(m: map<string, int>) {
    forall k :: k in m ==> m[k] >= 0
  }

  lemma CardRemove(m: map<string, int>, k: string)
    requires k in m
    ensures |m - {k}| == |m| - 1
  {
    assert (m - {k}).Keys == m.Keys - {k};
  }

  /** The entry `Sum` takes out first. */
  lemma SumPick(m: map<string, int>) returns (j: string)
    requires |m| > 0
    ensures j in m && Sum(m) == m[j] + Sum(m - {j})
  {
    j :| j in m && Sum(m) == m[j] + Sum(m - {j});
  }

  /** Any entry may be taken out first: the sum is independent of the order. */
  lemma {:induction false} SumRemove(m: map<string, int>, k: string)
    requires k in m
    ensures Sum(m) == m[k] + Sum(m - {k})
    decreases |m|
  {
    var j := SumPick(m);
    if j != k {
      var mj, mk := m - {j}, m - {k};
      assert k in mj && mj[k] == m[k];
      assert j in mk && mk[j] == m[j];
      CardRemove(m, j);
      CardRemove(m, k);
      SumRemove(mj, k);
      SumRemove(mk, j);
      assert mj - {k} == mk - {j};
    }
  }

  /** Adding a new entry adds its value. */
  lemma SumInsert(m: map<string, int>, k: string, v: int)
    requires k !in m
    ensures Sum(m[k := v]) == v + Sum(m)
  {
    SumRemove(m[k := v], k);
    assert m[k := v] - {k} == m;
  }

  /** Overwriting an entry replaces its value in the sum. */
  lemma SumUpdate(m: map<string, int>, k: string, v: int)
    requires k in m
    ensures Sum(m[k := v]) == Sum(m) - m[k] + v
  {
    SumRemove(m, k);
    SumRemove(m[k := v], k);
    assert m[k := v] - {k} == m - {k};
  }

  /** A sum of non-negative values is non-negative. */
  lemma {:induction false} SumNonNegative(m: map<string, int>)
    requires NonNegative(m)
    ensures Sum(m) >= 0
    decreases |m|
  {
    if |m| > 0 {
      var k := SumPick(m);
      CardRemove(m, k);
      SumNonNegative(m - {k});
    }
  }

  /** ... and it is positive as soon as one value is. */
  lemma SumPositive(m: map<string, int>, k: string)
    requires NonNegative(m) && k in m && m[k] > 0
    ensures Sum(m) > 0
  {
    SumRemove(m, k);
    SumNonNegative(m - {k});
  }


  /** The value at `k`, or 0 when `k` has no entry. */
  function Val(m: map<string, int>, k: string): int {
    if k in m then m[k] else 0
  }

  /** The values of `m` at the keys `ks`, added up in the order listed; this
      is how a loop over a dictionary's entries accumulates its total. */
  function SumAt(m: map<string, int>, ks: seq<string>): int
    decreases |ks|
  {
    if |ks| == 0 then 0
    else SumAt(m, ks[..|ks| - 1]) + Val(m, ks[|ks| - 1])
  }

  /** Appending one key adds its value. */
  lemma SumAtSnoc(m: map<string, int>, ks: seq<string>, k: string)
    ensures SumAt(m, ks + [k]) == SumAt(m, ks) + Val(m, k)
  {
    assert (ks + [k])[..|ks|] == ks;
  }

  /** Removing an entry whose key is not listed changes nothing. */
  lemma {:induction false} SumAtUnlisted(m: map<string, int>, ks: seq<string>, x: string)
    requires x !in ks
    ensures SumAt(m - {x}, ks) == SumAt(m, ks)
    decreases |ks|
  {
    if |ks| > 0 {
      SumAtUnlisted(m, ks[..|ks| - 1], x);
    }
  }

  /** Visiting every key once, in any order, gives the sum. */
  lemma {:induction false} SumAtIsSum(m: map<string, int>, ks: seq<string>)
    requires Distinct(ks)
    requires forall k :: k in m ==> k in ks
    ensures SumAt(m, ks) == Sum(m)
    decreases |ks|
  {
    if |ks| == 0 {
      assert m == map[];
    } else {
      var init, x := ks[..|ks| - 1], ks[|ks| - 1];
      DistinctInit(ks);
      if x in m {
        SumAtUnlisted(m, init, x);
        SumAtIsSum(m - {x}, init);
        SumRemove(m, x);
      } else {
        SumAtIsSum(m, init);
      }
    }
  }

  /** A sum of non-negative values, in any order, is non-negative. */
  lemma {:induction false} SumAtNonNegative(m: map<string, int>, ks: seq<string>)
    requires NonNegative(m)
    ensures SumAt(m, ks) >= 0
    decreases |ks|
  {
    if |ks| > 0 {
      SumAtNonNegative(m, ks[..|ks| - 1]);
    }
  }
}
