/**
 Ordering of search hits: Python's `list.sort(reverse=True, key=...)`, a
 stable sort that puts higher keys first and keeps hits with equal keys in
 the order they were found, and the slice `matches[:max_results]`.
 */
module Ranking {
  import opened Similarity

  /** One search hit: `(score, doc_id, snippet)`. */
  datatype Match<Id> = Match(score: Score, id: Id, snippet: string)

  /** The sort key; squared cosines order hits as the cosines do. */
  function Key<Id>(m: Match<Id>): real {
    m.score.Sq()
  }

  /** Highest key first. */
  predicate SortedDesc<Id>(s: seq<Match<Id>>) {
    forall i, j :: 0 <= i < j < |s| ==> Key(s[i]) >= Key(s[j])
  }

  /** The hits of `s` whose key is `k`, in the order of `s`. */
  function WithKey<Id>(s: seq<Match<Id>>, k: real): seq<Match<Id>>
    decreases |s|
  {
    if |s| == 0 then []
    else (if Key(s[0]) == k then [s[0]] else []) + WithKey(s[1..], k)
  }

  /** `t` reorders `s` stably: for every key, the hits carrying it appear in
      `t` exactly as, and in the same order as, they do in `s`. */
  ghost predicate StableReorder<Id>(s: seq<Match<Id>>, t: seq<Match<Id>>) {
    forall k :: WithKey(t, k) == WithKey(s, k)
  }

  /** No document occurs twice. */
  predicate DistinctIds<Id(==)>(s: seq<Match<Id>>) {
    forall i, j :: 0 <= i < j < |s| ==> s[i].id != s[j].id
  }

  /** Places `x` in front of the first hit whose key is not higher, so that it
      stays ahead of the hits with the same key. */
  function Insert<Id(==)>(x: Match<Id>, t: seq<Match<Id>>): (r: seq<Match<Id>>)
    requires SortedDesc(t)
    ensures SortedDesc(r)
    ensures multiset(r) == multiset(t) + multiset{x}
    ensures |r| == |t| + 1
    ensures r[0] == x || (|t| > 0 && r[0] == t[0])
    decreases |t|
  {
    if |t| == 0 || Key(t[0]) <= Key(x) then
      SortedCons(x, t);
      [x] + t
    else
      var rest := Insert(x, t[1..]);
      SortedCons(t[0], rest);
      assert t == [t[0]] + t[1..];
      [t[0]] + rest
  }

  /** A hit ranked at least as high as the head of a sorted list can go in
      front of it. */
  lemma SortedCons<Id>(h: Match<Id>, s: seq<Match<Id>>)
    requires SortedDesc(s)
    requires |s| > 0 ==> Key(h) >= Key(s[0])
    ensures SortedDesc([h] + s)
  {
  }

  /** `matches.sort(reverse=True, key=lambda x: x[0])`: insertion sort from the
      back, which is stable. */
  function Sort<Id(==)>(s: seq<Match<Id>>): (r: seq<Match<Id>>)
    ensures SortedDesc(r)
    ensures multiset(r) == multiset(s)
    ensures |r| == |s|
    decreases |s|
  {
    if |s| == 0 then []
    else
      assert s == [s[0]] + s[1..];
      Insert(s[0], Sort(s[1..]))
  }

  lemma WithKeyCons<Id>(h: Match<Id>, s: seq<Match<Id>>, k: real)
    ensures WithKey([h] + s, k) == (if Key(h) == k then [h] else []) + WithKey(s, k)
  {
    assert ([h] + s)[1..] == s;
  }

  /** Insertion keeps every key's hits in order, with `x` ahead of the ones
      already there. */
  lemma {:induction false} InsertStable<Id>(x: Match<Id>, t: seq<Match<Id>>, k: real)
    requires SortedDesc(t)
    ensures WithKey(Insert(x, t), k) == WithKey([x] + t, k)
    decreases |t|
  {
    if |t| > 0 && Key(t[0]) > Key(x) {
      var rest := t[1..];
      assert t == [t[0]] + rest;
      InsertStable(x, rest, k);
      PassHigher(x, t[0], Insert(x, rest), rest, k);
    }
  }

  /** Passing a hit with a higher key does not reorder any key's hits. */
  lemma PassHigher<Id>(x: Match<Id>, h: Match<Id>, r: seq<Match<Id>>, rest: seq<Match<Id>>, k: real)
    requires Key(h) > Key(x)
    requires WithKey(r, k) == WithKey([x] + rest, k)
    ensures WithKey([h] + r, k) == WithKey([x] + ([h] + rest), k)
  {
    WithKeyCons(h, r, k);
    WithKeyCons(x, rest, k);
    WithKeyCons(x, [h] + rest, k);
    WithKeyCons(h, rest, k);
  }

  /** The sort is stable. */
  lemma {:induction false} SortStable<Id>(s: seq<Match<Id>>)
    ensures StableReorder(s, Sort(s))
    decreases |s|
  {
    if |s| > 0 {
      SortStable(s[1..]);
      forall k ensures WithKey(Sort(s), k) == WithKey(s, k) {
        InsertStable(s[0], Sort(s[1..]), k);
        WithKeyCons(s[0], Sort(s[1..]), k);
        WithKeyCons(s[0], s[1..], k);
        assert s == [s[0]] + s[1..];
      }
    }
  }

  /** Inserting a hit for a document not yet present keeps documents unique. */
  lemma {:induction false} InsertDistinct<Id>(x: Match<Id>, t: seq<Match<Id>>)
    requires SortedDesc(t) && DistinctIds(t)
    requires forall i :: 0 <= i < |t| ==> t[i].id != x.id
    ensures DistinctIds(Insert(x, t))
    decreases |t|
  {
    if |t| == 0 || Key(t[0]) <= Key(x) {
      DistinctCons(x, t);
    } else {
      var tail := t[1..];
      InsertDistinct(x, tail);
      var rest := Insert(x, tail);
      forall j | 0 <= j < |rest| ensures rest[j].id != t[0].id {
        assert rest[j] in multiset(rest);
        if rest[j] != x {
          var p :| 0 <= p < |tail| && tail[p] == rest[j];
          assert tail[p] == t[p + 1];
        }
      }
      DistinctCons(t[0], rest);
    }
  }

  lemma DistinctCons<Id>(h: Match<Id>, s: seq<Match<Id>>)
    requires DistinctIds(s)
    requires forall j :: 0 <= j < |s| ==> s[j].id != h.id
    ensures DistinctIds([h] + s)
  {
  }

  /** Sorting keeps documents unique. */
  lemma {:induction false} SortDistinct<Id>(s: seq<Match<Id>>)
    requires DistinctIds(s)
    ensures DistinctIds(Sort(s))
    decreases |s|
  {
    if |s| > 0 {
      var rest := s[1..];
      assert DistinctIds(rest) by {
        forall i, j | 0 <= i < j < |rest| ensures rest[i].id != rest[j].id {
          assert rest[i] == s[i + 1] && rest[j] == s[j + 1];
        }
      }
      SortDistinct(rest);
      var t := Sort(rest);
      forall i | 0 <= i < |t| ensures t[i].id != s[0].id {
        assert t[i] in multiset(rest);
        var p :| 0 <= p < |rest| && rest[p] == t[i];
        assert rest[p] == s[p + 1];
      }
      InsertDistinct(s[0], t);
    }
  }

  /** `s[:n]` on a Python list: a non-negative `n` keeps the first `n` items
      (all when there are fewer); a negative `n` drops the last `-n` items. */
  function Take<T>(s: seq<T>, n: int): (r: seq<T>)
    ensures |r| <= |s| && r == s[..|r|]
    ensures n >= 0 ==> |r| == if n <= |s| then n else |s|
    ensures n < 0 ==> |r| == if -n <= |s| then |s| + n else 0
  {
    if n >= 0 then (if n <= |s| then s[..n] else s)
    else (if -n <= |s| then s[..|s| + n] else [])
  }

  /** Taking a prefix of a stably sorted list keeps the best hits: nothing
      left out ranks above anything kept. */
  lemma TopOfSorted<Id>(s: seq<Match<Id>>, n: int)
    requires SortedDesc(s)
    ensures SortedDesc(Take(s, n))
    ensures forall i, j :: 0 <= i < |Take(s, n)| <= j < |s| ==> Key(s[i]) >= Key(s[j])
  {
  }

  /** The tail of `matches.sort(...)` and `return matches[:max_results]`: the
      hits in stable descending order, cut to `n` by slice semantics. Every hit
      kept was found, none is kept twice, and no hit left out ranks above a
      kept one. */
  function Top<Id(==)>(s: seq<Match<Id>>, n: int): (r: seq<Match<Id>>)
    ensures SortedDesc(r)
    ensures forall m :: m in r ==> m in s
    ensures forall m, i :: m in s && m !in r && 0 <= i < |r| ==> Key(r[i]) >= Key(m)
    ensures DistinctIds(s) ==> DistinctIds(r)
    ensures n >= 0 ==> |r| == if n <= |s| then n else |s|
    ensures n < 0 ==> |r| == if -n <= |s| then |s| + n else 0
  {
    TopOfSorted(Sort(s), n);
    TopFound(s, n);
    TopBeatsLeftOut(s, n);
    TopDistinct(s, n);
    Take(Sort(s), n)
  }

  lemma TopFound<Id>(s: seq<Match<Id>>, n: int)
    ensures forall m :: m in Take(Sort(s), n) ==> m in s
  {
    var t := Sort(s);
    forall m | m in Take(t, n) ensures m in s {
      assert m in multiset(t);
    }
  }

  lemma TopBeatsLeftOut<Id>(s: seq<Match<Id>>, n: int)
    ensures forall m, i :: m in s && m !in Take(Sort(s), n) && 0 <= i < |Take(Sort(s), n)| ==>
      Key(Take(Sort(s), n)[i]) >= Key(m)
  {
    var t := Sort(s);
    var r := Take(t, n);
    forall m, i | m in s && m !in r && 0 <= i < |r| ensures Key(r[i]) >= Key(m) {
      assert m in multiset(s);
      PrefixRanksHigher(t, r, m, i);
    }
  }

  /** In a sorted list, an element outside a prefix ranks no higher than any
      element of the prefix. */
  lemma PrefixRanksHigher<Id>(t: seq<Match<Id>>, r: seq<Match<Id>>, m: Match<Id>, i: int)
    requires SortedDesc(t) && |r| <= |t| && r == t[..|r|]
    requires m in t && m !in r && 0 <= i < |r|
    ensures Key(r[i]) >= Key(m)
  {
    var rest := t[|r|..];
    assert t == r + rest;
    assert m in rest;
    var q :| 0 <= q < |rest| && rest[q] == m;
    assert t[|r| + q] == m;
  }

  lemma TopDistinct<Id>(s: seq<Match<Id>>, n: int)
    ensures DistinctIds(s) ==> DistinctIds(Take(Sort(s), n))
  {
    if DistinctIds(s) {
      SortDistinct(s);
    }
  }

  /** A hit that `Top` leaves out ranks no higher than any hit it keeps. */
  lemma TopLeavesOutLower<Id>(s: seq<Match<Id>>, n: int, m: Match<Id>, i: int)
    requires m in s && m !in Top(s, n) && 0 <= i < |Top(s, n)|
    ensures Key(Top(s, n)[i]) >= Key(m)
  {
  }
}
