/**
 Facts about sequences without repetitions: how they grow and shrink at the
 end, how many distinct elements they hold, and that every finite set can be
 listed as one. The engine's dictionary order and the loops over dictionary
 entries rest on them.
 */
module Seqs {

  /** No element occurs twice. */
  predicate Distinct<T(==)>(xs: seq<T>) {
    forall i, j :: 0 <= i < j < |xs| ==> xs[i] != xs[j]
  }

  /** The last element of a repetition-free list is not among the others, and
      those are still without repetition. */
  lemma DistinctInit<T>(ks: seq<T>)
    requires Distinct(ks) && |ks| > 0
    ensures Distinct(ks[..|ks| - 1])
    ensures ks[|ks| - 1] !in ks[..|ks| - 1]
  {
    var init := ks[..|ks| - 1];
    forall i | 0 <= i < |init|
      ensures init[i] != ks[|ks| - 1]
    {
      assert init[i] == ks[i];
    }
  }

  /** Every finite set can be listed without repetition. */
  lemma {:induction false} Enumerate<T>(s: set<T>) returns (xs: seq<T>)
    ensures Distinct(xs)
    ensures forall k :: k in xs <==> k in s
    decreases s
  {
    if s == {} {
      xs := [];
    } else {
      var x :| x in s;
      var ys := Enumerate(s - {x});
      xs := ys + [x];
      assert forall i :: 0 <= i < |ys| ==> xs[i] == ys[i];
    }
  }

  lemma DistinctSnoc<T>(xs: seq<T>, x: T)
    requires Distinct(xs) && x !in xs
    ensures Distinct(xs + [x])
  {
    assert forall i :: 0 <= i < |xs| ==> (xs + [x])[i] == xs[i];
  }

  /** A list without repetitions has as many distinct elements as entries. */
  lemma {:induction false} DistinctCard<T>(xs: seq<T>)
    requires Distinct(xs)
    ensures |set x | x in xs| == |xs|
    decreases |xs|
  {
    if |xs| > 0 {
      var init := xs[..|xs| - 1];
      var last := xs[|xs| - 1];
      assert xs == init + [last];
      assert Distinct(init);
      assert last !in init by {
        forall j | 0 <= j < |init| ensures init[j] != last {
          assert init[j] == xs[j];
        }
      }
      assert (set x | x in xs) == (set x | x in init) + {last};
      DistinctCard(init);
    }
  }
}
