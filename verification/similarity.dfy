/**
 `VectorCompare`: magnitude, dot product and cosine similarity of term
 vectors. The magnitude is a square root and the score a floating-point
 quotient; both are kept exact here: a vector's magnitude is represented by
 its square (the integer sum of squared counts) and a cosine by the pair
 (dot product, product of the two squared magnitudes). Since the square root
 is monotone, comparing squared cosines orders results as the cosines do.
 */
module Similarity {
  import opened Seqs
  import opened Sums
  import opened TermVectors

  /** The squared counts of `v`, one summand per term. */
  function Squares(v: TermVector): (sq: map<string, int>)
    ensures sq.Keys == v.Keys
    ensures NonNegative(sq)
  {
    map w | w in v :: v[w] * v[w]
  }

  /** The products of the counts of the terms `a` and `b` share; terms in
      only one of them have no summand. */
  function Products(a: TermVector, b: TermVector): (p: map<string, int>)
    ensures p.Keys == a.Keys * b.Keys
    ensures NonNegative(p)
  {
    map w | w in a && w in b :: a[w] * b[w]
  }

  /** The squared magnitude: the sum over the terms of the squared count. */
  ghost function SumSq(v: TermVector): nat {
    SumNonNegative(Squares(v));
    Sum(Squares(v))
  }

  /** The dot product: the sum over shared terms of the product of counts. */
  ghost function Dot(a: TermVector, b: TermVector): nat {
    SumNonNegative(Products(a, b));
    Sum(Products(a, b))
  }

  /** An exact cosine `dot / sqrt(norm2)`, with `norm2` the product of the two
      squared magnitudes; `norm2 == 0` stands for the guarded value 0. */
  datatype Score = Score(dot: nat, norm2: nat) {

    /** The square of the cosine. */
    function Sq(): real {
      if norm2 == 0 then 0.0 else (dot * dot) as real / norm2 as real
    }

    /** Both the dot product and the magnitudes are non-zero; this is when
        `score > 0` (`ScorePositive`). */
    predicate Positive() {
      dot > 0 && norm2 > 0
    }
  }

  /** The score `relation` returns: 0 if either magnitude is zero, else
      dot / (magnitude1 * magnitude2). */
  ghost function Cosine(a: TermVector, b: TermVector): Score {
    var ssa, ssb := SumSq(a), SumSq(b);
    if ssa * ssb != 0 then Score(Dot(a, b), ssa * ssb) else Score(0, 0)
  }

  /** `magnitude` without the square root: the loop over the entries adding
      each squared count. */
  method MagnitudeSquared(v: TermVector) returns (total: nat)
    ensures total == SumSq(v)
    ensures WellFormed(v) ==> (total == 0 <==> v == map[])
  {
    total := 0;
    var rest := v.Keys;
    ghost var visited: seq<string> := [];
    while rest != {}
      invariant rest <= v.Keys
      invariant Distinct(visited)
      invariant forall k :: k in visited <==> k in v && k !in rest
      invariant total == SumAt(Squares(v), visited)
      decreases rest
    {
      var w :| w in rest;
      SumAtSnoc(Squares(v), visited, w);
      DistinctSnoc(visited, w);
      total := total + v[w] * v[w];
      rest := rest - {w};
      visited := visited + [w];
    }
    SumAtIsSum(Squares(v), visited);
    if WellFormed(v) {
      SumSqZero(v);
    }
  }

  /** The dot-product loop of `relation`: over the entries of `a`, adding the
      product of counts when the term is also in `b`. */
  method DotProduct(a: TermVector, b: TermVector) returns (dot: nat)
    ensures dot == Dot(a, b)
  {
    dot := 0;
    var rest := a.Keys;
    ghost var visited: seq<string> := [];
    while rest != {}
      invariant rest <= a.Keys
      invariant Distinct(visited)
      invariant forall k :: k in visited <==> k in a && k !in rest
      invariant dot == SumAt(Products(a, b), visited)
      decreases rest
    {
      var w :| w in rest;
      SumAtSnoc(Products(a, b), visited, w);
      DistinctSnoc(visited, w);
      if w in b {
        dot := dot + a[w] * b[w];
      }
      rest := rest - {w};
      visited := visited + [w];
    }
    SumAtIsSum(Products(a, b), visited);
  }

  /** `relation(concordance1, concordance2)`. */
  method Relation(a: TermVector, b: TermVector) returns (s: Score)
    ensures s == Cosine(a, b)
    ensures s == Cosine(b, a)
    ensures 0.0 <= s.Sq() <= 1.0
    ensures WellFormed(a) && WellFormed(b) ==>
      (s.Positive() <==> exists w :: w in a && w in b)
  {
    var dot := DotProduct(a, b);
    var m1 := MagnitudeSquared(a);
    var m2 := MagnitudeSquared(b);
    if m1 * m2 != 0 {
      s := Score(dot, m1 * m2);
    } else {
      s := Score(0, 0);
    }
    CosineSymmetric(a, b);
    CosineBounded(a, b);
    if WellFormed(a) && WellFormed(b) {
      CosinePositive(a, b);
    }
  }

  /** The squared magnitude is zero exactly for the empty vector (counts are
      at least one), so the magnitude is zero exactly then. */
  lemma SumSqZero(v: TermVector)
    requires WellFormed(v)
    ensures SumSq(v) == 0 <==> v == map[]
  {
    if v != map[] {
      var w :| w in v;
      assert Squares(v)[w] >= 1;
      SumPositive(Squares(v), w);
    } else {
      assert Squares(v) == map[];
    }
  }

  /** The dot product is symmetric. */
  lemma DotSymmetric(a: TermVector, b: TermVector)
    ensures Dot(a, b) == Dot(b, a)
  {
    assert Products(a, b) == Products(b, a);
  }

  /** Only shared terms contribute: a term of `a` absent from `b` can be
      added, changed or removed without changing the dot product. */
  lemma DotOnlyShared(a: TermVector, b: TermVector, w: string, n: nat)
    requires w !in b
    ensures Dot(a[w := n], b) == Dot(a, b)
    ensures Dot(a - {w}, b) == Dot(a, b)
  {
    assert Products(a[w := n], b) == Products(a, b);
    assert Products(a - {w}, b) == Products(a, b);
  }

  /** For well-formed vectors the dot product is zero exactly when they
      share no term. */
  lemma DotZero(a: TermVector, b: TermVector)
    requires WellFormed(a) && WellFormed(b)
    ensures Dot(a, b) == 0 <==> a.Keys !! b.Keys
  {
    if !(a.Keys !! b.Keys) {
      var w :| w in a && w in b;
      assert Products(a, b)[w] >= 1;
      SumPositive(Products(a, b), w);
    } else {
      assert Products(a, b) == map[];
    }
  }

  /** A vector's dot product with itself is its squared magnitude. */
  lemma DotSelf(v: TermVector)
    ensures Dot(v, v) == SumSq(v)
  {
    assert Products(v, v) == Squares(v);
  }

  /** Symmetry of the score. */
  lemma CosineSymmetric(a: TermVector, b: TermVector)
    ensures Cosine(a, b) == Cosine(b, a)
  {
    DotSymmetric(a, b);
  }

  /** The zero-magnitude guard: against an empty vector the score is 0. */
  lemma CosineEmpty(a: TermVector)
    ensures Cosine(a, map[]).Sq() == 0.0
    ensures Cosine(map[], a).Sq() == 0.0
  {
    SumSqZero(map[]);
    var z := SumSq(map[]);
    assert SumSq(a) * z == 0 && z * SumSq(a) == 0;
    assert Cosine(a, map[]) == Score(0, 0) && Cosine(map[], a) == Score(0, 0);
  }

  /** Self-similarity of a non-empty well-formed vector is maximal. */
  lemma CosineSelf(v: TermVector)
    requires WellFormed(v) && v != map[]
    ensures Cosine(v, v).Sq() == 1.0
  {
    SumSqZero(v);
    DotSelf(v);
    var s := SumSq(v);
    MulPositive(s, s);
    assert Cosine(v, v) == Score(s, s * s);
    DivSelf(s * s);
  }

  lemma DivSelf(x: nat)
    requires x > 0
    ensures x as real / x as real == 1.0
  {
  }

  /** The product of two naturals, as a natural: the Cauchy-Schwarz step
      names its partial products with it. */
  function Mul(x: nat, y: nat): nat {
    x * y
  }

  lemma MulPositive(x: nat, y: nat)
    requires x > 0 && y > 0
    ensures x * y > 0
  {
  }

  /** `score > 0` holds exactly when the dot product and both magnitudes are
      non-zero. */
  lemma ScorePositive(s: Score)
    ensures s.Sq() > 0.0 <==> s.Positive()
  {
    if s.dot > 0 && s.norm2 > 0 {
      MulPositive(s.dot, s.dot);
      PositiveQuotient(s.dot * s.dot, s.norm2);
    }
  }

  /** For well-formed vectors the score is positive exactly when they share a
      term. */
  lemma CosinePositive(a: TermVector, b: TermVector)
    requires WellFormed(a) && WellFormed(b)
    ensures Cosine(a, b).Positive() <==> exists w :: w in a && w in b
  {
    SumSqZero(a);
    SumSqZero(b);
    DotZero(a, b);
    if exists w :: w in a && w in b {
      MulPositive(SumSq(a), SumSq(b));
    }
  }

  lemma PositiveQuotient(x: nat, y: nat)
    requires x > 0 && y > 0
    ensures x as real / y as real > 0.0
  {
  }

  /** The score is a cosine of non-negative vectors: it lies in [0, 1]. */
  lemma CosineBounded(a: TermVector, b: TermVector)
    ensures 0.0 <= Cosine(a, b).Sq() <= 1.0
  {
    var c := Cosine(a, b);
    if c.norm2 != 0 {
      DotSquareLe(a, b);
      QuotientAtMostOne(c.dot * c.dot, c.norm2);
    }
  }

  lemma QuotientAtMostOne(x: nat, y: nat)
    requires 0 < y && x <= y
    ensures 0.0 <= x as real / y as real <= 1.0
  {
  }

  /** Cauchy-Schwarz for term vectors: dot^2 <= |a|^2 * |b|^2. */
  lemma DotSquareLe(a: TermVector, b: TermVector)
    ensures SquareBounded(Dot(a, b), SumSq(a), SumSq(b))
  {
    var xs := Enumerate(a.Keys + b.Keys);
    CauchySchwarzAt(a, b, xs);
    SumAtIsSum(Products(a, b), xs);
    SumAtIsSum(Squares(a), xs);
    SumAtIsSum(Squares(b), xs);
  }

  /** `s^2 <= A * B`. */
  predicate SquareBounded(s: int, A: int, B: int) {
    s * s <= A * B
  }

  /** Cauchy-Schwarz over the terms listed in `ks`, by induction on the list:
      each term adds `x * y` to the dot product and `x * x`, `y * y` to the
      squared magnitudes, with `x`, `y` its counts (0 when absent). */
  lemma {:induction false} CauchySchwarzAt(a: TermVector, b: TermVector, ks: seq<string>)
    ensures SquareBounded(SumAt(Products(a, b), ks), SumAt(Squares(a), ks), SumAt(Squares(b), ks))
    decreases |ks|
  {
    if |ks| > 0 {
      var init, w := ks[..|ks| - 1], ks[|ks| - 1];
      CauchySchwarzAt(a, b, init);
      var S, A, B := SumAt(Products(a, b), init), SumAt(Squares(a), init), SumAt(Squares(b), init);
      SumAtNonNegative(Products(a, b), init);
      SumAtNonNegative(Squares(a), init);
      SumAtNonNegative(Squares(b), init);
      var x: nat, y: nat := Val(a, w), Val(b, w);
      assert Val(Products(a, b), w) == x * y;
      assert Val(Squares(a), w) == x * x;
      assert Val(Squares(b), w) == y * y;
      CauchyStep(S, A, B, x, y);
    }
  }

  /** One inductive step of Cauchy-Schwarz: adding the term (x, y) keeps
      (S + xy)^2 <= (A + x^2)(B + y^2). */
  lemma CauchyStep(S: nat, A: nat, B: nat, x: nat, y: nat)
    requires S * S <= A * B
    ensures (S + x * y) * (S + x * y) <= (A + x * x) * (B + y * y)
  {
    var p, X, Y := Mul(x, y), Mul(x, x), Mul(y, y);
    var P, Q := Mul(X, B), Mul(Y, A);
    var T := Mul(2 * S, p);
    // (S + p)^2 = S^2 + T + p^2 and (A + X)(B + Y) = AB + P + Q + XY, with
    // p^2 = XY; it remains to show T <= P + Q, from T^2 <= 4PQ <= (P + Q)^2.
    ExpandSquare(S, p);
    ExpandProduct(A, X, B, Y);
    Regroup(x, y, x, y);
    MulLeft(4 * Mul(p, p), Mul(S, S), Mul(A, B));
    TwiceSquared(S, p);
    Regroup4(X, Y, A, B);
    FourProduct(P, Q);
    SquareLe(T, P + Q);
  }

  lemma ExpandSquare(u: int, v: int)
    ensures (u + v) * (u + v) == u * u + 2 * u * v + v * v
  {
  }

  lemma ExpandProduct(a: int, b: int, c: int, d: int)
    ensures (a + b) * (c + d) == a * c + b * d + b * c + a * d
  {
  }

  lemma Regroup(a: int, b: int, c: int, d: int)
    ensures (a * b) * (c * d) == (a * c) * (b * d)
  {
  }

  lemma TwiceSquared(S: int, p: int)
    ensures (2 * S * p) * (2 * S * p) == 4 * (p * p) * (S * S)
  {
  }

  lemma Regroup4(X: int, Y: int, A: int, B: int)
    ensures 4 * ((X * Y) * (A * B)) == 4 * (X * B) * (Y * A)
  {
    assert (X * Y) * (A * B) == (X * B) * (Y * A);
  }

  lemma FourProduct(P: int, Q: int)
    ensures 4 * P * Q <= (P + Q) * (P + Q)
  {
    ExpandSquare(P, Q);
    ExpandSquare(P, -Q);
  }

  lemma MulLeft(k: nat, u: nat, v: nat)
    requires u <= v
    ensures k * u <= k * v
  {
  }

  lemma SquareLe(t: nat, u: nat)
    requires t * t <= u * u
    ensures t <= u
  {
  }

  /** Ranking by squared scores is ranking by cosines: for any non-negative
      reals whose squares are the two scores, they compare as the squares do. */
  lemma RankingMatchesCosine(s: Score, t: Score, cs: real, ct: real)
    requires cs >= 0.0 && ct >= 0.0
    requires cs * cs == s.Sq() && ct * ct == t.Sq()
    ensures cs <= ct <==> s.Sq() <= t.Sq()
    ensures cs == ct <==> s.Sq() == t.Sq()
  {
    if cs <= ct {
      assert cs * cs <= cs * ct <= ct * ct;
    } else {
      assert ct * ct <= ct * cs < cs * cs;
    }
  }
}
