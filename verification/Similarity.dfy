/**
 Cosine similarity of embedding vectors, over the reals. The square root is a parameter, known only
 by its defining property.
 */
module Similarity {

  type Vector = seq<real>

  type Sqrt = real -> real

  ghost predicate IsSqrt(sqrt: Sqrt) {
    forall x :: x >= 0.0 ==> sqrt(x) >= 0.0 && sqrt(x) * sqrt(x) == x
  }

  function Dot(a: Vector, b: Vector): real
    requires |a| == |b|
  {
    if a == [] then 0.0 else a[0] * b[0] + Dot(a[1..], b[1..])
  }

  function Norm(a: Vector, sqrt: Sqrt): real {
    sqrt(Dot(a, a))
  }

  function CosineSimilarity(a: Vector, b: Vector, sqrt: Sqrt): real {
    if |a| != |b| || a == [] then 0.0 else Normalised(Dot(a, b), Norm(a, sqrt), Norm(b, sqrt))
  }

  function Normalised(dot: real, normA: real, normB: real): real {
    if normA == 0.0 || normB == 0.0 then 0.0 else dot / (normA * normB)
  }

  function Scale(k: real, a: Vector): Vector {
    if a == [] then [] else [k * a[0]] + Scale(k, a[1..])
  }

  lemma {:induction false} DotIsSymmetric(a: Vector, b: Vector)
    requires |a| == |b|
    ensures Dot(a, b) == Dot(b, a)
  {
    if a != [] {
      DotIsSymmetric(a[1..], b[1..]);
    }
  }

  lemma {:induction false} DotSelfIsNonNegative(a: Vector)
    ensures Dot(a, a) >= 0.0
  {
    if a != [] {
      DotSelfIsNonNegative(a[1..]);
      assert a[0] * a[0] >= 0.0;
    }
  }

  lemma {:induction false} DotScales(k: real, a: Vector, b: Vector)
    requires |a| == |b|
    ensures |Scale(k, a)| == |a| && Dot(Scale(k, a), b) == k * Dot(a, b)
  {
    if a != [] {
      DotScales(k, a[1..], b[1..]);
      assert Scale(k, a)[1..] == Scale(k, a[1..]);
    }
  }

  lemma SquaresGrow(p: real, q: real)
    requires q > p >= 0.0
    ensures q * q > p * p
  {
    var u, v := q - p, q + p;
    assert u > 0.0 && v > 0.0;
    assert u * v > 0.0;
    assert q * q - p * p == u * v;
  }

  lemma SquareOrder(p: real, q: real)
    requires p >= 0.0 && q * q <= p * p
    ensures -p <= q <= p
  {
    if q > p {
      SquaresGrow(p, q);
    }
    if q < -p {
      SquaresGrow(p, -q);
    }
  }

  /** One more coordinate: from D² ≤ AB to (D + xy)² ≤ (A + x²)(B + y²). */
  lemma CauchySchwarzStep(d: real, a: real, b: real, x: real, y: real, d': real, a': real, b': real)
    requires a >= 0.0 && b >= 0.0 && d * d <= a * b
    requires d' == x * y + d && a' == x * x + a && b' == y * y + b
    ensures d' * d' <= a' * b'
  {
    var p := a * (y * y) + b * (x * x);
    var q := 2.0 * d * (x * y);
    var m := x * y;
    assert p >= 0.0 by {
      assert y * y >= 0.0 && x * x >= 0.0;
      assert a * (y * y) >= 0.0 && b * (x * x) >= 0.0;
    }
    assert q * q <= p * p by {
      var u, v := a * (y * y), b * (x * x);
      assert p * p - 4.0 * (u * v) == (u - v) * (u - v);
      assert (u - v) * (u - v) >= 0.0;
      assert u * v == (a * b) * (m * m);
      assert m * m >= 0.0;
      assert (a * b - d * d) * (m * m) >= 0.0;
      assert q * q == 4.0 * ((d * d) * (m * m));
    }
    SquareOrder(p, q);
    assert d' * d' == d * d + q + m * m;
    assert a' * b' == a * b + p + m * m;
  }

  lemma {:induction false} CauchySchwarz(a: Vector, b: Vector)
    requires |a| == |b|
    ensures Dot(a, b) * Dot(a, b) <= Dot(a, a) * Dot(b, b)
  {
    if a != [] {
      CauchySchwarz(a[1..], b[1..]);
      DotSelfIsNonNegative(a[1..]);
      DotSelfIsNonNegative(b[1..]);
      var d, aa, bb, x, y := Dot(a[1..], b[1..]), Dot(a[1..], a[1..]), Dot(b[1..], b[1..]), a[0], b[0];
      CauchySchwarzStep(d, aa, bb, x, y, Dot(a, b), Dot(a, a), Dot(b, b));
    }
  }

  lemma NormSquares(a: Vector, sqrt: Sqrt)
    requires IsSqrt(sqrt)
    ensures Norm(a, sqrt) >= 0.0 && Norm(a, sqrt) * Norm(a, sqrt) == Dot(a, a)
  {
    DotSelfIsNonNegative(a);
  }

  lemma QuotientBound(d: real, n: real)
    requires n > 0.0 && -n <= d <= n
    ensures -1.0 <= d / n <= 1.0
  {
    assert (d / n) * n == d;
  }

  lemma SimilarityIsSymmetric(a: Vector, b: Vector, sqrt: Sqrt)
    ensures CosineSimilarity(a, b, sqrt) == CosineSimilarity(b, a, sqrt)
  {
    if |a| == |b| {
      DotIsSymmetric(a, b);
      NormalisedIsSymmetric(Dot(a, b), Norm(a, sqrt), Norm(b, sqrt));
    }
  }

  lemma NormalisedIsSymmetric(d: real, m: real, n: real)
    ensures Normalised(d, m, n) == Normalised(d, n, m)
  {
    assert m * n == n * m;
  }

  lemma SimilarityIsBounded(a: Vector, b: Vector, sqrt: Sqrt)
    requires IsSqrt(sqrt)
    ensures -1.0 <= CosineSimilarity(a, b, sqrt) <= 1.0
  {
    NormSquares(a, sqrt);
    NormSquares(b, sqrt);
    if |a| == |b| && a != [] {
      CauchySchwarz(a, b);
      BoundedByNorms(Dot(a, b), Dot(a, a), Dot(b, b), Norm(a, sqrt), Norm(b, sqrt));
    }
  }

  lemma BoundedByNorms(d: real, a: real, b: real, na: real, nb: real)
    requires na >= 0.0 && nb >= 0.0 && na * na == a && nb * nb == b && d * d <= a * b
    ensures -1.0 <= Normalised(d, na, nb) <= 1.0
  {
    if na > 0.0 && nb > 0.0 {
      BoundedByPositiveNorms(d, a, b, na, nb);
    }
  }

  lemma BoundedByPositiveNorms(d: real, a: real, b: real, na: real, nb: real)
    requires na > 0.0 && nb > 0.0 && na * na == a && nb * nb == b && d * d <= a * b
    ensures na * nb != 0.0 && -1.0 <= d / (na * nb) <= 1.0
  {
    var n := na * nb;
    assert n > 0.0;
    assert n * n == (na * na) * (nb * nb);
    SquareOrder(n, d);
    QuotientBound(d, n);
  }

  lemma RootsAreUnique(m: real, n: real)
    requires m >= 0.0 && n >= 0.0 && m * m == n * n
    ensures m == n
  {
    SquareOrder(m, n);
    SquareOrder(n, m);
  }

  /** Stretching a vector by a positive factor changes no similarity. */
  lemma SimilarityIgnoresScale(k: real, a: Vector, b: Vector, sqrt: Sqrt)
    requires IsSqrt(sqrt) && k > 0.0
    ensures CosineSimilarity(Scale(k, a), b, sqrt) == CosineSimilarity(a, b, sqrt)
  {
    DotScales(k, a, a);
    if |a| == |b| && a != [] {
      var s := Scale(k, a);
      DotScales(k, a, b);
      DotScales(k, a, s);
      DotIsSymmetric(a, s);
      NormSquares(a, sqrt);
      NormSquares(s, sqrt);
      NormSquares(b, sqrt);
      ScaledNorm(k, Norm(a, sqrt), Norm(s, sqrt), Dot(a, a), Dot(s, s));
      ScaledQuotient(k, Dot(a, b), Dot(s, b), Norm(a, sqrt), Norm(s, sqrt), Norm(b, sqrt));
    }
  }

  lemma ScaledNorm(k: real, n: real, n': real, d: real, d': real)
    requires k > 0.0 && n >= 0.0 && n' >= 0.0
    requires n * n == d && n' * n' == d' && d' == k * (k * d)
    ensures n' == k * n
  {
    var m := k * n;
    assert m >= 0.0;
    assert m * m == k * (k * (n * n));
    RootsAreUnique(n', m);
  }

  lemma ScaledQuotient(k: real, d: real, d': real, m: real, m': real, n: real)
    requires k > 0.0 && m >= 0.0 && n >= 0.0 && m' == k * m && d' == k * d
    ensures Normalised(d', m', n) == Normalised(d, m, n)
  {
    if m > 0.0 && n > 0.0 {
      var mn := m * n;
      assert mn > 0.0;
      assert m' * n == k * mn;
      assert m' > 0.0;
      CancelFactor(k, d, mn);
    }
  }

  lemma CancelFactor(k: real, d: real, n: real)
    requires k != 0.0 && n != 0.0
    ensures k * n != 0.0 && (k * d) / (k * n) == d / n
  {
    var r := d / n;
    assert r * n == d;
    assert r * (k * n) == k * d;
  }

  /** A vector is fully similar to itself, unless it is empty or zero, when the similarity is 0. */
  lemma SelfSimilarity(a: Vector, sqrt: Sqrt)
    requires IsSqrt(sqrt)
    ensures CosineSimilarity(a, a, sqrt) == if Dot(a, a) > 0.0 then 1.0 else 0.0
  {
    NormSquares(a, sqrt);
    DotSelfIsNonNegative(a);
    var n := Norm(a, sqrt);
    if a != [] && n != 0.0 {
      SquareOverItself(Dot(a, a), n);
    }
  }

  lemma SquareOverItself(d: real, n: real)
    requires n > 0.0 && n * n == d
    ensures d > 0.0 && d / (n * n) == 1.0
  {
    SquaresGrow(0.0, n);
    var m := n * n;
    assert d == m;
    assert m > 0.0;
    assert d / m == 1.0;
  }

  // ---------------------------------------------------------------------------------------------
  // What the similarity is
  // ---------------------------------------------------------------------------------------------

  function Plus(a: Vector, b: Vector): (r: Vector)
    requires |a| == |b|
    ensures |r| == |a|
  {
    if a == [] then [] else [a[0] + b[0]] + Plus(a[1..], b[1..])
  }

  /** The unit vector of coordinate `i`. */
  function Unit(n: nat, i: nat): (r: Vector)
    requires i < n
    ensures |r| == n
    ensures forall k :: 0 <= k < n ==> r[k] == if k == i then 1.0 else 0.0
  {
    seq(n, k => if k == i then 1.0 else 0.0)
  }

  lemma {:induction false} DotIsAdditive(a: Vector, b: Vector, c: Vector)
    requires |a| == |b| == |c|
    ensures Dot(Plus(a, b), c) == Dot(a, c) + Dot(b, c) && Dot(c, Plus(a, b)) == Dot(c, a) + Dot(c, b)
  {
    if a != [] {
      DotIsAdditive(a[1..], b[1..], c[1..]);
      assert Plus(a, b)[1..] == Plus(a[1..], b[1..]);
    }
  }

  lemma {:induction false} DotWithZeros(a: Vector, z: Vector)
    requires |a| == |z| && forall k :: 0 <= k < |z| ==> z[k] == 0.0
    ensures Dot(a, z) == 0.0
  {
    if a != [] {
      DotWithZeros(a[1..], z[1..]);
    }
  }

  /** With `DotIsAdditive` and `DotScales` this determines the product: it reads off one coordinate. */
  lemma {:induction false} DotWithUnit(a: Vector, i: nat)
    requires i < |a|
    ensures Dot(a, Unit(|a|, i)) == a[i]
  {
    var u := Unit(|a|, i);
    if i == 0 {
      DotWithZeros(a[1..], u[1..]);
    } else {
      DotWithUnit(a[1..], i - 1);
      assert u[1..] == Unit(|a| - 1, i - 1);
    }
  }

  /** The angle law: the similarity times both norms is the dot product, sign included, zero vectors too. */
  lemma SimilarityIsTheAngle(a: Vector, b: Vector, sqrt: Sqrt)
    requires IsSqrt(sqrt) && |a| == |b|
    ensures CosineSimilarity(a, b, sqrt) * (Norm(a, sqrt) * Norm(b, sqrt)) == Dot(a, b)
  {
    var d, aa, bb, m, n := NormFacts(a, b, sqrt);
    NormalisedTimesNorms(d, aa, bb, m, n);
    assert CosineSimilarity(a, b, sqrt) == if a == [] then 0.0 else Normalised(d, m, n);
  }

  /** The numbers a similarity is computed from. */
  lemma NormFacts(a: Vector, b: Vector, sqrt: Sqrt) returns (d: real, aa: real, bb: real, m: real, n: real)
    requires IsSqrt(sqrt) && |a| == |b|
    ensures d == Dot(a, b) && m == Norm(a, sqrt) && n == Norm(b, sqrt)
    ensures m >= 0.0 && n >= 0.0 && m * m == aa && n * n == bb && d * d <= aa * bb
  {
    d, aa, bb, m, n := Dot(a, b), Dot(a, a), Dot(b, b), Norm(a, sqrt), Norm(b, sqrt);
    NormSquares(a, sqrt);
    NormSquares(b, sqrt);
    CauchySchwarz(a, b);
  }

  lemma NormalisedTimesNorms(d: real, a: real, b: real, na: real, nb: real)
    requires na >= 0.0 && nb >= 0.0 && na * na == a && nb * nb == b && d * d <= a * b
    ensures Normalised(d, na, nb) * (na * nb) == d
  {
    if na == 0.0 || nb == 0.0 {
      assert a == 0.0 || b == 0.0;
      SquareOrder(0.0, d);
    } else {
      ProductIsPositive(na, nb);
      DivideAndMultiply(d, na * nb);
    }
  }

  lemma ProductIsPositive(m: real, n: real)
    requires m > 0.0 && n > 0.0
    ensures m * n > 0.0
  {
  }

  lemma DivideAndMultiply(d: real, n: real)
    requires n != 0.0
    ensures (d / n) * n == d
  {
  }

  /** Vectors of different lengths, empty vectors and zero vectors are similar to nothing. */
  lemma IncomparableIsZero(a: Vector, b: Vector, sqrt: Sqrt)
    requires IsSqrt(sqrt) && (|a| != |b| || Dot(a, a) == 0.0 || Dot(b, b) == 0.0)
    ensures CosineSimilarity(a, b, sqrt) == 0.0
  {
    NormSquares(a, sqrt);
    NormSquares(b, sqrt);
    if |a| == |b| {
      RootsAreUnique(if Dot(a, a) == 0.0 then Norm(a, sqrt) else Norm(b, sqrt), 0.0);
    }
  }

  /** Opposite vectors have opposite similarities. */
  lemma SimilarityFlips(a: Vector, b: Vector, sqrt: Sqrt)
    requires IsSqrt(sqrt)
    ensures CosineSimilarity(Scale(-1.0, a), b, sqrt) == -CosineSimilarity(a, b, sqrt)
  {
    DotScales(-1.0, a, a);
    if |a| == |b| && a != [] {
      var s := Scale(-1.0, a);
      DotScales(-1.0, a, b);
      DotScales(-1.0, a, s);
      DotIsSymmetric(a, s);
      assert Dot(s, s) == Dot(a, a);
      FlippedQuotient(Dot(a, b), Norm(a, sqrt), Norm(b, sqrt));
    }
  }

  lemma FlippedQuotient(d: real, m: real, n: real)
    ensures Normalised(-d, m, n) == -Normalised(d, m, n)
  {
    if m != 0.0 && n != 0.0 {
      var q := m * n;
      assert q != 0.0;
      assert (d / q) * q == d && (-d / q) * q == -d;
    }
  }
}
