/** Cosine similarity of two embeddings over exact reals. */
module Cosine {
  /** The loop's sums: `Dot(a, b)` is its dot product, `Dot(a, a)` and `Dot(b, b)` its squared lengths. */
  function Dot(a: seq<real>, b: seq<real>): real
    requires |a| == |b|
  {
    if a == [] then 0.0 else Dot(a[..|a| - 1], b[..|b| - 1]) + a[|a| - 1] * b[|b| - 1]
  }

  // math.sqrt without rounding.
  ghost predicate IsSqrt(sqrt: real -> real) {
    forall x :: x >= 0.0 ==> sqrt(x) >= 0.0 && sqrt(x) * sqrt(x) == x
  }

  predicate Comparable(a: seq<real>, b: seq<real>) {
    a != [] && |a| == |b| && Dot(a, a) > 0.0 && Dot(b, b) > 0.0
  }

  /** `r` is the quotient of the dot product and the two lengths `ra` and `rb`. */
  ghost predicate IsCosine(r: real, a: seq<real>, b: seq<real>, ra: real, rb: real) {
    |a| == |b| && ra > 0.0 && rb > 0.0 && ra * ra == Dot(a, a) && rb * rb == Dot(b, b) && r * (ra * rb) == Dot(a, b)
  }

  method Sums(a: seq<real>, b: seq<real>) returns (dot: real, na: real, nb: real)
    requires |a| == |b|
    ensures dot == Dot(a, b) && na == Dot(a, a) && nb == Dot(b, b)
  {
    dot, na, nb := 0.0, 0.0, 0.0;
    for i := 0 to |a|
      invariant dot == Dot(a[..i], b[..i]) && na == Dot(a[..i], a[..i]) && nb == Dot(b[..i], b[..i])
    {
      assert a[..i + 1][..i] == a[..i] && b[..i + 1][..i] == b[..i];
      var x, y := a[i], b[i];
      dot := dot + x * y;
      na := na + x * x;
      nb := nb + y * y;
    }
    assert a[..|a|] == a && b[..|b|] == b;
  }

  /** The similarity, or 0 for vectors that cannot be compared; it never leaves [-1, 1]. */
  method CosineSimilarity(a: seq<real>, b: seq<real>, sqrt: real -> real) returns (r: real)
    requires IsSqrt(sqrt)
    ensures !Comparable(a, b) ==> r == 0.0
    ensures Comparable(a, b) ==> IsCosine(r, a, b, sqrt(Dot(a, a)), sqrt(Dot(b, b)))
    ensures -1.0 <= r <= 1.0
  {
    if a == [] || b == [] || |a| != |b| {
      return 0.0;
    }
    var dot, na, nb := Sums(a, b);
    if na <= 0.0 || nb <= 0.0 {
      return 0.0;
    }
    RootPositive(sqrt, na);
    RootPositive(sqrt, nb);
    r := Quotient(dot, sqrt(na), sqrt(nb));
    CosineRange(r, a, b, sqrt(na), sqrt(nb));
  }

  method Quotient(dot: real, ra: real, rb: real) returns (r: real)
    requires ra > 0.0 && rb > 0.0
    ensures r * (ra * rb) == dot
  {
    PositiveProduct(ra, rb, ra * rb);
    r := dot / (ra * rb);
  }

  lemma RootPositive(sqrt: real -> real, x: real)
    requires IsSqrt(sqrt) && x > 0.0
    ensures sqrt(x) > 0.0 && sqrt(x) * sqrt(x) == x
  {
  }

  // -- The sums ----------------------------------------------------------------------------------------------

  lemma Times(x: real, y: real)
    ensures x > 0.0 && y > 0.0 ==> x * y > 0.0
    ensures x > 0.0 && y < 0.0 ==> x * y < 0.0
    ensures x < 0.0 && y < 0.0 ==> x * y > 0.0
    ensures x == 0.0 || y == 0.0 ==> x * y == 0.0
  {
  }

  ghost function Lin(s: real, x: real, t: real, y: real): real { s * x - t * y }

  /** `s * a - t * b`, coordinate by coordinate. */
  ghost function Combine(a: seq<real>, b: seq<real>, s: real, t: real): seq<real>
    requires |a| == |b|
  {
    seq(|a|, i requires 0 <= i < |a| => Lin(s, a[i], t, b[i]))
  }

  lemma LinearStep(s: real, t: real, u: real, v: real, x: real, y: real, z: real)
    ensures s * (u + x * z) - t * (v + y * z) == (s * u - t * v) + (s * x - t * y) * z
  {
    assert s * (u + x * z) == s * u + s * (x * z);
    assert t * (v + y * z) == t * v + t * (y * z);
    assert (s * x - t * y) * z == s * (x * z) - t * (y * z);
  }

  lemma {:induction false} DotLinear(a: seq<real>, b: seq<real>, c: seq<real>, s: real, t: real)
    requires |a| == |b| == |c|
    ensures Dot(Combine(a, b, s, t), c) == Lin(s, Dot(a, c), t, Dot(b, c))
  {
    if a != [] {
      var n := |a| - 1;
      var d := Combine(a, b, s, t);
      assert d[..n] == Combine(a[..n], b[..n], s, t);
      DotLinear(a[..n], b[..n], c[..n], s, t);
      LinearStep(s, t, Dot(a[..n], c[..n]), Dot(b[..n], c[..n]), a[n], b[n], c[n]);
    }
  }

  lemma {:induction false} DotSymmetric(a: seq<real>, b: seq<real>)
    requires |a| == |b|
    ensures Dot(a, b) == Dot(b, a)
  {
    if a != [] { DotSymmetric(a[..|a| - 1], b[..|b| - 1]); }
  }

  lemma PositiveProduct(x: real, y: real, p: real)
    requires p == x * y && x > 0.0 && y > 0.0
    ensures p > 0.0
  {
  }

  lemma NegativeProduct(x: real, y: real, p: real)
    requires p == x * y && x < 0.0 && y < 0.0
    ensures p > 0.0
  {
    PositiveProduct(-x, -y, p);
  }

  lemma ZeroProduct(x: real, y: real, p: real)
    requires p == x * y && x == 0.0
    ensures p == 0.0
  {
  }

  lemma AddSquare(u: real, x: real, sq: real)
    requires u >= 0.0 && sq == x * x
    ensures u + sq >= 0.0 && (u + sq == 0.0 <==> u == 0.0 && x == 0.0)
  {
    if x == 0.0 { ZeroProduct(x, x, sq); } else if x > 0.0 { PositiveProduct(x, x, sq); }
    else { NegativeProduct(x, x, sq); }
  }

  /** A squared length is never negative, and zero only for the zero vector. */
  lemma {:induction false} SquaredLength(a: seq<real>)
    ensures Dot(a, a) >= 0.0
    ensures Dot(a, a) == 0.0 <==> forall i | 0 <= i < |a| :: a[i] == 0.0
  {
    if a != [] {
      var n := |a| - 1;
      SquaredLength(a[..n]);
      AddSquare(Dot(a[..n], a[..n]), a[n], a[n] * a[n]);
      assert a == a[..n] + [a[n]];
    }
  }

  ghost predicate IsZero(a: seq<real>) { forall i | 0 <= i < |a| :: a[i] == 0.0 }

  /** Two vectors can be compared exactly when they are equally long and neither has only zeros. */
  lemma ComparableMeaning(a: seq<real>, b: seq<real>)
    ensures Comparable(a, b) <==> |a| == |b| && !IsZero(a) && !IsZero(b)
  {
    SquaredLength(a);
    SquaredLength(b);
  }

  lemma SpreadWithA(a: seq<real>, b: seq<real>, s: real, t: real)
    requires |a| == |b|
    ensures Dot(Combine(a, b, s, t), a) == Lin(s, Dot(a, a), t, Dot(a, b))
  {
    DotLinear(a, b, a, s, t);
    DotSymmetric(b, a);
  }

  lemma SpreadWithItself(a: seq<real>, b: seq<real>, s: real, t: real)
    requires |a| == |b|
    ensures var d := Combine(a, b, s, t); Dot(d, d) == Lin(s, Dot(d, a), t, Dot(d, b))
  {
    var d := Combine(a, b, s, t);
    DotLinear(a, b, d, s, t);
    DotSymmetric(a, d);
    DotSymmetric(b, d);
  }

  /** The Cauchy-Schwarz inequality for the three sums, whatever the vectors. */
  lemma CauchySchwarz(a: seq<real>, b: seq<real>)
    requires |a| == |b|
    ensures Dot(a, b) * Dot(a, b) <= Dot(a, a) * Dot(b, b)
  {
    var dot, na, nb := Dot(a, b), Dot(a, a), Dot(b, b);
    SquaredLength(b);
    if nb > 0.0 {
      var d := Combine(a, b, nb, dot);
      SpreadWithItself(a, b, nb, dot);
      SpreadWithA(a, b, nb, dot);
      DotLinear(a, b, b, nb, dot);
      SquaredLength(d);
      Discriminant(na, nb, dot, Dot(d, a), Dot(d, b), Dot(d, d));
    } else {
      ZeroDot(a, b);
    }
  }

  lemma Discriminant(na: real, nb: real, dot: real, da: real, db: real, dd: real)
    requires nb > 0.0 && dd >= 0.0
    requires da == Lin(nb, na, dot, dot) && db == Lin(nb, dot, dot, nb) && dd == Lin(nb, da, dot, db)
    ensures dot * dot <= na * nb
  {
    assert db == 0.0;
    Times(dot, db);
    Times(nb, da);
  }

  lemma {:induction false} ZeroDot(a: seq<real>, b: seq<real>)
    requires |a| == |b| && forall i | 0 <= i < |b| :: b[i] == 0.0
    ensures Dot(a, b) == 0.0
  {
    if a != [] {
      ZeroDot(a[..|a| - 1], b[..|b| - 1]);
      Times(a[|a| - 1], b[|b| - 1]);
    }
  }

  // -- The result --------------------------------------------------------------------------------------------

  lemma GapAlgebra(ra: real, rb: real, na: real, nb: real, dot: real, da: real, db: real, dd: real)
    requires na == ra * ra && nb == rb * rb
    requires da == Lin(rb, na, ra, dot) && db == Lin(rb, dot, ra, nb) && dd == Lin(rb, da, ra, db)
    ensures dd == 2.0 * (ra * rb) * (ra * rb - dot)
  {
    var m := ra * rb;
    assert rb * na == ra * m && ra * nb == rb * m;
    assert da == ra * (m - dot) && db == rb * (dot - m);
    assert rb * (ra * (m - dot)) == m * (m - dot);
    assert ra * (rb * (dot - m)) == m * (dot - m);
  }

  lemma GapSign(m: real, r: real, dot: real, length: real)
    requires m > 0.0 && length >= 0.0 && r * m == dot && length == 2.0 * m * (m - dot)
    ensures r <= 1.0 && (r == 1.0 <==> length == 0.0)
  {
    assert m - dot == m * (1.0 - r);
    Times(m, 1.0 - r);
    Times(2.0 * m, m - dot);
  }

  /** What the squared length of `rb * a - ra * b` says about the similarity. */
  lemma GapMeaning(r: real, ra: real, rb: real, na: real, nb: real, dot: real, da: real, db: real, dd: real)
    requires ra > 0.0 && rb > 0.0 && na == ra * ra && nb == rb * rb && r * (ra * rb) == dot
    requires da == Lin(rb, na, ra, dot) && db == Lin(rb, dot, ra, nb) && dd == Lin(rb, da, ra, db) && dd >= 0.0
    ensures r <= 1.0 && (r == 1.0 <==> dd == 0.0)
  {
    Times(ra, rb);
    GapAlgebra(ra, rb, na, nb, dot, da, db, dd);
    GapSign(ra * rb, r, dot, dd);
  }

  lemma CombineZero(a: seq<real>, b: seq<real>, s: real, t: real)
    requires |a| == |b|
    ensures var d := Combine(a, b, s, t);
      (forall i | 0 <= i < |d| :: d[i] == 0.0) <==> forall i | 0 <= i < |a| :: s * a[i] == t * b[i]
  {
    var d := Combine(a, b, s, t);
    assert forall i | 0 <= i < |a| :: d[i] == Lin(s, a[i], t, b[i]);
    assert forall i | 0 <= i < |a| :: d[i] == 0.0 <==> s * a[i] == t * b[i];
  }

  /** The similarity is at most 1, and is 1 exactly when the vectors point the same way. */
  lemma AtMostOne(r: real, a: seq<real>, b: seq<real>, ra: real, rb: real)
    requires IsCosine(r, a, b, ra, rb)
    ensures r <= 1.0
    ensures r == 1.0 <==> forall i | 0 <= i < |a| :: rb * a[i] == ra * b[i]
  {
    var d := Combine(a, b, rb, ra);
    SpreadWithItself(a, b, rb, ra);
    SpreadWithA(a, b, rb, ra);
    DotLinear(a, b, b, rb, ra);
    SquaredLength(d);
    GapMeaning(r, ra, rb, Dot(a, a), Dot(b, b), Dot(a, b), Dot(d, a), Dot(d, b), Dot(d, d));
    CombineZero(a, b, rb, ra);
  }

  /** Turning one vector round negates the similarity. */
  lemma CosineNegates(r: real, a: seq<real>, b: seq<real>, ra: real, rb: real)
    requires IsCosine(r, a, b, ra, rb)
    ensures IsCosine(-r, a, Combine(b, b, -1.0, 0.0), ra, rb)
  {
    var c := Combine(b, b, -1.0, 0.0);
    DotLinear(b, b, a, -1.0, 0.0);
    DotSymmetric(c, a);
    DotSymmetric(b, a);
    DotLinear(b, b, c, -1.0, 0.0);
    DotLinear(b, b, b, -1.0, 0.0);
    DotSymmetric(b, c);
    assert (-r) * (ra * rb) == -(r * (ra * rb));
  }

  /** The similarity lies between -1 and 1; it is -1 exactly when the vectors point opposite ways. */
  lemma CosineRange(r: real, a: seq<real>, b: seq<real>, ra: real, rb: real)
    requires IsCosine(r, a, b, ra, rb)
    ensures -1.0 <= r <= 1.0
    ensures r == -1.0 <==> forall i | 0 <= i < |a| :: rb * a[i] == -(ra * b[i])
  {
    var c := Combine(b, b, -1.0, 0.0);
    CosineNegates(r, a, b, ra, rb);
    AtMostOne(-r, a, c, ra, rb);
    AtMostOne(r, a, b, ra, rb);
    forall i | 0 <= i < |b| ensures ra * c[i] == -(ra * b[i]) {
      assert c[i] == -b[i];
    }
  }

  lemma CosineSymmetric(r: real, a: seq<real>, b: seq<real>, ra: real, rb: real)
    requires IsCosine(r, a, b, ra, rb)
    ensures IsCosine(r, b, a, rb, ra)
  {
    DotSymmetric(a, b);
    assert ra * rb == rb * ra;
  }

  lemma RootUnique(x: real, y: real)
    requires x > 0.0 && y > 0.0 && x * x == y * y
    ensures x == y
  {
    assert (x - y) * (x + y) == x * x - y * y;
    Times(x - y, x + y);
    Times(y - x, x + y);
    assert (y - x) * (x + y) == -((x - y) * (x + y));
  }

  /** The length of a vector does not matter: scaling it by a positive factor keeps the similarity. */
  lemma CosineIgnoresLength(r: real, a: seq<real>, b: seq<real>, ra: real, rb: real, t: real, rc: real)
    requires IsCosine(r, a, b, ra, rb) && t > 0.0
    requires var c := Combine(b, b, t, 0.0); rc > 0.0 && rc * rc == Dot(c, c)
    ensures rc == t * rb && IsCosine(r, a, Combine(b, b, t, 0.0), ra, rc)
  {
    var c := Combine(b, b, t, 0.0);
    DotLinear(b, b, a, t, 0.0);
    DotSymmetric(c, a);
    DotSymmetric(b, a);
    DotLinear(b, b, c, t, 0.0);
    DotLinear(b, b, b, t, 0.0);
    DotSymmetric(b, c);
    ScaledRoot(t, rb, rc);
    ScaledQuotient(r, ra, rb, t);
  }

  lemma ScaledRoot(t: real, rb: real, rc: real)
    requires t > 0.0 && rb > 0.0 && rc > 0.0 && rc * rc == t * (t * (rb * rb))
    ensures rc == t * rb
  {
    Times(t, rb);
    assert (t * rb) * (t * rb) == t * (t * (rb * rb));
    RootUnique(rc, t * rb);
  }

  lemma ScaledQuotient(r: real, ra: real, rb: real, t: real)
    ensures r * (ra * (t * rb)) == t * (r * (ra * rb))
  {
    assert ra * (t * rb) == t * (ra * rb);
    var m := ra * rb;
    assert r * (t * m) == t * (r * m);
  }

  ghost predicate IsMultiple(a: seq<real>, b: seq<real>, t: real)
    requires |a| == |b|
  {
    forall i | 0 <= i < |a| :: b[i] == t * a[i]
  }

  lemma SameDirection(x: real, y: real, ra: real, rb: real, t: real)
    requires ra > 0.0 && t * ra == rb
    ensures rb * x == ra * y <==> y == t * x
  {
    assert rb * x == ra * (t * x) by { assert (t * ra) * x == ra * (t * x); }
    assert ra * (y - t * x) == ra * y - ra * (t * x);
    Times(ra, y - t * x);
  }

  lemma MultipleGivesOne(r: real, a: seq<real>, b: seq<real>, ra: real, rb: real, t: real)
    requires IsCosine(r, a, b, ra, rb) && t > 0.0 && IsMultiple(a, b, t)
    ensures r == 1.0
  {
    assert forall i | 0 <= i < |a| :: Lin(t, a[i], 0.0, a[i]) == b[i];
    assert b == Combine(a, a, t, 0.0);
    DotLinear(a, a, a, t, 0.0);
    DotLinear(a, a, b, t, 0.0);
    DotSymmetric(a, b);
    ScaledRoot(t, ra, rb);
    forall i | 0 <= i < |a| ensures rb * a[i] == ra * b[i] { SameDirection(a[i], b[i], ra, rb, t); }
    AtMostOne(r, a, b, ra, rb);
  }

  /** The similarity is 1 exactly for a positive multiple. */
  lemma OneIffPositiveMultiple(r: real, a: seq<real>, b: seq<real>, ra: real, rb: real)
    requires IsCosine(r, a, b, ra, rb)
    ensures r == 1.0 <==> exists t :: t > 0.0 && IsMultiple(a, b, t)
  {
    AtMostOne(r, a, b, ra, rb);
    if r == 1.0 {
      var t := rb / ra;
      assert t * ra == rb;
      Times(t, ra);
      Times(-t, ra);
      forall i | 0 <= i < |a| ensures b[i] == t * a[i] { SameDirection(a[i], b[i], ra, rb, t); }
      assert IsMultiple(a, b, t);
    }
    if t :| t > 0.0 && IsMultiple(a, b, t) { MultipleGivesOne(r, a, b, ra, rb, t); }
  }
}
