/**
 * Arithmetic in the prime field GF(7) and the projective plane PG(2,7) over it.
 *
 * `generate_cards` (spotit_game_logic.py) builds the Spot-It deck from this plane:
 * its 57 points are the emojis and its 57 lines are the cards. The source uses
 * sympy's GF(7) and `sympy.invert`; here field elements are the integers 0..6 and
 * every product is reduced with `% 7` (Python's `%` and Dafny's `%` agree for a
 * positive modulus: both return a value in 0..6).
 */
module Plane {

  import opened Util

  /** The order q of the field used by generate_cards. */
  const Q: int := 7

  /** A triple (x, y, z) of integers: a point, or the coefficients (a, b, c) of a line. */
  datatype Vec = Vec(x: int, y: int, z: int)

  const Zero: Vec := Vec(0, 0, 0)

  predicate IsElem(k: int) { 0 <= k < 7 }

  predicate InRange(v: Vec) { IsElem(v.x) && IsElem(v.y) && IsElem(v.z) }

  predicate NonZero(v: Vec) { v != Zero }

  /** a ≡ b (mod 7) */
  predicate Cong(a: int, b: int) { (a - b) % 7 == 0 }

  predicate CongVec(u: Vec, v: Vec) { Cong(u.x, v.x) && Cong(u.y, v.y) && Cong(u.z, v.z) }

  function Dot(u: Vec, v: Vec): int { u.x * v.x + u.y * v.y + u.z * v.z }

  function Cross(u: Vec, v: Vec): Vec {
    Vec(u.y * v.z - u.z * v.y, u.z * v.x - u.x * v.z, u.x * v.y - u.y * v.x)
  }

  /** Integer multiple of a vector, not reduced. */
  function Mul(k: int, v: Vec): Vec { Vec(k * v.x, k * v.y, k * v.z) }

  /** The multiple k·v reduced mod 7: `tuple((k * x) % q for x in p)`. */
  function Scale(k: int, v: Vec): (r: Vec)
    ensures InRange(r) && CongVec(r, Mul(k, v))
  {
    Vec((k * v.x) % 7, (k * v.y) % 7, (k * v.z) % 7)
  }

  /** Point p lies on line l: `(a * x + b * y + c * z) % q == 0`. */
  predicate Incident(l: Vec, p: Vec) { Dot(l, p) % 7 == 0 }

  /** Two vectors are proportional mod 7 when their cross product vanishes mod 7. */
  predicate Parallel(u: Vec, v: Vec) { CongVec(Cross(u, v), Zero) }

  // ---------------------------------------------------------------------------
  // Congruences
  // ---------------------------------------------------------------------------

  lemma CongMul(a: int, a': int, b: int, b': int)
    requires Cong(a, a') && Cong(b, b')
    ensures Cong(a * b, a' * b')
  {
    var s, t := (a - a') / 7, (b - b') / 7;
    assert a == a' + 7 * s;
    assert b == b' + 7 * t;
    assert a * b - a' * b' == 7 * (s * b' + a' * t + 7 * s * t);
  }

  /** GF(7) has no zero divisors. */
  lemma NoZeroDivisor(k: int, d: int)
    requires 1 <= k < 7 && Cong(k * d, 0)
    ensures Cong(d, 0)
  {
    CongMul(k, k, d, d % 7);
  }

  lemma CongSub(a: int, a': int, b: int, b': int)
    requires Cong(a, a') && Cong(b, b')
    ensures Cong(a - b, a' - b')
  {
  }

  lemma CongAdd(a: int, a': int, b: int, b': int)
    requires Cong(a, a') && Cong(b, b')
    ensures Cong(a + b, a' + b')
  {
  }

  /** The difference of two congruent products. */
  lemma CongMulSub(a: int, a': int, b: int, b': int, c: int, c': int, d: int, d': int)
    requires Cong(a, a') && Cong(b, b') && Cong(c, c') && Cong(d, d')
    ensures Cong(a * b - c * d, a' * b' - c' * d')
  {
    CongMul(a, a', b, b');
    CongMul(c, c', d, d');
    CongSub(a * b, a' * b', c * d, c' * d');
  }

  lemma CongVecSym(u: Vec, v: Vec)
    requires CongVec(u, v)
    ensures CongVec(v, u)
  {
    assert v.x - u.x == -(u.x - v.x) && v.y - u.y == -(u.y - v.y) && v.z - u.z == -(u.z - v.z);
  }

  lemma CongVecTrans(u: Vec, v: Vec, w: Vec)
    requires CongVec(u, v) && CongVec(v, w)
    ensures CongVec(u, w)
  {
  }

  lemma CongCross(u: Vec, u': Vec, v: Vec, v': Vec)
    requires CongVec(u, u') && CongVec(v, v')
    ensures CongVec(Cross(u, v), Cross(u', v'))
  {
    CongMulSub(u.y, u'.y, v.z, v'.z, u.z, u'.z, v.y, v'.y);
    CongMulSub(u.z, u'.z, v.x, v'.x, u.x, u'.x, v.z, v'.z);
    CongMulSub(u.x, u'.x, v.y, v'.y, u.y, u'.y, v.x, v'.x);
  }

  lemma CongDot(u: Vec, u': Vec, v: Vec, v': Vec)
    requires CongVec(u, u') && CongVec(v, v')
    ensures Cong(Dot(u, v), Dot(u', v'))
  {
    CongMul(u.x, u'.x, v.x, v'.x);
    CongMul(u.y, u'.y, v.y, v'.y);
    CongMul(u.z, u'.z, v.z, v'.z);
    CongAdd(u.x * v.x, u'.x * v'.x, u.y * v.y, u'.y * v'.y);
    CongAdd(u.x * v.x + u.y * v.y, u'.x * v'.x + u'.y * v'.y, u.z * v.z, u'.z * v'.z);
  }

  // ---------------------------------------------------------------------------
  // Inverse and normalisation (sympy.invert and normalize_point)
  // ---------------------------------------------------------------------------

  /** The multiplicative inverse in GF(7), the value `sympy.invert(c, 7)` returns. */
  function Inverse(c: int): (r: int)
    requires 1 <= c < 7
    ensures 1 <= r < 7 && (c * r) % 7 == 1
  {
    if c == 1 then 1 else if c == 2 then 4 else if c == 3 then 5
    else if c == 4 then 2 else if c == 5 then 3 else 6
  }

  /** The representative of a projective point: first non-zero coordinate is 1. */
  predicate Canonical(v: Vec) {
    InRange(v) && (v.x == 1 || (v.x == 0 && v.y == 1) || (v.x == 0 && v.y == 0 && v.z == 1))
  }

  /**
   * normalize_point: scale p by the inverse of its first non-zero coordinate;
   * the zero triple is returned as it is.
   */
  function Normalize(p: Vec): (r: Vec)
    requires InRange(p)
    ensures NonZero(p) ==> Canonical(r)
    ensures NonZero(p) ==> exists k :: 1 <= k < 7 && r == Scale(k, p)
    ensures !NonZero(p) ==> r == p
  {
    if p.x != 0 then
      var k := Inverse(p.x); assert Scale(k, p).x == 1; Scale(k, p)
    else if p.y != 0 then
      var k := Inverse(p.y); assert Scale(k, p).y == 1; Scale(k, p)
    else if p.z != 0 then
      var k := Inverse(p.z); assert Scale(k, p).z == 1; Scale(k, p)
    else p
  }

  /** A point already in canonical form is its own normal form. */
  lemma NormalizeCanonical(v: Vec)
    requires Canonical(v)
    ensures Normalize(v) == v
  {
    ScaleOne(v);
  }

  // ---------------------------------------------------------------------------
  // Proportional vectors
  // ---------------------------------------------------------------------------

  lemma MulMulSub(a: int, b: int, p: int, q: int, r: int, s: int)
    ensures (a * p) * (b * q) - (a * r) * (b * s) == a * (b * (p * q - r * s))
  {
    assert (a * p) * (b * q) == a * (b * (p * q));
    assert (a * r) * (b * s) == a * (b * (r * s));
    assert b * (p * q - r * s) == b * (p * q) - b * (r * s);
    assert a * (b * (p * q) - b * (r * s)) == a * (b * (p * q)) - a * (b * (r * s));
  }

  lemma CrossOfMultiples(a: int, u: Vec, b: int, v: Vec)
    ensures Cross(Mul(a, u), Mul(b, v)) == Mul(a, Mul(b, Cross(u, v)))
  {
    MulMulSub(a, b, u.y, v.z, u.z, v.y);
    MulMulSub(a, b, u.z, v.x, u.x, v.z);
    MulMulSub(a, b, u.x, v.y, u.y, v.x);
  }

  lemma MulZero(k: int, c: Vec)
    requires CongVec(c, Zero)
    ensures CongVec(Mul(k, c), Zero)
  {
    CongMul(k, k, c.x, 0);
    CongMul(k, k, c.y, 0);
    CongMul(k, k, c.z, 0);
  }

  lemma UnmulZero(k: int, c: Vec)
    requires 1 <= k < 7 && CongVec(Mul(k, c), Zero)
    ensures CongVec(c, Zero)
  {
    NoZeroDivisor(k, c.x);
    NoZeroDivisor(k, c.y);
    NoZeroDivisor(k, c.z);
  }

  /** Parallelism survives scaling each side by a constant. */
  lemma ParallelScale(a: int, u: Vec, b: int, v: Vec)
    requires Parallel(u, v)
    ensures Parallel(Scale(a, u), Scale(b, v))
  {
    CongCross(Scale(a, u), Mul(a, u), Scale(b, v), Mul(b, v));
    CrossOfMultiples(a, u, b, v);
    MulZero(b, Cross(u, v));
    MulZero(a, Mul(b, Cross(u, v)));
    CongVecTrans(Cross(Scale(a, u), Scale(b, v)), Mul(a, Mul(b, Cross(u, v))), Zero);
  }

  /** Scaling by a non-zero constant can be undone: parallelism reflects back. */
  lemma ParallelUnscale(a: int, u: Vec, b: int, v: Vec)
    requires 1 <= a < 7 && 1 <= b < 7
    requires Parallel(Scale(a, u), Scale(b, v))
    ensures Parallel(u, v)
  {
    var m := Mul(a, Mul(b, Cross(u, v)));
    CongCross(Scale(a, u), Mul(a, u), Scale(b, v), Mul(b, v));
    CrossOfMultiples(a, u, b, v);
    CongVecSym(Cross(Scale(a, u), Scale(b, v)), m);
    CongVecTrans(m, Cross(Scale(a, u), Scale(b, v)), Zero);
    UnmulZero(a, Mul(b, Cross(u, v)));
    UnmulZero(b, Cross(u, v));
  }

  /** Two canonical representatives that are proportional are the same point. */
  lemma ParallelAffine(a: int, b: int, c: int, d: int)
    requires IsElem(a) && IsElem(b) && IsElem(c) && IsElem(d)
    requires Parallel(Vec(1, a, b), Vec(1, c, d))
    ensures a == c && b == d
  {
    assert Cross(Vec(1, a, b), Vec(1, c, d)).y == b - d;
    assert Cross(Vec(1, a, b), Vec(1, c, d)).z == c - a;
  }

  lemma ParallelInfinite(b: int, d: int)
    requires IsElem(b) && IsElem(d) && Parallel(Vec(0, 1, b), Vec(0, 1, d))
    ensures b == d
  {
    assert Cross(Vec(0, 1, b), Vec(0, 1, d)).x == d - b;
  }

  /** Canonical points of different shapes are never proportional. */
  lemma ShapesNotParallel(a: int, b: int, d: int)
    ensures !Parallel(Vec(1, a, b), Vec(0, 1, d)) && !Parallel(Vec(0, 1, d), Vec(1, a, b))
    ensures !Parallel(Vec(1, a, b), Vec(0, 0, 1)) && !Parallel(Vec(0, 0, 1), Vec(1, a, b))
    ensures !Parallel(Vec(0, 1, d), Vec(0, 0, 1)) && !Parallel(Vec(0, 0, 1), Vec(0, 1, d))
  {
    assert Cross(Vec(1, a, b), Vec(0, 1, d)).z == 1;
    assert Cross(Vec(0, 1, d), Vec(1, a, b)).z == -1;
    assert Cross(Vec(1, a, b), Vec(0, 0, 1)).y == -1;
    assert Cross(Vec(0, 0, 1), Vec(1, a, b)).y == 1;
    assert Cross(Vec(0, 1, d), Vec(0, 0, 1)).x == 1;
    assert Cross(Vec(0, 0, 1), Vec(0, 1, d)).x == -1;
  }

  /** Two canonical representatives that are proportional are the same point. */
  lemma CanonicalParallel(m: Vec, n: Vec)
    requires Canonical(m) && Canonical(n) && Parallel(m, n)
    ensures m == n
  {
    if m.x == 1 && n.x == 1 {
      ParallelAffine(m.y, m.z, n.y, n.z);
    } else if m.x == 0 && n.x == 0 && m.y == 1 && n.y == 1 {
      ParallelInfinite(m.z, n.z);
    } else {
      ShapesNotParallel(m.y, m.z, n.z);
      ShapesNotParallel(n.y, n.z, m.z);
    }
  }

  lemma CrossSelf(w: Vec)
    ensures Cross(w, w) == Zero
  {
    assert w.y * w.z == w.z * w.y;
    assert w.z * w.x == w.x * w.z;
    assert w.x * w.y == w.y * w.x;
  }

  /** The non-zero factor normalize_point multiplies by. */
  lemma NormalizeFactor(u: Vec) returns (k: int)
    requires InRange(u) && NonZero(u)
    ensures 1 <= k < 7 && Normalize(u) == Scale(k, u)
  {
    k :| 1 <= k < 7 && Normalize(u) == Scale(k, u);
  }

  /** normalize_point identifies exactly the proportional non-zero triples. */
  lemma NormalizeParallel(u: Vec, v: Vec)
    requires InRange(u) && NonZero(u) && InRange(v) && NonZero(v)
    ensures Normalize(u) == Normalize(v) <==> Parallel(u, v)
  {
    var a := NormalizeFactor(u);
    var b := NormalizeFactor(v);
    if Parallel(u, v) {
      ParallelScale(a, u, b, v);
      CanonicalParallel(Normalize(u), Normalize(v));
    }
    if Normalize(u) == Normalize(v) {
      CrossSelf(Normalize(u));
      ParallelUnscale(a, u, b, v);
    }
  }

  // ---------------------------------------------------------------------------
  // Incidence
  // ---------------------------------------------------------------------------

  function Sub(u: Vec, v: Vec): Vec { Vec(u.x - v.x, u.y - v.y, u.z - v.z) }

  lemma DotCross(u: Vec, v: Vec)
    ensures Dot(u, Cross(u, v)) == 0 && Dot(v, Cross(u, v)) == 0
  {
  }

  lemma CrossCross(u: Vec, v: Vec, p: Vec)
    ensures Cross(Cross(u, v), p) == Sub(Mul(Dot(u, p), v), Mul(Dot(v, p), u))
  {
  }

  lemma DotMulLeft(k: int, l: Vec, p: Vec)
    ensures Dot(Mul(k, l), p) == k * Dot(l, p)
  {
    assert (k * l.x) * p.x + (k * l.y) * p.y + (k * l.z) * p.z == k * (l.x * p.x + l.y * p.y + l.z * p.z);
  }

  lemma DotMulRight(k: int, l: Vec, p: Vec)
    ensures Dot(l, Mul(k, p)) == k * Dot(l, p)
  {
    assert l.x * (k * p.x) + l.y * (k * p.y) + l.z * (k * p.z) == k * (l.x * p.x + l.y * p.y + l.z * p.z);
  }

  /** Multiplying by a non-zero constant neither creates nor removes a zero of GF(7). */
  lemma ScaledZero(k: int, d: int, e: int)
    requires 1 <= k < 7 && Cong(e, k * d)
    ensures e % 7 == 0 <==> d % 7 == 0
  {
    if e % 7 == 0 {
      NoZeroDivisor(k, d);
    }
    if d % 7 == 0 {
      CongMul(k, k, d, 0);
    }
  }

  /** Scaling a line by a non-zero constant keeps the points on it. */
  lemma IncidentScaleLine(k: int, l: Vec, p: Vec)
    requires 1 <= k < 7
    ensures Incident(Scale(k, l), p) <==> Incident(l, p)
  {
    CongDot(Scale(k, l), Mul(k, l), p, p);
    DotMulLeft(k, l, p);
    ScaledZero(k, Dot(l, p), Dot(Scale(k, l), p));
  }

  /** Scaling a point by a non-zero constant keeps the lines through it. */
  lemma IncidentScalePoint(k: int, l: Vec, p: Vec)
    requires 1 <= k < 7
    ensures Incident(l, Scale(k, p)) <==> Incident(l, p)
  {
    CongDot(l, l, Scale(k, p), Mul(k, p));
    DotMulRight(k, l, p);
    ScaledZero(k, Dot(l, p), Dot(l, Scale(k, p)));
  }

  /** A line and its normalised coefficients have the same points. */
  lemma IncidentNormalizeLine(l: Vec, p: Vec)
    requires InRange(l) && NonZero(l)
    ensures Incident(Normalize(l), p) <==> Incident(l, p)
  {
    var k := NormalizeFactor(l);
    IncidentScaleLine(k, l, p);
  }

  /** A point and its normalised representative lie on the same lines. */
  lemma IncidentNormalizePoint(l: Vec, p: Vec)
    requires InRange(p) && NonZero(p)
    ensures Incident(l, Normalize(p)) <==> Incident(l, p)
  {
    var k := NormalizeFactor(p);
    IncidentScalePoint(k, l, p);
  }

  /** A point on two lines is parallel to their cross product. */
  lemma BothLinesCrossZero(l1: Vec, l2: Vec, p: Vec)
    requires Incident(l1, p) && Incident(l2, p)
    ensures Parallel(Cross(l1, l2), p)
  {
    CrossCross(l1, l2, p);
    var d1, d2 := Dot(l1, p), Dot(l2, p);
    CongMulSub(d1, 0, l2.x, l2.x, d2, 0, l1.x, l1.x);
    CongMulSub(d1, 0, l2.y, l2.y, d2, 0, l1.y, l1.y);
    CongMulSub(d1, 0, l2.z, l2.z, d2, 0, l1.z, l1.z);
  }

  lemma ScaleOne(p: Vec)
    requires InRange(p)
    ensures Scale(1, p) == p
  {
  }

  /** The cross product of two lines with different point sets is not zero mod 7. */
  lemma CrossNonZero(l1: Vec, l2: Vec)
    requires InRange(l1) && NonZero(l1) && InRange(l2) && NonZero(l2)
    requires Normalize(l1) != Normalize(l2)
    ensures NonZero(Scale(1, Cross(l1, l2)))
  {
    if !NonZero(Scale(1, Cross(l1, l2))) {
      assert Parallel(l1, l2);
      NormalizeParallel(l1, l2);
    }
  }

  /** The intersection point of two lines with different point sets. */
  function Meet(l1: Vec, l2: Vec): (m: Vec)
    requires InRange(l1) && NonZero(l1) && InRange(l2) && NonZero(l2)
    requires Normalize(l1) != Normalize(l2)
    ensures Canonical(m)
  {
    CrossNonZero(l1, l2);
    Normalize(Scale(1, Cross(l1, l2)))
  }

  /** The intersection point lies on both lines. */
  lemma MeetIncident(l1: Vec, l2: Vec)
    requires InRange(l1) && NonZero(l1) && InRange(l2) && NonZero(l2)
    requires Normalize(l1) != Normalize(l2)
    ensures Incident(l1, Meet(l1, l2)) && Incident(l2, Meet(l1, l2))
  {
    var c := Cross(l1, l2);
    var r := Scale(1, c);
    CrossNonZero(l1, l2);
    DotCross(l1, l2);
    CongDot(l1, l1, r, c);
    CongDot(l2, l2, r, c);
    IncidentNormalizePoint(l1, r);
    IncidentNormalizePoint(l2, r);
  }

  /**
   * Two lines with different point sets have no other common point of the plane:
   * with MeetIncident, the property that makes any two Spot-It cards share
   * exactly one symbol.
   */
  lemma MeetIsUnique(l1: Vec, l2: Vec, p: Vec)
    requires InRange(l1) && NonZero(l1) && InRange(l2) && NonZero(l2)
    requires Normalize(l1) != Normalize(l2)
    requires Canonical(p) && Incident(l1, p) && Incident(l2, p)
    ensures p == Meet(l1, l2)
  {
    var c := Cross(l1, l2);
    var r := Scale(1, c);
    CrossNonZero(l1, l2);
    var k := NormalizeFactor(r);
    assert Meet(l1, l2) == Scale(k, r);
    BothLinesCrossZero(l1, l2, p);
    CongCross(r, c, p, p);
    CongVecTrans(Cross(r, p), Cross(c, p), Zero);
    ParallelScale(k, r, 1, p);
    ScaleOne(p);
    CanonicalParallel(Meet(l1, l2), p);
  }

  // ---------------------------------------------------------------------------
  // Counting: 57 points, 8 points on every line
  // ---------------------------------------------------------------------------

  /** An enumeration of the canonical representatives: q² + q + 1 of them. */
  function CanonicalPoints(): (s: seq<Vec>)
    ensures |s| == Q * Q + Q + 1
  {
    [Vec(0, 0, 1)] + seq(7, z => Vec(0, 1, z)) + seq(49, k => Vec(1, k / 7, k % 7))
  }

  lemma CanonicalPointsExact(v: Vec)
    ensures v in CanonicalPoints() <==> Canonical(v)
  {
    var s := CanonicalPoints();
    if Canonical(v) {
      if v.x == 1 {
        assert s[8 + 7 * v.y + v.z] == v;
      } else if v.y == 1 {
        assert s[1 + v.z] == v;
      } else {
        assert s[0] == v;
      }
    }
  }

  lemma CanonicalPointsDistinct()
    ensures Distinct(CanonicalPoints())
  {
    var s := CanonicalPoints();
    forall i, j | 0 <= i < j < |s| ensures s[i] != s[j] {
      if 8 <= i {
        var k, m := i - 8, j - 8;
        assert k == 7 * (k / 7) + k % 7 && m == 7 * (m / 7) + m % 7;
      }
    }
  }

  /** The unique z in GF(7) with c·z + t ≡ 0, for c ≠ 0 (see SolveSound and SolveUnique). */
  function Solve(c: int, t: int): (z: int)
    requires 1 <= c < 7
    ensures IsElem(z)
  {
    (-t * Inverse(c)) % 7
  }

  lemma SolveBy1(t: int)
    ensures Cong(1 * Solve(1, t) + t, 0)
  {
    assert Solve(1, t) == (-1 * t) % 7;
  }

  lemma SolveBy2(t: int)
    ensures Cong(2 * Solve(2, t) + t, 0)
  {
    assert Solve(2, t) == (-4 * t) % 7;
  }

  lemma SolveBy3(t: int)
    ensures Cong(3 * Solve(3, t) + t, 0)
  {
    assert Solve(3, t) == (-5 * t) % 7;
  }

  lemma SolveBy4(t: int)
    ensures Cong(4 * Solve(4, t) + t, 0)
  {
    assert Solve(4, t) == (-2 * t) % 7;
  }

  lemma SolveBy5(t: int)
    ensures Cong(5 * Solve(5, t) + t, 0)
  {
    assert Solve(5, t) == (-3 * t) % 7;
  }

  lemma SolveBy6(t: int)
    ensures Cong(6 * Solve(6, t) + t, 0)
  {
    assert Solve(6, t) == (-6 * t) % 7;
  }

  /** Solve(c, t) solves c·z + t ≡ 0; each coefficient is checked with its inverse as a literal. */
  lemma SolveSound(c: int, t: int)
    requires 1 <= c < 7
    ensures Cong(c * Solve(c, t) + t, 0)
  {
    if c == 1 { SolveBy1(t); }
    else if c == 2 { SolveBy2(t); }
    else if c == 3 { SolveBy3(t); }
    else if c == 4 { SolveBy4(t); }
    else if c == 5 { SolveBy5(t); }
    else { SolveBy6(t); }
  }

  lemma SolveUniqueBy1(t: int, z: int)
    requires IsElem(z) && Cong(1 * z + t, 0)
    ensures z == Solve(1, t)
  {
    assert Solve(1, t) == (-1 * t) % 7;
  }

  lemma SolveUniqueBy2(t: int, z: int)
    requires IsElem(z) && Cong(2 * z + t, 0)
    ensures z == Solve(2, t)
  {
    assert Solve(2, t) == (-4 * t) % 7;
  }

  lemma SolveUniqueBy3(t: int, z: int)
    requires IsElem(z) && Cong(3 * z + t, 0)
    ensures z == Solve(3, t)
  {
    assert Solve(3, t) == (-5 * t) % 7;
  }

  lemma SolveUniqueBy4(t: int, z: int)
    requires IsElem(z) && Cong(4 * z + t, 0)
    ensures z == Solve(4, t)
  {
    assert Solve(4, t) == (-2 * t) % 7;
  }

  lemma SolveUniqueBy5(t: int, z: int)
    requires IsElem(z) && Cong(5 * z + t, 0)
    ensures z == Solve(5, t)
  {
    assert Solve(5, t) == (-3 * t) % 7;
  }

  lemma SolveUniqueBy6(t: int, z: int)
    requires IsElem(z) && Cong(6 * z + t, 0)
    ensures z == Solve(6, t)
  {
    assert Solve(6, t) == (-6 * t) % 7;
  }

  /** Solve(c, t) is the only solution in GF(7). */
  lemma SolveUnique(c: int, t: int, z: int)
    requires 1 <= c < 7 && IsElem(z) && Cong(c * z + t, 0)
    ensures z == Solve(c, t)
  {
    if c == 1 { SolveUniqueBy1(t, z); }
    else if c == 2 { SolveUniqueBy2(t, z); }
    else if c == 3 { SolveUniqueBy3(t, z); }
    else if c == 4 { SolveUniqueBy4(t, z); }
    else if c == 5 { SolveUniqueBy5(t, z); }
    else { SolveUniqueBy6(t, z); }
  }

  /** A point whose incidence value has the form c·Solve(c, t) + t lies on the line. */
  lemma SolveIncident(l: Vec, p: Vec, c: int, t: int)
    requires 1 <= c < 7 && Dot(l, p) == c * Solve(c, t) + t
    ensures Incident(l, p)
  {
    SolveSound(c, t);
  }

  /** The 8 canonical points on a line, in an explicit order. */
  function LinePoints(l: Vec): (s: seq<Vec>)
    requires InRange(l) && NonZero(l)
    ensures |s| == Q + 1
  {
    if l.z != 0 then
      [Vec(0, 1, Solve(l.z, l.y))] + seq(7, y => Vec(1, y, Solve(l.z, l.x + l.y * y)))
    else if l.y != 0 then
      [Vec(0, 0, 1)] + seq(7, z => Vec(1, Solve(l.y, l.x), z))
    else
      [Vec(0, 0, 1)] + seq(7, z => Vec(0, 1, z))
  }

  lemma LinePointsDistinct(l: Vec)
    requires InRange(l) && NonZero(l)
    ensures Distinct(LinePoints(l))
  {
  }

  lemma DotOf(l: Vec, x: int, y: int, z: int)
    ensures Dot(l, Vec(x, y, z)) == l.x * x + l.y * y + l.z * z
  {
  }

  lemma SolvedPointZ(l: Vec, y: int)
    requires InRange(l) && l.z != 0
    ensures Incident(l, Vec(1, y, Solve(l.z, l.x + l.y * y)))
  {
    var z := Solve(l.z, l.x + l.y * y);
    assert Dot(l, Vec(1, y, z)) == l.z * z + (l.x + l.y * y);
    SolveIncident(l, Vec(1, y, z), l.z, l.x + l.y * y);
  }

  lemma SolvedPointZInfinite(l: Vec)
    requires InRange(l) && l.z != 0
    ensures Incident(l, Vec(0, 1, Solve(l.z, l.y)))
  {
    var z := Solve(l.z, l.y);
    assert Dot(l, Vec(0, 1, z)) == l.z * z + l.y;
    SolveIncident(l, Vec(0, 1, z), l.z, l.y);
  }

  lemma SolvedPointY(l: Vec, z: int)
    requires InRange(l) && l.z == 0 && l.y != 0
    ensures Incident(l, Vec(1, Solve(l.y, l.x), z))
  {
    var y := Solve(l.y, l.x);
    assert Dot(l, Vec(1, y, z)) == l.y * y + l.x;
    SolveIncident(l, Vec(1, y, z), l.y, l.x);
  }

  lemma PointsAtInfinityX(l: Vec, z: int)
    requires l.z == 0 && l.y == 0
    ensures Incident(l, Vec(0, 0, 1)) && Incident(l, Vec(0, 1, z))
  {
    assert Dot(l, Vec(0, 0, 1)) == 0;
    assert Dot(l, Vec(0, 1, z)) == 0;
  }

  lemma LinePointsSound(l: Vec, i: int)
    requires InRange(l) && NonZero(l) && 0 <= i < |LinePoints(l)|
    ensures Canonical(LinePoints(l)[i]) && Incident(l, LinePoints(l)[i])
  {
    var s := LinePoints(l);
    if l.z != 0 {
      if i == 0 {
        SolvedPointZInfinite(l);
      } else {
        assert s[i] == Vec(1, i - 1, Solve(l.z, l.x + l.y * (i - 1)));
        SolvedPointZ(l, i - 1);
      }
    } else if l.y != 0 {
      if i == 0 {
        assert Dot(l, Vec(0, 0, 1)) == 0;
      } else {
        assert s[i] == Vec(1, Solve(l.y, l.x), i - 1);
        SolvedPointY(l, i - 1);
      }
    } else {
      PointsAtInfinityX(l, i - 1);
      if i > 0 {
        assert s[i] == Vec(0, 1, i - 1);
      }
    }
  }

  lemma CompleteZAffine(l: Vec, y: int, z: int)
    requires InRange(l) && l.z != 0 && IsElem(y) && IsElem(z) && Incident(l, Vec(1, y, z))
    ensures Vec(1, y, z) in LinePoints(l)
  {
    var t := l.x + l.y * y;
    assert Dot(l, Vec(1, y, z)) == l.z * z + t;
    SolveUnique(l.z, t, z);
    assert LinePoints(l)[1 + y] == Vec(1, y, z);
  }

  lemma CompleteZInfinite(l: Vec, z: int)
    requires InRange(l) && l.z != 0 && IsElem(z) && Incident(l, Vec(0, 1, z))
    ensures Vec(0, 1, z) in LinePoints(l)
  {
    assert Dot(l, Vec(0, 1, z)) == l.z * z + l.y;
    SolveUnique(l.z, l.y, z);
    assert LinePoints(l)[0] == Vec(0, 1, z);
  }

  lemma LinePointsCompleteZ(l: Vec, p: Vec)
    requires InRange(l) && l.z != 0 && Canonical(p) && Incident(l, p)
    ensures p in LinePoints(l)
  {
    assert Dot(l, Vec(0, 0, 1)) == l.z;
    if p.x == 1 {
      CompleteZAffine(l, p.y, p.z);
    } else if p.y == 1 {
      CompleteZInfinite(l, p.z);
    } else {
      assert false;
    }
  }

  lemma CompleteYAffine(l: Vec, y: int, z: int)
    requires InRange(l) && l.z == 0 && l.y != 0 && IsElem(y) && IsElem(z) && Incident(l, Vec(1, y, z))
    ensures Vec(1, y, z) in LinePoints(l)
  {
    assert Dot(l, Vec(1, y, z)) == l.y * y + l.x;
    SolveUnique(l.y, l.x, y);
    assert LinePoints(l)[1 + z] == Vec(1, y, z);
  }

  lemma LinePointsCompleteY(l: Vec, p: Vec)
    requires InRange(l) && l.z == 0 && l.y != 0 && Canonical(p) && Incident(l, p)
    ensures p in LinePoints(l)
  {
    if p.x == 1 {
      CompleteYAffine(l, p.y, p.z);
    } else if p.y == 1 {
      assert false;
    } else {
      assert LinePoints(l)[0] == p;
    }
  }

  lemma LinePointsCompleteX(l: Vec, p: Vec)
    requires InRange(l) && NonZero(l) && l.z == 0 && l.y == 0 && Canonical(p) && Incident(l, p)
    ensures p in LinePoints(l)
  {
    var s := LinePoints(l);
    DotOf(l, p.x, p.y, p.z);
    if p.x == 1 {
      assert false;
    } else if p.y == 1 {
      assert s[1 + p.z] == p;
    } else {
      assert s[0] == p;
    }
  }

  /** LinePoints lists exactly the canonical points on the line. */
  lemma LinePointsExact(l: Vec, p: Vec)
    requires InRange(l) && NonZero(l)
    ensures p in LinePoints(l) <==> Canonical(p) && Incident(l, p)
  {
    if p in LinePoints(l) {
      var i :| 0 <= i < |LinePoints(l)| && LinePoints(l)[i] == p;
      LinePointsSound(l, i);
    }
    if Canonical(p) && Incident(l, p) {
      if l.z != 0 {
        LinePointsCompleteZ(l, p);
      } else if l.y != 0 {
        LinePointsCompleteY(l, p);
      } else {
        LinePointsCompleteX(l, p);
      }
    }
  }
}
