/** What the chord law of the curve computes, without assuming that it associates.

    The negated sum of two points is the third point on their line, and adding the inverse of
    a point undoes adding it.  The latter holds on a whole curve exactly when the curve has no
    singular point, which its discriminant decides. */
module ChordLaw {
  import opened Modular
  import opened Primes
  import opened Curve

  // ---- Congruences ----

  predicate Vanishes(p: Modulus, e: int) { e % p == 0 }

  lemma Combine(p: Modulus, h: int, k: int, h': int, k': int)
    requires Vanishes(p, h) && Vanishes(p, h')
    ensures Vanishes(p, h * k + h' * k')
  {
    ZeroTimes(h, k, p);
    ZeroTimes(h', k', p);
    ZeroPlus(h * k, h' * k', p);
  }

  lemma Multiplied(p: Modulus, h: int, k: int)
    requires Vanishes(p, h)
    ensures Vanishes(p, h * k)
  {
    ZeroTimes(h, k, p);
  }

  lemma Added(p: Modulus, h: int, h': int)
    requires Vanishes(p, h) && Vanishes(p, h')
    ensures Vanishes(p, h + h') && Vanishes(p, h - h')
  {
    ZeroPlus(h, h', p);
  }

  lemma Residue(p: Modulus, e: int)
    ensures Vanishes(p, e % p - e) && Vanishes(p, e - e % p)
  {
    ReducedDiffers(e, p);
    ModSmall(0, p);
    ZeroPlus(0, e % p - e, p);
  }

  /** Numbers below p that are congruent are equal. */
  lemma SameBelow(p: Modulus, a: nat, b: nat)
    requires a < p && b < p && Vanishes(p, a - b)
    ensures a == b
  {
    ModEqIffZero(a, b, p);
    ModSmall(a, p);
    ModSmall(b, p);
  }

  lemma SlopeIsUnique(p: Modulus, s: nat, s': nat, d: int, n: int)
    requires IsPrime(p) && s < p && s' < p && d % p != 0
    requires Vanishes(p, s * d - n) && Vanishes(p, s' * d - n)
    ensures s == s'
  {
    Added(p, s * d - n, s' * d - n);
    assert (s - s') * d == s * d - n - (s' * d - n);
    CancelZero(s - s', d, p);
    SameBelow(p, s, s');
  }

  // ---- The slope of two points that have a line and a third point ----

  predicate HaveSlope(a: Point, b: Point) {
    a.Affine? && b.Affine? && (a.x == b.x ==> a == b && a.y != 0)
  }

  function Rise(a: Point, b: Point): int
    requires HaveSlope(a, b)
  {
    if a.x != b.x then b.y - a.y else 3 * a.x * a.x + 1
  }

  function Run(a: Point, b: Point): int
    requires HaveSlope(a, b)
  {
    if a.x != b.x then b.x - a.x else 2 * a.y
  }

  /** The chord of two points, or the tangent at one. */
  predicate IsSlope(p: Modulus, s: nat, a: Point, b: Point)
    requires HaveSlope(a, b)
  {
    s < p && Vanishes(p, s * Run(a, b) - Rise(a, b))
  }

  lemma TangentIs(p: Modulus, x: nat, y: nat)
    requires IsPrime(p) && p % 2 == 1 && 0 < y < p
    ensures IsSlope(p, Divide(p, (3 * x * x + 1) % p, 2 * y % p), Affine(x, y), Affine(x, y))
  {
    TangentFits(p, x, y);
    var s := Divide(p, (3 * x * x + 1) % p, 2 * y % p);
    TangentPart(s, x, y);
    ModSmall(0, p);
    ZeroPlus(0, LinearPart(s, x, y, x), p);
  }

  lemma RunIsNonzero(f: Curve, a: Point, b: Point)
    requires OddPrimeField(f) && OnCurve(f, a) && OnCurve(f, b) && HaveSlope(a, b)
    ensures Run(a, b) % f.p != 0
  {
    if a.x != b.x {
      DistinctDiffer(f.p, a.x, b.x);
    } else {
      TwiceIsNonzero(f.p, a.y);
    }
  }

  /** Addition is the third point of the line with that slope, whatever computed it. */
  lemma SumHasSlope(f: Curve, a: Point, b: Point) returns (s: nat)
    requires OddPrimeField(f) && OnCurve(f, a) && OnCurve(f, b) && HaveSlope(a, b)
    ensures IsSlope(f.p, s, a, b) && PointAdd(f, a, b) == ThirdPoint(f.p, s, a.x, a.y, b.x)
  {
    if a.x != b.x {
      ChordIs(f.p, a, b);
      s := Divide(f.p, (b.y - a.y) % f.p, (b.x - a.x) % f.p);
    } else {
      TangentIs(f.p, a.x, a.y);
      s := Divide(f.p, (3 * a.x * a.x + 1) % f.p, 2 * a.y % f.p);
    }
  }

  lemma SlopeGivesSum(f: Curve, a: Point, b: Point, s: nat)
    requires OddPrimeField(f) && OnCurve(f, a) && OnCurve(f, b) && HaveSlope(a, b) && IsSlope(f.p, s, a, b)
    ensures PointAdd(f, a, b) == ThirdPoint(f.p, s, a.x, a.y, b.x)
  {
    var s' := SumHasSlope(f, a, b);
    RunIsNonzero(f, a, b);
    SlopeIsUnique(f.p, s, s', Run(a, b), Rise(a, b));
  }

  /** The two coordinates of the sum, as congruences. */
  lemma ThirdCoordinates(p: Modulus, s: nat, x: nat, y: nat, x': nat)
    ensures var c := ThirdPoint(p, s, x, y, x');
      && c.Affine? && c.x < p && c.y < p
      && Vanishes(p, c.x - (s * s - x - x')) && Vanishes(p, c.y - (s * (x - c.x) - y))
  {
    var c := ThirdPoint(p, s, x, y, x');
    Residue(p, s * s - x - x');
    Residue(p, s * (x - c.x) - y);
  }

  lemma NegatedOrdinate(f: Curve, a: Point)
    requires a.Affine? && a.y < f.p
    ensures Negate(f, a).x == a.x && Negate(f, a).y < f.p && Vanishes(f.p, Negate(f, a).y + a.y)
  {
    Residue(f.p, f.p - a.y);
    assert (f.p - a.y) % f.p - (f.p - a.y) == Negate(f, a).y + a.y - f.p * 1;
    ModShift(Negate(f, a).y + a.y, 0 - 1, f.p);
  }

  // ---- Three points on one line ----

  /** The three points lie on one line, cleared of the division. */
  predicate OnOneLine(p: Modulus, a: Point, b: Point, c: Point)
    requires HaveSlope(a, b) && c.Affine?
  {
    Vanishes(p, (c.y - a.y) * Run(a, b) - Rise(a, b) * (c.x - a.x))
  }

  /** Their abscissas add up to the square of its slope. */
  predicate AbscissasAddUp(p: Modulus, a: Point, b: Point, c: Point)
    requires HaveSlope(a, b) && c.Affine?
  {
    Vanishes(p, Run(a, b) * Run(a, b) * (a.x + b.x + c.x) - Rise(a, b) * Rise(a, b))
  }

  /** For two points with a line, chord or tangent, the negated sum is the third point on it. */
  lemma NegatedSumIsThird(f: Curve, a: Point, b: Point)
    requires OddPrimeField(f) && OnCurve(f, a) && OnCurve(f, b) && HaveSlope(a, b)
    ensures var c := Negate(f, PointAdd(f, a, b)); c.Affine? && OnOneLine(f.p, a, b, c) && AbscissasAddUp(f.p, a, b, c)
  {
    hide OnCurve, PointAdd, ThirdPoint, Vanishes, Run, Rise, Negate, IsPrime;
    var s := SumHasSlope(f, a, b);
    var sum := PointAdd(f, a, b);
    ThirdCoordinates(f.p, s, a.x, a.y, b.x);
    NegateIsAffine(f, sum);
    NegatedOrdinate(f, sum);
    var c := Negate(f, sum);
    LineThrough(f.p, s, Run(a, b), Rise(a, b), a.x, a.y, c.x, c.y, sum.y);
    AbscissasOf(f.p, s, Run(a, b), Rise(a, b), a.x, b.x, c.x);
  }

  lemma LineThrough(p: Modulus, s: int, d: int, n: int, x: int, y: int, x3: int, y3: int, y3': int)
    requires Vanishes(p, s * d - n) && Vanishes(p, y3 + y3') && Vanishes(p, y3' - (s * (x - x3) - y))
    ensures Vanishes(p, (y3 - y) * d - n * (x3 - x))
  {
    hide Vanishes;
    Added(p, y3 + y3', y3' - (s * (x - x3) - y));
    Combine(p, y3 + y3' - (y3' - (s * (x - x3) - y)), d, s * d - n, x3 - x);
    LineIdentity(s, d, n, x, y, x3, y3, y3');
  }

  lemma LineIdentity(s: int, d: int, n: int, x: int, y: int, x3: int, y3: int, y3': int)
    ensures (y3 + y3' - (y3' - (s * (x - x3) - y))) * d + (s * d - n) * (x3 - x) == (y3 - y) * d - n * (x3 - x)
  {
  }

  lemma AbscissasOf(p: Modulus, s: int, d: int, n: int, x: int, x': int, x3: int)
    requires Vanishes(p, s * d - n) && Vanishes(p, x3 - (s * s - x - x'))
    ensures Vanishes(p, d * d * (x + x' + x3) - n * n)
  {
    hide Vanishes;
    Combine(p, x3 - (s * s - x - x'), d * d, s * d - n, s * d + n);
    AbscissasIdentity(s, d, n, x, x', x3);
  }

  lemma AbscissasIdentity(s: int, d: int, n: int, x: int, x': int, x3: int)
    ensures (x3 - (s * s - x - x')) * (d * d) + (s * d - n) * (s * d + n) == d * d * (x + x' + x3) - n * n
  {
  }

  /** Written out for the chord of two points with different abscissas. */
  lemma ChordThird(f: Curve, a: Point, b: Point)
    requires OddPrimeField(f) && OnCurve(f, a) && OnCurve(f, b) && a.Affine? && b.Affine? && a.x != b.x
    ensures var c := Negate(f, PointAdd(f, a, b));
      && c.Affine? && ((c.y - a.y) * (b.x - a.x) - (b.y - a.y) * (c.x - a.x)) % f.p == 0
      && ((b.x - a.x) * (b.x - a.x) * (a.x + b.x + c.x) - (b.y - a.y) * (b.y - a.y)) % f.p == 0
  {
    hide OnCurve, PointAdd, Negate, IsPrime;
    NegatedSumIsThird(f, a, b);
  }

  /** And for the tangent at a point that is not its own inverse. */
  lemma TangentThird(f: Curve, a: Point)
    requires OddPrimeField(f) && OnCurve(f, a) && a.Affine? && a.y != 0
    ensures var c := Negate(f, PointDouble(f, a));
      && c.Affine? && ((c.y - a.y) * (2 * a.y) - (3 * a.x * a.x + 1) * (c.x - a.x)) % f.p == 0
      && (2 * a.y * (2 * a.y) * (a.x + a.x + c.x) - (3 * a.x * a.x + 1) * (3 * a.x * a.x + 1)) % f.p == 0
  {
    DoubleIsAdd(f, a);
    hide OnCurve, PointAdd, PointDouble, Negate, IsPrime;
    NegatedSumIsThird(f, a, a);
  }

  // ---- Adding the inverse undoes adding ----

  /** Minus the slope, as a residue. */
  function Opposite(p: Modulus, s: nat): nat { (0 - s) % p }

  lemma OppositeIs(p: Modulus, s: nat)
    ensures Opposite(p, s) < p && Vanishes(p, Opposite(p, s) + s)
  {
    Residue(p, 0 - s);
  }

  /** The line of a and b, read from b: its mirrored third point lies as far from b. */
  lemma MirroredAtEnd(p: Modulus, s: nat, a: Point, b: Point)
    requires HaveSlope(a, b) && IsSlope(p, s, a, b)
    ensures var c := ThirdPoint(p, s, a.x, a.y, b.x); Vanishes(p, c.y - (s * (b.x - c.x) - b.y))
  {
    hide ThirdPoint, Vanishes;
    ThirdCoordinates(p, s, a.x, a.y, b.x);
    var c := ThirdPoint(p, s, a.x, a.y, b.x);
    if a.x != b.x {
      Added(p, c.y - (s * (a.x - c.x) - a.y), s * (b.x - a.x) - (b.y - a.y));
      EndIdentity(s, a.x, a.y, b.x, b.y, c.x, c.y);
    }
  }

  lemma EndIdentity(s: int, x: int, y: int, x': int, y': int, x3: int, y3: int)
    ensures y3 - (s * (x - x3) - y) - (s * (x' - x) - (y' - y)) == y3 - (s * (x' - x3) - y')
  {
  }

  /** A third point over b is the inverse of b, and the line is the tangent there. */
  lemma ThirdAtEnd(f: Curve, s: nat, a: Point, b: Point)
    requires OddPrimeField(f) && OnCurve(f, a) && OnCurve(f, b) && HaveSlope(a, b) && IsSlope(f.p, s, a, b)
    requires ThirdPoint(f.p, s, a.x, a.y, b.x).x == b.x
    ensures ThirdPoint(f.p, s, a.x, a.y, b.x) == Negate(f, b)
    ensures Vanishes(f.p, s * (2 * b.y) - (3 * b.x * b.x + 1))
  {
    hide ThirdPoint, Vanishes, Negate, OnCurve, IsPrime;
    var c := ThirdPoint(f.p, s, a.x, a.y, b.x);
    ThirdCoordinates(f.p, s, a.x, a.y, b.x);
    MirroredAtEnd(f.p, s, a, b);
    Bounded(f, b);
    NegatedOrdinate(f, b);
    NegateIsAffine(f, b);
    OrdinateAtEnd(f.p, s, b.x - c.x, b.y, Negate(f, b).y, c.y);
    if a.x != b.x {
      TangentAtEnd(f, s, a, b);
    }
  }

  lemma OrdinateAtEnd(p: Modulus, s: nat, d: int, y: int, n: nat, y3: nat)
    requires d == 0 && n < p && y3 < p && Vanishes(p, n + y) && Vanishes(p, y3 - (s * d - y))
    ensures y3 == n
  {
    hide Vanishes;
    assert s * d == 0;
    Added(p, y3 - (s * d - y), n + y);
    SameBelow(p, y3, n);
  }

  lemma NegateIsAffine(f: Curve, a: Point)
    ensures Negate(f, a).Affine? <==> a.Affine?
  {
  }

  lemma TangentAtEnd(f: Curve, s: nat, a: Point, b: Point)
    requires OddPrimeField(f) && OnCurve(f, a) && OnCurve(f, b) && a.Affine? && b.Affine? && a.x != b.x && IsSlope(f.p, s, a, b)
    requires Vanishes(f.p, b.x - (s * s - a.x - b.x))
    ensures Vanishes(f.p, s * (2 * b.y) - (3 * b.x * b.x + 1))
  {
    ChordFits(f, s, a, b);
    assert Vanishes(f.p, LinearPart(s, a.x, a.y, b.x));
    var m, chord, third := LinearPart(s, a.x, a.y, b.x), s * (b.x - a.x) - (b.y - a.y), b.x - (s * s - a.x - b.x);
    hide OnCurve, Vanishes, LinearPart;
    Combine(f.p, chord, 0 - 2 * s, third, a.x - b.x);
    Added(f.p, chord * (0 - 2 * s) + third * (a.x - b.x), m);
    TangentIdentity(s, a.x, a.y, b.x, b.y);
  }

  lemma TangentIdentity(s: int, x: int, y: int, x': int, y': int)
    ensures (s * (x' - x) - (y' - y)) * (0 - 2 * s) + (x' - (s * s - x - x')) * (x - x') - LinearPart(s, x, y, x')
         == s * (2 * y') - (3 * x' * x' + 1)
  {
  }

  /** No point of the curve has ordinate zero and a vertical double tangent. */
  ghost predicate IsSmooth(f: Curve) {
    forall x: nat :: OnCurve(f, Affine(x, 0)) ==> !Vanishes(f.p, 3 * x * x + 1)
  }

  lemma FlatTangent(p: Modulus, s: nat, y: int, t: int)
    requires Vanishes(p, s * (2 * y) - t) && y == 0
    ensures Vanishes(p, t)
  {
    ModSmall(0, p);
    Added(p, 0, s * (2 * y) - t);
    assert s * (2 * y) == 0;
  }

  lemma EndIsNotFlat(f: Curve, s: nat, b: Point)
    requires IsSmooth(f) && OnCurve(f, b) && b.Affine? && Vanishes(f.p, s * (2 * b.y) - (3 * b.x * b.x + 1))
    ensures b.y != 0 && Negate(f, b).y != 0
  {
    if b.y == 0 {
      FlatTangent(f.p, s, b.y, 3 * b.x * b.x + 1);
    } else {
      ModSmall(f.p - b.y, f.p);
    }
  }

  lemma TangentBack(p: Modulus, s: nat, back: nat, y: int, n: int, t: int)
    requires Vanishes(p, back + s) && Vanishes(p, n + y) && Vanishes(p, s * (2 * y) - t)
    ensures Vanishes(p, back * (2 * n) - t)
  {
    hide Vanishes;
    Combine(p, back + s, 2 * n, n + y, 0 - 2 * s);
    Added(p, (back + s) * (2 * n) + (n + y) * (0 - 2 * s), s * (2 * y) - t);
    assert (back + s) * (2 * n) + (n + y) * (0 - 2 * s) + (s * (2 * y) - t) == back * (2 * n) - t;
  }

  lemma ChordBack(p: Modulus, s: nat, back: nat, d: int, y: int, n: int, y3: int)
    requires Vanishes(p, back + s) && Vanishes(p, n + y) && Vanishes(p, y3 - (s * d - y))
    ensures Vanishes(p, back * d - (n - y3))
  {
    hide Vanishes;
    Multiplied(p, back + s, d);
    Added(p, (back + s) * d, y3 - (s * d - y));
    Added(p, (back + s) * d + (y3 - (s * d - y)), n + y);
    assert (back + s) * d + (y3 - (s * d - y)) - (n + y) == back * d - (n - y3);
  }

  /** From the sum back, the slope is the opposite one. */
  lemma SlopeBack(f: Curve, s: nat, a: Point, b: Point)
    requires OddPrimeField(f) && IsSmooth(f) && OnCurve(f, a) && OnCurve(f, b) && HaveSlope(a, b) && IsSlope(f.p, s, a, b)
    ensures var c := ThirdPoint(f.p, s, a.x, a.y, b.x);
      HaveSlope(c, Negate(f, b)) && IsSlope(f.p, Opposite(f.p, s), c, Negate(f, b))
  {
    hide ThirdPoint, OnCurve, Opposite, Vanishes, Negate, IsSmooth, IsPrime;
    var c, n, back := ThirdPoint(f.p, s, a.x, a.y, b.x), Negate(f, b), Opposite(f.p, s);
    ThirdCoordinates(f.p, s, a.x, a.y, b.x);
    MirroredAtEnd(f.p, s, a, b);
    Bounded(f, b);
    NegateIsAffine(f, b);
    NegatedOrdinate(f, b);
    OppositeIs(f.p, s);
    if c.x == b.x {
      ThirdAtEnd(f, s, a, b);
      EndIsNotFlat(f, s, b);
      TangentBack(f.p, s, back, b.y, n.y, 3 * b.x * b.x + 1);
    } else {
      ChordBack(f.p, s, back, b.x - c.x, b.y, n.y, c.y);
    }
  }

  /** The line back meets the curve in a. */
  lemma ThirdBack(p: Modulus, s: nat, back: nat, a: Point, x': nat)
    requires a.Affine? && a.x < p && a.y < p && Vanishes(p, back + s)
    ensures var c := ThirdPoint(p, s, a.x, a.y, x'); ThirdPoint(p, back, c.x, c.y, x') == a
  {
    hide ThirdPoint, Vanishes;
    var c := ThirdPoint(p, s, a.x, a.y, x');
    ThirdCoordinates(p, s, a.x, a.y, x');
    var e := ThirdPoint(p, back, c.x, c.y, x');
    ThirdCoordinates(p, back, c.x, c.y, x');
    AbscissaBack(p, s, back, a.x, x', c.x, e.x);
    SameBelow(p, e.x, a.x);
    OrdinateBack(p, s, back, a.x, a.y, c.x, c.y, e.y);
    SameBelow(p, e.y, a.y);
  }

  lemma AbscissaBack(p: Modulus, s: nat, back: nat, x: int, x': int, x3: int, e: int)
    requires Vanishes(p, back + s) && Vanishes(p, x3 - (s * s - x - x')) && Vanishes(p, e - (back * back - x3 - x'))
    ensures Vanishes(p, e - x)
  {
    hide Vanishes;
    Multiplied(p, back + s, back - s);
    Added(p, e - (back * back - x3 - x'), (back + s) * (back - s));
    Added(p, e - (back * back - x3 - x') + (back + s) * (back - s), x3 - (s * s - x - x'));
    assert e - (back * back - x3 - x') + (back + s) * (back - s) - (x3 - (s * s - x - x')) == e - x;
  }

  lemma OrdinateBack(p: Modulus, s: nat, back: nat, x: int, y: int, x3: int, y3: int, e: int)
    requires Vanishes(p, back + s) && Vanishes(p, y3 - (s * (x - x3) - y)) && Vanishes(p, e - (back * (x3 - x) - y3))
    ensures Vanishes(p, e - y)
  {
    hide Vanishes;
    Multiplied(p, back + s, x3 - x);
    Added(p, e - (back * (x3 - x) - y3), (back + s) * (x3 - x));
    Added(p, e - (back * (x3 - x) - y3) + (back + s) * (x3 - x), y3 - (s * (x - x3) - y));
    assert e - (back * (x3 - x) - y3) + (back + s) * (x3 - x) - (y3 - (s * (x - x3) - y)) == e - y;
  }

  lemma RootsAreOpposite(p: Modulus, y: nat, y': nat, square: int)
    requires IsPrime(p) && y < p && y' < p && y != y' && Vanishes(p, y * y - square) && Vanishes(p, y' * y' - square)
    ensures Vanishes(p, y + y')
  {
    Added(p, y * y - square, y' * y' - square);
    assert (y + y') * (y - y') == y * y - square - (y' * y' - square);
    DistinctDiffer(p, y', y);
    CancelZero(y + y', y - y', p);
  }

  lemma IsRoot(f: Curve, a: Point)
    requires OnCurve(f, a) && a.Affine?
    ensures Vanishes(f.p, a.y * a.y - (a.x * a.x * a.x + a.x + f.beta))
  {
  }

  /** Points over one abscissa are equal or inverse. */
  lemma SameAbscissa(f: Curve, a: Point, b: Point)
    requires OddPrimeField(f) && OnCurve(f, a) && OnCurve(f, b) && a.Affine? && b.Affine? && a.x == b.x && !HaveSlope(a, b)
    ensures a == Negate(f, b)
  {
    hide IsPrime, OnCurve, Vanishes, Negate;
    Bounded(f, a);
    Bounded(f, b);
    NegateIsAffine(f, b);
    NegatedOrdinate(f, b);
    if a.y == b.y {
      FlatInverse(f, b);
    } else {
      IsRoot(f, a);
      IsRoot(f, b);
      RootsAreOpposite(f.p, a.y, b.y, a.x * a.x * a.x + a.x + f.beta);
      Added(f.p, a.y + b.y, Negate(f, b).y + b.y);
      SameBelow(f.p, a.y, Negate(f, b).y);
    }
  }

  lemma FlatInverse(f: Curve, a: Point)
    requires a.Affine? && a.y == 0
    ensures Negate(f, a) == a
  {
    ModShift(0, 1, f.p);
    ModSmall(0, f.p);
  }

  /** On a smooth curve adding the inverse of a point undoes adding the point. */
  lemma AdditionCancels(f: Curve, a: Point, b: Point)
    requires OddPrimeField(f) && IsSmooth(f) && OnCurve(f, a) && OnCurve(f, b)
    ensures PointAdd(f, PointAdd(f, a, b), Negate(f, b)) == a
  {
    hide IsSmooth, OnCurve, ThirdPoint, Divide, IsPrime, Vanishes;
    if a.Infinity? {
      NegateIsInverse(f, b);
    } else if b.Affine? {
      if HaveSlope(a, b) {
        hide PointAdd;
        var s := SumHasSlope(f, a, b);
        var c := PointAdd(f, a, b);
        SlopeBack(f, s, a, b);
        AddStaysOnCurve(f, a, b);
        NegateStaysOnCurve(f, b);
        NegateIsAffine(f, b);
        SlopeGivesSum(f, c, Negate(f, b), Opposite(f.p, s));
        OppositeIs(f.p, s);
        Bounded(f, a);
        ThirdBack(f.p, s, Opposite(f.p, s), a, b.x);
      } else {
        SameAbscissa(f, a, b);
      }
    }
  }

  // ---- Exactly the smooth curves cancel ----

  function Discriminant(f: Curve): nat { 4 + 27 * f.beta * f.beta }

  lemma DiscriminantIdentity(x: int, q: int, u: int, beta: int)
    requires q == x * x && u == x * x * x + x
    ensures (3 * q + 1) * ((3 * q + 1) * (3 * q + 1) + 3 * (3 * q + 1)) + (u + beta) * (27 * beta - 27 * u) == 4 + 27 * beta * beta
  {
    assert u == x * (q + 1);
    assert u * u == q * (q + 1) * (q + 1) by { assert x * (q + 1) * (x * (q + 1)) == x * x * ((q + 1) * (q + 1)); }
    assert (3 * q + 1) * ((3 * q + 1) * (3 * q + 1) + 3 * (3 * q + 1)) == 27 * (q * (q + 1) * (q + 1)) + 4;
    assert (u + beta) * (27 * beta - 27 * u) == 27 * (beta * beta) - 27 * (u * u);
  }

  /** A singular point makes the discriminant vanish. */
  lemma SingularVanishes(p: Modulus, x: int, beta: int)
    requires Vanishes(p, 3 * (x * x) + 1) && Vanishes(p, x * x * x + x + beta)
    ensures Vanishes(p, 4 + 27 * beta * beta)
  {
    hide Vanishes;
    var q, u := x * x, x * x * x + x;
    var t := 3 * q + 1;
    Combine(p, t, t * t + 3 * t, u + beta, 27 * beta - 27 * u);
    DiscriminantIdentity(x, q, u, beta);
  }

  lemma CancelFactor(p: Modulus, k: nat, e: int)
    requires IsPrime(p) && p % 2 == 1 && (k == 4 || k == 8) && Vanishes(p, k * e)
    ensures Vanishes(p, e)
  {
    assert k * e == e * k;
    assert k % p != 0 by {
      if p >= 9 {
        ModSmall(k, p);
      } else {
        assert p == 3 || p == 5 || p == 7;
      }
    }
    CancelZero(e, k, p);
  }

  lemma FlatTangentAt(p: Modulus, x: int, beta: int)
    requires IsPrime(p) && p % 2 == 1 && Vanishes(p, 2 * x + 3 * beta) && Vanishes(p, 4 + 27 * beta * beta)
    ensures Vanishes(p, 3 * (x * x) + 1)
  {
    hide Vanishes, IsPrime;
    Combine(p, 2 * x + 3 * beta, 3 * (2 * x - 3 * beta), 4 + 27 * beta * beta, 1);
    assert (2 * x + 3 * beta) * (3 * (2 * x - 3 * beta)) == 12 * (x * x) - 27 * (beta * beta);
    assert 27 * beta * beta == 27 * (beta * beta);
    CancelFactor(p, 4, 3 * (x * x) + 1);
  }

  lemma RootAt(p: Modulus, x: int, beta: int)
    requires IsPrime(p) && p % 2 == 1 && Vanishes(p, 2 * x + 3 * beta) && Vanishes(p, 4 + 27 * beta * beta)
    ensures Vanishes(p, x * x * x + x + beta)
  {
    hide Vanishes, IsPrime;
    var z := 2 * x;
    Combine(p, z + 3 * beta, z * z - 3 * beta * z + 9 * beta * beta + 4, 4 + 27 * beta * beta, 0 - beta);
    EightTimes(x, z, beta);
    CancelFactor(p, 8, x * x * x + x + beta);
  }

  /** A vanishing discriminant has its singular point at abscissa -3 beta / 2. */
  lemma VanishingIsSingular(p: Modulus, beta: nat) returns (x: nat)
    requires IsPrime(p) && p % 2 == 1 && Vanishes(p, 4 + 27 * beta * beta)
    ensures x < p && Vanishes(p, 3 * (x * x) + 1) && Vanishes(p, x * x * x + x + beta)
  {
    hide Vanishes, IsPrime;
    x := (0 - 3 * beta) * ((p + 1) / 2) % p;
    HalfIs(p, 0 - 3 * beta, (p + 1) / 2);
    assert 2 * x - (0 - 3 * beta) == 2 * x + 3 * beta;
    FlatTangentAt(p, x, beta);
    RootAt(p, x, beta);
  }

  lemma HalfIs(p: Modulus, n: int, half: nat)
    requires 2 * half == p + 1
    ensures Vanishes(p, 2 * (n * half % p) - n)
  {
    Residue(p, n * half);
    Multiplied(p, n * half % p - n * half, 2);
    ModShift(0, n, p);
    ModSmall(0, p);
    assert n * half * 2 == n * p + n by { assert n * (2 * half) == n * (p + 1); }
    Added(p, (n * half % p - n * half) * 2, p * n);
  }

  lemma EightTimes(x: int, z: int, beta: int)
    requires z == 2 * x
    ensures (z + 3 * beta) * (z * z - 3 * beta * z + 9 * beta * beta + 4) + (4 + 27 * beta * beta) * (0 - beta) == 8 * (x * x * x + x + beta)
  {
    assert (z + 3 * beta) * (z * z - 3 * beta * z + 9 * beta * beta) == z * z * z + 27 * (beta * beta * beta);
    assert z * z * z == 8 * (x * x * x);
    assert (4 + 27 * beta * beta) * (0 - beta) == 0 - 4 * beta - 27 * (beta * beta * beta);
  }

  /** The discriminant decides whether a curve is smooth. */
  lemma SmoothIff(f: Curve)
    requires OddPrimeField(f)
    ensures IsSmooth(f) <==> !Vanishes(f.p, Discriminant(f))
  {
    if Vanishes(f.p, Discriminant(f)) {
      var x := VanishingIsSingular(f.p, f.beta);
      FlatIsOnCurve(f, x);
      assert 3 * x * x + 1 == 3 * (x * x) + 1;
    } else {
      forall x: nat | OnCurve(f, Affine(x, 0)) ensures !Vanishes(f.p, 3 * x * x + 1) {
        FlatIsOnCurve(f, x);
        assert 3 * x * x + 1 == 3 * (x * x) + 1;
        if Vanishes(f.p, 3 * x * x + 1) {
          SingularVanishes(f.p, x, f.beta);
        }
      }
    }
  }

  lemma FlatIsOnCurve(f: Curve, x: nat)
    ensures OnCurve(f, Affine(x, 0)) <==> x < f.p && Vanishes(f.p, x * x * x + x + f.beta)
  {
    var cubic := x * x * x + x + f.beta;
    ModSmall(0, f.p);
    if Vanishes(f.p, cubic) {
      ZeroPlus(0, cubic, f.p);
    }
    if Vanishes(f.p, 0 - cubic) {
      ZeroPlus(0, 0 - cubic, f.p);
    }
  }

  /** Adding the inverse of any point undoes adding the point. */
  ghost predicate Cancels(f: Curve) {
    forall a, b :: OnCurve(f, a) && OnCurve(f, b) ==> PointAdd(f, PointAdd(f, a, b), Negate(f, b)) == a
  }

  /** The horizontal line through a singular point (x, 0) meets the curve again at -2x, and comes back to (x, 0). */
  lemma SingularSwallows(f: Curve, x: nat) returns (a: Point)
    requires OddPrimeField(f) && OnCurve(f, Affine(x, 0)) && Vanishes(f.p, 3 * x * x + 1)
    ensures OnCurve(f, a) && a != Affine(x, 0) && a.Affine? && PointAdd(f, a, Affine(x, 0)) == Affine(x, 0)
  {
    var b := Affine(x, 0);
    a := Affine((0 - 2 * x) % f.p, 0);
    FlatIsOnCurve(f, x);
    OtherRoot(f.p, x, a.x, f.beta);
    FlatIsOnCurve(f, a.x);
    hide Vanishes;
    assert HaveSlope(a, b);
    FlatSlope(f.p, a, b);
    SlopeGivesSum(f, a, b, 0);
    FlatThird(f.p, a.x, x);
  }

  lemma FlatSlope(p: Modulus, a: Point, b: Point)
    requires HaveSlope(a, b) && a.x != b.x && a.y == b.y
    ensures IsSlope(p, 0, a, b)
  {
    ModSmall(0, p);
    assert 0 * Run(a, b) == 0;
  }

  lemma FlatThird(p: Modulus, x: nat, x': nat)
    requires x' < p && Vanishes(p, x + 2 * x')
    ensures ThirdPoint(p, 0, x, 0, x') == Affine(x', 0)
  {
    var c := ThirdPoint(p, 0, x, 0, x');
    assert c.y == 0 by {
      assert 0 * (x - c.x) == 0;
      ModSmall(0, p);
    }
    ThirdCoordinates(p, 0, x, 0, x');
    hide Vanishes, ThirdPoint;
    assert c.x - (0 * 0 - x - x') - (x + 2 * x') == c.x - x';
    Added(p, c.x - (0 * 0 - x - x'), x + 2 * x');
    SameBelow(p, c.x, x');
  }

  lemma OtherRoot(p: Modulus, x: nat, x': nat, beta: int)
    requires x' == (0 - 2 * x) % p && Vanishes(p, 3 * x * x + 1) && Vanishes(p, x * x * x + x + beta)
    ensures x' != x && Vanishes(p, x' + 2 * x) && Vanishes(p, x' * x' * x' + x' + beta)
  {
    Residue(p, 0 - 2 * x);
    assert x' - (0 - 2 * x) == x' + 2 * x;
    if x' == x {
      NoTripleRoot(p, x);
    }
    hide Vanishes;
    var w, t, e := x' + 2 * x, 3 * x * x + 1, x * x * x + x + beta;
    Combine(p, w, x' * x' - 2 * x * x' + 4 * (x * x) + 1, t, 0 - 3 * x);
    Added(p, w * (x' * x' - 2 * x * x' + 4 * (x * x) + 1) + t * (0 - 3 * x), e);
    OtherRootIdentity(x, x', beta);
  }

  lemma OtherRootIdentity(x: int, x': int, beta: int)
    ensures (x' + 2 * x) * (x' * x' - 2 * x * x' + 4 * (x * x) + 1) + (3 * x * x + 1) * (0 - 3 * x) + (x * x * x + x + beta) == x' * x' * x' + x' + beta
  {
    assert (x' + 2 * x) * (x' * x' - 2 * x * x' + 4 * (x * x)) == x' * x' * x' + 8 * (x * x * x);
    assert (3 * x * x + 1) * (0 - 3 * x) == 0 - 9 * (x * x * x) - 3 * x;
  }

  lemma NoTripleRoot(p: Modulus, x: nat)
    requires Vanishes(p, 3 * x * x + 1)
    ensures !Vanishes(p, x + 2 * x)
  {
    if Vanishes(p, x + 2 * x) {
      Multiplied(p, x + 2 * x, x);
      assert (x + 2 * x) * x == 3 * x * x;
      Added(p, 3 * x * x + 1, 3 * x * x);
      ModSmall(1, p);
    }
  }

  /** Addition on the whole curve can be undone exactly when its discriminant does not vanish. */
  lemma CancelsIff(f: Curve)
    requires OddPrimeField(f)
    ensures Cancels(f) <==> !Vanishes(f.p, Discriminant(f))
  {
    SmoothIff(f);
    hide OnCurve, PointAdd, IsPrime, Vanishes;
    if IsSmooth(f) {
      forall a, b | OnCurve(f, a) && OnCurve(f, b) ensures PointAdd(f, PointAdd(f, a, b), Negate(f, b)) == a {
        AdditionCancels(f, a, b);
      }
    } else {
      var x: nat :| OnCurve(f, Affine(x, 0)) && Vanishes(f.p, 3 * x * x + 1);
      var b := Affine(x, 0);
      var a := SingularSwallows(f, x);
      NegateIsInverse(f, b);
      assert PointAdd(f, PointAdd(f, a, b), Negate(f, b)) == Infinity;
    }
  }
}
