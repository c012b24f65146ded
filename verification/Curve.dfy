/** The affine curve arithmetic of cairo/src/pedersen_balance.cairo on y^2 = x^3 + x + beta
    over a prime field.

    Every result is a curve point: a line that meets the cubic twice meets it a third time
    (`ThirdPoint`).  Inverses and commutativity are proved; associativity of the chord law
    is the one group axiom that is a hypothesis where scalar multiples are claimed.  What the
    law computes without it is the subject of `ChordLaw`. */
module Curve {
  import opened Powers
  import opened Wrappers
  import opened Modular
  import opened Primes
  import opened Groups
  import SqrtMod

  type Modulus = p: nat | p >= 2 witness 2

  datatype Curve = Curve(p: Modulus, beta: nat)

  datatype Point = Infinity | Affine(x: nat, y: nat)

  ghost predicate OddPrimeField(f: Curve) { IsPrime(f.p) && f.p % 2 == 1 }

  predicate OnCurve(f: Curve, a: Point) {
    a.Affine? ==> a.x < f.p && a.y < f.p && (a.y * a.y - (a.x * a.x * a.x + a.x + f.beta)) % f.p == 0
  }

  // ---- The formulas ----

  /** felt252_div, with the inverse that Fermat's theorem gives. */
  function Divide(p: Modulus, a: nat, b: nat): (q: nat)
    ensures q < p
  {
    a * PowMod(b, p - 2, p) % p
  }

  /** The third point on the line of that slope through (x, y), mirrored. */
  function ThirdPoint(p: Modulus, slope: nat, x: nat, y: nat, x': nat): Point {
    var x3 := (slope * slope - x - x') % p;
    Affine(x3, (slope * (x - x3) - y) % p)
  }

  function PointDouble(f: Curve, a: Point): Point {
    match a
    case Infinity => Infinity
    case Affine(x, y) =>
      if y == 0 then Infinity
      else ThirdPoint(f.p, Divide(f.p, (3 * x * x + 1) % f.p, 2 * y % f.p), x, y, x)
  }

  function PointAdd(f: Curve, a: Point, b: Point): Point {
    if a.Infinity? then b
    else if b.Infinity? then a
    else if a.x == b.x then (if a.y == b.y then PointDouble(f, a) else Infinity)
    else ThirdPoint(f.p, Divide(f.p, (b.y - a.y) % f.p, (b.x - a.x) % f.p), a.x, a.y, b.x)
  }

  function Negate(f: Curve, a: Point): Point {
    if a.Infinity? then Infinity else Affine(a.x, (f.p - a.y) % f.p)
  }

  function CurveGroup(f: Curve): Group<Point> {
    Group(Infinity, (a, b) => PointAdd(f, a, b), a => Negate(f, a), a => OnCurve(f, a))
  }

  // ---- Multiples of the modulus ----

  lemma ZeroPlus(a: int, b: int, p: nat)
    requires p > 0 && a % p == 0 && b % p == 0
    ensures (a + b) % p == 0 && (a - b) % p == 0
  {
    assert a == p * (a / p) && b == p * (b / p);
    assert a + b == 0 + p * (a / p + b / p) by { assert p * (a / p + b / p) == p * (a / p) + p * (b / p); }
    assert a - b == 0 + p * (a / p - b / p) by { assert p * (a / p - b / p) == p * (a / p) - p * (b / p); }
    ModShift(0, a / p + b / p, p);
    ModShift(0, a / p - b / p, p);
    ModSmall(0, p);
  }

  lemma ZeroTimes(a: int, k: int, p: nat)
    requires p > 0 && a % p == 0
    ensures a * k % p == 0 && k * a % p == 0
  {
    assert a == p * (a / p);
    assert a * k == 0 + p * (a / p * k) by { assert p * (a / p) * k == p * (a / p * k); }
    ModShift(0, a / p * k, p);
    ModSmall(0, p);
  }

  lemma ReducedDiffers(a: int, p: nat)
    requires p > 0
    ensures (a % p - a) % p == 0
  {
    assert a == p * (a / p) + a % p;
    assert a % p - a == 0 + p * (0 - a / p) by { assert p * (0 - a / p) == 0 - p * (a / p); }
    ModShift(0, 0 - a / p, p);
    ModSmall(0, p);
  }

  lemma CancelZero(a: int, b: int, p: nat)
    requires IsPrime(p) && a * b % p == 0 && b % p != 0
    ensures a % p == 0
  {
    assert p > 0 && a * b == b * a;
    hide IsPrime;
    ModMul(b, a, p);
    ModMul(b, a % p, p);
    ModModId(a, p);
    assert b * (a % p) % p == b * a % p;
    Euclid(p, b, a % p);
  }

  lemma DivideIs(p: Modulus, a: nat, b: nat)
    requires IsPrime(p) && b % p != 0
    ensures (Divide(p, a, b) * b - a) % p == 0
  {
    var i := Pow(b, p - 2);
    var q := Divide(p, a, b);
    Fermat(p, b);
    assert Pow(b, p - 1) == b * i;
    ReducedDiffers(a * (i % p), p);
    ReducedDiffers(i, p);
    ZeroTimes(q - a * (i % p), b, p);
    ZeroTimes(i % p - i, a * b, p);
    ModEqIffZero(b * i, 1, p);
    ModSmall(1, p);
    ZeroTimes(b * i - 1, a, p);
    DivideParts(q, a, b, i, i % p);
    ZeroPlus((q - a * (i % p)) * b, (i % p - i) * (a * b), p);
    ZeroPlus((q - a * (i % p)) * b + (i % p - i) * (a * b), (b * i - 1) * a, p);
  }

  lemma DivideParts(q: int, a: int, b: int, i: int, i': int)
    ensures q * b - a == (q - a * i') * b + (i' - i) * (a * b) + (b * i - 1) * a
  {
  }

  // ---- A line meets the cubic in three points ----

  /** How far (x, line at x) is from the curve. */
  function Gap(beta: int, slope: int, a: int, y: int, x: int): int {
    x * x * x + x + beta - (slope * (x - a) + y) * (slope * (x - a) + y)
  }

  function LinearPart(slope: int, a: int, y: int, b: int): int {
    1 + 2 * slope * (slope * a - y) - (a * b + (a + b) * (slope * slope - a - b))
  }

  function ConstantPart(beta: int, slope: int, a: int, y: int, b: int): int {
    beta - (slope * a - y) * (slope * a - y) + a * b * (slope * slope - a - b)
  }

  /** (x - a)(x - b)(x - c) plus a line is the gap, when a + b + c = slope^2. */
  lemma CubicFactors(beta: int, slope: int, a: int, y: int, b: int, x: int)
    ensures Gap(beta, slope, a, y, x)
         == (x - a) * (x - b) * (x - (slope * slope - a - b)) + LinearPart(slope, a, y, b) * x + ConstantPart(beta, slope, a, y, b)
  {
  }

  lemma GapAtRoot(beta: int, slope: int, a: int, y: int, b: int)
    ensures Gap(beta, slope, a, y, a) == LinearPart(slope, a, y, b) * a + ConstantPart(beta, slope, a, y, b)
    ensures Gap(beta, slope, a, y, b) == LinearPart(slope, a, y, b) * b + ConstantPart(beta, slope, a, y, b)
  {
    hide Gap, LinearPart, ConstantPart;
    CubicFactors(beta, slope, a, y, b, a);
    CubicFactors(beta, slope, a, y, b, b);
    assert (a - a) * (a - b) * (a - (slope * slope - a - b)) == 0;
    assert (b - a) * (b - b) * (b - (slope * slope - a - b)) == 0;
  }

  /** When the line is in place, the third point is on the curve. */
  lemma ThirdIsOnCurve(f: Curve, slope: nat, a: nat, y: nat, b: nat)
    requires Gap(f.beta, slope, a, y, a) % f.p == 0 && LinearPart(slope, a, y, b) % f.p == 0
    ensures OnCurve(f, ThirdPoint(f.p, slope, a, y, b))
  {
    var p, m, k := f.p, LinearPart(slope, a, y, b), ConstantPart(f.beta, slope, a, y, b);
    var c := slope * slope - a - b;
    var x := c % p;
    GapAtRoot(f.beta, slope, a, y, b);
    ZeroTimes(m, a, p);
    ZeroPlus(Gap(f.beta, slope, a, y, a), m * a, p);
    CubicFactors(f.beta, slope, a, y, b, x);
    ReducedDiffers(c, p);
    ZeroTimes(x - c, (x - a) * (x - b), p);
    ZeroTimes(m, x, p);
    ZeroPlus((x - a) * (x - b) * (x - c), m * x, p);
    ZeroPlus((x - a) * (x - b) * (x - c) + m * x, k, p);
    MirroredIsOnCurve(f, slope, a, y, x);
  }

  lemma GapIs(beta: int, slope: int, a: int, y: int, x: int, w: int)
    requires w == slope * (x - a) + y
    ensures Gap(beta, slope, a, y, x) == x * x * x + x + beta - w * w
  {
  }

  /** A number congruent to w has a square congruent to w's. */
  lemma SameSquare(p: nat, w: int, y: int)
    requires p > 0 && (w - y) % p == 0
    ensures (y * y - w * w) % p == 0
  {
    ZeroTimes(w - y, 0 - (w + y), p);
    assert (w - y) * (0 - (w + y)) == y * y - w * w;
  }

  lemma MirroredIsOnCurve(f: Curve, slope: nat, a: nat, y: nat, x: nat)
    requires x < f.p && Gap(f.beta, slope, a, y, x) % f.p == 0
    ensures OnCurve(f, Affine(x, (slope * (a - x) - y) % f.p))
  {
    var w := slope * (x - a) + y;
    assert slope * (a - x) - y == 0 - w by { assert slope * (a - x) == 0 - slope * (x - a); }
    GapIs(f.beta, slope, a, y, x, w);
    MirrorFits(f.p, w, x * x * x + x + f.beta);
  }

  lemma MirrorFits(p: nat, w: int, cubic: int)
    requires p > 0 && (cubic - w * w) % p == 0
    ensures ((0 - w) % p * ((0 - w) % p) - cubic) % p == 0
  {
    var v := (0 - w) % p;
    ReducedDiffers(0 - w, p);
    ZeroPlus(0, v - (0 - w), p);
    assert (0 - w) - v == 0 - (v - (0 - w));
    SameSquare(p, 0 - w, v);
    assert (0 - w) * (0 - w) == w * w;
    ZeroPlus(v * v - w * w, cubic - w * w, p);
  }

  lemma StartsOnCurve(f: Curve, slope: nat, a: Point)
    requires a.Affine? && OnCurve(f, a)
    ensures Gap(f.beta, slope, a.x, a.y, a.x) % f.p == 0
  {
    assert slope * (a.x - a.x) == 0;
    ModSmall(0, f.p);
    ZeroPlus(0, a.y * a.y - (a.x * a.x * a.x + a.x + f.beta), f.p);
  }

  // ---- Doubling and adding stay on the curve ----

  lemma TwiceIsNonzero(p: nat, y: nat)
    requires p % 2 == 1 && 0 < y < p
    ensures 2 * y % p != 0
  {
    if 2 * y < p {
      ModSmall(2 * y, p);
    } else {
      ModShift(2 * y - p, 1, p);
      ModSmall(2 * y - p, p);
    }
  }

  /** The tangent: its slope kills the linear part. */
  lemma TangentFits(p: Modulus, x: nat, y: nat)
    requires IsPrime(p) && p % 2 == 1 && 0 < y < p
    ensures LinearPart(Divide(p, (3 * x * x + 1) % p, 2 * y % p), x, y, x) % p == 0
  {
    var n, d := 3 * x * x + 1, 2 * y;
    var slope := Divide(p, n % p, d % p);
    TwiceIsNonzero(p, y);
    ModModId(d, p);
    DivideIs(p, n % p, d % p);
    ReducedDiffers(n, p);
    ReducedDiffers(d, p);
    ZeroTimes(d % p - d, slope, p);
    ZeroPlus(slope * (d % p) - n % p, n % p - n, p);
    ZeroPlus(slope * (d % p) - n, (d % p - d) * slope, p);
    assert slope * (d % p) - n - (d % p - d) * slope == slope * d - n by {
      assert (d % p - d) * slope == slope * (d % p) - slope * d;
    }
    ModSmall(0, p);
    ZeroPlus(0, slope * d - n, p);
    TangentPart(slope, x, y);
  }

  lemma TangentPart(slope: int, x: int, y: int)
    ensures LinearPart(slope, x, y, x) == (3 * x * x + 1) - slope * (2 * y)
  {
  }

  lemma DoubleStaysOnCurve(f: Curve, a: Point)
    requires OddPrimeField(f) && OnCurve(f, a)
    ensures OnCurve(f, PointDouble(f, a))
  {
    if a.Affine? && a.y != 0 {
      var slope := Divide(f.p, (3 * a.x * a.x + 1) % f.p, 2 * a.y % f.p);
      StartsOnCurve(f, slope, a);
      TangentFits(f.p, a.x, a.y);
      ThirdIsOnCurve(f, slope, a.x, a.y, a.x);
    }
  }

  lemma DistinctDiffer(p: nat, a: nat, b: nat)
    requires a < p && b < p && a != b
    ensures (b - a) % p != 0 && (b - a) % p % p != 0
  {
  }

  /** The chord's slope, as a congruence. */
  lemma ChordIs(p: Modulus, a: Point, b: Point)
    requires IsPrime(p) && a.Affine? && b.Affine? && a.x < p && b.x < p && a.x != b.x
    ensures (Divide(p, (b.y - a.y) % p, (b.x - a.x) % p) * (b.x - a.x) - (b.y - a.y)) % p == 0
  {
    var n, d := b.y - a.y, b.x - a.x;
    var slope := Divide(p, n % p, d % p);
    DistinctDiffer(p, a.x, b.x);
    DivideIs(p, n % p, d % p);
    ReducedDiffers(n, p);
    ReducedDiffers(d, p);
    ZeroTimes(d % p - d, slope, p);
    ZeroPlus(slope * (d % p) - n % p, n % p - n, p);
    ZeroPlus(slope * (d % p) - n, (d % p - d) * slope, p);
    assert (d % p - d) * slope == slope * (d % p) - slope * d;
  }

  lemma SquareOnCurve(p: nat, w: int, y: int, cubic: int)
    requires p > 0 && (w - y) % p == 0 && (y * y - cubic) % p == 0
    ensures (cubic - w * w) % p == 0
  {
    SameSquare(p, w, y);
    ZeroPlus(y * y - w * w, y * y - cubic, p);
  }

  lemma EndsOnCurve(f: Curve, slope: nat, a: Point, b: Point)
    requires a.Affine? && b.Affine? && OnCurve(f, b)
    requires (slope * (b.x - a.x) - (b.y - a.y)) % f.p == 0
    ensures Gap(f.beta, slope, a.x, a.y, b.x) % f.p == 0
  {
    var rise := slope * (b.x - a.x);
    GapIs(f.beta, slope, a.x, a.y, b.x, rise + a.y);
    LineMeets(f.p, rise, a.y, b.y, b.x * b.x * b.x + b.x + f.beta);
  }

  lemma LineMeets(p: nat, rise: int, y: int, y': int, cubic: int)
    requires p > 0 && (rise - (y' - y)) % p == 0 && (y' * y' - cubic) % p == 0
    ensures (cubic - (rise + y) * (rise + y)) % p == 0
  {
    assert rise + y - y' == rise - (y' - y);
    SquareOnCurve(p, rise + y, y', cubic);
  }

  /** The chord: two roots kill the linear part. */
  lemma ChordFits(f: Curve, slope: nat, a: Point, b: Point)
    requires IsPrime(f.p) && a.Affine? && b.Affine? && OnCurve(f, a) && OnCurve(f, b) && a.x != b.x
    requires (slope * (b.x - a.x) - (b.y - a.y)) % f.p == 0
    ensures LinearPart(slope, a.x, a.y, b.x) % f.p == 0
  {
    var m := LinearPart(slope, a.x, a.y, b.x);
    StartsOnCurve(f, slope, a);
    EndsOnCurve(f, slope, a, b);
    GapAtRoot(f.beta, slope, a.x, a.y, b.x);
    ZeroPlus(Gap(f.beta, slope, a.x, a.y, b.x), Gap(f.beta, slope, a.x, a.y, a.x), f.p);
    assert m * (b.x - a.x) == m * b.x - m * a.x;
    DistinctDiffer(f.p, a.x, b.x);
    CancelZero(m, b.x - a.x, f.p);
  }

  lemma AddStaysOnCurve(f: Curve, a: Point, b: Point)
    requires OddPrimeField(f) && OnCurve(f, a) && OnCurve(f, b)
    ensures OnCurve(f, PointAdd(f, a, b))
  {
    if a.Affine? && b.Affine? {
      if a.x == b.x {
        DoubleStaysOnCurve(f, a);
      } else {
        var slope := Divide(f.p, (b.y - a.y) % f.p, (b.x - a.x) % f.p);
        ChordIs(f.p, a, b);
        ChordFits(f, slope, a, b);
        StartsOnCurve(f, slope, a);
        ThirdIsOnCurve(f, slope, a.x, a.y, b.x);
      }
    }
  }

  // ---- The other group axioms ----

  lemma SlopesAgree(p: nat, s: nat, s': nat, d: int, n: int)
    requires IsPrime(p) && s < p && s' < p && d % p != 0
    requires (s * d - n) % p == 0 && (s' * (0 - d) - (0 - n)) % p == 0
    ensures s == s'
  {
    ZeroPlus(s * d - n, s' * (0 - d) - (0 - n), p);
    assert s' * (0 - d) == 0 - s' * d;
    assert (s - s') * d == s * d - s' * d;
    CancelZero(s - s', d, p);
    ModEqIffZero(s, s', p);
    ModSmall(s, p);
    ModSmall(s', p);
  }

  lemma SameSlope(p: Modulus, a: Point, b: Point)
    requires IsPrime(p) && a.Affine? && b.Affine? && a.x < p && b.x < p && a.x != b.x
    ensures Divide(p, (b.y - a.y) % p, (b.x - a.x) % p) == Divide(p, (a.y - b.y) % p, (a.x - b.x) % p)
  {
    var s, s' := Divide(p, (b.y - a.y) % p, (b.x - a.x) % p), Divide(p, (a.y - b.y) % p, (a.x - b.x) % p);
    ChordIs(p, a, b);
    ChordIs(p, b, a);
    DistinctDiffer(p, a.x, b.x);
    assert 0 - (b.x - a.x) == a.x - b.x && 0 - (b.y - a.y) == a.y - b.y;
    SlopesAgree(p, s, s', b.x - a.x, b.y - a.y);
  }

  /** Mirroring at either end of the chord gives the same ordinate. */
  lemma SameMirror(p: Modulus, s: int, a: Point, b: Point, x3: int)
    requires a.Affine? && b.Affine? && (s * (b.x - a.x) - (b.y - a.y)) % p == 0
    ensures (s * (a.x - x3) - a.y) % p == (s * (b.x - x3) - b.y) % p
  {
    var v, w := s * (a.x - x3) - a.y, s * (b.x - x3) - b.y;
    assert s * (b.x - x3) - s * (a.x - x3) == s * (b.x - a.x);
    assert w - v == s * (b.x - a.x) - (b.y - a.y);
    ModEqIffZero(w, v, p);
  }

  lemma AddCommutes(f: Curve, a: Point, b: Point)
    requires OddPrimeField(f) && OnCurve(f, a) && OnCurve(f, b)
    ensures PointAdd(f, a, b) == PointAdd(f, b, a)
  {
    hide OnCurve, Divide, IsPrime;
    if a.Affine? && b.Affine? && a.x != b.x {
      Bounded(f, a);
      Bounded(f, b);
      SameSlope(f.p, a, b);
      ChordIs(f.p, a, b);
      var s := Divide(f.p, (b.y - a.y) % f.p, (b.x - a.x) % f.p);
      var x3 := (s * s - a.x - b.x) % f.p;
      assert s * s - b.x - a.x == s * s - a.x - b.x;
      SameMirror(f.p, s, a, b, x3);
    }
  }

  /** The two square roots of one square. */
  lemma NegatedSquare(p: nat, y: nat, c: int)
    requires y < p && (y * y - c) % p == 0
    ensures (p - y) % p * ((p - y) % p) % p == y * y % p
    ensures ((p - y) % p * ((p - y) % p) - c) % p == 0
  {
    if y == 0 {
      ModShift(0, 1, p);
      ModSmall(0, p);
    } else {
      ModSmall(p - y, p);
      assert (p - y) * (p - y) == y * y + p * (p - 2 * y);
      ModShift(y * y, p - 2 * y, p);
      ModShift(y * y - c, p - 2 * y, p);
    }
  }

  lemma NegateStaysOnCurve(f: Curve, a: Point)
    requires OddPrimeField(f) && OnCurve(f, a)
    ensures OnCurve(f, Negate(f, a))
  {
    hide IsPrime;
    if a.Affine? {
      NegatedSquare(f.p, a.y, a.x * a.x * a.x + a.x + f.beta);
    }
  }

  lemma NegateIsInverse(f: Curve, a: Point)
    requires OddPrimeField(f) && OnCurve(f, a)
    ensures PointAdd(f, a, Negate(f, a)) == Infinity
  {
    hide OnCurve, ThirdPoint, Divide, IsPrime;
    if a.Affine? {
      Bounded(f, a);
      if a.y == 0 {
        ModShift(0, 1, f.p);
        ModSmall(0, f.p);
      } else {
        ModSmall(f.p - a.y, f.p);
      }
    }
  }

  lemma Bounded(f: Curve, a: Point)
    requires OnCurve(f, a) && a.Affine?
    ensures a.x < f.p && a.y < f.p
  {
  }

  /** The chord law makes the curve a commutative group as soon as it is associative. */
  lemma CurveIsGroupIff(f: Curve)
    requires OddPrimeField(f)
    ensures Closed(CurveGroup(f))
    ensures IsGroup(CurveGroup(f)) <==> Associates(CurveGroup(f))
  {
    var g := CurveGroup(f);
    forall a, b | g.member(a) && g.member(b) ensures g.member(g.add(a, b)) && CommutesAt(g, a, b) {
      AddStaysOnCurve(f, a, b);
      AddCommutes(f, a, b);
    }
    forall a | g.member(a) ensures g.member(g.neg(a)) && InverseAt(g, a) && NeutralAt(g, a) {
      NegateStaysOnCurve(f, a);
      NegateIsInverse(f, a);
    }
  }

  // ---- The double-and-add loops ----

  lemma NextBit(scalar: nat, k: nat)
    ensures scalar / Pow(2, k) / 2 == scalar / Pow(2, k + 1)
    ensures scalar % Pow(2, k + 1) == scalar % Pow(2, k) + (if scalar / Pow(2, k) % 2 == 1 then Pow(2, k) else 0)
  {
    SplitDigit(scalar, Pow(2, k), 2);
  }

  /** One round of the loop, on the curve and, where the law associates, on the multiples. */
  lemma ScalarStep(f: Curve, point: Point, scalar: nat, i: nat, result: Point, addend: Point)
    requires OddPrimeField(f) && OnCurve(f, point) && OnCurve(f, result) && OnCurve(f, addend)
    requires Associates(CurveGroup(f)) ==>
      result == Multiple(CurveGroup(f), scalar % Pow(2, i), point) && addend == Multiple(CurveGroup(f), Pow(2, i), point)
    ensures var result' := if scalar / Pow(2, i) % 2 == 1 then PointAdd(f, result, addend) else result;
      var addend' := PointDouble(f, addend);
      && OnCurve(f, result') && OnCurve(f, addend')
      && (Associates(CurveGroup(f)) ==>
            result' == Multiple(CurveGroup(f), scalar % Pow(2, i + 1), point) && addend' == Multiple(CurveGroup(f), Pow(2, i + 1), point))
  {
    AddStaysOnCurve(f, result, addend);
    DoubleStaysOnCurve(f, addend);
    if Associates(CurveGroup(f)) {
      CurveIsGroupIff(f);
      MultipleStep(f, point, scalar, i);
    }
  }

  lemma MultipleStep(f: Curve, point: Point, scalar: nat, i: nat)
    requires IsGroup(CurveGroup(f)) && OnCurve(f, point)
    ensures var g := CurveGroup(f); var addend := Multiple(g, Pow(2, i), point);
      && PointDouble(f, addend) == Multiple(g, Pow(2, i + 1), point)
      && Multiple(g, scalar % Pow(2, i + 1), point)
         == if scalar / Pow(2, i) % 2 == 1 then PointAdd(f, Multiple(g, scalar % Pow(2, i), point), addend) else Multiple(g, scalar % Pow(2, i), point)
  {
    hide PointAdd, PointDouble;
    NextBit(scalar, i);
    var g := CurveGroup(f);
    Groups.RoundIs(g, scalar % Pow(2, i), i, point);
    DoubleIsAdd(f, Multiple(g, Pow(2, i), point));
  }

  lemma DoubleIsAdd(f: Curve, a: Point)
    ensures PointDouble(f, a) == PointAdd(f, a, a)
  {
  }

  /** scalar_mul: the low `bits` bits of the scalar count, and every point on the way is on the curve. */
  method ScalarMul(f: Curve, point: Point, scalar: nat, bits: nat) returns (result: Point)
    requires OddPrimeField(f) && OnCurve(f, point)
    ensures OnCurve(f, result)
    ensures Associates(CurveGroup(f)) ==> result == Multiple(CurveGroup(f), scalar % Pow(2, bits), point)
  {
    hide PointAdd, PointDouble, OnCurve, IsPrime, Associates;
    result := Infinity;
    var addend := point;
    var remaining := scalar;
    CurveIsGroupIff(f);
    if Associates(CurveGroup(f)) {
      MultipleOne(CurveGroup(f), point);
    }
    var i: nat := 0;
    while i < bits
      invariant i <= bits && remaining == scalar / Pow(2, i)
      invariant OnCurve(f, result) && OnCurve(f, addend)
      invariant Associates(CurveGroup(f)) ==>
        result == Multiple(CurveGroup(f), scalar % Pow(2, i), point) && addend == Multiple(CurveGroup(f), Pow(2, i), point)
    {
      ScalarStep(f, point, scalar, i, result, addend);
      NextBit(scalar, i);
      var bit := remaining % 2;
      if bit == 1 {
        result := PointAdd(f, result, addend);
      }
      addend := PointDouble(f, addend);
      remaining := remaining / 2;
      i := i + 1;
    }
  }

  // ---- Commitments in Cairo ----

  /** What the commitment code needs of its constants: the group, two points of order n, and a field
      between one and two orders wide that fits 252 bits. */
  datatype Setting = Setting(f: Curve, n: nat, g: Point, h: Point)

  ghost predicate Sound(s: Setting) {
    && OddPrimeField(s.f) && IsGroup(CurveGroup(s.f))
    && 0 < s.n <= s.f.p && s.f.p < 2 * s.n && s.f.p <= Pow(2, 252)
    && OnCurve(s.f, s.g) && OnCurve(s.f, s.h)
    && Multiple(CurveGroup(s.f), s.n, s.h) == Infinity
  }

  /** balance*G + blinding*H */
  function CommitmentPoint(s: Setting, balance: nat, blinding: nat): Point {
    PointAdd(s.f, Multiple(CurveGroup(s.f), balance, s.g), Multiple(CurveGroup(s.f), blinding, s.h))
  }

  function NotInfinity(a: Point): Option<Point> { if a.Infinity? then None else Some(a) }

  /** add_blinding in Cairo: one subtraction, then a checked narrowing to the field. */
  function AddBlinding(s: Setting, a: nat, b: nat): Option<nat>
    requires s.n > 0
  {
    var sum := a + b;
    var reduced := if sum >= s.n then sum - s.n else sum;
    if reduced < s.f.p then Some(reduced) else None
  }

  /** Cairo's single subtraction is Rust's reduction modulo n exactly when the sum is below two orders. */
  lemma SingleSubtractionIff(s: Setting, a: nat, b: nat)
    requires 0 < s.n <= s.f.p
    ensures AddBlinding(s, a, b) == Some((a + b) % s.n) <==> a + b < 2 * s.n
  {
    var sum := a + b;
    if sum < s.n {
      ModSmall(sum, s.n);
    } else if sum < 2 * s.n {
      ModShift(sum - s.n, 1, s.n);
      ModSmall(sum - s.n, s.n);
    }
  }

  /** Field elements above the order fail it: for the two largest, Cairo panics, or is off by one order where the
      field is only just wider. */
  lemma LargestBlindingsFail(s: Setting)
    requires 0 < s.n < s.f.p
    ensures AddBlinding(s, s.f.p - 1, s.f.p - 1) == if s.f.p > s.n + 1 then None else Some(s.n)
    ensures AddBlinding(s, s.f.p - 1, s.f.p - 1) != Some((s.f.p - 1 + (s.f.p - 1)) % s.n)
  {
  }

  /** compute_commitment; None where the code panics. */
  method ComputeCommitment(s: Setting, balance: nat, blinding: nat) returns (c: Option<Point>)
    requires Sound(s) && balance < s.f.p && blinding < s.f.p
    ensures c == if balance < Pow(2, 128) then NotInfinity(CommitmentPoint(s, balance, blinding)) else None
  {
    if balance >= Pow(2, 128) {
      return None;
    }
    var bg := ScalarMul(s.f, s.g, balance, 128);
    var rh := ScalarMul(s.f, s.h, blinding, 252);
    ModSmall(balance, Pow(2, 128));
    ModSmall(blinding, Pow(2, 252));
    var sum := PointAdd(s.f, bg, rh);
    c := if sum.Infinity? then None else Some(sum);
  }

  /** rerandomize_commitment; None where the code panics. */
  method RerandomizeCommitment(s: Setting, commitment: Point, delta: nat) returns (c: Option<Point>)
    requires Sound(s) && delta < s.f.p && OnCurve(s.f, commitment)
    ensures c == NotInfinity(PointAdd(s.f, commitment, Multiple(CurveGroup(s.f), delta, s.h)))
  {
    var dh := ScalarMul(s.f, s.h, delta, 252);
    ModSmall(delta, Pow(2, 252));
    var sum := PointAdd(s.f, commitment, dh);
    c := if sum.Infinity? then None else Some(sum);
  }

  /** Rerandomizing a commitment is committing with the sum of the blindings, modulo the order. */
  lemma RerandomizedIs(s: Setting, balance: nat, blinding: nat, delta: nat)
    requires Sound(s)
    ensures PointAdd(s.f, CommitmentPoint(s, balance, blinding), Multiple(CurveGroup(s.f), delta, s.h))
         == CommitmentPoint(s, balance, (blinding + delta) % s.n)
    ensures CommitmentPoint(s, balance, (blinding + delta) % s.n) == CommitmentPoint(s, balance, blinding + delta)
  {
    var g := CurveGroup(s.f);
    var bg, rh, dh := Multiple(g, balance, s.g), Multiple(g, blinding, s.h), Multiple(g, delta, s.h);
    MultipleIsMember(g, balance, s.g);
    MultipleIsMember(g, blinding, s.h);
    MultipleIsMember(g, delta, s.h);
    assert AssociatesAt(g, bg, rh, dh);
    MultipleAdds(g, blinding, delta, s.h);
    MultipleWraps(g, s.n, blinding + delta, s.h);
  }

  /** Nothing is committed at infinity, one unit of balance adds G, and one of blinding adds H. */
  lemma CommitmentSteps(s: Setting, balance: nat, blinding: nat)
    requires Sound(s)
    ensures CommitmentPoint(s, 0, 0) == Infinity
    ensures CommitmentPoint(s, balance + 1, blinding) == PointAdd(s.f, CommitmentPoint(s, balance, blinding), s.g)
    ensures CommitmentPoint(s, balance, blinding + 1) == PointAdd(s.f, CommitmentPoint(s, balance, blinding), s.h)
  {
    hide PointAdd;
    var g := CurveGroup(s.f);
    var bg, rh := Multiple(g, balance, s.g), Multiple(g, blinding, s.h);
    MultipleIsMember(g, balance, s.g);
    MultipleIsMember(g, blinding, s.h);
    assert AssociatesAt(g, bg, rh, s.h);
    assert AssociatesAt(g, bg, s.g, rh) && AssociatesAt(g, bg, rh, s.g) && CommutesAt(g, s.g, rh);
    assert NeutralAt(g, Infinity);
  }

  /** The two branches of the request program. */
  method GenesisBranch(s: Setting, balance: nat, blinding: nat, rho: nat) returns (c: Option<Point>)
    requires Sound(s) && balance < Pow(2, 128) && balance < s.f.p && blinding < s.f.p && rho < s.f.p
    ensures AddBlinding(s, blinding, rho).Some? ==> c == NotInfinity(CommitmentPoint(s, balance, (blinding + rho) % s.n))
    ensures AddBlinding(s, blinding, rho).None? ==> c == None
  {
    var sum := AddBlinding(s, blinding, rho);
    if sum.None? {
      return None;
    }
    SameScalar(s, balance, blinding + rho, sum.value);
    c := ComputeCommitment(s, balance, sum.value);
  }

  lemma SameScalar(s: Setting, balance: nat, k: nat, reduced: nat)
    requires Sound(s) && (reduced == k || reduced + s.n == k)
    ensures CommitmentPoint(s, balance, reduced) == CommitmentPoint(s, balance, k % s.n)
  {
    MultipleWraps(CurveGroup(s.f), s.n, k, s.h);
    MultipleWraps(CurveGroup(s.f), s.n, reduced, s.h);
    ModShift(reduced, 1, s.n);
  }

  method SignedBranch(s: Setting, balance: nat, blinding: nat, rho: nat) returns (c: Option<Point>)
    requires Sound(s) && balance < Pow(2, 128) && balance < s.f.p && blinding < s.f.p && rho < s.f.p
    ensures CommitmentPoint(s, balance, blinding).Affine? ==> c == NotInfinity(CommitmentPoint(s, balance, (blinding + rho) % s.n))
    ensures CommitmentPoint(s, balance, blinding).Infinity? ==> c == None
  {
    var e := ComputeCommitment(s, balance, blinding);
    if e.None? {
      return None;
    }
    CommitmentOnCurve(s, balance, blinding);
    RerandomizedIs(s, balance, blinding, rho);
    c := RerandomizeCommitment(s, e.value, rho);
  }

  lemma CommitmentOnCurve(s: Setting, balance: nat, blinding: nat)
    requires Sound(s)
    ensures OnCurve(s.f, CommitmentPoint(s, balance, blinding))
  {
    MultipleIsMember(CurveGroup(s.f), balance, s.g);
    MultipleIsMember(CurveGroup(s.f), blinding, s.h);
    AddStaysOnCurve(s.f, Multiple(CurveGroup(s.f), balance, s.g), Multiple(CurveGroup(s.f), blinding, s.h));
  }

  /** On canonical blindings and a commitment that is a point, both branches show the same anonymised commitment. */
  method BranchesAgree(s: Setting, balance: nat, blinding: nat, rho: nat) returns (genesis: Option<Point>, signed: Option<Point>)
    requires Sound(s) && balance < Pow(2, 128) && balance < s.f.p && blinding < s.n && rho < s.n
    ensures CommitmentPoint(s, balance, blinding).Affine? ==> genesis == signed
    ensures genesis != signed ==> signed == None
  {
    genesis := GenesisBranch(s, balance, blinding, rho);
    signed := SignedBranch(s, balance, blinding, rho);
  }

  // ---- The generators ----

  /** What the generator script derives is a point of the curve, and not of order two. */
  lemma DerivedIsOnCurve(f: Curve, x: nat, y: nat)
    requires x < f.p && SqrtMod.IsEvenRoot(y, SqrtMod.RightSide(x, f.beta, f.p), f.p)
    ensures OnCurve(f, Affine(x, y)) && y != 0
  {
    var p, cube := f.p, x * x * x;
    assert Pow(x, 3) == cube by { PowOne(x); assert Pow(x, 3) == x * Pow(x, 2); }
    ModAddLeft(cube, x + f.beta, p);
    ModModId(cube % p + x + f.beta, p);
    ModEqIffZero(y * y, cube + x + f.beta, p);
  }
}
