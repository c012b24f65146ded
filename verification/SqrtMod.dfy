/** Square roots modulo an odd prime (Tonelli-Shanks) and the derivation of curve points
    from hashes, as scripts/generate_pedersen_generators.py does them. */
module SqrtMod {
  import opened Powers
  import opened Wrappers
  import opened Modular
  import opened Primes

  // ---- A polynomial has no more roots than its degree ----

  function Eval(c: seq<int>, x: int): int {
    if c == [] then 0 else c[0] + x * Eval(c[1..], x)
  }

  /** The quotient of c by (x - a). */
  function Quotient(c: seq<int>, a: int): (q: seq<int>)
    ensures |c| >= 1 ==> |q| == |c| - 1
    ensures |c| >= 2 ==> q[|q| - 1] == c[|c| - 1]
  {
    if |c| <= 1 then []
    else
      LastTail(c, a);
      [Eval(c[1..], a)] + Quotient(c[1..], a)
  }

  lemma LastTail(c: seq<int>, a: int)
    requires |c| >= 2
    ensures c[1..][|c| - 2] == c[|c| - 1]
    ensures |c| == 2 ==> Eval(c[1..], a) == c[1]
  {
  }

  lemma {:induction false} DividesOut(c: seq<int>, a: int, x: int)
    requires c != []
    ensures Eval(c, x) == (x - a) * Eval(Quotient(c, a), x) + Eval(c, a)
  {
    if |c| == 1 {
      assert Quotient(c, a) == [] && c[1..] == [];
    } else {
      var d := c[1..];
      DividesOut(d, a, x);
      assert Quotient(c, a)[0] == Eval(d, a) && Quotient(c, a)[1..] == Quotient(d, a);
      var q, v := Eval(Quotient(d, a), x), Eval(d, a);
      assert Eval(Quotient(c, a), x) == v + x * q;
      assert Eval(d, x) == (x - a) * q + v;
      Horner(c[0], x, a, q, v);
    }
  }

  lemma Horner(c: int, x: int, a: int, q: int, d: int)
    ensures c + x * ((x - a) * q + d) == (x - a) * (d + x * q) + (c + a * d)
  {
  }

  lemma {:induction false} RootBound(p: nat, c: seq<int>, roots: set<nat>)
    requires IsPrime(p) && c != [] && c[|c| - 1] % p != 0
    requires forall x :: x in roots ==> x < p && Eval(c, x) % p == 0
    ensures |roots| < |c|
    decreases |c|
  {
    if roots != {} {
      var a :| a in roots;
      if |c| == 1 {
        ConstantEval(c, a);
      } else {
        forall x | x in roots - {a} ensures Eval(Quotient(c, a), x) % p == 0 {
          OtherRoot(p, c, a, x);
        }
        RootBound(p, Quotient(c, a), roots - {a});
      }
    }
  }

  lemma ConstantEval(c: seq<int>, x: int)
    requires |c| == 1
    ensures Eval(c, x) == c[0]
  {
  }

  lemma OtherRoot(p: nat, c: seq<int>, a: nat, x: nat)
    requires IsPrime(p) && c != [] && a < p && x < p && a != x
    requires Eval(c, a) % p == 0 && Eval(c, x) % p == 0
    ensures Eval(Quotient(c, a), x) % p == 0
  {
    var q := Eval(Quotient(c, a), x);
    DividesOut(c, a, x);
    ModEqIffZero(Eval(c, x), Eval(c, a), p);
    ModEqIffZero(x, a, p);
    ModSmall(x, p);
    ModSmall(a, p);
    assert (x - a) * q % p == 0;
    ModMul(x - a, q, p);
    ModMul(x - a, q % p, p);
    ModModId(q, p);
    Euclid(p, x - a, q % p);
  }

  function Monomial(k: nat): (c: seq<int>)
    ensures |c| == k + 1 && c[k] == 1
  {
    if k == 0 then [1] else [0] + Monomial(k - 1)
  }

  lemma {:induction false} MonomialIs(k: nat, x: nat)
    ensures Eval(Monomial(k), x) == Pow(x, k)
  {
    if k == 0 {
      assert Eval(Monomial(0)[1..], x) == 0;
    } else {
      MonomialIs(k - 1, x);
      assert Monomial(k)[1..] == Monomial(k - 1);
    }
  }

  // ---- Residues and Euler's test ----

  predicate Squares(w: nat, n: nat, p: nat)
    requires p > 0
  {
    w * w % p == n % p
  }

  ghost predicate IsSquare(n: nat, p: nat)
    requires p > 0
  {
    exists w: nat :: Squares(w, n, p)
  }

  function Euler(n: nat, p: nat): nat
    requires p > 0
  {
    PowMod(n, (p - 1) / 2, p)
  }

  lemma EulerIsSign(p: nat, x: nat)
    requires IsPrime(p) && p % 2 == 1 && x % p != 0
    ensures Euler(x, p) == 1 || Euler(x, p) == p - 1
  {
    var h := (p - 1) / 2;
    Fermat(p, x);
    PowModAdd(x, h, h, p);
    assert h + h == p - 1;
    RootsOfOne(p, Euler(x, p));
  }

  /** Not every number passes Euler's test: x^h - 1 has at most h roots. */
  lemma NonResidueExists(p: nat) returns (z: nat)
    requires IsPrime(p) && p % 2 == 1
    ensures 2 <= z < p && Euler(z, p) == p - 1
  {
    var h := (p - 1) / 2;
    var c := [-1] + Monomial(h - 1);
    assert c[|c| - 1] == 1;
    ModSmall(1, p);
    var all := UpTo(p - 1);
    assert |all| == p - 1;
    if forall x :: x in all ==> Eval(c, x) % p == 0 {
      RootBound(p, c, all);
    }
    z :| z in all && Eval(c, z) % p != 0;
    EvalIs(h, z);
    ModSmall(z, p);
    EulerIsSign(p, z);
    ModEqIffZero(Pow(z, h), 1, p);
    if z == 1 { OnePow(h); }
  }

  lemma EvalIs(h: nat, x: nat)
    requires h > 0
    ensures Eval([-1] + Monomial(h - 1), x) == Pow(x, h) - 1
  {
    var c := [-1] + Monomial(h - 1);
    assert c[1..] == Monomial(h - 1);
    MonomialIs(h - 1, x);
  }

  /** A nonzero square passes Euler's test. */
  lemma SquarePasses(p: nat, n: nat, w: nat)
    requires IsPrime(p) && p % 2 == 1 && n % p != 0 && Squares(w, n, p)
    ensures Euler(n, p) == 1
  {
    var h := (p - 1) / 2;
    if w % p == 0 {
      ModMul(w, w, p);
      assert 0 * 0 == 0;
      ModSmall(0, p);
    }
    Fermat(p, w);
    PowOne(w);
    PowPow(w, 2, h);
    assert 2 * h == p - 1;
    PowBase(w * w, h, p);
    PowBase(n, h, p);
  }

  // ---- Tonelli-Shanks ----

  ghost predicate Halfway(p: nat, n: nat, m: nat, c: nat, t: nat, r: nat)
    requires p > 0
  {
    && m >= 1 && c < p && t < p && r < p
    && r * r % p == t * n % p
    && PowMod(c, Pow(2, m - 1), p) == p - 1
    && PowMod(t, Pow(2, m - 1), p) == 1
  }

  lemma Begins(p: nat, n: nat, z: nat, q: nat, s: nat)
    requires IsPrime(p) && p % 2 == 1 && s >= 1 && p - 1 == Pow(2, s) * q && q % 2 == 1
    requires Euler(n, p) == 1 && Euler(z, p) == p - 1
    ensures Halfway(p, n, s, PowMod(z, q, p), PowMod(n, q, p), PowMod(n, (q + 1) / 2, p))
  {
    assert Pow(2, s) == 2 * Pow(2, s - 1);
    assert p - 1 == 2 * (Pow(2, s - 1) * q);
    assert q * Pow(2, s - 1) == (p - 1) / 2;
    PowModPow(z, q, Pow(2, s - 1), p);
    PowModPow(n, q, Pow(2, s - 1), p);
    RootOfPower(p, n, q);
  }

  lemma RootOfPower(p: nat, n: nat, q: nat)
    requires p > 0 && q % 2 == 1
    ensures PowMod(n, (q + 1) / 2, p) * PowMod(n, (q + 1) / 2, p) % p == PowMod(n, q, p) * n % p
  {
    var e := (q + 1) / 2;
    assert e + e == q + 1;
    PowModAdd(n, e, e, p);
    PowAdd(n, q, 1);
    PowOne(n);
    ModMulLeft(Pow(n, q), n, p);
  }

  /** Squaring once more doubles the exponent. */
  lemma SquareAgain(p: nat, t: nat, k: nat)
    requires p > 0
    ensures PowMod(PowMod(t, Pow(2, k), p), 2, p) == PowMod(t, Pow(2, k + 1), p)
  {
    PowModPow(t, Pow(2, k), 2, p);
    assert Pow(2, k) * 2 == Pow(2, k + 1);
  }

  /** An element whose square is one, but is not one itself, is minus one. */
  lemma JustBefore(p: nat, t: nat, i: nat)
    requires IsPrime(p) && i >= 1 && PowMod(t, Pow(2, i), p) == 1 && PowMod(t, Pow(2, i - 1), p) != 1
    ensures PowMod(t, Pow(2, i - 1), p) == p - 1
  {
    SquareAgain(p, t, i - 1);
    PowOne(PowMod(t, Pow(2, i - 1), p));
    RootsOfOne(p, PowMod(t, Pow(2, i - 1), p));
  }

  lemma RootFollows(p: nat, n: nat, t: nat, r: nat, b: nat)
    requires p > 0 && r * r % p == t * n % p
    ensures (r * b % p) * (r * b % p) % p == (t * PowMod(b, 2, p) % p) * n % p
  {
    var c := PowMod(b, 2, p);
    PowOne(b);
    ModMul(r * b, r * b, p);
    Regroup(r, b, r, b);
    ModMul(r * r, b * b, p);
    ModMul(t * n, b * b, p);
    ModMulLeft(t * c, n, p);
    ModMul(t * n, c, p);
    ModModId(b * b, p);
    assert t * c * n == t * n * c;
  }

  lemma Continues(p: nat, n: nat, m: nat, c: nat, t: nat, r: nat, i: nat)
    requires IsPrime(p) && Halfway(p, n, m, c, t, r) && 1 <= i < m
    requires PowMod(t, Pow(2, i), p) == 1 && PowMod(t, Pow(2, i - 1), p) != 1
    ensures var b := PowMod(c, Pow(2, m - i - 1), p);
      Halfway(p, n, i, PowMod(b, 2, p), t * PowMod(b, 2, p) % p, r * b % p)
  {
    var b := PowMod(c, Pow(2, m - i - 1), p);
    var c' := PowMod(b, 2, p);
    SquareAgain(p, c, m - i - 1);
    PowModPow(c, Pow(2, m - i), Pow(2, i - 1), p);
    PowAdd(2, m - i, i - 1);
    JustBefore(p, t, i);
    PowModProduct(t, c', Pow(2, i - 1), p);
    MinusOneSquared(p);
    RootFollows(p, n, t, r, b);
  }

  /** The number of squarings after which t becomes one. */
  method OrderExponent(p: nat, t: nat, ghost m: nat) returns (i: nat)
    requires p > 1 && t < p && t != 1 && m >= 1 && PowMod(t, Pow(2, m - 1), p) == 1
    ensures 1 <= i < m && PowMod(t, Pow(2, i), p) == 1 && PowMod(t, Pow(2, i - 1), p) != 1
  {
    ModSmall(t, p);
    PowOne(t);
    PowOne(2);
    i := 1;
    var t2 := PowMod(t, 2, p);
    while t2 != 1
      invariant 1 <= i < m && t2 == PowMod(t, Pow(2, i), p) && PowMod(t, Pow(2, i - 1), p) != 1
      decreases m - i
    {
      SquareAgain(p, t, i);
      t2 := PowMod(t2, 2, p);
      i := i + 1;
    }
  }

  /** p - 1 without its factors of two. */
  method OddPart(p: nat) returns (q: nat, s: nat)
    requires p > 1 && p % 2 == 1
    ensures s >= 1 && q % 2 == 1 && p - 1 == Pow(2, s) * q
  {
    q, s := p - 1, 0;
    while q % 2 == 0
      invariant q > 0 && p - 1 == Pow(2, s) * q && (s == 0 ==> q == p - 1)
      decreases q
    {
      Halve(Pow(2, s), q);
      s := s + 1;
      q := q / 2;
    }
  }

  lemma Halve(a: nat, q: nat)
    requires q % 2 == 0
    ensures 2 * a * (q / 2) == a * q
  {
  }

  method LeastNonResidue(p: nat) returns (z: nat)
    requires IsPrime(p) && p % 2 == 1
    ensures Euler(z, p) == p - 1 && forall k :: 2 <= k < z ==> Euler(k, p) != p - 1
  {
    ghost var z0 := NonResidueExists(p);
    z := 2;
    while PowMod(z, (p - 1) / 2, p) != p - 1
      invariant z <= z0 && forall k :: 2 <= k < z ==> Euler(k, p) != p - 1
      decreases z0 - z
    {
      z := z + 1;
    }
  }

  /** A root is returned exactly for zero and for the squares that are not multiples of p. */
  method SqrtMod(p: nat, n: nat) returns (result: Option<nat>)
    requires IsPrime(p) && p % 2 == 1
    ensures result.Some? ==> result.value < p && Squares(result.value, n, p)
    ensures result.Some? <==> n == 0 || (n % p != 0 && IsSquare(n, p))
  {
    if n == 0 {
      assert 0 * 0 == 0 && Squares(0, 0, p);
      return Some(0);
    }
    if PowMod(n, (p - 1) / 2, p) != 1 {
      FailsRightly(p, n);
      return None;
    }
    ZeroFails(p, n);
    var q, s := OddPart(p);
    var z := LeastNonResidue(p);
    Begins(p, n, z, q, s);
    var m: nat, c: nat, t: nat, r: nat := s, PowMod(z, q, p), PowMod(n, q, p), PowMod(n, (q + 1) / 2, p);
    while t != 1
      invariant Halfway(p, n, m, c, t, r)
      decreases m
    {
      var i := OrderExponent(p, t, m);
      Continues(p, n, m, c, t, r, i);
      var b := PowMod(c, Pow(2, m - i - 1), p);
      m := i;
      c := PowMod(b, 2, p);
      t := t * c % p;
      r := r * b % p;
    }
    assert 1 * n == n && Squares(r, n, p);
    result := Some(r);
  }

  lemma FailsRightly(p: nat, n: nat)
    requires IsPrime(p) && p % 2 == 1 && Euler(n, p) != 1
    ensures !(n % p != 0 && IsSquare(n, p))
  {
    if n % p != 0 && IsSquare(n, p) {
      var w: nat :| Squares(w, n, p);
      SquarePasses(p, n, w);
    }
  }

  lemma ZeroFails(p: nat, n: nat)
    requires IsPrime(p) && p % 2 == 1 && Euler(n, p) == 1
    ensures n % p != 0
  {
    if n % p == 0 {
      PowBase(n, (p - 1) / 2, p);
      assert Pow(0, (p - 1) / 2) == 0 * Pow(0, (p - 1) / 2 - 1) == 0;
      ModSmall(0, p);
    }
  }

  /** On a nonzero multiple of p the answer None is wrong: zero is a root. */
  lemma MultiplesHaveRootZero(p: nat, n: nat)
    requires p > 0 && n > 0 && n % p == 0
    ensures Squares(0, n, p) && !(n == 0 || (n % p != 0 && IsSquare(n, p)))
  {
  }

  /** So "a root is returned exactly when there is one" holds for n exactly when n is zero or not a multiple of p. */
  lemma CorrectIff(p: nat, n: nat)
    requires p > 0
    ensures ((n == 0 || (n % p != 0 && IsSquare(n, p))) <==> IsSquare(n, p)) <==> (n == 0 || n % p != 0)
  {
    if n == 0 {
      assert 0 * 0 == 0 && Squares(0, 0, p);
    } else if n % p == 0 {
      MultiplesHaveRootZero(p, n);
    }
  }

  // ---- Points from hashes ----

  function RightSide(x: nat, beta: nat, p: nat): (r: nat)
    requires p > 0
    ensures r < p
  {
    (PowMod(x, 3, p) + x + beta) % p
  }

  /** Some x-coordinate with a nonzero root on it. */
  ghost predicate Usable(x: nat, beta: nat, p: nat)
    requires p > 0
  {
    exists y: nat :: 0 < y < p && Squares(y, RightSide(x, beta, p), p)
  }

  predicate IsEvenRoot(y: nat, n: nat, p: nat)
    requires p > 0
  {
    0 < y < p && y % 2 == 0 && Squares(y, n, p)
  }

  lemma MirrorSquare(p: int, y: int)
    ensures (p - y) * (p - y) == y * y + p * (p - 2 * y)
  {
  }

  lemma MirrorSquareIs(p: nat, y: int)
    requires p > 0
    ensures (p - y) * (p - y) % p == y * y % p
  {
    MirrorSquare(p, y);
    ModShift(y * y, p - 2 * y, p);
  }

  lemma DifferenceOfOdds(a: int, b: int)
    requires a % 2 == 1 && b % 2 == 1
    ensures (a - b) % 2 == 0
  {
  }

  lemma OtherRootIsEven(p: nat, y: nat, n: nat)
    requires 0 < y < p && p % 2 == 1 && y % 2 == 1 && Squares(y, n, p)
    ensures IsEvenRoot(p - y, n, p)
  {
    MirrorSquareIs(p, y);
    DifferenceOfOdds(p, y);
  }

  /** The even one of the two roots of n. */
  method EvenRoot(p: nat, n: nat) returns (y: Option<nat>)
    requires IsPrime(p) && p % 2 == 1
    ensures y.Some? ==> IsEvenRoot(y.value, n, p)
    ensures y.None? ==> n % p == 0 || !IsSquare(n, p)
  {
    var root := SqrtMod(p, n);
    if root.None? {
      return None;
    }
    if root.value == 0 {
      ModSmall(0, p);
      return None;
    }
    if root.value % 2 == 1 {
      OtherRootIsEven(p, root.value, n);
      return Some(p - root.value);
    }
    y := root;
  }

  /** The first counter whose digest is the x-coordinate of a point with y != 0, and the even y on it. */
  method Derive(p: nat, beta: nat, digest: nat -> nat, limit: nat) returns (result: Option<(nat, nat, nat)>)
    requires IsPrime(p) && p % 2 == 1
    ensures result.Some? ==>
      && result.value.0 < limit && result.value.1 == digest(result.value.0) % p
      && IsEvenRoot(result.value.2, RightSide(result.value.1, beta, p), p)
      && (forall k :: 0 <= k < result.value.0 ==> !Usable(digest(k) % p, beta, p))
    ensures result.None? ==> forall k :: 0 <= k < limit ==> !Usable(digest(k) % p, beta, p)
  {
    for counter := 0 to limit
      invariant forall k :: 0 <= k < counter ==> !Usable(digest(k) % p, beta, p)
    {
      var x := digest(counter) % p;
      var y := EvenRoot(p, RightSide(x, beta, p));
      if y.Some? {
        return Some((counter, x, y.value));
      }
      NoUsableRoot(p, x, beta);
    }
    result := None;
  }

  lemma NoUsableRoot(p: nat, x: nat, beta: nat)
    requires IsPrime(p) && (RightSide(x, beta, p) % p == 0 || !IsSquare(RightSide(x, beta, p), p))
    ensures !Usable(x, beta, p)
  {
    var rhs := RightSide(x, beta, p);
    forall y: nat | 0 < y < p ensures !Squares(y, rhs, p) {
      if rhs % p == 0 {
        ZeroHasNoOtherRoot(p, y, rhs);
      }
    }
  }

  lemma ZeroHasNoOtherRoot(p: nat, y: nat, n: nat)
    requires IsPrime(p) && 0 < y < p && n % p == 0
    ensures !Squares(y, n, p)
  {
    ModSmall(y, p);
    if y * y % p == 0 {
      Euclid(p, y, y);
    }
  }
}
