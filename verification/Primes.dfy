/** Powers and prime moduli: Euclid's lemma and Fermat's little theorem, from the definition
    of a prime. */
module Primes {
  import opened Powers
  import opened Modular

  /** Python's pow(x, e, p). */
  function PowMod(x: nat, e: nat, p: nat): (r: nat)
    requires p > 0
    ensures r < p
  {
    Pow(x, e) % p
  }

  lemma {:induction false} PowAdd(x: nat, a: nat, b: nat)
    ensures Pow(x, a + b) == Pow(x, a) * Pow(x, b)
  {
    if a > 0 {
      PowAdd(x, a - 1, b);
      TimesAssociates(x, Pow(x, a - 1), Pow(x, b));
      assert a + b - 1 == a - 1 + b;
    }
  }

  lemma TimesAssociates(a: int, b: int, c: int)
    ensures a * (b * c) == a * b * c
  {
  }

  lemma {:induction false} PowPow(x: nat, a: nat, b: nat)
    ensures Pow(Pow(x, a), b) == Pow(x, a * b)
  {
    if b == 0 {
      assert a * b == 0;
    } else {
      PowPow(x, a, b - 1);
      assert a * b == a + a * (b - 1);
      PowAdd(x, a, a * (b - 1));
    }
  }

  lemma {:induction false} PowProduct(x: nat, y: nat, e: nat)
    ensures Pow(x * y, e) == Pow(x, e) * Pow(y, e)
  {
    if e > 0 {
      PowProduct(x, y, e - 1);
      Regroup(x, y, Pow(x, e - 1), Pow(y, e - 1));
    }
  }

  lemma Regroup(a: int, b: int, c: int, d: int)
    ensures a * b * (c * d) == a * c * (b * d)
  {
  }

  /** Only the residue of the base matters. */
  lemma {:induction false} PowBase(x: nat, e: nat, p: nat)
    requires p > 0
    ensures PowMod(x % p, e, p) == PowMod(x, e, p)
  {
    if e > 0 {
      PowBase(x, e - 1, p);
      ModMul(x % p, Pow(x % p, e - 1), p);
      ModMul(x, Pow(x, e - 1), p);
      ModModId(x, p);
    }
  }

  lemma PowModPow(x: nat, a: nat, b: nat, p: nat)
    requires p > 0
    ensures PowMod(PowMod(x, a, p), b, p) == PowMod(x, a * b, p)
  {
    PowBase(Pow(x, a), b, p);
    PowPow(x, a, b);
  }

  lemma PowModProduct(x: nat, y: nat, e: nat, p: nat)
    requires p > 0
    ensures PowMod(x * y % p, e, p) == PowMod(x, e, p) * PowMod(y, e, p) % p
  {
    PowBase(x * y, e, p);
    PowProduct(x, y, e);
    ModMul(Pow(x, e), Pow(y, e), p);
  }

  lemma PowModAdd(x: nat, a: nat, b: nat, p: nat)
    requires p > 0
    ensures PowMod(x, a + b, p) == PowMod(x, a, p) * PowMod(x, b, p) % p
  {
    PowAdd(x, a, b);
    ModMul(Pow(x, a), Pow(x, b), p);
  }

  lemma PowOne(x: nat)
    ensures Pow(x, 1) == x && Pow(x, 2) == x * x
  {
  }

  lemma {:induction false} OnePow(e: nat)
    ensures Pow(1, e) == 1
  {
    if e > 0 {
      OnePow(e - 1);
    }
  }

  // ---- Primes ----

  ghost predicate IsPrime(p: nat) {
    p > 1 && forall d :: 1 < d < p ==> p % d != 0
  }

  /** A prime that divides a product divides a factor. */
  lemma {:induction false} Euclid(p: nat, a: int, b: nat)
    requires IsPrime(p) && a * b % p == 0 && a % p != 0
    ensures b % p == 0
    decreases b
  {
    if b >= p {
      ReduceFactor(p, a, b);
      Euclid(p, a, b % p);
    } else if b > 0 {
      var k, r := p / b, p % b;
      assert p == b * k + r;
      RemainderKills(p, a, b, k, r);
      if r == 0 {
        OnlyOneDivides(p, a, b);
      } else {
        Euclid(p, a, r);
        ModSmall(r, p);
      }
    }
  }

  lemma ReduceFactor(p: nat, a: int, b: nat)
    requires p > 0 && a * b % p == 0
    ensures a * (b % p) % p == 0 && b % p % p == b % p && b % p < p
  {
    ModMul(a, b, p);
    ModMul(a, b % p, p);
    ModModId(b, p);
  }

  lemma OnlyOneDivides(p: nat, a: int, b: nat)
    requires IsPrime(p) && 0 < b < p && p % b == 0
    ensures b == 1 && a * b == a
  {
  }

  lemma RemainderKills(p: nat, a: int, b: nat, k: nat, r: nat)
    requires p > 0 && p == b * k + r && a * b % p == 0
    ensures a * r % p == 0
  {
    var q := a * b / p;
    assert a * b == p * q;
    assert a * r == p * (a - q * k) by {
      assert a * r == a * p - a * (b * k);
      assert a * (b * k) == a * b * k == p * q * k == p * (q * k);
      assert p * (a - q * k) == p * a - p * (q * k);
    }
    ModShift(0, a - q * k, p);
  }

  /** Cancelling a factor that the prime does not divide. */
  lemma Cancel(p: nat, a: int, x: int, y: int)
    requires IsPrime(p) && a % p != 0 && a * x % p == a * y % p
    ensures x % p == y % p
  {
    ModEqIffZero(a * x, a * y, p);
    assert a * x - a * y == a * (x - y);
    var d := (x - y) % p;
    ModMul(a, x - y, p);
    ModMul(a, d, p);
    ModModId(x - y, p);
    Euclid(p, a, d);
    ModModId(x - y, p);
    ModEqIffZero(x, y, p);
  }

  /** The square roots of one are one and minus one. */
  lemma RootsOfOne(p: nat, x: nat)
    requires IsPrime(p) && x < p && x * x % p == 1
    ensures x == 1 || x == p - 1
  {
    var a, b := x - 1, x + 1;
    assert a * b == x * x - 1;
    ModEqIffZero(x * x, 1, p);
    ModSmall(1, p);
    if x != 1 {
      if x == 0 {
        ModSmall(0, p);
        assert false;
      }
      ModSmall(a, p);
      Euclid(p, a, b);
      if b < p {
        ModSmall(b, p);
      }
    }
  }

  lemma MinusOneSquared(p: nat)
    requires p > 1
    ensures (p - 1) * (p - 1) % p == 1
  {
    assert (p - 1) * (p - 1) == 1 + p * (p - 2);
    ModShift(1, p - 2, p);
    ModSmall(1, p);
  }

  // ---- Fermat ----

  /** The product of the members of `s` up to n. */
  function Product(s: set<nat>, n: nat): nat {
    if n == 0 then 1 else (if n in s then n else 1) * Product(s, n - 1)
  }

  lemma {:induction false} ProductAdds(s: set<nat>, x: nat, n: nat)
    requires x !in s && 0 < x <= n
    ensures Product(s + {x}, n) == x * Product(s, n)
  {
    if n == x {
      ProductSame(s + {x}, s, n - 1);
      assert (if n in s then n else 1) == 1;
    } else {
      ProductAdds(s, x, n - 1);
      var f := if n in s then n else 1;
      Swap(f, x, Product(s, n - 1));
      assert Product(s + {x}, n) == f * Product(s + {x}, n - 1);
    }
  }

  lemma Swap(f: int, x: int, c: int)
    ensures f * (x * c) == x * (f * c)
  {
  }

  lemma {:induction false} ProductSame(s: set<nat>, s': set<nat>, n: nat)
    requires forall k :: 0 < k <= n ==> (k in s <==> k in s')
    ensures Product(s, n) == Product(s', n)
  {
    if n > 0 {
      ProductSame(s, s', n - 1);
    }
  }

  function Factorial(n: nat): nat { if n == 0 then 1 else n * Factorial(n - 1) }

  lemma {:induction false} FullProduct(s: set<nat>, n: nat)
    requires forall k :: 0 < k <= n ==> k in s
    ensures Product(s, n) == Factorial(n)
  {
    if n > 0 {
      FullProduct(s, n - 1);
    }
  }

  /** The first k multiples of a, as residues. */
  function Multiples(a: nat, k: nat, p: nat): set<nat>
    requires p > 0
  {
    if k == 0 then {} else Multiples(a, k - 1, p) + {a * k % p}
  }

  lemma {:induction false} MultiplesAre(a: nat, k: nat, p: nat, x: nat) returns (i: nat)
    requires p > 0 && x in Multiples(a, k, p)
    ensures 0 < i <= k && x == a * i % p
  {
    if x == a * k % p {
      i := k;
    } else {
      i := MultiplesAre(a, k - 1, p, x);
    }
  }

  lemma MultipleIsNew(a: nat, k: nat, p: nat)
    requires IsPrime(p) && a % p != 0 && 0 < k < p
    ensures a * k % p !in Multiples(a, k - 1, p)
    ensures 0 < a * k % p
  {
    if a * k % p in Multiples(a, k - 1, p) {
      var i := MultiplesAre(a, k - 1, p, a * k % p);
      Cancel(p, a, i, k);
      ModSmall(i, p);
      ModSmall(k, p);
    }
    if a * k % p == 0 {
      Euclid(p, a, k);
      ModSmall(k, p);
    }
  }

  lemma {:induction false} MultiplesSize(a: nat, k: nat, p: nat)
    requires IsPrime(p) && a % p != 0 && k < p
    ensures |Multiples(a, k, p)| == k
    ensures forall x :: x in Multiples(a, k, p) ==> 0 < x < p
  {
    if k > 0 {
      MultiplesSize(a, k - 1, p);
      MultipleIsNew(a, k, p);
    }
  }

  function UpTo(n: nat): (s: set<nat>)
    ensures |s| == n && forall k :: k in s <==> 0 < k <= n
  {
    if n == 0 then {} else UpTo(n - 1) + {n}
  }

  lemma SubsetOfSameSize(a: set<nat>, b: set<nat>)
    requires a <= b && |a| == |b|
    ensures a == b
  {
    if a != b {
      assert !(b <= a);
      var x :| x in b && x !in a;
      SmallerWithout(a, b, x);
    }
  }

  lemma SmallerWithout(a: set<nat>, b: set<nat>, x: nat)
    requires a <= b && x in b && x !in a
    ensures |a| < |b|
  {
    var c := b - {x};
    assert a <= c;
    SubsetSize(a, c);
  }

  lemma {:induction false} SubsetSize(a: set<nat>, b: set<nat>)
    requires a <= b
    ensures |a| <= |b|
    decreases a
  {
    if x :| x in a {
      SubsetSize(a - {x}, b - {x});
    }
  }

  lemma {:induction false} MultiplesProduct(a: nat, k: nat, p: nat)
    requires IsPrime(p) && a % p != 0 && k < p
    ensures Product(Multiples(a, k, p), p - 1) % p == Pow(a, k) * Factorial(k) % p
  {
    if k == 0 {
      EmptyProduct(p - 1);
    } else {
      MultiplesProduct(a, k - 1, p);
      MultipleIsNew(a, k, p);
      var rest := Product(Multiples(a, k - 1, p), p - 1);
      ProductAdds(Multiples(a, k - 1, p), a * k % p, p - 1);
      ModMul(a * k % p, rest, p);
      ModModId(a * k, p);
      ModMul(a * k, rest, p);
      ModMul(a * k, Pow(a, k - 1) * Factorial(k - 1), p);
      Regroup(a, k, Pow(a, k - 1), Factorial(k - 1));
    }
  }

  lemma {:induction false} EmptyProduct(n: nat)
    ensures Product({}, n) == 1
  {
    if n > 0 {
      EmptyProduct(n - 1);
    }
  }

  lemma {:induction false} FactorialUnit(p: nat, k: nat)
    requires IsPrime(p) && k < p
    ensures Factorial(k) % p != 0
  {
    if k == 0 {
      ModSmall(1, p);
    } else {
      FactorialUnit(p, k - 1);
      ModSmall(k, p);
      if k * Factorial(k - 1) % p == 0 {
        Euclid(p, k, Factorial(k - 1));
      }
    }
  }

  /** a^(p-1) = 1 modulo a prime that does not divide a. */
  lemma Fermat(p: nat, a: nat)
    requires IsPrime(p) && a % p != 0
    ensures PowMod(a, p - 1, p) == 1
  {
    MultiplesSize(a, p - 1, p);
    assert |UpTo(p - 1)| == p - 1;
    SubsetOfSameSize(Multiples(a, p - 1, p), UpTo(p - 1));
    FullProduct(Multiples(a, p - 1, p), p - 1);
    MultiplesProduct(a, p - 1, p);
    FactorialUnit(p, p - 1);
    assert Factorial(p - 1) * Pow(a, p - 1) == Pow(a, p - 1) * Factorial(p - 1);
    Cancel(p, Factorial(p - 1), Pow(a, p - 1), 1);
    ModSmall(1, p);
  }
}
