/** Residues, for moduli that are not known to the solver. */
module Modular {

  /** a and b leave the same remainder. */
  lemma EuclidUnique(n: nat, q: int, r: int, q': int, r': int)
    requires n > 0 && 0 <= r < n && 0 <= r' < n
    requires n * q + r == n * q' + r'
    ensures q == q' && r == r'
  {
    Spread(n, q - q', r' - r);
  }

  lemma Spread(n: nat, k: int, d: int)
    requires n > 0 && 0 - n < d < n && n * k == d
    ensures k == 0 && d == 0
  {
  }

  lemma Scale(n: nat, k: int)
    requires k >= 1
    ensures n * k >= n
  {
  }

  lemma ModShift(x: int, k: int, n: nat)
    requires n > 0
    ensures (x + n * k) % n == x % n
  {
    var q, r := x / n, x % n;
    var q', r' := (x + n * k) / n, (x + n * k) % n;
    assert x == n * q + r && x + n * k == n * q' + r';
    assert n * (q + k) == n * q + n * k;
    EuclidUnique(n, q + k, r, q', r');
  }

  lemma ModSmall(x: int, n: nat)
    requires 0 <= x < n
    ensures x % n == x
  {
  }

  lemma ModAddLeft(a: int, b: int, n: nat)
    requires n > 0
    ensures (a % n + b) % n == (a + b) % n
  {
    assert a == n * (a / n) + a % n;
    ModShift(a % n + b, a / n, n);
  }

  lemma ModAdd(a: int, b: int, n: nat)
    requires n > 0
    ensures (a % n + b % n) % n == (a + b) % n
  {
    ModAddLeft(a, b % n, n);
    ModAddLeft(b, a, n);
  }

  lemma ModMulLeft(a: int, b: int, n: nat)
    requires n > 0
    ensures (a % n) * b % n == a * b % n
  {
    var q, r := a / n, a % n;
    assert a == n * q + r;
    assert a * b == r * b + n * (q * b) by { Distribute(n, q, r, b); }
    ModShift(r * b, q * b, n);
  }

  lemma Distribute(n: int, q: int, r: int, b: int)
    ensures (n * q + r) * b == r * b + n * (q * b)
  {
  }

  lemma ModMul(a: int, b: int, n: nat)
    requires n > 0
    ensures (a % n) * (b % n) % n == a * b % n
  {
    ModMulLeft(a, b % n, n);
    assert a * (b % n) == (b % n) * a && a * b == b * a;
    ModMulLeft(b, a, n);
  }

  lemma ModModId(a: int, n: nat)
    requires n > 0
    ensures a % n % n == a % n
  {
  }

  /** Two integers agree modulo n exactly when their difference is a multiple of it. */
  lemma ModEqIffZero(a: int, b: int, n: nat)
    requires n > 0
    ensures a % n == b % n <==> (a - b) % n == 0
  {
    var q, r, q', r' := a / n, a % n, b / n, b % n;
    assert a == n * q + r && b == n * q' + r';
    assert a - b == n * (q - q') + (r - r') by { assert n * (q - q') == n * q - n * q'; }
    ModShift(r - r', q - q', n);
    if (r - r') % n == 0 {
      assert r - r' == n * ((r - r') / n);
      Spread(n, (r - r') / n, r - r');
    }
  }

  /** One digit more, in base b above the place value n. */
  lemma SplitDigit(m: nat, n: nat, b: nat)
    requires n > 0 && b > 0
    ensures n * b > 0
    ensures m / n / b == m / (n * b)
    ensures m % (n * b) == m / n % b * n + m % n
  {
    var q, r := m / n, m % n;
    SplitWith(m, n, b, q, r, q / b, q % b);
  }

  lemma SplitWith(m: nat, n: nat, b: nat, q: nat, r: nat, h: nat, d: nat)
    requires r < n && d < b && m == n * q + r && q == b * h + d
    ensures n * b > 0 && m / (n * b) == h && m % (n * b) == d * n + r
  {
    SplitParts(n, b, h, d, r);
    DivisionIs(m, n * b, h, d * n + r);
  }

  lemma DivisionIs(m: int, n: nat, q: int, r: int)
    requires n > 0 && 0 <= r < n && m == n * q + r
    ensures m / n == q && m % n == r
  {
    EuclidUnique(n, q, r, m / n, m % n);
  }

  lemma SplitParts(n: nat, b: nat, h: nat, d: nat, r: nat)
    requires d < b && r < n
    ensures n * (b * h + d) + r == n * b * h + (d * n + r)
    ensures 0 <= d * n + r < n * b
  {
    assert n * (b * h + d) == n * (b * h) + n * d && n * (b * h) == n * b * h;
    assert n * b - n * d == n * (b - d);
    Scale(n, b - d);
  }
}
