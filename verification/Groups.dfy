/** Commutative groups, multiples, and the double-and-add loop. */
module Groups {
  import opened Powers
  import opened Modular

  datatype Group<!T> = Group(zero: T, add: (T, T) -> T, neg: T -> T, member: T -> bool)

  predicate AssociatesAt<T(==)>(g: Group<T>, x: T, y: T, z: T) { g.add(g.add(x, y), z) == g.add(x, g.add(y, z)) }

  predicate CommutesAt<T(==)>(g: Group<T>, x: T, y: T) { g.add(x, y) == g.add(y, x) }

  predicate NeutralAt<T(==)>(g: Group<T>, x: T) { g.add(g.zero, x) == x }

  predicate InverseAt<T(==)>(g: Group<T>, x: T) { g.add(x, g.neg(x)) == g.zero }

  ghost predicate Closed<T(!new)>(g: Group<T>) {
    && g.member(g.zero)
    && (forall x, y {:trigger g.add(x, y)} :: g.member(x) && g.member(y) ==> g.member(g.add(x, y)))
    && (forall x {:trigger g.neg(x)} :: g.member(x) ==> g.member(g.neg(x)))
  }

  ghost predicate Associates<T(!new)>(g: Group<T>) {
    forall x, y, z {:trigger AssociatesAt(g, x, y, z)} :: g.member(x) && g.member(y) && g.member(z) ==> AssociatesAt(g, x, y, z)
  }

  ghost predicate IsGroup<T(!new)>(g: Group<T>) {
    && Closed(g) && Associates(g)
    && (forall x, y {:trigger CommutesAt(g, x, y)} :: g.member(x) && g.member(y) ==> CommutesAt(g, x, y))
    && (forall x {:trigger NeutralAt(g, x)} :: g.member(x) ==> NeutralAt(g, x))
    && (forall x {:trigger InverseAt(g, x)} :: g.member(x) ==> InverseAt(g, x))
  }

  function Multiple<T>(g: Group<T>, k: nat, x: T): T {
    if k == 0 then g.zero else g.add(Multiple(g, k - 1, x), x)
  }

  lemma {:induction false} MultipleIsMember<T(!new)>(g: Group<T>, k: nat, x: T)
    requires Closed(g) && g.member(x)
    ensures g.member(Multiple(g, k, x))
  {
    if k > 0 {
      MultipleIsMember(g, k - 1, x);
    }
  }

  lemma ZeroOnRight<T(!new)>(g: Group<T>, x: T)
    requires IsGroup(g) && g.member(x)
    ensures g.add(x, g.zero) == x
  {
    assert CommutesAt(g, x, g.zero) && NeutralAt(g, x);
  }

  lemma MultipleOne<T(!new)>(g: Group<T>, x: T)
    requires IsGroup(g) && g.member(x)
    ensures Multiple(g, 1, x) == x
  {
    assert NeutralAt(g, x);
    assert Multiple(g, 1, x) == g.add(Multiple(g, 0, x), x);
  }

  lemma {:induction false} MultipleAdds<T(!new)>(g: Group<T>, a: nat, b: nat, x: T)
    requires IsGroup(g) && g.member(x)
    ensures Multiple(g, a + b, x) == g.add(Multiple(g, a, x), Multiple(g, b, x))
    decreases b
  {
    MultipleIsMember(g, a, x);
    if b == 0 {
      ZeroOnRight(g, Multiple(g, a, x));
    } else {
      MultipleIsMember(g, b - 1, x);
      MultipleAdds(g, a, b - 1, x);
      assert AssociatesAt(g, Multiple(g, a, x), Multiple(g, b - 1, x), x);
    }
  }

  lemma {:induction false} MultipleOfMultiple<T(!new)>(g: Group<T>, a: nat, b: nat, x: T)
    requires IsGroup(g) && g.member(x)
    ensures Multiple(g, b, Multiple(g, a, x)) == Multiple(g, a * b, x)
    decreases b
  {
    MultipleIsMember(g, a, x);
    if b == 0 {
      assert a * b == 0;
    } else {
      MultipleOfMultiple(g, a, b - 1, x);
      assert a * b == a * (b - 1) + a;
      MultipleAdds(g, a * (b - 1), a, x);
    }
  }

  lemma {:induction false} MultipleOfZero<T(!new)>(g: Group<T>, k: nat)
    requires IsGroup(g)
    ensures Multiple(g, k, g.zero) == g.zero
    decreases k
  {
    if k > 0 {
      MultipleOfZero(g, k - 1);
      assert NeutralAt(g, g.zero);
    }
  }

  /** In a group of order n a scalar counts modulo n. */
  lemma MultipleWraps<T(!new)>(g: Group<T>, n: nat, k: nat, x: T)
    requires IsGroup(g) && g.member(x) && n > 0 && Multiple(g, n, x) == g.zero
    ensures Multiple(g, k, x) == Multiple(g, k % n, x)
  {
    var q, r := k / n, k % n;
    assert k == n * q + r;
    MultipleAdds(g, n * q, r, x);
    MultipleOfMultiple(g, n, q, x);
    MultipleOfZero(g, q);
    MultipleIsMember(g, r, x);
    assert NeutralAt(g, Multiple(g, r, x));
  }

  // ---- Double and add ----

  /** The number that bits stand for, lowest first. */
  function FromBits(bits: seq<bool>): nat {
    if bits == [] then 0 else (if bits[0] then 1 else 0) + 2 * FromBits(bits[1..])
  }

  lemma {:induction false} FromBitsAppend(bits: seq<bool>, k: nat)
    requires k < |bits|
    ensures FromBits(bits[..k + 1]) == FromBits(bits[..k]) + (if bits[k] then Pow(2, k) else 0)
    decreases k
  {
    if k == 0 {
      assert bits[..1][1..] == [] && bits[..0] == [];
    } else {
      FromBitsAppend(bits[1..], k - 1);
      assert bits[1..][..k] == bits[..k + 1][1..] && bits[1..][..k - 1] == bits[..k][1..];
    }
  }

  /** What one round of the loop does to the running result and the running power. */
  lemma RoundIs<T(!new)>(g: Group<T>, done: nat, k: nat, x: T)
    requires IsGroup(g) && g.member(x)
    ensures g.add(Multiple(g, done, x), Multiple(g, Pow(2, k), x)) == Multiple(g, done + Pow(2, k), x)
    ensures g.add(Multiple(g, Pow(2, k), x), Multiple(g, Pow(2, k), x)) == Multiple(g, Pow(2, k + 1), x)
  {
    MultipleAdds(g, done, Pow(2, k), x);
    MultipleAdds(g, Pow(2, k), Pow(2, k), x);
  }

  /** scalar_mul over the bits of a scalar. */
  method ScalarMul<T(!new)>(g: Group<T>, point: T, bits: seq<bool>) returns (result: T)
    requires IsGroup(g) && g.member(point)
    ensures result == Multiple(g, FromBits(bits), point)
  {
    result := g.zero;
    var temp := point;
    MultipleOne(g, point);
    for i := 0 to |bits|
      invariant result == Multiple(g, FromBits(bits[..i]), point)
      invariant temp == Multiple(g, Pow(2, i), point)
    {
      FromBitsAppend(bits, i);
      RoundIs(g, FromBits(bits[..i]), i, point);
      if bits[i] {
        result := g.add(result, temp);
      }
      temp := g.add(temp, temp);
    }
    assert bits[..|bits|] == bits;
  }
}
