/** Schnorr signatures over the prime subgroup, checked natively with the challenge reduced
    modulo the order and in the circuit with all bits of the hash. */
module Schnorr {
  import opened Modular
  import opened Groups

  /** A group, a generator of order n, and the hash that makes challenges. */
  datatype Scheme<!T, !M> = Scheme(group: Group<T>, generator: T, n: nat, hash: (T, M) -> nat)

  datatype Signature<T> = Signature(r: T, s: nat)

  ghost predicate Sound<T(!new), M>(c: Scheme<T, M>) {
    IsGroup(c.group) && c.group.member(c.generator) && c.n > 0 && Multiple(c.group, c.n, c.generator) == c.group.zero
  }

  function PublicKey<T, M>(c: Scheme<T, M>, secret: nat): T {
    Multiple(c.group, secret, c.generator)
  }

  function Challenge<T, M>(c: Scheme<T, M>, r: T, message: M): nat
    requires c.n > 0
  {
    c.hash(r, message) % c.n
  }

  /** StateSigningKey::sign */
  function Sign<T, M>(c: Scheme<T, M>, secret: nat, nonce: nat, message: M): (signature: Signature<T>)
    requires c.n > 0
    ensures signature.s < c.n
  {
    var r := Multiple(c.group, nonce, c.generator);
    Signature(r, (nonce + Challenge(c, r, message) * secret) % c.n)
  }

  /** verify_state_signature */
  predicate Verifies<T(==), M>(c: Scheme<T, M>, public: T, message: M, signature: Signature<T>)
    requires c.n > 0
  {
    Multiple(c.group, signature.s, c.generator)
      == c.group.add(signature.r, Multiple(c.group, Challenge(c, signature.r, message), public))
  }

  /** enforce_signature, from the bits of s and of the whole hash. */
  method EnforceSignature<T(!new, ==), M>(c: Scheme<T, M>, public: T, message: M, r: T, sBits: seq<bool>, hashBits: seq<bool>) returns (ok: bool)
    requires Sound(c) && c.group.member(public) && FromBits(hashBits) == c.hash(r, message)
    ensures ok <==> HoldsInCircuit(c, public, message, Signature(r, FromBits(sBits)))
  {
    var lhs := ScalarMul(c.group, c.generator, sBits);
    var rhs := ScalarMul(c.group, public, hashBits);
    ok := lhs == c.group.add(r, rhs);
  }

  predicate HoldsInCircuit<T(==), M>(c: Scheme<T, M>, public: T, message: M, signature: Signature<T>) {
    Multiple(c.group, signature.s, c.generator)
      == c.group.add(signature.r, Multiple(c.group, c.hash(signature.r, message), public))
  }

  /** What is signed verifies, whatever the nonce. */
  lemma SignedVerifies<T(!new), M>(c: Scheme<T, M>, secret: nat, nonce: nat, message: M)
    requires Sound(c)
    ensures Verifies(c, PublicKey(c, secret), message, Sign(c, secret, nonce, message))
  {
    var g, e := c.group, Challenge(c, Multiple(c.group, nonce, c.generator), message);
    MultipleWraps(g, c.n, nonce + e * secret, c.generator);
    MultipleAdds(g, nonce, e * secret, c.generator);
    MultipleOfMultiple(g, secret, e, c.generator);
    assert secret * e == e * secret;
  }

  /** The hash above its residue adds nothing exactly when that multiple of the order kills the key. */
  lemma FullHashIff<T(!new), M>(c: Scheme<T, M>, public: T, r: T, message: M)
    requires Sound(c) && c.group.member(public)
    ensures Multiple(c.group, c.hash(r, message), public) == Multiple(c.group, Challenge(c, r, message), public)
       <==> Multiple(c.group, c.n * (c.hash(r, message) / c.n), public) == c.group.zero
  {
    var g, k := c.group, c.hash(r, message);
    var high, low := c.n * (k / c.n), k % c.n;
    assert k == high + low;
    MultipleAdds(g, high, low, public);
    MultipleIsMember(g, low, public);
    MultipleIsMember(g, high, public);
    assert NeutralAt(g, Multiple(g, low, public));
    if g.add(Multiple(g, high, public), Multiple(g, low, public)) == Multiple(g, low, public) {
      CancelOnRight(g, Multiple(g, high, public), Multiple(g, low, public));
    }
  }

  lemma CancelOnRight<T(!new)>(g: Group<T>, x: T, y: T)
    requires IsGroup(g) && g.member(x) && g.member(y) && g.add(x, y) == y
    ensures x == g.zero
  {
    assert AssociatesAt(g, x, y, g.neg(y)) && InverseAt(g, y);
    ZeroOnRight(g, x);
  }

  /** For a key in the prime subgroup the circuit and the native check accept the same signatures. */
  lemma CircuitAgrees<T(!new), M>(c: Scheme<T, M>, public: T, message: M, signature: Signature<T>)
    requires Sound(c) && c.group.member(public) && Multiple(c.group, c.n, public) == c.group.zero
    ensures HoldsInCircuit(c, public, message, signature) <==> Verifies(c, public, message, signature)
  {
    MultipleWraps(c.group, c.n, c.hash(signature.r, message), public);
  }

  /** Every key the server makes is in the subgroup, so its signatures pass the circuit. */
  lemma SignedPassesCircuit<T(!new), M>(c: Scheme<T, M>, secret: nat, nonce: nat, message: M)
    requires Sound(c)
    ensures HoldsInCircuit(c, PublicKey(c, secret), message, Sign(c, secret, nonce, message))
  {
    var g := c.group;
    MultipleIsMember(g, secret, c.generator);
    MultipleOfMultiple(g, secret, c.n, c.generator);
    MultipleOfMultiple(g, c.n, secret, c.generator);
    MultipleOfZero(g, secret);
    assert secret * c.n == c.n * secret;
    SignedVerifies(c, secret, nonce, message);
    CircuitAgrees(c, PublicKey(c, secret), message, Sign(c, secret, nonce, message));
  }

  // ---- What a signature shows and binds ----

  /** The order of the element is n and no less. */
  ghost predicate HasOrder<T(!new)>(g: Group<T>, n: nat, x: T) {
    n > 0 && g.member(x) && Multiple(g, n, x) == g.zero && forall k :: 0 < k < n ==> Multiple(g, k, x) != g.zero
  }

  lemma MultiplesDiffer<T(!new)>(g: Group<T>, n: nat, x: T, a: nat, b: nat)
    requires IsGroup(g) && HasOrder(g, n, x) && a < n && b < n && Multiple(g, a, x) == Multiple(g, b, x)
    ensures a == b
  {
    if a < b {
      NoShorter(g, n, x, a, b);
    } else if b < a {
      NoShorter(g, n, x, b, a);
    }
  }

  lemma NoShorter<T(!new)>(g: Group<T>, n: nat, x: T, a: nat, b: nat)
    requires IsGroup(g) && g.member(x) && a < b < n && Multiple(g, a, x) == Multiple(g, b, x)
    ensures Multiple(g, b - a, x) == g.zero
  {
    MultipleAdds(g, b - a, a, x);
    MultipleIsMember(g, b - a, x);
    MultipleIsMember(g, a, x);
    CancelOnRight(g, Multiple(g, b - a, x), Multiple(g, a, x));
  }

  /** A signature shows its nonce: other nonces below the order show otherwise, whatever is signed with whatever key. */
  lemma NonceShows<T(!new), M>(c: Scheme<T, M>, secret: nat, nonce: nat, message: M, secret': nat, nonce': nat, message': M)
    requires Sound(c) && HasOrder(c.group, c.n, c.generator) && nonce < c.n && nonce' < c.n
    requires Sign(c, secret, nonce, message).r == Sign(c, secret', nonce', message').r
    ensures nonce == nonce'
  {
    MultiplesDiffer(c.group, c.n, c.generator, nonce, nonce');
  }

  /** One nonce for two messages gives the key away: the difference of the signatures is the key times that of the challenges. */
  lemma ReusedNonceShowsKey<T, M>(c: Scheme<T, M>, secret: nat, nonce: nat, message: M, message': M)
    requires c.n > 0
    ensures var a, b := Sign(c, secret, nonce, message), Sign(c, secret, nonce, message');
      (a.s - b.s) % c.n == (c.hash(a.r, message) - c.hash(a.r, message')) * secret % c.n
  {
    var n, r := c.n, Multiple(c.group, nonce, c.generator);
    var h: int, h': int := c.hash(r, message), c.hash(r, message');
    SameNonce(n, nonce, h, h', secret);
  }

  lemma SameNonce(n: nat, nonce: nat, h: int, h': int, secret: nat)
    requires n > 0
    ensures ((nonce + h % n * secret) % n - (nonce + h' % n * secret) % n) % n == (h - h') * secret % n
  {
    var e, e' := h % n, h' % n;
    ModDifference(nonce + e * secret, nonce + e' * secret, n);
    assert nonce + e * secret - (nonce + e' * secret) == (e - e') * secret by { assert (e - e') * secret == e * secret - e' * secret; }
    ModDifference(h, h', n);
    ModMulLeft(e - e', secret, n);
    ModMulLeft(h - h', secret, n);
  }

  lemma ModDifference(a: int, b: int, n: nat)
    requires n > 0
    ensures (a % n - b % n) % n == (a - b) % n
  {
    ModAddLeft(a, 0 - b % n, n);
    assert b == n * (b / n) + b % n;
    assert a - b % n == a - b + n * (b / n);
    ModShift(a - b, b / n, n);
  }

  /** One signature is good for two messages only where their hashes agree modulo the order. */
  lemma MessageIsBound<T(!new), M>(c: Scheme<T, M>, public: T, message: M, message': M, signature: Signature<T>)
    requires Sound(c) && HasOrder(c.group, c.n, public) && c.group.member(signature.r)
    requires Verifies(c, public, message, signature) && Verifies(c, public, message', signature)
    ensures c.hash(signature.r, message) % c.n == c.hash(signature.r, message') % c.n
  {
    var g, e, e' := c.group, Challenge(c, signature.r, message), Challenge(c, signature.r, message');
    MultipleIsMember(g, e, public);
    MultipleIsMember(g, e', public);
    CancelLeft(g, signature.r, Multiple(g, e, public), Multiple(g, e', public));
    MultiplesDiffer(g, c.n, public, e, e');
  }

  lemma CancelLeft<T(!new)>(g: Group<T>, x: T, y: T, z: T)
    requires IsGroup(g) && g.member(x) && g.member(y) && g.member(z) && g.add(x, y) == g.add(x, z)
    ensures y == z
  {
    assert AssociatesAt(g, g.neg(x), x, y) && AssociatesAt(g, g.neg(x), x, z);
    assert CommutesAt(g, g.neg(x), x) && InverseAt(g, x) && NeutralAt(g, y) && NeutralAt(g, z);
  }
}
