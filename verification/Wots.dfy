/** WOTS+ one-time signatures with w = 16, as RFC 8391 sections 2.6 and 3.1 shape them, over
    an abstract chain step.

    Rust takes a digit out of the bytes of the message, Cairo divides the message down; both
    give `Digits`. */
module Wots {
  import opened Powers
  import opened Wrappers
  import opened Modular
  import opened Primes

  const LEN1: nat := 62
  const LEN2: nat := 3
  const LEN: nat := 65

  // ---- Digits ----

  /** Hexadecimal digit k of m, lowest first. */
  function Nibble(m: nat, k: nat): (d: nat)
    ensures d < 16
  {
    m / Pow(16, k) % 16
  }

  /** The first n of the 62 digits of the low 248 bits of m, highest first. */
  function MessageDigits(m: nat, n: nat): (ds: seq<nat>)
    requires n <= LEN1
    ensures |ds| == n && forall i :: 0 <= i < n ==> ds[i] == Nibble(m, 61 - i)
  {
    if n == 0 then [] else MessageDigits(m, n - 1) + [Nibble(m, 61 - (n - 1))]
  }

  predicate AreDigits(ds: seq<nat>) { forall i :: 0 <= i < |ds| ==> ds[i] < 16 }

  function Checksum(ds: seq<nat>): (c: nat)
    requires AreDigits(ds)
    ensures c <= 15 * |ds|
  {
    if ds == [] then 0 else Checksum(ds[..|ds| - 1]) + (15 - ds[|ds| - 1])
  }

  lemma ChecksumAppends(ds: seq<nat>, d: nat)
    requires AreDigits(ds) && d < 16
    ensures AreDigits(ds + [d]) && Checksum(ds + [d]) == Checksum(ds) + (15 - d)
  {
  }

  function ChecksumDigits(c: nat): (ds: seq<nat>)
    ensures |ds| == LEN2 && AreDigits(ds)
  {
    [c / 256 % 16, c / 16 % 16, c % 16]
  }

  /** The 65 chain positions of a message. */
  function Digits(m: nat): (ds: seq<nat>)
    ensures |ds| == LEN && AreDigits(ds)
  {
    MessageDigits(m, LEN1) + ChecksumDigits(Checksum(MessageDigits(m, LEN1)))
  }

  /** Byte k of the 32 big-endian bytes of m. */
  function ByteAt(m: nat, k: nat): (b: nat)
    requires k < 32
    ensures b < 256
  {
    m / Pow(256, 31 - k) % 256
  }

  lemma ByteHalves(x: nat)
    ensures x % 256 / 16 % 16 == x / 16 % 16 && x % 256 % 16 == x % 16
  {
  }

  lemma BytePower(j: nat)
    ensures Pow(256, j) == Pow(16, 2 * j) && Pow(16, 2 * j + 1) == Pow(256, j) * 16
  {
  }

  /** The half of a byte that Rust takes is the digit. */
  lemma HalfByteIsNibble(m: nat, i: nat)
    requires i < LEN1
    ensures ByteAt(m, 1 + i / 2) / (if i % 2 == 0 then 16 else 1) % 16 == Nibble(m, 61 - i)
  {
    var j := 30 - i / 2;
    BytePower(j);
    ByteHalves(m / Pow(256, j));
    if i % 2 == 0 {
      SplitDigit(m, Pow(256, j), 16);
      assert 61 - i == 2 * j + 1;
    } else {
      assert 61 - i == 2 * j;
    }
  }

  /** message_to_base_w in Rust: shifts and masks on the bytes. */
  method MessageToBaseW(m: nat) returns (msgDigits: seq<nat>, csDigits: seq<nat>)
    ensures msgDigits + csDigits == Digits(m) && |msgDigits| == LEN1
  {
    hide Nibble, ByteAt, Pow;
    var digits := new nat[LEN1];
    for i := 0 to LEN1
      invariant forall k :: 0 <= k < i ==> digits[k] == Nibble(m, 61 - k)
    {
      var bitOffset := 8 + i * 4;
      var byteIdx, bitInByte := bitOffset / 8, bitOffset % 8;
      HalfByteIsNibble(m, i);
      if bitInByte <= 4 {
        digits[i] := ByteAt(m, byteIdx) / (if bitInByte == 0 then 16 else 1) % 16;
      } else {
        assert false;
      }
    }
    msgDigits := digits[..];
    assert msgDigits == MessageDigits(m, LEN1);
    var checksum := 0;
    for i := 0 to LEN1
      invariant checksum == Checksum(msgDigits[..i])
    {
      assert msgDigits[..i + 1][..i] == msgDigits[..i];
      checksum := checksum + (15 - msgDigits[i]);
    }
    assert msgDigits[..LEN1] == msgDigits;
    var cs := checksum;
    var d2 := cs % 16;
    cs := cs / 16;
    var d1 := cs % 16;
    cs := cs / 16;
    csDigits := [cs % 16, d1, d2];
  }

  lemma NextNibble(m: nat, k: nat)
    ensures m / Pow(16, k) / 16 == m / Pow(16, k + 1)
    ensures m % Pow(16, k + 1) == Nibble(m, k) * Pow(16, k) + m % Pow(16, k)
  {
    SplitDigit(m, Pow(16, k), 16);
  }

  /** Below 16^3 the first division needs no remainder. */
  lemma ChecksumByDivision(c: nat)
    requires c < 4096
    ensures ChecksumDigits(c) == [c / 256, c % 256 / 16, c % 16]
    ensures c == 256 * (c / 256 % 16) + 16 * (c / 16 % 16) + c % 16
  {
    SplitDigit(c, 16, 16);
    var h, m, l := c / 256, c / 16 % 16, c % 16;
    assert c % 256 == m * 16 + l;
    assert (m * 16 + l) / 16 == m;
    assert c == 256 * h + c % 256;
    assert h < 16 && h % 16 == h;
  }

  /** message_to_base_w in Cairo: repeated division, then the digits in reverse. */
  method MessageToBaseWByDivision(m: nat) returns (digits: seq<nat>)
    ensures digits == Digits(m)
  {
    var remaining := m;
    var lsbNibbles: seq<nat> := [];
    var i: nat := 0;
    while i < 62
      invariant i <= 62 && |lsbNibbles| == i && remaining == m / Pow(16, i)
      invariant forall k :: 0 <= k < i ==> lsbNibbles[k] == Nibble(m, k)
    {
      NextNibble(m, i);
      lsbNibbles := lsbNibbles + [remaining % 16];
      remaining := remaining / 16;
      i := i + 1;
    }
    digits := [];
    var checksum := 0;
    i := 0;
    while i < 62
      invariant i <= 62 && digits == MessageDigits(m, i) && AreDigits(digits) && checksum == Checksum(digits)
    {
      var digit := lsbNibbles[61 - i];
      ChecksumAppends(digits, digit);
      digits := digits + [digit];
      checksum := checksum + (15 - digit);
      i := i + 1;
    }
    assert checksum <= 15 * 62;
    ChecksumByDivision(checksum);
    digits := digits + [checksum / 256];
    digits := digits + [checksum % 256 / 16];
    digits := digits + [checksum % 16];
  }

  // ---- What the digits spell ----

  /** The number that hexadecimal digits spell, highest first. */
  function Spelled(ds: seq<nat>): nat {
    if ds == [] then 0 else 16 * Spelled(ds[..|ds| - 1]) + ds[|ds| - 1]
  }

  function DigitSum(ds: seq<nat>): nat {
    if ds == [] then 0 else DigitSum(ds[..|ds| - 1]) + ds[|ds| - 1]
  }

  lemma PowBegins(n: nat)
    ensures Pow(16, 0) == 1 && Pow(16, n + 1) == 16 * Pow(16, n)
  {
  }

  lemma LowDigit(x: nat, rest: nat)
    requires rest > 0
    ensures x % (16 * rest) == 16 * (x / 16 % rest) + x % 16
  {
    SplitDigit(x, 16, rest);
  }

  lemma NextSpelled(m: nat, n: nat)
    requires 0 < n <= LEN1
    ensures m / Pow(16, LEN1 - n) % Pow(16, n) == 16 * (m / Pow(16, LEN1 - (n - 1)) % Pow(16, n - 1)) + Nibble(m, LEN1 - n)
  {
    hide Pow;
    PowBegins(n - 1);
    NextNibble(m, LEN1 - n);
    LowDigit(m / Pow(16, LEN1 - n), Pow(16, n - 1));
  }

  lemma {:induction false} MessageIsSpelled(m: nat, n: nat)
    requires n <= LEN1
    ensures Spelled(MessageDigits(m, n)) == m / Pow(16, LEN1 - n) % Pow(16, n)
  {
    if n == 0 {
      assert Pow(16, 0) == 1;
    } else {
      hide Pow, Nibble;
      MessageIsSpelled(m, n - 1);
      NextSpelled(m, n);
      var ds := MessageDigits(m, n);
      assert ds[..n - 1] == MessageDigits(m, n - 1) && ds[n - 1] == Nibble(m, LEN1 - n);
    }
  }

  lemma {:induction false} ChecksumAndSum(ds: seq<nat>)
    requires AreDigits(ds)
    ensures Checksum(ds) + DigitSum(ds) == 15 * |ds|
  {
    if ds != [] {
      ChecksumAndSum(ds[..|ds| - 1]);
    }
  }

  lemma SpelledThree(a: nat, b: nat, c: nat)
    ensures Spelled([a, b, c]) == 256 * a + 16 * b + c
  {
    assert [a, b, c][..2] == [a, b] && [a, b][..1] == [a] && [a][..0] == [];
    assert Spelled([a]) == a && Spelled([a, b]) == 16 * a + b;
  }

  lemma WholeIsSpelled(m: nat)
    ensures Spelled(MessageDigits(m, LEN1)) == m % Pow(16, LEN1)
  {
    hide Spelled, MessageDigits, Pow;
    MessageIsSpelled(m, LEN1);
    PowBegins(0);
  }

  /** The first 62 positions spell the low 248 bits of the message, the last three what their sum lacks of 15 each. */
  lemma DigitsSpell(m: nat)
    ensures Spelled(Digits(m)[..LEN1]) == m % Pow(16, LEN1)
    ensures Spelled(Digits(m)[LEN1..]) + DigitSum(Digits(m)[..LEN1]) == 15 * LEN1
  {
    hide Spelled, DigitSum, ChecksumDigits, MessageDigits, Pow;
    var ds := MessageDigits(m, LEN1);
    WholeIsSpelled(m);
    assert Digits(m)[..LEN1] == ds && Digits(m)[LEN1..] == ChecksumDigits(Checksum(ds));
    ChecksumAndSum(ds);
    ChecksumIsSpelled(Checksum(ds));
  }

  lemma ChecksumIsSpelled(c: nat)
    requires c < 4096
    ensures Spelled(ChecksumDigits(c)) == c
  {
    hide Spelled;
    ChecksumByDivision(c);
    SpelledThree(c / 256 % 16, c / 16 % 16, c % 16);
  }

  // ---- Different messages need different chains ----

  lemma {:induction false} SameNibblesSameMessage(m: nat, m': nat, n: nat)
    requires forall k :: 0 <= k < n ==> Nibble(m, k) == Nibble(m', k)
    ensures m % Pow(16, n) == m' % Pow(16, n)
  {
    if n > 0 {
      SameNibblesSameMessage(m, m', n - 1);
      NextNibble(m, n - 1);
      NextNibble(m', n - 1);
    }
  }

  /** Digits that are nowhere smaller and somewhere larger have a smaller checksum. */
  lemma {:induction false} ChecksumFalls(a: seq<nat>, b: seq<nat>)
    requires AreDigits(a) && AreDigits(b) && |a| == |b|
    requires forall i :: 0 <= i < |a| ==> a[i] >= b[i]
    ensures Checksum(a) <= Checksum(b)
    ensures Checksum(a) == Checksum(b) ==> a == b
  {
    if a != [] {
      var n := |a| - 1;
      ChecksumFalls(a[..n], b[..n]);
      assert a == a[..n] + [a[n]] && b == b[..n] + [b[n]];
    }
  }

  lemma ChecksumDigitsOrder(c: nat, c': nat)
    requires c < c' <= 930
    ensures exists i :: 0 <= i < LEN2 && ChecksumDigits(c)[i] < ChecksumDigits(c')[i]
  {
    ChecksumByDivision(c);
    ChecksumByDivision(c');
    var d, d' := ChecksumDigits(c), ChecksumDigits(c');
    assert d[0] < d'[0] || d[1] < d'[1] || d[2] < d'[2];
  }

  /** Two messages that differ in their low 248 bits each have a position strictly below the other's, so
      a signature on one can never be wound forward to the other. */
  lemma ChecksumDominates(m: nat, m': nat)
    requires m % Pow(2, 248) != m' % Pow(2, 248)
    ensures exists i :: 0 <= i < LEN && Digits(m)[i] < Digits(m')[i]
    ensures exists i :: 0 <= i < LEN && Digits(m')[i] < Digits(m)[i]
  {
    SomewhereBelow(m, m');
    SomewhereBelow(m', m);
  }

  lemma SomewhereBelow(m: nat, m': nat)
    requires m % Pow(2, 248) != m' % Pow(2, 248)
    ensures exists i :: 0 <= i < LEN && Digits(m)[i] < Digits(m')[i]
  {
    var a, b := MessageDigits(m, LEN1), MessageDigits(m', LEN1);
    if i :| 0 <= i < LEN1 && a[i] < b[i] {
      assert Digits(m)[i] < Digits(m')[i];
    } else {
      ChecksumFalls(a, b);
      if a == b {
        SameDigitsSameMessage(m, m');
      } else {
        ChecksumDigitsOrder(Checksum(a), Checksum(b));
        var i :| 0 <= i < LEN2 && ChecksumDigits(Checksum(a))[i] < ChecksumDigits(Checksum(b))[i];
        assert Digits(m)[LEN1 + i] < Digits(m')[LEN1 + i];
      }
    }
  }

  lemma SameDigitsSameMessage(m: nat, m': nat)
    requires MessageDigits(m, LEN1) == MessageDigits(m', LEN1)
    ensures m % Pow(2, 248) == m' % Pow(2, 248)
  {
    forall k | 0 <= k < LEN1 ensures Nibble(m, k) == Nibble(m', k) {
      assert MessageDigits(m, LEN1)[61 - k] == MessageDigits(m', LEN1)[61 - k];
    }
    SameNibblesSameMessage(m, m', LEN1);
    PowOne(2);
    PowPow(2, 2, 2);
    PowOne(4);
    PowPow(2, 4, 62);
  }

  // ---- Chains ----

  function Chain<F>(step: (F, nat) -> F, value: F, start: nat, steps: nat): F {
    if steps == 0 then value else step(Chain(step, value, start, steps - 1), start + steps - 1)
  }

  lemma {:induction false} ChainsCompose<F>(step: (F, nat) -> F, value: F, start: nat, a: nat, b: nat)
    ensures Chain(step, Chain(step, value, start, a), start + a, b) == Chain(step, value, start, a + b)
    decreases b
  {
    if b > 0 {
      ChainsCompose(step, value, start, a, b - 1);
    }
  }

  /** Step k of a chain is taken under its own index. */
  lemma {:induction false} ChainStarts<F>(step: (F, nat) -> F, value: F, start: nat, steps: nat)
    ensures Chain(step, value, start, steps + 1) == Chain(step, step(value, start), start + 1, steps)
  {
    if steps > 0 {
      ChainStarts(step, value, start, steps - 1);
    }
  }

  method ComputeChain<F>(step: (F, nat) -> F, value: F, start: nat, steps: nat) returns (current: F)
    ensures current == Chain(step, value, start, steps)
  {
    current := value;
    for i := start to start + steps
      invariant current == Chain(step, value, start, i - start)
    {
      current := step(current, i);
    }
  }

  // ---- Keys and signatures ----

  function KeyOf<F>(step: (F, nat) -> F, secret: seq<F>): (key: seq<F>)
    ensures |key| == |secret| && forall i :: 0 <= i < |key| ==> key[i] == Chain(step, secret[i], 0, 15)
  {
    seq(|secret|, i requires 0 <= i < |secret| => Chain(step, secret[i], 0, 15))
  }

  function SignatureOf<F>(step: (F, nat) -> F, secret: seq<F>, m: nat): (signature: seq<F>)
    requires |secret| == LEN
    ensures |signature| == LEN && forall i :: 0 <= i < LEN ==> signature[i] == Chain(step, secret[i], 0, Digits(m)[i])
  {
    seq(LEN, i requires 0 <= i < LEN => Chain(step, secret[i], 0, Digits(m)[i]))
  }

  function RecoveredKey<F>(step: (F, nat) -> F, signature: seq<F>, m: nat): (key: seq<F>)
    requires |signature| == LEN
    ensures |key| == LEN && forall i :: 0 <= i < LEN ==> key[i] == Chain(step, signature[i], Digits(m)[i], 15 - Digits(m)[i])
  {
    seq(LEN, i requires 0 <= i < LEN => Chain(step, signature[i], Digits(m)[i], 15 - Digits(m)[i]))
  }

  /** Verifying a signature recovers the key it was made with. */
  lemma SignatureRecoversKey<F>(step: (F, nat) -> F, secret: seq<F>, m: nat)
    requires |secret| == LEN
    ensures RecoveredKey(step, SignatureOf(step, secret, m), m) == KeyOf(step, secret)
  {
    hide Digits;
    forall i | 0 <= i < LEN
      ensures RecoveredKey(step, SignatureOf(step, secret, m), m)[i] == KeyOf(step, secret)[i]
    {
      ChainsCompose(step, secret[i], 0, Digits(m)[i], 15 - Digits(m)[i]);
    }
  }

  // ---- A second message under one key ----

  /** Two chains with different values that the next step makes equal. */
  predicate MergeAt<F(==)>(step: (F, nat) -> F, a: F, b: F, start: nat, k: nat) {
    Chain(step, a, start, k) != Chain(step, b, start, k) && Chain(step, a, start, k + 1) == Chain(step, b, start, k + 1)
  }

  lemma {:induction false} ChainsMerge<F>(step: (F, nat) -> F, a: F, b: F, start: nat, steps: nat) returns (k: nat)
    requires a != b && Chain(step, a, start, steps) == Chain(step, b, start, steps)
    ensures k < steps && MergeAt(step, a, b, start, k)
  {
    if Chain(step, a, start, steps - 1) != Chain(step, b, start, steps - 1) {
      k := steps - 1;
    } else {
      k := ChainsMerge(step, a, b, start, steps - 1);
    }
  }

  predicate Merge<F(==)>(step: (F, nat) -> F, a: F, b: F, start: nat, steps: nat) {
    exists k | 0 <= k < steps :: MergeAt(step, a, b, start, k)
  }

  /** Walking element i of the second signature leads through a preimage of the published element, or into it by
      two different values with one successor. */
  ghost predicate BreaksChain<F>(step: (F, nat) -> F, published: F, forged: F, low: nat, high: nat) {
    && low < high <= 15
    && (|| step(Chain(step, forged, low, high - 1 - low), high - 1) == published
        || Merge(step, Chain(step, forged, low, high - low), published, high, 15 - high))
  }

  /** Whoever signs a second message with the key of the first, where the low 248 bits differ, breaks a chain: the
      checksum makes some position of the second message lie below that of the first. */
  lemma SecondSignatureBreaksChain<F>(step: (F, nat) -> F, secret: seq<F>, m: nat, forged: seq<F>, m': nat) returns (i: nat)
    requires |secret| == LEN && |forged| == LEN && m % Pow(2, 248) != m' % Pow(2, 248)
    requires RecoveredKey(step, forged, m') == KeyOf(step, secret)
    ensures i < LEN && BreaksChain(step, SignatureOf(step, secret, m)[i], forged[i], Digits(m')[i], Digits(m)[i])
  {
    ChecksumDominates(m, m');
    i :| 0 <= i < LEN && Digits(m')[i] < Digits(m)[i];
    assert RecoveredKey(step, forged, m')[i] == KeyOf(step, secret)[i];
    ChainBreaks(step, secret[i], forged[i], Digits(m')[i], Digits(m)[i]);
  }

  lemma ChainBreaks<F>(step: (F, nat) -> F, secret: F, forged: F, low: nat, high: nat)
    requires low < high <= 15 && Chain(step, forged, low, 15 - low) == Chain(step, secret, 0, 15)
    ensures BreaksChain(step, Chain(step, secret, 0, high), forged, low, high)
  {
    var published, reached := Chain(step, secret, 0, high), Chain(step, forged, low, high - low);
    if reached != published {
      ChainsCompose(step, secret, 0, high, 15 - high);
      ChainsCompose(step, forged, low, high - low, 15 - high);
      var k := ChainsMerge(step, reached, published, high, 15 - high);
    }
  }

  /** wots_keygen */
  method Keygen<F(0)>(step: (F, nat) -> F, secret: seq<F>) returns (key: seq<F>)
    requires |secret| == LEN
    ensures key == KeyOf(step, secret)
  {
    var publicKey := new F[LEN];
    for i := 0 to LEN
      invariant forall k :: 0 <= k < i ==> publicKey[k] == Chain(step, secret[k], 0, 15)
    {
      var end := ComputeChain(step, secret[i], 0, 15);
      publicKey[i] := end;
    }
    key := publicKey[..];
  }

  /** wots_sign */
  method Sign<F(0)>(step: (F, nat) -> F, secret: seq<F>, m: nat) returns (signature: seq<F>)
    requires |secret| == LEN
    ensures signature == SignatureOf(step, secret, m)
  {
    hide Digits;
    var msgDigits, csDigits := MessageToBaseW(m);
    ghost var ds := Digits(m);
    var out := new F[LEN];
    for i := 0 to LEN1
      invariant forall k :: 0 <= k < i ==> out[k] == Chain(step, secret[k], 0, ds[k])
    {
      assert msgDigits[i] == ds[i];
      var link := ComputeChain(step, secret[i], 0, msgDigits[i]);
      out[i] := link;
    }
    for i := 0 to LEN2
      invariant forall k :: 0 <= k < LEN1 + i ==> out[k] == Chain(step, secret[k], 0, ds[k])
    {
      assert csDigits[i] == ds[LEN1 + i];
      var link := ComputeChain(step, secret[LEN1 + i], 0, csDigits[i]);
      out[LEN1 + i] := link;
    }
    signature := out[..];
  }

  /** wots_verify in Rust */
  method Recover<F(0)>(step: (F, nat) -> F, signature: seq<F>, m: nat) returns (key: seq<F>)
    requires |signature| == LEN
    ensures key == RecoveredKey(step, signature, m)
  {
    hide Digits;
    var msgDigits, csDigits := MessageToBaseW(m);
    ghost var ds := Digits(m);
    var out := new F[LEN];
    for i := 0 to LEN1
      invariant forall k :: 0 <= k < i ==> out[k] == Chain(step, signature[k], ds[k], 15 - ds[k])
    {
      assert msgDigits[i] == ds[i];
      var end := ComputeChain(step, signature[i], msgDigits[i], 15 - msgDigits[i]);
      out[i] := end;
    }
    for i := 0 to LEN2
      invariant forall k :: 0 <= k < LEN1 + i ==> out[k] == Chain(step, signature[k], ds[k], 15 - ds[k])
    {
      assert csDigits[i] == ds[LEN1 + i];
      var end := ComputeChain(step, signature[LEN1 + i], csDigits[i], 15 - csDigits[i]);
      out[LEN1 + i] := end;
    }
    key := out[..];
  }

  /** wots_verify in Cairo; None where it panics. */
  method RecoverByDivision<F>(step: (F, nat) -> F, signature: seq<F>, m: nat) returns (key: Option<seq<F>>)
    ensures key == if |signature| == LEN then Some(RecoveredKey(step, signature, m)) else None
  {
    if |signature| != 65 {
      return None;
    }
    var digits := MessageToBaseWByDivision(m);
    var values: seq<F> := [];
    var i: nat := 0;
    while i < 65
      invariant i <= 65 && values == RecoveredKey(step, signature, m)[..i]
    {
      var steps := 15 - digits[i];
      var recovered := ComputeChain(step, signature[i], digits[i], steps);
      values := values + [recovered];
      i := i + 1;
    }
    assert RecoveredKey(step, signature, m)[..65] == RecoveredKey(step, signature, m);
    key := Some(values);
  }
}
