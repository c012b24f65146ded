/** The balance commitment C = balance*G + blinding*H + leaf*J and what the wallet and the
    server do to it without opening it. */
module Pedersen {
  import opened Felts
  import opened Modular
  import Groups

  const G: Point := Point(1, 0, 0)
  const H: Point := Point(0, 1, 0)
  const J: Point := Point(0, 0, 1)

  /** Sum and negation of scalars modulo the order. */
  function Plus(a: Scalar, b: Scalar): Scalar {
    if a + b < ORDER then a + b else a + b - ORDER
  }

  function Minus(a: Scalar): Scalar {
    if a == 0 then 0 else ORDER - a
  }

  function Add(p: Point, q: Point): Point {
    Point(Plus(p.g, q.g), Plus(p.h, q.h), Plus(p.j, q.j))
  }

  function Negate(p: Point): Point {
    Point(Minus(p.g), Minus(p.h), Minus(p.j))
  }

  /** k*P, as repeated addition. */
  function Times(k: nat, p: Point): Point {
    if k == 0 then Point(0, 0, 0) else Add(Times(k - 1, p), p)
  }

  function Commit(balance: nat, blinding: nat, leafScalar: nat): Point {
    Add(Add(Times(balance, G), Times(blinding, H)), Times(leafScalar, J))
  }

  function Rerandomize(c: Point, rho: nat): Point {
    Add(c, Times(rho, H))
  }

  function AddBlindings(a: nat, b: nat): Scalar {
    Plus(a % ORDER, b % ORDER)
  }

  function ServerUpdate(anonymous: Point, charge: nat, blindDelta: nat): Point {
    Add(Add(anonymous, Negate(Times(charge, G))), Times(blindDelta, H))
  }

  lemma PlusIs(a: nat, b: nat)
    ensures Plus(a % ORDER, b % ORDER) == (a + b) % ORDER
  {
    ModAdd(a, b, ORDER);
    var sum := a % ORDER + b % ORDER;
    if sum < ORDER {
      ModSmall(sum, ORDER);
    } else {
      ModShift(sum - ORDER, 1, ORDER);
      ModSmall(sum - ORDER, ORDER);
    }
  }

  lemma PlusMinusIs(a: Scalar, k: nat)
    ensures Plus(a, Minus(k % ORDER)) == (a - k) % ORDER
  {
    var q, rest := k / ORDER, k % ORDER;
    assert a - k == a - rest + ORDER * (0 - q);
    ModShift(a - rest, 0 - q, ORDER);
    if a >= rest {
      ModSmall(a - rest, ORDER);
    } else {
      ModShift(a - rest, 1, ORDER);
      ModSmall(a - rest + ORDER, ORDER);
    }
  }

  lemma {:induction false} TimesGenerators(k: nat)
    ensures Times(k, G) == Point(k % ORDER, 0, 0)
    ensures Times(k, H) == Point(0, k % ORDER, 0)
    ensures Times(k, J) == Point(0, 0, k % ORDER)
  {
    if k > 0 {
      TimesGenerators(k - 1);
      PlusIs(k - 1, 1);
      ModSmall(1, ORDER);
    }
  }

  /** Coordinates of a commitment: nothing else is hidden in it. */
  lemma CommitIs(balance: nat, blinding: nat, leafScalar: nat)
    ensures Commit(balance, blinding, leafScalar) == Point(balance % ORDER, blinding % ORDER, leafScalar % ORDER)
  {
    hide Times;
    TimesGenerators(balance);
    TimesGenerators(blinding);
    TimesGenerators(leafScalar);
  }

  lemma RerandomizeIs(c: Point, rho: nat)
    ensures Rerandomize(c, rho) == Point(c.g, (c.h + rho) % ORDER, c.j)
  {
    hide Times;
    TimesGenerators(rho);
    PlusIs(c.h, rho);
    ModSmall(c.h, ORDER);
  }

  lemma ServerUpdateIs(c: Point, charge: nat, delta: nat)
    ensures ServerUpdate(c, charge, delta) == Point((c.g - charge) % ORDER, (c.h + delta) % ORDER, c.j)
  {
    hide Times;
    TimesGenerators(charge);
    PlusMinusIs(c.g, charge);
    RerandomizeIs(Add(c, Negate(Times(charge, G))), delta);
  }

  /** Different charges give different points. */
  lemma ChargeIsDetermined(c: Point, charge: nat, charge': nat, delta: nat)
    requires charge < ORDER && charge' < ORDER
    requires ServerUpdate(c, charge, delta) == ServerUpdate(c, charge', delta)
    ensures charge == charge'
  {
    hide ServerUpdate;
    ServerUpdateIs(c, charge, delta);
    ServerUpdateIs(c, charge', delta);
    ModEqIffZero(c.g - charge, c.g - charge', ORDER);
    if charge >= charge' {
      ModSmall(charge - charge', ORDER);
      ModEqIffZero(c.g - charge', c.g - charge, ORDER);
    } else {
      ModSmall(charge' - charge, ORDER);
    }
  }

  /** Binding: one point has one 128-bit balance, one blinding and one leaf scalar. */
  lemma CommitBinds(b: nat, r: nat, l: nat, b': nat, r': nat, l': nat)
    requires b < U128 && b' < U128
    requires Commit(b, r, l) == Commit(b', r', l')
    ensures b == b' && r % ORDER == r' % ORDER && l % ORDER == l' % ORDER
  {
    CommitIs(b, r, l);
    CommitIs(b', r', l');
    ModSmall(b, ORDER);
    ModSmall(b', ORDER);
  }

  lemma AddBlindingsIs(a: nat, b: nat)
    ensures AddBlindings(a, b) == (a + b) % ORDER
  {
    PlusIs(a, b);
  }

  lemma RoundIs(b: nat, r: nat, l: nat, rho: nat, charge: nat, delta: nat)
    ensures ServerUpdate(Rerandomize(Commit(b, r, l), rho), charge, delta)
         == Point((b - charge) % ORDER, AddBlindings(AddBlindings(r, rho), delta), l % ORDER)
  {
    hide Commit, Rerandomize, ServerUpdate, AddBlindings;
    CommitIs(b, r, l);
    RerandomizeIs(Commit(b, r, l), rho);
    ServerUpdateIs(Rerandomize(Commit(b, r, l), rho), charge, delta);
    ModAddLeft(b, 0 - charge, ORDER);
    ModAddLeft(r, rho, ORDER);
    AddBlindingsIs(r, rho);
    AddBlindingsIs(AddBlindings(r, rho), delta);
  }

  /** The server charges a commitment it cannot open; the owner's new opening is exact. */
  lemma UpdateOpens(b: nat, r: nat, l: nat, rho: nat, charge: nat, delta: nat)
    requires charge <= b
    ensures ServerUpdate(Rerandomize(Commit(b, r, l), rho), charge, delta)
         == Commit(b - charge, AddBlindings(AddBlindings(r, rho), delta), l)
  {
    hide Commit, Rerandomize, ServerUpdate, AddBlindings;
    RoundIs(b, r, l, rho, charge, delta);
    CommitIs(b - charge, AddBlindings(AddBlindings(r, rho), delta), l);
    ModSmall(AddBlindings(AddBlindings(r, rho), delta), ORDER);
  }

  ghost predicate OpensTo(c: Point, balance: nat) {
    exists r: nat, l: nat :: Commit(balance, r, l) == c
  }

  /** A charged commitment opens to some 128-bit balance exactly when the charge was covered: no wrap-around. */
  lemma OpensIffCovered(b: nat, r: nat, l: nat, rho: nat, charge: nat, delta: nat)
    requires b < U128 && charge < U128
    ensures (exists b': nat :: b' < U128 && OpensTo(ServerUpdate(Rerandomize(Commit(b, r, l), rho), charge, delta), b'))
       <==> charge <= b
  {
    var updated := ServerUpdate(Rerandomize(Commit(b, r, l), rho), charge, delta);
    if charge <= b {
      UpdateOpens(b, r, l, rho, charge, delta);
      assert OpensTo(updated, b - charge);
    } else {
      RoundIs(b, r, l, rho, charge, delta);
      ModShift(b - charge, 1, ORDER);
      ModSmall(b - charge + ORDER, ORDER);
      forall b': nat, r': nat, l': nat | b' < U128 ensures Commit(b', r', l') != updated {
        CommitIs(b', r', l');
        ModSmall(b', ORDER);
      }
    }
  }

  /** One round of spending: a fresh rerandomization, then the server's charge and blinding. */
  datatype Round = Round(rho: nat, charge: nat, delta: nat)

  function Spend(c: Point, rounds: seq<Round>): Point {
    if rounds == [] then c
    else
      var last := rounds[|rounds| - 1];
      ServerUpdate(Rerandomize(Spend(c, rounds[..|rounds| - 1]), last.rho), last.charge, last.delta)
  }

  function TotalCharge(rounds: seq<Round>): nat {
    if rounds == [] then 0 else TotalCharge(rounds[..|rounds| - 1]) + rounds[|rounds| - 1].charge
  }

  function Blinded(r: nat, rounds: seq<Round>): nat {
    if rounds == [] then r
    else
      var last := rounds[|rounds| - 1];
      AddBlindings(AddBlindings(Blinded(r, rounds[..|rounds| - 1]), last.rho), last.delta)
  }

  /** After any history the commitment opens to the deposit less all charges. */
  lemma {:induction false} HistoryOpens(b: nat, r: nat, l: nat, rounds: seq<Round>)
    requires TotalCharge(rounds) <= b
    ensures Spend(Commit(b, r, l), rounds) == Commit(b - TotalCharge(rounds), Blinded(r, rounds), l)
  {
    hide Commit, AddBlindings, ServerUpdate, Rerandomize;
    if rounds != [] {
      var last := rounds[|rounds| - 1];
      HistoryOpens(b, r, l, rounds[..|rounds| - 1]);
      UpdateOpens(b - TotalCharge(rounds[..|rounds| - 1]), Blinded(r, rounds[..|rounds| - 1]), l, last.rho, last.charge, last.delta);
    }
  }

  // ---- The loops that compute commitments ----

  /** The commitment points as a group. */
  function PointGroup(): Groups.Group<Point> {
    Groups.Group(Point(0, 0, 0), (p, q) => Add(p, q), p => Negate(p), p => true)
  }

  lemma PointsFormGroup()
    ensures Groups.IsGroup(PointGroup())
  {
    var g := PointGroup();
    forall p, q, r ensures Groups.AssociatesAt(g, p, q, r) {
      assert Add(Add(p, q), r) == Add(p, Add(q, r));
    }
    forall p, q ensures Groups.CommutesAt(g, p, q) {
    }
    forall p ensures Groups.InverseAt(g, p) && Groups.NeutralAt(g, p) {
    }
  }

  /** Multiples in the group are the multiples that commitments are made of. */
  lemma {:induction false} MultipleIsTimes(k: nat, p: Point)
    ensures Groups.Multiple(PointGroup(), k, p) == Times(k, p)
  {
    if k > 0 {
      MultipleIsTimes(k - 1, p);
    }
  }

  /** commitment_var: double-and-add over the bits of balance, blinding and leaf gives the commitment. */
  method CommitByBits(balance: seq<bool>, blinding: seq<bool>, leaf: seq<bool>) returns (c: Point)
    ensures c == Commit(Groups.FromBits(balance), Groups.FromBits(blinding), Groups.FromBits(leaf))
  {
    PointsFormGroup();
    var bg := Groups.ScalarMul(PointGroup(), G, balance);
    var rh := Groups.ScalarMul(PointGroup(), H, blinding);
    var lj := Groups.ScalarMul(PointGroup(), J, leaf);
    MultipleIsTimes(Groups.FromBits(balance), G);
    MultipleIsTimes(Groups.FromBits(blinding), H);
    MultipleIsTimes(Groups.FromBits(leaf), J);
    c := Add(Add(bg, rh), lj);
  }
}
