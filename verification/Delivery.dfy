/** From the server's table into the wallet: an answer the server released for the wallet's own
    request, at once or after any number of crashes and retries, is adopted. */
module Delivery {
  import opened Felts
  import opened Modular
  import opened Circuits
  import Pedersen
  import P = Protocol
  import S = Server
  import W = Wallet
  import Wrappers

  /** The answer as the client reads it off the wire. */
  function Delivered(p: P.Params, r: S.Response): W.ServerAnswer {
    W.ServerAnswer(r.requestId, r.nullifier, r.payload, r.responseHash, r.charge, r.nextCommitment, r.nextAnchor, r.blindDelta,
               W.Signature(p.cfg.stateKey, StateMessage(p.cfg.deployment, r.nextCommitment, r.nextAnchor)))
  }

  /** The request that won the nullifier is the one the journal remembers. */
  predicate IsOwnRequest(row: P.Entry, s: W.NoteState, j: W.Journal) {
    row.Charged? && row.inputs.anonymousCommitment == Pedersen.Rerandomize(s.commitment, j.rerandomization)
  }

  /** Two openings of one anonymised commitment show one balance. */
  lemma SameBalance(repr: Felt -> nat, o: RequestWitness, s: W.NoteState, rho: nat)
    requires o.balance < U128 && s.balance < U128 && s.commitment == W.Reopened(repr, s)
    requires Pedersen.Rerandomize(WitnessCommitment(repr, o), o.rerandomization) == Pedersen.Rerandomize(s.commitment, rho)
    ensures o.balance == s.balance
  {
    var c, c' := WitnessCommitment(repr, o), s.commitment;
    Pedersen.RerandomizeIs(c, o.rerandomization);
    Pedersen.RerandomizeIs(c', rho);
    Pedersen.CommitIs(o.balance, o.blinding, repr(WitnessLeaf(o)));
    Pedersen.CommitIs(s.balance, s.blinding, repr(W.StateLeaf(s)));
    ModSmall(o.balance, ORDER);
    ModSmall(s.balance, ORDER);
  }

  /** A released answer to the wallet's own request: what it carries, and what was really charged. */
  lemma AnswerIsSigned(p: P.Params, m: S.Machine, r: S.Response, s: W.NoteState, j: W.Journal)
    requires S.MachineInv(p, m) && S.Answered(r) in m.released
    requires r.nullifier in m.world.entries && P.EntryIsSound(p, m.world, r.nullifier) && IsOwnRequest(m.world.entries[r.nullifier], s, j)
    requires s.balance < U128 && s.commitment == W.Reopened(p.repr, s)
    ensures var entry := m.world.entries[r.nullifier];
      && r.nextCommitment == P.NextCommitment(entry) == Pedersen.ServerUpdate(Pedersen.Rerandomize(s.commitment, j.rerandomization), entry.charge, r.blindDelta)
      && r.nextAnchor == P.NextAnchorOf(entry) && r.responseHash == ResponseHash(r.payload)
      && entry.charge <= p.chargeCap && entry.charge <= s.balance && r.charge < U128
      && r.blindDelta == entry.blindDelta
  {
    hide Pedersen.Commit, Pedersen.ServerUpdate, Pedersen.Rerandomize, S.MachineInv, S.AsI64;
    S.ReleasedIsSigned(p, m, r);
    SameBalance(p.repr, m.world.entries[r.nullifier].opening, s, j.rerandomization);
  }

  /** Under a cap below 2^63 the charge the wallet reads is the one that was signed, and the wallet can pay it. */
  lemma ChargeIsCovered(p: P.Params, m: S.Machine, r: S.Response, s: W.NoteState, j: W.Journal)
    requires S.MachineInv(p, m) && S.Answered(r) in m.released && p.chargeCap < S.I64_LIMIT
    requires r.nullifier in m.world.entries && P.EntryIsSound(p, m.world, r.nullifier) && IsOwnRequest(m.world.entries[r.nullifier], s, j)
    requires s.balance < U128 && s.commitment == W.Reopened(p.repr, s)
    ensures r.charge == m.world.entries[r.nullifier].charge <= p.chargeCap && r.charge <= s.balance
  {
    hide Pedersen.Commit, Pedersen.ServerUpdate, Pedersen.Rerandomize, S.MachineInv;
    S.ReleasedIsSigned(p, m, r);
    AnswerIsSigned(p, m, r, s, j);
    S.ChargeSurvivesIff(m.world.entries[r.nullifier].charge);
  }

  predicate HasPaid(charge: nat, s: W.NoteState, s': W.NoteState) {
    s'.balance + charge == s.balance
  }

  /** A wallet whose request won adopts the server's answer exactly when the answer tells the signed charge and the
      wallet's own cap admits it; whatever crashed in between, the adopted state is good and paid that charge. */
  lemma ReleasedIsAdopted(p: P.Params, m: S.Machine, r: S.Response, cap: nat, s: W.NoteState, j: W.Journal)
    requires S.MachineInv(p, m) && S.Answered(r) in m.released
    requires r.nullifier in m.world.entries && P.EntryIsSound(p, m.world, r.nullifier) && IsOwnRequest(m.world.entries[r.nullifier], s, j)
    requires W.GoodState(p.cfg.depth, p.cfg.stateKey, p.repr, P.Released(p.cfg, m.world.entries), s) && s.deployment == p.cfg.deployment
    requires j.requestId == r.requestId && j.nullifier == r.nullifier
    ensures var next := W.CompleteResponse(cap, p.cfg.stateKey, p.repr, P.Released(p.cfg, m.world.entries), s, j, Delivered(p, r));
      var charge := m.world.entries[r.nullifier].charge;
      && (next.Ok? <==> r.charge == charge && charge <= cap)
      && (next.Err? ==> next.error == if r.charge > cap then W.InvalidCharge else W.AlgebraMismatch)
      && (next.Ok? ==> HasPaid(charge, s, next.value))
      && (next.Ok? ==> W.GoodState(p.cfg.depth, p.cfg.stateKey, p.repr, P.Released(p.cfg, m.world.entries), next.value))
  {
    hide RequestHolds, Pedersen.Commit, Pedersen.ServerUpdate, Pedersen.Rerandomize, P.EntryIsSound, S.MachineInv, P.NextCommitment, NoteLeaf;
    var signed, entry := P.Released(p.cfg, m.world.entries), m.world.entries[r.nullifier];
    AnswerIsSigned(p, m, r, s, j);
    assert P.SignedState(p.cfg, entry) in signed;
    var anonymous := Pedersen.Rerandomize(s.commitment, j.rerandomization);
    if Pedersen.ServerUpdate(anonymous, r.charge, r.blindDelta) == r.nextCommitment {
      Pedersen.ChargeIsDetermined(anonymous, r.charge, entry.charge, r.blindDelta);
    }
    if W.CompleteResponse(cap, p.cfg.stateKey, p.repr, signed, s, j, Delivered(p, r)).Ok? {
      W.AdoptedStateIsGood(p.cfg.depth, cap, p.cfg.stateKey, p.repr, signed, s, j, Delivered(p, r));
    }
  }

  /** The answer with the charge that was signed. */
  function Told(p: P.Params, m: S.Machine, r: S.Response): W.ServerAnswer
    requires r.nullifier in m.world.entries && m.world.entries[r.nullifier].Charged?
  {
    Delivered(p, r).(charge := m.world.entries[r.nullifier].charge)
  }

  ghost predicate WasReleased(p: P.Params, m: S.Machine, x: Felt, answer: W.ServerAnswer) {
    exists r :: S.Answered(r) in m.released && r.nullifier == x && answer == Delivered(p, r)
  }

  lemma WinnerIsSound(p: P.Params, events: seq<S.Event>, m: S.Machine, x: Felt)
    requires S.Runs(p, events, m) && P.LeavesStayApart(p.repr, m.world.vault) && x in m.world.entries
    ensures P.EntryIsSound(p, m.world, x)
  {
    hide S.Runs, P.LeavesStayApart, P.EntryIsSound;
    S.RunIsGood(p, events, m);
  }

  /** Whatever was released for one nullifier tells of one round. */
  lemma IsATelling(p: P.Params, m: S.Machine, r: S.Response, s: W.NoteState, j: W.Journal, answer: W.ServerAnswer)
    requires S.MachineInv(p, m) && S.Answered(r) in m.released && WasReleased(p, m, r.nullifier, answer)
    requires r.nullifier in m.world.entries && P.EntryIsSound(p, m.world, r.nullifier) && IsOwnRequest(m.world.entries[r.nullifier], s, j)
    requires s.balance < U128 && s.commitment == W.Reopened(p.repr, s)
    ensures W.SameRound(answer, Told(p, m, r))
  {
    hide S.MachineInv, P.EntryIsSound, Pedersen.Commit, Pedersen.ServerUpdate, Pedersen.Rerandomize, P.NextCommitment, P.NextAnchorOf;
    AnswerIsSigned(p, m, r, s, j);
    var r' :| S.Answered(r') in m.released && r'.nullifier == r.nullifier && answer == Delivered(p, r');
    AnswerIsSigned(p, m, r', s, j);
  }

  /** The disk holds a good state, which has paid the charge or is the old one. */
  predicate PaidOrNot(u: W.Setup, signed: Signatures, charge: nat, s: W.NoteState, d: W.Disk) {
    d.state.Some? && W.GoodState(u.depth, u.config.stateKey, u.repr, signed, d.state.value) && (d.state.value == s || HasPaid(charge, s, d.state.value))
  }

  /** Over any run of the server: however often the wallet completes with whatever answers were released for its
      nullifier, first ones or recovered ones, and wherever it dies, it pays the signed charge once or not at all. */
  lemma {:induction false} PaidAtMostOnce(p: P.Params, events: seq<S.Event>, m: S.Machine, r: S.Response, u: W.Setup, s: W.NoteState, j: W.Journal,
                       signed: Signatures, tries: seq<W.Try>)
    requires S.Runs(p, events, m) && P.LeavesStayApart(p.repr, m.world.vault) && S.Answered(r) in m.released
    requires r.nullifier in m.world.entries && IsOwnRequest(m.world.entries[r.nullifier], s, j)
    requires u.repr == p.repr && W.GoodState(u.depth, u.config.stateKey, u.repr, signed, s) && W.SignaturesGrow(signed, tries)
    requires forall t :: t in tries ==> WasReleased(p, m, r.nullifier, t.answer)
    ensures var d := W.AfterTries(u, W.Disk(Wrappers.Some(s), Wrappers.Some(j)), tries);
      && W.OldOrAdopted(u, s, j, Told(p, m, r), d)
      && PaidOrNot(u, W.LastSigned(signed, tries), m.world.entries[r.nullifier].charge, s, d)
  {
    hide S.Runs, S.MachineInv, P.EntryIsSound, Pedersen.Commit, Pedersen.ServerUpdate, Pedersen.Rerandomize, P.NextCommitment, P.NextAnchorOf,
         W.SignaturesGrow, WasReleased, P.LeavesStayApart;
    S.RunKeepsInv(p, events, m);
    WinnerIsSound(p, events, m, r.nullifier);
    AnswerIsSigned(p, m, r, s, j);
    forall t | t in tries ensures W.SameRound(t.answer, Told(p, m, r)) {
      IsATelling(p, m, r, s, j, t.answer);
    }
    W.AppliedAtMostOnce(u, signed, s, j, Told(p, m, r), tries);
  }
}
