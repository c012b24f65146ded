/** The wallet against the vault and the server: what a wallet builds is what it is paid, a fresh
    deposit is worth all of itself, and a prepared request passes the server's checks. */
module Redemption {
  import opened Powers
  import opened Wrappers
  import opened Felts
  import opened Merkle
  import opened VaultSpec
  import opened VaultInvariant
  import opened Pedersen
  import opened Circuits
  import EntryPoints
  import P = Protocol
  import Settlement
  import S = Server
  import W = Wallet

  /** A mutual close with the inputs the wallet built pays its address the wallet's balance, and the treasury the rest of the
      deposit; over any run, and over the whole log of the note. */
  lemma ClosePaysWallet(p: P.Params, actions: seq<P.Action>, env: Env, c: W.WalletConfig, s: W.NoteState, activeRoot: Felt, destination: nat, siblings: seq<Word>)
    requires P.Legal(p, actions) && P.LeavesStayApart(p.repr, P.WorldAfter(p, actions).vault)
    requires P.Allowed(p, P.WorldAfter(p, actions), P.VaultCall(env, CallMutualClose(W.WithdrawalInputsOf(c, s, activeRoot, destination, true), siblings)))
    requires MutualClose(p.cfg, P.WorldAfter(p, actions).vault, env, W.WithdrawalInputsOf(c, s, activeRoot, destination, true), siblings).Done?
    ensures var vault := P.WorldAfter(p, actions).vault;
      var log := MutualClose(p.cfg, vault, env, W.WithdrawalInputsOf(c, s, activeRoot, destination, true), siblings).state.payments;
      && PaidTo(log, s.noteId, User(destination)) == s.balance
      && PaidTo(log, s.noteId, Treasury) + s.balance == NoteAt(vault, s.noteId).depositAmount
      && (forall payee :: payee != User(destination) && payee != Treasury ==> PaidTo(log, s.noteId, payee) == 0)
  {
    hide MutualClose, P.LeavesStayApart, P.IsChain, P.Allowed, P.Legal, P.WorldAfter;
    var chain := Settlement.RunClosesExactly(p, actions, env, W.WithdrawalInputsOf(c, s, activeRoot, destination, true), siblings);
  }

  /** So does the finalization of an escape that was opened with them, whatever else is called in between. */
  lemma EscapePaysWallet(cfg: Config, vault: VaultState, env: Env, c: W.WalletConfig, s: W.NoteState, activeRoot: Felt, destination: nat, siblings: seq<Word>,
                         txs: seq<Tx>, env': Env)
    requires Inv(cfg, vault) && TypedRun(cfg, txs)
    requires WellTyped(cfg, CallInitiateEscape(W.WithdrawalInputsOf(c, s, activeRoot, destination, false), siblings))
    requires InitiateEscape(cfg, vault, env, W.WithdrawalInputsOf(c, s, activeRoot, destination, false), siblings).Done?
    requires var later := Run(cfg, InitiateEscape(cfg, vault, env, W.WithdrawalInputsOf(c, s, activeRoot, destination, false), siblings).state, txs).0;
      EntryPoints.IsPendingUnder(later, s.noteId, Nullifier(s.secret, s.anchor)) && FinalizeEscape(cfg, later, env', s.noteId).Done?
    ensures var later := Run(cfg, InitiateEscape(cfg, vault, env, W.WithdrawalInputsOf(c, s, activeRoot, destination, false), siblings).state, txs).0;
      var log := FinalizeEscape(cfg, later, env', s.noteId).state.payments;
      && PaidTo(log, s.noteId, User(destination)) == s.balance
      && PaidTo(log, s.noteId, Treasury) + s.balance == NoteAt(vault, s.noteId).depositAmount
      && (forall payee :: payee != User(destination) && payee != Treasury ==> PaidTo(log, s.noteId, payee) == 0)
  {
    hide InitiateEscape, FinalizeEscape, Run, Inv, WellTyped, PaidTo;
    EntryPoints.EscapePays(cfg, vault, env, W.WithdrawalInputsOf(c, s, activeRoot, destination, false), siblings, txs, env');
  }

  /** A wallet that confirms its own deposit holds a good state over the very leaf the vault entered, and can at once prove
      a withdrawal of all of it, and a request while the note lives and covers the wallet's cap. */
  lemma FreshDepositIsWhole(cfg: Config, vault: VaultState, env: Env, secret: Felt, amount: nat, siblings: seq<Word>, value: nat,
                            c: W.WalletConfig, repr: Felt -> nat, signed: Signatures, blinding: nat, destination: nat,
                            now: nat, rho: nat, requestId: string, payloadHash: Felt)
    requires Inv(cfg, vault) && WellTyped(cfg, CallDeposit(Word(Registration(secret), 0), amount, siblings, value)) && secret != ZERO && now < U64
    requires Deposit(cfg, vault, env, Word(Registration(secret), 0), amount, siblings, value).Done?
    ensures var Done(after, event) := Deposit(cfg, vault, env, Word(Registration(secret), 0), amount, siblings, value);
      event.NoteDeposited? && event.noteId in after.notes
    ensures var Done(after, event) := Deposit(cfg, vault, env, Word(Registration(secret), 0), amount, siblings, value);
      var s := W.GenesisState(c, repr, secret, event.noteId, event.amount, event.expiryTs, blinding);
      var path := TrueSiblings(NODE_HASH, ActiveLeaves(after.notes), ZERO, cfg.depth, event.noteId);
      var inputs := W.WithdrawalInputsOf(c, s, after.currentRoot, destination, false);
      && W.GoodState(cfg.depth, c.stateKey, repr, signed, s) && W.StateLeaf(s) == LeafOf(event.noteId, after.notes[event.noteId])
      && s.balance == amount && inputs.finalBalance == amount
      && WithdrawalHolds(cfg.depth, repr, signed, inputs, W.WithdrawalWitnessOf(s, path))
      && (now <= event.expiryTs && W.ChargeCap(c) <= amount ==>
            RequestHolds(cfg.depth, repr, signed, W.RequestInputsOf(c, s, after.currentRoot, now, rho, requestId, payloadHash),
                         W.RequestWitnessOf(s, path, rho, requestId, payloadHash)))
  {
    hide PathRoot, Commit, Deposit, Inv, RequestHolds, WithdrawalHolds, BucketedExpiry;
    DepositEnters(cfg, vault, env, Word(Registration(secret), 0), amount, siblings, value);
    var Done(after, event) := Deposit(cfg, vault, env, Word(Registration(secret), 0), amount, siblings, value);
    var s := W.GenesisState(c, repr, secret, event.noteId, event.amount, event.expiryTs, blinding);
    var path := TrueSiblings(NODE_HASH, ActiveLeaves(after.notes), ZERO, cfg.depth, event.noteId);
    W.BuiltWithdrawalIsProvable(c, cfg.depth, repr, signed, s, after.currentRoot, path, destination, false);
    if now <= event.expiryTs && W.ChargeCap(c) <= amount {
      W.BuiltRequestIsProvable(c, cfg.depth, repr, signed, s, after.currentRoot, path, now, rho, requestId, payloadHash);
    }
  }

  /** A deposit enters the announced leaf into the tree of the announced root. */
  lemma DepositEnters(cfg: Config, vault: VaultState, env: Env, commitment: Word, amount: nat, siblings: seq<Word>, value: nat)
    requires Inv(cfg, vault) && WellTyped(cfg, CallDeposit(commitment, amount, siblings, value))
    requires Deposit(cfg, vault, env, commitment, amount, siblings, value).Done?
    ensures var Done(after, event) := Deposit(cfg, vault, env, commitment, amount, siblings, value);
      && Inv(cfg, after) && event.NoteDeposited? && event.noteId in after.notes && event.noteId < Pow(2, cfg.depth)
      && after.notes[event.noteId] == Note(commitment.residue, amount, event.expiryTs, Active)
      && event.amount == amount && event.expiryTs < U64 && amount < U128 && event.commitment == commitment.residue
      && PathRoot(NODE_HASH, event.noteId, LeafOf(event.noteId, after.notes[event.noteId]),
                  TrueSiblings(NODE_HASH, ActiveLeaves(after.notes), ZERO, cfg.depth, event.noteId)) == after.currentRoot
  {
    hide PathRoot, VerifyAndUpdate, BucketedExpiry, Solvent;
    var Done(after, event) := Deposit(cfg, vault, env, commitment, amount, siblings, value);
    assert Step(cfg, vault, env, CallDeposit(commitment, amount, siblings, value)) == Done(after, event);
    StepKeepsInv(cfg, vault, env, CallDeposit(commitment, amount, siblings, value));
    PathOpensRoot(NODE_HASH, ActiveLeaves(after.notes), ZERO, cfg.depth, event.noteId);
  }

  /** A request that a wallet of this deployment prepared under the server's root, and proved, passes every check of a server
      whose cap is not above the wallet's. */
  lemma PreparedRequestPasses(p: P.Params, m: S.Machine, c: W.WalletConfig, s: W.NoteState, siblings: seq<Felt>, now: nat, rho: nat, requestId: string, payload: string)
    requires var signed := P.Released(p.cfg, m.world.entries);
      W.GoodState(p.cfg.depth, p.cfg.stateKey, p.repr, signed, s) && s.deployment == p.cfg.deployment
    requires c.stateKey == p.cfg.stateKey && p.chargeCap <= W.ChargeCap(c) <= s.balance && now <= s.expiry
    requires |siblings| == p.cfg.depth && PathRoot(NODE_HASH, s.noteId, W.StateLeaf(s), siblings) == m.root
    requires W.RequestInputsOf(c, s, m.root, now, rho, requestId, PayloadHash(payload)) in m.world.requests
    ensures S.PassesChecks(p, m, S.Request(requestId, payload, W.RequestInputsOf(c, s, m.root, now, rho, requestId, PayloadHash(payload)),
                                           W.RequestWitnessOf(s, siblings, rho, requestId, PayloadHash(payload))))
  {
    hide PathRoot, RequestHolds, P.Released, Rerandomize, Commit;
    W.BuiltRequestIsProvable(c, p.cfg.depth, p.repr, P.Released(p.cfg, m.world.entries), s, m.root, siblings, now, rho, requestId, PayloadHash(payload));
  }
}
