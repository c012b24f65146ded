/** The settlement contract as a transition system: what each entry point of ZkApiVault
    checks, in its order, and the storage and token movements of a call that succeeds.

    Whatever a caller chooses freely is a parameter: raw sibling words, the answer of the
    proof adapter, the block time, and whether the token transfers go through.  A call
    that reverts leaves the state as it was. */
module VaultSpec {
  import opened Powers
  import opened Wrappers
  import opened Felts
  import opened Merkle

  datatype NoteStatus = Uninitialized | Active | PendingWithdrawal | Closed

  datatype Note = Note(commitment: Felt, depositAmount: nat, expiryTs: nat, status: NoteStatus)

  /** A stored pending withdrawal; `exists` of the contract is membership in the map. */
  datatype Pending = Pending(activeRoot: Felt, withdrawalNullifier: Felt, finalBalance: nat, destination: nat, challengeDeadline: nat)

  datatype Payee = User(destination: nat) | Treasury
  datatype Payment = Payment(noteId: nat, to: Payee, amount: nat)

  /** `depth` is 32 in the contract, and note ids are as wide.  `weiPerUnit` is zero for a token vault. */
  datatype Config = Config(
    depth: nat, weiPerUnit: nat, noteTtl: nat, challengePeriod: nat,
    deployment: Deployment, stateKey: Key, clearanceKey: Key)

  datatype VaultState = VaultState(
    paused: bool, currentRoot: Felt, nextNoteId: nat,
    notes: map<nat, Note>, pending: map<nat, Pending>, usedNullifiers: set<Felt>,
    funds: nat, payments: seq<Payment>)

  datatype RequestInputs = RequestInputs(
    deployment: Deployment, activeRoot: Felt, stateKey: Key, requestTime: nat, solvencyBound: nat,
    requestNullifier: Felt, authorizationTag: Felt, anonymousCommitment: Point)

  datatype WithdrawalInputs = WithdrawalInputs(
    deployment: Deployment, activeRoot: Felt, stateKey: Key, clearanceKey: Key,
    noteId: nat, finalBalance: nat, destination: nat,
    withdrawalNullifier: Felt, hasClearance: bool, withdrawalTag: Felt)

  datatype Event =
    | NoteDeposited(noteId: nat, commitment: Felt, amount: nat, expiryTs: nat, newRoot: Felt)
    | MutualClosed(noteId: nat, nullifier: Felt, finalBalance: nat)
    | EscapeInitiated(noteId: nat, nullifier: Felt, finalBalance: nat, challengeDeadline: nat, newRoot: Felt)
    | EscapeChallenged(noteId: nat, nullifier: Felt, restoredRoot: Felt)
    | EscapeFinalized(noteId: nat, nullifier: Felt, finalBalance: nat)
    | ExpiredClaimed(noteId: nat, depositAmount: nat, newRoot: Felt)

  datatype VaultError =
    | Paused | InvalidNativeValue | ZeroAmount | InvalidCommitment | InvalidFelt | StaleRoot | ArithmeticPanic
    | TransferFailed | InvalidDeploymentBinding | InvalidProof | NoteNotActive | InvalidBalance | ReplayedNullifier
    | NotPendingWithdrawal | ChallengeExpired | ChallengeNotExpired | NoteNotExpired | Unauthorized

  datatype Outcome = Done(state: VaultState, event: Event) | Revert(error: VaultError)

  /** Block time, the adapter's verdict on the proof of this call, and the token's on its transfers. */
  datatype Env = Env(now: nat, proofAccepted: bool, transfersSucceed: bool)

  const EXPIRY_BUCKET: nat := 86400
  const MAX_NATIVE_UNITS: nat := 9007199254740991

  const ONE_GWEI: nat := 1_000_000_000

  /** Arguments of the constructor; address zero for the token makes a vault of the chain's own coin. */
  datatype Deployer = Deployer(
    billingToken: nat, treasury: nat, noteTtl: nat, challengePeriod: nat, requestChargeCap: nat, proofAdapter: nat,
    stateKey: Key, clearanceKey: Key)

  predicate InField(key: Key) { key.x < FIELD_MODULUS && key.y < FIELD_MODULUS }

  /** What the constructor refuses. */
  function RefusedDeployment(a: Deployer): Option<VaultError> {
    if a.treasury == 0 || a.proofAdapter == 0 || a.challengePeriod == 0 then Some(Unauthorized)
    else if !InField(a.stateKey) || !InField(a.clearanceKey) then Some(InvalidFelt)
    else if a.stateKey == Key(0, 0) || a.clearanceKey == Key(0, 0) then Some(InvalidDeploymentBinding)
    else if a.billingToken == 0 && (a.requestChargeCap == 0 || a.requestChargeCap > MAX_NATIVE_UNITS) then Some(InvalidBalance)
    else None
  }

  function DeployedConfig(a: Deployer, depth: nat, deployment: Deployment): Config {
    Config(depth, if a.billingToken == 0 then ONE_GWEI else 0, a.noteTtl, a.challengePeriod, deployment, a.stateKey, a.clearanceKey)
  }

  const NODE_HASH: (Felt, Felt) -> Felt := (l, r) => Node(l, r)

  const NO_NOTE: Note := Note(ZERO, 0, 0, Uninitialized)

  function NoteAt(s: VaultState, id: nat): Note {
    if id in s.notes then s.notes[id] else NO_NOTE
  }

  function LeafOf(id: nat, note: Note): Felt {
    Leaf(id, note.commitment, note.depositAmount, note.expiryTs)
  }

  function Unit(cfg: Config): (u: nat)
    ensures u >= 1
  {
    if cfg.weiPerUnit == 0 then 1 else cfg.weiPerUnit
  }

  /** Block time plus time to live, rounded up to a whole day. */
  function BucketedExpiry(raw: nat): (e: nat)
    ensures raw <= e < raw + EXPIRY_BUCKET && e % EXPIRY_BUCKET == 0
  {
    (raw + EXPIRY_BUCKET - 1) / EXPIRY_BUCKET * EXPIRY_BUCKET
  }

  /** The path check: some new root if the old leaf folds to the stored one. */
  function VerifyAndUpdate(root: Felt, id: nat, oldLeaf: Felt, newLeaf: Felt, siblings: seq<Word>): (r: (bool, Felt)) {
    (PathRoot(NODE_HASH, id, oldLeaf, Residues(siblings)) == root, PathRoot(NODE_HASH, id, newLeaf, Residues(siblings)))
  }

  function Payouts(id: nat, destination: nat, balance: nat, operatorShare: nat): seq<Payment> {
    (if balance != 0 then [Payment(id, User(destination), balance)] else [])
    + (if operatorShare != 0 then [Payment(id, Treasury, operatorShare)] else [])
  }

  /** A share of zero is not transferred, so that transfer cannot fail. */
  predicate CanPay(cfg: Config, s: VaultState, env: Env, total: nat) {
    s.funds >= total * Unit(cfg) && (total == 0 || env.transfersSucceed)
  }

  function Deposit(cfg: Config, s: VaultState, env: Env, commitment: Word, amount: nat, siblings: seq<Word>, value: nat): Outcome {
    if s.paused then Revert(Paused)
    else if cfg.weiPerUnit != 0 && (amount > MAX_NATIVE_UNITS || value != amount * cfg.weiPerUnit) then Revert(InvalidNativeValue)
    else if cfg.weiPerUnit == 0 && value != 0 then Revert(InvalidNativeValue)
    else if amount == 0 then Revert(ZeroAmount)
    else if commitment == Word(ZERO, 0) then Revert(InvalidCommitment)
    else if commitment.wraps > 0 then Revert(InvalidFelt)
    else
      var id := s.nextNoteId;
      var expiry := BucketedExpiry(env.now + cfg.noteTtl);
      if expiry >= U64 then Revert(InvalidFelt)
      else
        var note := Note(commitment.residue, amount, expiry, Active);
        var (opens, newRoot) := VerifyAndUpdate(s.currentRoot, id, ZERO, LeafOf(id, note), siblings);
        if !opens then Revert(StaleRoot)
        else if id + 1 >= Pow(2, cfg.depth) then Revert(ArithmeticPanic)
        else if cfg.weiPerUnit == 0 && !env.transfersSucceed then Revert(TransferFailed)
        else Done(s.(currentRoot := newRoot, notes := s.notes[id := note], nextNoteId := id + 1, funds := s.funds + amount * Unit(cfg)),
                  NoteDeposited(id, note.commitment, amount, expiry, newRoot))
  }

  predicate BoundToVault(cfg: Config, inputs: WithdrawalInputs) {
    inputs.deployment == cfg.deployment && inputs.stateKey == cfg.stateKey && inputs.clearanceKey == cfg.clearanceKey
  }

  function MutualClose(cfg: Config, s: VaultState, env: Env, inputs: WithdrawalInputs, siblings: seq<Word>): Outcome {
    var note := NoteAt(s, inputs.noteId);
    if s.paused then Revert(Paused)
    else if !BoundToVault(cfg, inputs) then Revert(InvalidDeploymentBinding)
    else if !inputs.hasClearance then Revert(InvalidDeploymentBinding)
    else if inputs.activeRoot != s.currentRoot then Revert(StaleRoot)
    else if !env.proofAccepted then Revert(InvalidProof)
    else if note.status != Active then Revert(NoteNotActive)
    else if inputs.finalBalance > note.depositAmount then Revert(InvalidBalance)
    else if inputs.withdrawalNullifier in s.usedNullifiers then Revert(ReplayedNullifier)
    else
      var (opens, newRoot) := VerifyAndUpdate(s.currentRoot, inputs.noteId, LeafOf(inputs.noteId, note), ZERO, siblings);
      if !opens then Revert(StaleRoot)
      else if !CanPay(cfg, s, env, note.depositAmount) then Revert(TransferFailed)
      else
        Done(s.(currentRoot := newRoot,
                notes := s.notes[inputs.noteId := note.(status := Closed)],
                usedNullifiers := s.usedNullifiers + {inputs.withdrawalNullifier},
                funds := s.funds - note.depositAmount * Unit(cfg),
                payments := s.payments + Payouts(inputs.noteId, inputs.destination, inputs.finalBalance, note.depositAmount - inputs.finalBalance)),
             MutualClosed(inputs.noteId, inputs.withdrawalNullifier, inputs.finalBalance))
  }

  function InitiateEscape(cfg: Config, s: VaultState, env: Env, inputs: WithdrawalInputs, siblings: seq<Word>): Outcome {
    var note := NoteAt(s, inputs.noteId);
    if s.paused then Revert(Paused)
    else if !BoundToVault(cfg, inputs) then Revert(InvalidDeploymentBinding)
    else if inputs.hasClearance then Revert(InvalidDeploymentBinding)
    else if inputs.activeRoot != s.currentRoot then Revert(StaleRoot)
    else if !env.proofAccepted then Revert(InvalidProof)
    else if note.status != Active then Revert(NoteNotActive)
    else if inputs.finalBalance > note.depositAmount then Revert(InvalidBalance)
    else if inputs.withdrawalNullifier in s.usedNullifiers then Revert(ReplayedNullifier)
    else
      var (opens, newRoot) := VerifyAndUpdate(s.currentRoot, inputs.noteId, LeafOf(inputs.noteId, note), ZERO, siblings);
      var deadline := env.now % U64 + cfg.challengePeriod;
      if !opens then Revert(StaleRoot)
      else if deadline >= U64 then Revert(ArithmeticPanic)
      else
        Done(s.(currentRoot := newRoot,
                notes := s.notes[inputs.noteId := note.(status := PendingWithdrawal)],
                usedNullifiers := s.usedNullifiers + {inputs.withdrawalNullifier},
                pending := s.pending[inputs.noteId := Pending(s.currentRoot, inputs.withdrawalNullifier, inputs.finalBalance, inputs.destination, deadline)]),
             EscapeInitiated(inputs.noteId, inputs.withdrawalNullifier, inputs.finalBalance, deadline, newRoot))
  }

  function ChallengeEscape(cfg: Config, s: VaultState, env: Env, id: nat, inputs: RequestInputs, siblings: seq<Word>): Outcome {
    var note := NoteAt(s, id);
    if note.status != PendingWithdrawal || id !in s.pending then Revert(NotPendingWithdrawal)
    else
      var pending := s.pending[id];
      if env.now >= pending.challengeDeadline then Revert(ChallengeExpired)
      else if inputs.deployment != cfg.deployment || inputs.stateKey != cfg.stateKey then Revert(InvalidDeploymentBinding)
      else if inputs.requestNullifier != pending.withdrawalNullifier then Revert(ReplayedNullifier)
      else if !env.proofAccepted then Revert(InvalidProof)
      else
        var (opens, restoredRoot) := VerifyAndUpdate(s.currentRoot, id, ZERO, LeafOf(id, note), siblings);
        if !opens then Revert(StaleRoot)
        else
          Done(s.(currentRoot := restoredRoot, notes := s.notes[id := note.(status := Active)], pending := s.pending - {id}),
               EscapeChallenged(id, pending.withdrawalNullifier, restoredRoot))
  }

  function FinalizeEscape(cfg: Config, s: VaultState, env: Env, id: nat): Outcome {
    var note := NoteAt(s, id);
    if note.status != PendingWithdrawal || id !in s.pending then Revert(NotPendingWithdrawal)
    else
      var pending := s.pending[id];
      if env.now < pending.challengeDeadline then Revert(ChallengeNotExpired)
      else if note.depositAmount < pending.finalBalance then Revert(ArithmeticPanic)
      else if !CanPay(cfg, s, env, note.depositAmount) then Revert(TransferFailed)
      else
        Done(s.(notes := s.notes[id := note.(status := Closed)], pending := s.pending - {id},
                funds := s.funds - note.depositAmount * Unit(cfg),
                payments := s.payments + Payouts(id, pending.destination, pending.finalBalance, note.depositAmount - pending.finalBalance)),
             EscapeFinalized(id, pending.withdrawalNullifier, pending.finalBalance))
  }

  function ClaimExpired(cfg: Config, s: VaultState, env: Env, id: nat, siblings: seq<Word>): Outcome {
    var note := NoteAt(s, id);
    if note.status != Active then Revert(NoteNotActive)
    else if env.now < note.expiryTs then Revert(NoteNotExpired)
    else
      var (opens, newRoot) := VerifyAndUpdate(s.currentRoot, id, LeafOf(id, note), ZERO, siblings);
      if !opens then Revert(StaleRoot)
      else if !env.transfersSucceed || s.funds < note.depositAmount * Unit(cfg) then Revert(TransferFailed)
      else
        Done(s.(currentRoot := newRoot, notes := s.notes[id := note.(status := Closed)],
                funds := s.funds - note.depositAmount * Unit(cfg),
                payments := s.payments + [Payment(id, Treasury, note.depositAmount)]),
             ExpiredClaimed(id, note.depositAmount, newRoot))
  }

  datatype Call =
    | CallDeposit(commitment: Word, amount: nat, siblings: seq<Word>, value: nat)
    | CallMutualClose(withdrawal: WithdrawalInputs, siblings: seq<Word>)
    | CallInitiateEscape(withdrawal: WithdrawalInputs, siblings: seq<Word>)
    | CallChallengeEscape(noteId: nat, request: RequestInputs, siblings: seq<Word>)
    | CallFinalizeEscape(noteId: nat)
    | CallClaimExpired(noteId: nat, siblings: seq<Word>)

  /** What the ABI types promise: fixed-size sibling arrays, ids and amounts of their width. */
  predicate WellTyped(cfg: Config, call: Call) {
    && (call.CallDeposit? ==> |call.siblings| == cfg.depth && call.amount < U128)
    && (call.CallMutualClose? || call.CallInitiateEscape? ==>
          |call.siblings| == cfg.depth && call.withdrawal.noteId < Pow(2, cfg.depth) && call.withdrawal.finalBalance < U128)
    && (call.CallChallengeEscape? ==> |call.siblings| == cfg.depth && call.noteId < Pow(2, cfg.depth))
    && (call.CallClaimExpired? ==> |call.siblings| == cfg.depth && call.noteId < Pow(2, cfg.depth))
  }

  function Step(cfg: Config, s: VaultState, env: Env, call: Call): Outcome {
    match call
    case CallDeposit(commitment, amount, siblings, value) => Deposit(cfg, s, env, commitment, amount, siblings, value)
    case CallMutualClose(inputs, siblings) => MutualClose(cfg, s, env, inputs, siblings)
    case CallInitiateEscape(inputs, siblings) => InitiateEscape(cfg, s, env, inputs, siblings)
    case CallChallengeEscape(id, inputs, siblings) => ChallengeEscape(cfg, s, env, id, inputs, siblings)
    case CallFinalizeEscape(id) => FinalizeEscape(cfg, s, env, id)
    case CallClaimExpired(id, siblings) => ClaimExpired(cfg, s, env, id, siblings)
  }

  function InitialState(cfg: Config): VaultState {
    VaultState(false, Root(NODE_HASH, map[], ZERO, cfg.depth), 0, map[], map[], {}, 0, [])
  }
}
