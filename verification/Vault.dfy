/** ZkApiVault with its storage in fields.  Each entry point is proved to take exactly the
    step that VaultSpec gives for it and to emit its event; since a revert undoes every
    write, writes are made only once all checks and transfers have succeeded. */
module Vault {
  import opened Powers
  import opened Wrappers
  import opened Felts
  import Merkle
  import opened VaultSpec
  import opened VaultInvariant

  datatype Receipt = Emitted(event: Event) | Reverted(error: VaultError)

  class ZkApiVault {
    const cfg: Config
    var paused: bool
    var currentRoot: Felt
    var nextNoteId: nat
    var notes: map<nat, Note>
    var pending: map<nat, Pending>
    var usedNullifiers: set<Felt>
    var funds: nat
    var payments: seq<Payment>

    function State(): VaultState
      reads this
    {
      VaultState(paused, currentRoot, nextNoteId, notes, pending, usedNullifiers, funds, payments)
    }

    constructor (cfg: Config)
      ensures this.cfg == cfg && State() == InitialState(cfg) && Inv(cfg, State())
    {
      this.cfg := cfg;
      paused, nextNoteId, notes, pending, usedNullifiers, funds, payments := false, 0, map[], map[], {}, 0, [];
      var root := Merkle.EmptyTreeRoot(NODE_HASH, ZERO, cfg.depth);
      currentRoot := root;
    }

    /** The checks of the contract's constructor, in its order. */
    static method Deploy(a: Deployer, depth: nat, deployment: Deployment) returns (result: Result<ZkApiVault, VaultError>)
      ensures result.Ok? <==>
        && a.treasury != 0 && a.proofAdapter != 0 && a.challengePeriod != 0
        && a.stateKey.x < FIELD_MODULUS && a.stateKey.y < FIELD_MODULUS && a.clearanceKey.x < FIELD_MODULUS && a.clearanceKey.y < FIELD_MODULUS
        && (a.stateKey.x != 0 || a.stateKey.y != 0) && (a.clearanceKey.x != 0 || a.clearanceKey.y != 0)
        && (a.billingToken == 0 ==> 0 < a.requestChargeCap <= MAX_NATIVE_UNITS)
      ensures result.Ok? <==> RefusedDeployment(a).None?
      ensures result.Err? ==> RefusedDeployment(a) == Some(result.error)
      ensures result.Ok? ==> fresh(result.value) && result.value.cfg == DeployedConfig(a, depth, deployment)
      ensures result.Ok? ==> result.value.State() == InitialState(result.value.cfg) && Inv(result.value.cfg, result.value.State())
    {
      if a.treasury == 0 || a.proofAdapter == 0 || a.challengePeriod == 0 { return Err(Unauthorized); }
      if a.stateKey.x >= FIELD_MODULUS { return Err(InvalidFelt); }
      if a.stateKey.y >= FIELD_MODULUS { return Err(InvalidFelt); }
      if a.clearanceKey.x >= FIELD_MODULUS { return Err(InvalidFelt); }
      if a.clearanceKey.y >= FIELD_MODULUS { return Err(InvalidFelt); }
      if a.stateKey == Key(0, 0) || a.clearanceKey == Key(0, 0) { return Err(InvalidDeploymentBinding); }
      var weiPerUnit := if a.billingToken == 0 then ONE_GWEI else 0;
      if a.billingToken == 0 && (a.requestChargeCap == 0 || a.requestChargeCap > MAX_NATIVE_UNITS) { return Err(InvalidBalance); }
      var vault := new ZkApiVault(Config(depth, weiPerUnit, a.noteTtl, a.challengePeriod, deployment, a.stateKey, a.clearanceKey));
      result := Ok(vault);
    }

    method VerifyPath(id: nat, oldLeaf: Felt, newLeaf: Felt, siblings: seq<Word>) returns (opens: bool, newRoot: Felt)
      ensures (opens, newRoot) == VerifyAndUpdate(currentRoot, id, oldLeaf, newLeaf, siblings)
    {
      var computedOldRoot;
      computedOldRoot, newRoot := Merkle.HashPairPath(NODE_HASH, id, oldLeaf, newLeaf, Residues(siblings));
      opens := computedOldRoot == currentRoot;
    }

    /** One token movement out of the vault; on failure nothing has moved. */
    method Transfer(env: Env, payment: Payment) returns (ok: bool)
      modifies this`funds, this`payments
      ensures ok == (env.transfersSucceed && old(funds) >= payment.amount * Unit(cfg))
      ensures funds == if ok then old(funds) - payment.amount * Unit(cfg) else old(funds)
      ensures payments == if ok then old(payments) + [payment] else old(payments)
    {
      ok := env.transfersSucceed && funds >= payment.amount * Unit(cfg);
      if ok {
        funds := funds - payment.amount * Unit(cfg);
        payments := payments + [payment];
      }
    }

    /** The two shares of a closing note, as far as they are not zero: exactly the listed payments leave the funds, or
        the call reverts and nothing has moved. */
    method Pay(env: Env, id: nat, destination: nat, balance: nat, operatorShare: nat) returns (ok: bool)
      modifies this`funds, this`payments
      ensures ok == CanPay(cfg, old(State()), env, balance + operatorShare)
      ensures funds == if ok then old(funds) - (balance + operatorShare) * Unit(cfg) else old(funds)
      ensures payments == if ok then old(payments) + Payouts(id, destination, balance, operatorShare) else old(payments)
      ensures ok ==> PaysOut(old(payments), payments, id, destination, balance, operatorShare)
      ensures ok ==> old(funds) - funds == PaidFor(Payouts(id, destination, balance, operatorShare), id) * Unit(cfg)
    {
      var fundsBefore, paymentsBefore := funds, payments;
      LedgerSplits(balance + operatorShare, balance, operatorShare, Unit(cfg));
      PaidForSettlement(id, destination, balance, operatorShare, id);
      PayoutsPay(payments, id, destination, balance, operatorShare);
      ok := true;
      if balance != 0 {
        ok := Transfer(env, Payment(id, User(destination), balance));
      }
      if ok && operatorShare != 0 {
        ok := Transfer(env, Payment(id, Treasury, operatorShare));
      }
      if !ok {
        funds, payments := fundsBefore, paymentsBefore;
      }
    }

    /** The state and receipt that a step of the specification asks for. */
    ghost predicate Performed(outcome: Outcome, receipt: Receipt, before: VaultState)
      reads this
    {
      match outcome
      case Done(state, event) => receipt == Emitted(event) && State() == state
      case Revert(error) => receipt == Reverted(error) && State() == before
    }

    method MakeDeposit(env: Env, commitment: Word, amount: nat, siblings: seq<Word>, value: nat) returns (receipt: Receipt)
      modifies this
      ensures Performed(Deposit(cfg, old(State()), env, commitment, amount, siblings, value), receipt, old(State()))
    {
      if paused { return Reverted(Paused); }
      if cfg.weiPerUnit != 0 {
        if amount > MAX_NATIVE_UNITS || value != amount * cfg.weiPerUnit { return Reverted(InvalidNativeValue); }
      } else if value != 0 {
        return Reverted(InvalidNativeValue);
      }
      if amount == 0 { return Reverted(ZeroAmount); }
      if commitment == Word(ZERO, 0) { return Reverted(InvalidCommitment); }
      if commitment.wraps > 0 { return Reverted(InvalidFelt); }
      var noteId := nextNoteId;
      var expiryTs := BucketedExpiry(env.now + cfg.noteTtl);
      if expiryTs >= U64 { return Reverted(InvalidFelt); }
      var note := Note(commitment.residue, amount, expiryTs, Active);
      var opens, newRoot := VerifyPath(noteId, ZERO, LeafOf(noteId, note), siblings);
      if !opens { return Reverted(StaleRoot); }
      if noteId + 1 >= Pow(2, cfg.depth) { return Reverted(ArithmeticPanic); }
      if cfg.weiPerUnit == 0 && !env.transfersSucceed { return Reverted(TransferFailed); }
      currentRoot := newRoot;
      notes := notes[noteId := note];
      nextNoteId := noteId + 1;
      funds := funds + amount * Unit(cfg);
      receipt := Emitted(NoteDeposited(noteId, note.commitment, amount, expiryTs, newRoot));
    }

    method CloseMutually(env: Env, inputs: WithdrawalInputs, siblings: seq<Word>) returns (receipt: Receipt)
      modifies this
      ensures Performed(MutualClose(cfg, old(State()), env, inputs, siblings), receipt, old(State()))
    {
      hide VerifyAndUpdate, LeafOf, Payouts, PaidFor, BoundToVault;
      if paused { return Reverted(Paused); }
      if !BoundToVault(cfg, inputs) { return Reverted(InvalidDeploymentBinding); }
      if !inputs.hasClearance { return Reverted(InvalidDeploymentBinding); }
      if inputs.activeRoot != currentRoot { return Reverted(StaleRoot); }
      if !env.proofAccepted { return Reverted(InvalidProof); }
      var note := NoteAt(State(), inputs.noteId);
      if note.status != Active { return Reverted(NoteNotActive); }
      if inputs.finalBalance > note.depositAmount { return Reverted(InvalidBalance); }
      if inputs.withdrawalNullifier in usedNullifiers { return Reverted(ReplayedNullifier); }
      var opens, newRoot := VerifyPath(inputs.noteId, LeafOf(inputs.noteId, note), ZERO, siblings);
      if !opens { return Reverted(StaleRoot); }
      var operatorShare := note.depositAmount - inputs.finalBalance;
      var ok := Pay(env, inputs.noteId, inputs.destination, inputs.finalBalance, operatorShare);
      if !ok { return Reverted(TransferFailed); }
      usedNullifiers := usedNullifiers + {inputs.withdrawalNullifier};
      currentRoot := newRoot;
      notes := notes[inputs.noteId := note.(status := Closed)];
      receipt := Emitted(MutualClosed(inputs.noteId, inputs.withdrawalNullifier, inputs.finalBalance));
    }

    method InitiateEscapeWithdrawal(env: Env, inputs: WithdrawalInputs, siblings: seq<Word>) returns (receipt: Receipt)
      modifies this
      ensures Performed(InitiateEscape(cfg, old(State()), env, inputs, siblings), receipt, old(State()))
    {
      hide VerifyAndUpdate, LeafOf, Payouts, PaidFor, BoundToVault;
      if paused { return Reverted(Paused); }
      if !BoundToVault(cfg, inputs) { return Reverted(InvalidDeploymentBinding); }
      if inputs.hasClearance { return Reverted(InvalidDeploymentBinding); }
      if inputs.activeRoot != currentRoot { return Reverted(StaleRoot); }
      if !env.proofAccepted { return Reverted(InvalidProof); }
      var note := NoteAt(State(), inputs.noteId);
      if note.status != Active { return Reverted(NoteNotActive); }
      if inputs.finalBalance > note.depositAmount { return Reverted(InvalidBalance); }
      if inputs.withdrawalNullifier in usedNullifiers { return Reverted(ReplayedNullifier); }
      var oldRoot := currentRoot;
      var opens, newRoot := VerifyPath(inputs.noteId, LeafOf(inputs.noteId, note), ZERO, siblings);
      if !opens { return Reverted(StaleRoot); }
      var deadline := env.now % U64 + cfg.challengePeriod;
      if deadline >= U64 { return Reverted(ArithmeticPanic); }
      usedNullifiers := usedNullifiers + {inputs.withdrawalNullifier};
      currentRoot := newRoot;
      notes := notes[inputs.noteId := note.(status := PendingWithdrawal)];
      pending := pending[inputs.noteId := Pending(oldRoot, inputs.withdrawalNullifier, inputs.finalBalance, inputs.destination, deadline)];
      receipt := Emitted(EscapeInitiated(inputs.noteId, inputs.withdrawalNullifier, inputs.finalBalance, deadline, newRoot));
    }

    method ChallengeEscapeWithdrawal(env: Env, noteId: nat, inputs: RequestInputs, siblings: seq<Word>) returns (receipt: Receipt)
      modifies this
      ensures Performed(ChallengeEscape(cfg, old(State()), env, noteId, inputs, siblings), receipt, old(State()))
    {
      var note := NoteAt(State(), noteId);
      if note.status != PendingWithdrawal || noteId !in pending { return Reverted(NotPendingWithdrawal); }
      var entry := pending[noteId];
      if env.now >= entry.challengeDeadline { return Reverted(ChallengeExpired); }
      if inputs.deployment != cfg.deployment || inputs.stateKey != cfg.stateKey { return Reverted(InvalidDeploymentBinding); }
      if inputs.requestNullifier != entry.withdrawalNullifier { return Reverted(ReplayedNullifier); }
      if !env.proofAccepted { return Reverted(InvalidProof); }
      var opens, restoredRoot := VerifyPath(noteId, ZERO, LeafOf(noteId, note), siblings);
      if !opens { return Reverted(StaleRoot); }
      currentRoot := restoredRoot;
      notes := notes[noteId := note.(status := Active)];
      pending := pending - {noteId};
      receipt := Emitted(EscapeChallenged(noteId, entry.withdrawalNullifier, restoredRoot));
    }

    method FinalizeEscapeWithdrawal(env: Env, noteId: nat) returns (receipt: Receipt)
      modifies this
      ensures Performed(FinalizeEscape(cfg, old(State()), env, noteId), receipt, old(State()))
    {
      var note := NoteAt(State(), noteId);
      if note.status != PendingWithdrawal || noteId !in pending { return Reverted(NotPendingWithdrawal); }
      var entry := pending[noteId];
      if env.now < entry.challengeDeadline { return Reverted(ChallengeNotExpired); }
      if note.depositAmount < entry.finalBalance { return Reverted(ArithmeticPanic); }
      var operatorShare := note.depositAmount - entry.finalBalance;
      var ok := Pay(env, noteId, entry.destination, entry.finalBalance, operatorShare);
      if !ok { return Reverted(TransferFailed); }
      notes := notes[noteId := note.(status := Closed)];
      pending := pending - {noteId};
      receipt := Emitted(EscapeFinalized(noteId, entry.withdrawalNullifier, entry.finalBalance));
    }

    method ClaimExpiredNote(env: Env, noteId: nat, siblings: seq<Word>) returns (receipt: Receipt)
      modifies this
      ensures Performed(ClaimExpired(cfg, old(State()), env, noteId, siblings), receipt, old(State()))
    {
      var note := NoteAt(State(), noteId);
      if note.status != Active { return Reverted(NoteNotActive); }
      if env.now < note.expiryTs { return Reverted(NoteNotExpired); }
      var opens, newRoot := VerifyPath(noteId, LeafOf(noteId, note), ZERO, siblings);
      if !opens { return Reverted(StaleRoot); }
      var ok := Transfer(env, Payment(noteId, Treasury, note.depositAmount));
      if !ok { return Reverted(TransferFailed); }
      currentRoot := newRoot;
      notes := notes[noteId := note.(status := Closed)];
      receipt := Emitted(ExpiredClaimed(noteId, note.depositAmount, newRoot));
    }

    /** Any call, with any arguments the ABI admits, keeps the invariant. */
    method Execute(env: Env, call: Call) returns (receipt: Receipt)
      requires Inv(cfg, State()) && WellTyped(cfg, call)
      modifies this
      ensures Performed(Step(cfg, old(State()), env, call), receipt, old(State()))
      ensures Inv(cfg, State())
    {
      ghost var before := State();
      match call {
        case CallDeposit(commitment, amount, siblings, value) => receipt := MakeDeposit(env, commitment, amount, siblings, value);
        case CallMutualClose(inputs, siblings) => receipt := CloseMutually(env, inputs, siblings);
        case CallInitiateEscape(inputs, siblings) => receipt := InitiateEscapeWithdrawal(env, inputs, siblings);
        case CallChallengeEscape(id, inputs, siblings) => receipt := ChallengeEscapeWithdrawal(env, id, inputs, siblings);
        case CallFinalizeEscape(id) => receipt := FinalizeEscapeWithdrawal(env, id);
        case CallClaimExpired(id, siblings) => receipt := ClaimExpiredNote(env, id, siblings);
      }
      if receipt.Emitted? {
        StepKeepsInv(cfg, before, env, call);
      }
    }
  }
}
