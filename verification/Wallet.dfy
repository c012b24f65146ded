/** The wallet: one note state and one request journal on disk.

    A response is applied by saving the next state and only then clearing the journal, so a
    crash in between leaves both.  Files are replaced by rename, so a write happens whole or
    not at all.  Random values, the clock and the server's answers are parameters. */
module Wallet {
  import opened Powers
  import opened Wrappers
  import opened Felts
  import opened Modular
  import opened Merkle
  import opened VaultSpec
  import opened Pedersen
  import opened Circuits

  datatype Signature = Signature(key: Key, message: Felt)

  /** A signature verifies exactly when it is over this message under this key and was really made. */
  predicate Verifies(signed: Signatures, key: Key, message: Felt, signature: Signature) {
    signature == Signature(key, message) && (key, message) in signed
  }

  datatype NoteState = NoteState(
    deployment: Deployment, noteId: nat, secret: Felt, depositAmount: nat, expiry: nat,
    balance: nat, blinding: nat, commitment: Point, anchor: Felt, isGenesis: bool, signature: Option<Signature>)

  datatype Journal = Journal(requestId: string, nullifier: Felt, payloadHash: Felt, rerandomization: nat)

  datatype ServerAnswer = ServerAnswer(
    requestId: string, nullifier: Felt, payload: string, responseHash: Felt, charge: nat,
    nextCommitment: Point, nextAnchor: Felt, blindDelta: nat, signature: Signature)

  datatype WalletConfig = WalletConfig(
    deployment: Deployment, stateKey: Key, clearanceKey: Key,
    requestChargeCap: nat, policyChargeCap: nat, policyEnabled: bool)

  datatype ClientError =
    | NoteAlreadyExists | NoActiveNote | PendingRequest | NoPendingRequest | PayloadHashMismatch | InsufficientBalance
    | InconsistentState | IdentityMismatch | ResponseHashMismatch | InvalidCharge | AlgebraMismatch
    | InvalidSignature | ChargeExceedsBalance | UnsatisfiedCircuit

  function ChargeCap(c: WalletConfig): nat {
    if c.policyEnabled then c.policyChargeCap else c.requestChargeCap
  }

  function StateLeaf(s: NoteState): Felt {
    NoteLeaf(s.noteId, s.secret, s.depositAmount, s.expiry)
  }

  function Reopened(repr: Felt -> nat, s: NoteState): Point {
    Commit(s.balance, s.blinding, repr(StateLeaf(s)))
  }

  function GenesisState(c: WalletConfig, repr: Felt -> nat, secret: Felt, noteId: nat, amount: nat, expiry: nat, blinding: nat): NoteState {
    NoteState(c.deployment, noteId, secret, amount, expiry, amount, blinding,
              Commit(amount, blinding, repr(NoteLeaf(noteId, secret, amount, expiry))), GENESIS_ANCHOR, true, None)
  }

  function StateMessageOf(s: NoteState, commitment: Point, anchor: Felt): Felt {
    StateMessage(s.deployment, commitment, anchor)
  }

  /** apply_response: every check the client makes before it adopts the next state. */
  function ApplyResponse(cap: nat, stateKey: Key, signed: Signatures, s: NoteState, j: Journal, anonymous: Point, r: ServerAnswer): Result<NoteState, ClientError> {
    if r.requestId != j.requestId || r.nullifier != j.nullifier then Err(IdentityMismatch)
    else if ResponseHash(r.payload) != r.responseHash then Err(ResponseHashMismatch)
    else if r.charge > cap || r.nextAnchor == ZERO then Err(InvalidCharge)
    else if ServerUpdate(anonymous, r.charge, r.blindDelta) != r.nextCommitment then Err(AlgebraMismatch)
    else if !Verifies(signed, stateKey, StateMessageOf(s, r.nextCommitment, r.nextAnchor), r.signature) then Err(InvalidSignature)
    else if r.charge > s.balance then Err(ChargeExceedsBalance)
    else
      Ok(s.(balance := s.balance - r.charge,
            blinding := AddBlindings(AddBlindings(s.blinding, j.rerandomization), r.blindDelta),
            commitment := r.nextCommitment, anchor := r.nextAnchor, isGenesis := false, signature := Some(r.signature)))
  }

  /** complete_pending_response up to the state it would save. */
  function CompleteResponse(cap: nat, stateKey: Key, repr: Felt -> nat, signed: Signatures, s: NoteState, j: Journal, r: ServerAnswer): Result<NoteState, ClientError> {
    if Reopened(repr, s) != s.commitment then Err(InconsistentState)
    else ApplyResponse(cap, stateKey, signed, s, j, Rerandomize(s.commitment, j.rerandomization), r)
  }

  // ---- What the wallet on disk always is ----

  /** A state that opens its own commitment and is genesis-shaped or carries a valid signature. */
  predicate GoodState(depth: nat, stateKey: Key, repr: Felt -> nat, signed: Signatures, s: NoteState) {
    && s.secret != ZERO && s.noteId < Pow(2, depth) && s.depositAmount < U128 && s.expiry < U64
    && s.balance <= s.depositAmount
    && s.commitment == Reopened(repr, s)
    && (if s.isGenesis then
          s.anchor == GENESIS_ANCHOR && s.balance == s.depositAmount && s.signature.None?
        else
          s.signature.Some? && Verifies(signed, stateKey, StateMessageOf(s, s.commitment, s.anchor), s.signature.value))
  }

  /** A state that is good stays so as more is signed. */
  lemma GoodStays(depth: nat, stateKey: Key, repr: Felt -> nat, signed: Signatures, signed': Signatures, s: NoteState)
    requires GoodState(depth, stateKey, repr, signed, s) && signed <= signed'
    ensures GoodState(depth, stateKey, repr, signed', s)
  {
  }

  /** Whatever a server answers, an adopted state is good, owes exactly the charge, and keeps the note. */
  lemma AdoptedStateIsGood(depth: nat, cap: nat, stateKey: Key, repr: Felt -> nat, signed: Signatures, s: NoteState, j: Journal, r: ServerAnswer)
    requires GoodState(depth, stateKey, repr, signed, s)
    requires CompleteResponse(cap, stateKey, repr, signed, s, j, r).Ok?
    ensures var s' := CompleteResponse(cap, stateKey, repr, signed, s, j, r).value;
      && GoodState(depth, stateKey, repr, signed, s')
      && s'.balance + r.charge == s.balance && r.charge <= cap
      && StateLeaf(s') == StateLeaf(s)
  {
    hide ServerUpdate, Rerandomize, Commit, AddBlindings, Pow;
    UpdateOpens(s.balance, s.blinding, repr(StateLeaf(s)), j.rerandomization, r.charge, r.blindDelta);
  }

  // ---- What the wallet builds ----

  function RequestInputsOf(c: WalletConfig, s: NoteState, activeRoot: Felt, now: nat, rho: nat, requestId: string, payloadHash: Felt): RequestInputs {
    var nullifier := Nullifier(s.secret, s.anchor);
    RequestInputs(s.deployment, activeRoot, c.stateKey, now, ChargeCap(c), nullifier,
                  Authorization(nullifier, RequestContext(requestId, payloadHash)), Rerandomize(s.commitment, rho))
  }

  function RequestWitnessOf(s: NoteState, siblings: seq<Felt>, rho: nat, requestId: string, payloadHash: Felt): RequestWitness {
    RequestWitness(s.secret, RequestContext(requestId, payloadHash), s.noteId, s.depositAmount, s.expiry, siblings,
                   s.balance, s.blinding, rho, s.anchor, s.isGenesis)
  }

  /** A request built from a good state that covers the bound is provable exactly when its path is true and the note unexpired. */
  lemma BuiltRequestIsProvable(c: WalletConfig, depth: nat, repr: Felt -> nat, signed: Signatures, s: NoteState,
                               activeRoot: Felt, siblings: seq<Felt>, now: nat, rho: nat, requestId: string, payloadHash: Felt)
    requires GoodState(depth, c.stateKey, repr, signed, s) && ChargeCap(c) <= s.balance && now < U64
    ensures RequestHolds(depth, repr, signed, RequestInputsOf(c, s, activeRoot, now, rho, requestId, payloadHash),
                         RequestWitnessOf(s, siblings, rho, requestId, payloadHash))
       <==> |siblings| == depth && PathRoot(NODE_HASH, s.noteId, StateLeaf(s), siblings) == activeRoot && now <= s.expiry
  {
  }

  function WithdrawalInputsOf(c: WalletConfig, s: NoteState, activeRoot: Felt, destination: nat, hasClearance: bool): WithdrawalInputs {
    var nullifier := Nullifier(s.secret, s.anchor);
    WithdrawalInputs(s.deployment, activeRoot, c.stateKey, c.clearanceKey, s.noteId, s.balance, destination,
                     nullifier, hasClearance, WithdrawalTag(nullifier, destination, s.balance, hasClearance))
  }

  function WithdrawalWitnessOf(s: NoteState, siblings: seq<Felt>): WithdrawalWitness {
    WithdrawalWitness(s.secret, s.depositAmount, s.expiry, siblings, s.blinding, s.anchor, s.isGenesis)
  }

  /** A withdrawal built from a good state is provable exactly when its path is true and, for a mutual close, the clearance is real. */
  lemma BuiltWithdrawalIsProvable(c: WalletConfig, depth: nat, repr: Felt -> nat, signed: Signatures, s: NoteState,
                                  activeRoot: Felt, siblings: seq<Felt>, destination: nat, hasClearance: bool)
    requires GoodState(depth, c.stateKey, repr, signed, s)
    ensures WithdrawalHolds(depth, repr, signed, WithdrawalInputsOf(c, s, activeRoot, destination, hasClearance), WithdrawalWitnessOf(s, siblings))
       <==> && |siblings| == depth && PathRoot(NODE_HASH, s.noteId, StateLeaf(s), siblings) == activeRoot
            && (hasClearance ==> (c.clearanceKey, ClearanceMessage(s.deployment, Nullifier(s.secret, s.anchor))) in signed)
  {
  }

  // ---- At most once ----

  /** A point that a charge and two blindings leave in place was not charged, and the blindings cancel. */
  lemma FixedRound(c: Point, rho: nat, charge: nat, delta: nat)
    requires charge < ORDER
    requires ServerUpdate(Rerandomize(c, rho), charge, delta) == c
    ensures charge == 0 && (rho + delta) % ORDER == 0
  {
    hide ServerUpdate, Rerandomize;
    RerandomizeIs(c, rho);
    ServerUpdateIs(Rerandomize(c, rho), charge, delta);
    ModSmall(c.g, ORDER);
    ModEqIffZero(c.g, c.g - charge, ORDER);
    ModSmall(charge, ORDER);
    ModAddLeft(c.h + rho, delta, ORDER);
    ModSmall(c.h, ORDER);
    ModEqIffZero(c.h + rho + delta, c.h, ORDER);
  }

  lemma CancellingBlindings(b: nat, rho: nat, delta: nat)
    requires b < ORDER && (rho + delta) % ORDER == 0
    ensures AddBlindings(AddBlindings(b, rho), delta) == b
  {
    hide AddBlindings;
    AddBlindingsIs(b, rho);
    AddBlindingsIs(AddBlindings(b, rho), delta);
    ModAddLeft(b + rho, delta, ORDER);
    ModAddLeft(rho + delta, b, ORDER);
    ModSmall(b, ORDER);
  }

  /** A round that charges nothing and whose blindings cancel is no round. */
  lemma FreeRound(c: Point, rho: nat, delta: nat)
    requires (rho + delta) % ORDER == 0
    ensures ServerUpdate(Rerandomize(c, rho), 0, delta) == c
  {
    hide ServerUpdate, Rerandomize;
    RerandomizeIs(c, rho);
    ServerUpdateIs(Rerandomize(c, rho), 0, delta);
    ModSmall(c.g, ORDER);
    ModAddLeft(c.h + rho, delta, ORDER);
    ModAddLeft(rho + delta, c.h, ORDER);
    ModSmall(c.h, ORDER);
  }

  /** Completing an already applied response again succeeds exactly when the round was free, and then changes
      nothing at all; otherwise it is refused. */
  lemma ReapplyChangesNothing(depth: nat, cap: nat, stateKey: Key, repr: Felt -> nat, signed: Signatures, signed': Signatures, s: NoteState, j: Journal, r: ServerAnswer)
    requires GoodState(depth, stateKey, repr, signed, s) && signed <= signed'
    requires CompleteResponse(cap, stateKey, repr, signed, s, j, r).Ok?
    ensures var s1 := CompleteResponse(cap, stateKey, repr, signed, s, j, r).value;
      CompleteResponse(cap, stateKey, repr, signed', s1, j, r)
      == if r.charge == 0 && (j.rerandomization + r.blindDelta) % ORDER == 0 then Ok(s1) else Err(AlgebraMismatch)
  {
    hide Commit, AddBlindings, ServerUpdate, Rerandomize, Pow;
    var s1 := CompleteResponse(cap, stateKey, repr, signed, s, j, r).value;
    AdoptedStateIsGood(depth, cap, stateKey, repr, signed, s, j, r);
    if ServerUpdate(Rerandomize(s1.commitment, j.rerandomization), r.charge, r.blindDelta) == s1.commitment {
      FixedRound(s1.commitment, j.rerandomization, r.charge, r.blindDelta);
      CancellingBlindings(s1.blinding, j.rerandomization, r.blindDelta);
    } else if r.charge == 0 && (j.rerandomization + r.blindDelta) % ORDER == 0 {
      FreeRound(s1.commitment, j.rerandomization, r.blindDelta);
    }
  }

  // ---- The disk, and dying while writing it ----

  datatype Disk = Disk(state: Option<NoteState>, journal: Option<Journal>)

  datatype Death = Lives | DiesBeforeSave | DiesAfterSave

  datatype Setup = Setup(config: WalletConfig, depth: nat, repr: Felt -> nat)

  /** What a completion attempt leaves on disk. */
  function Attempt(u: Setup, signed: Signatures, d: Disk, r: ServerAnswer, death: Death): Disk {
    if d.state.None? || d.journal.None? then d
    else
      match CompleteResponse(ChargeCap(u.config), u.config.stateKey, u.repr, signed, d.state.value, d.journal.value, r)
      case Err(_) => d
      case Ok(next) =>
        match death
        case DiesBeforeSave => d
        case DiesAfterSave => Disk(Some(next), d.journal)
        case Lives => Disk(Some(next), None)
  }

  /** One attempt: what was signed by then, the answer at hand, and where the process died. */
  datatype Try = Try(signed: Signatures, answer: ServerAnswer, death: Death)

  function AfterTries(u: Setup, d: Disk, tries: seq<Try>): Disk {
    if tries == [] then d
    else
      var last := tries[|tries| - 1];
      Attempt(u, last.signed, AfterTries(u, d, tries[..|tries| - 1]), last.answer, last.death)
  }

  function LastSigned(signed: Signatures, tries: seq<Try>): Signatures {
    if tries == [] then signed else tries[|tries| - 1].signed
  }

  ghost predicate SignaturesGrow(signed: Signatures, tries: seq<Try>) {
    tries != [] ==>
      && SignaturesGrow(signed, tries[..|tries| - 1])
      && LastSigned(signed, tries[..|tries| - 1]) <= tries[|tries| - 1].signed
  }

  /** Two tellings of one answer: the same commitment, anchor and blinding, whatever the charge is said to be. */
  predicate SameRound(a: ServerAnswer, b: ServerAnswer) {
    a.nextCommitment == b.nextCommitment && a.nextAnchor == b.nextAnchor && a.blindDelta == b.blindDelta && a.charge < U128
  }

  /** The answer says what was really charged to the commitment of this journal. */
  predicate ChargesHonestly(s: NoteState, j: Journal, r: ServerAnswer) {
    r.charge < U128 && ServerUpdate(Rerandomize(s.commitment, j.rerandomization), r.charge, r.blindDelta) == r.nextCommitment
  }

  /** The one state that this round leads to. */
  function Adopted(u: Setup, s: NoteState, j: Journal, r: ServerAnswer): NoteState
    requires r.charge <= s.balance
  {
    s.(balance := s.balance - r.charge,
       blinding := AddBlindings(AddBlindings(s.blinding, j.rerandomization), r.blindDelta),
       commitment := r.nextCommitment, anchor := r.nextAnchor, isGenesis := false,
       signature := Some(Signature(u.config.stateKey, StateMessageOf(s, r.nextCommitment, r.nextAnchor))))
  }

  function Complete(u: Setup, signed: Signatures, s: NoteState, j: Journal, r: ServerAnswer): Result<NoteState, ClientError> {
    CompleteResponse(ChargeCap(u.config), u.config.stateKey, u.repr, signed, s, j, r)
  }

  /** Any telling that is adopted leads to that state. */
  lemma FirstIsAdopted(u: Setup, signed: Signatures, s: NoteState, j: Journal, r: ServerAnswer, told: ServerAnswer)
    requires ChargesHonestly(s, j, r) && SameRound(told, r) && Complete(u, signed, s, j, told).Ok?
    ensures told.charge == r.charge <= s.balance && Complete(u, signed, s, j, told).value == Adopted(u, s, j, r)
  {
    hide ServerUpdate, Rerandomize, Commit;
    ChargeIsDetermined(Rerandomize(s.commitment, j.rerandomization), told.charge, r.charge, r.blindDelta);
  }

  /** Once it is adopted, no telling changes it. */
  lemma AgainChangesNothing(u: Setup, signed: Signatures, s: NoteState, j: Journal, r: ServerAnswer, told: ServerAnswer)
    requires r.charge <= s.balance && SameRound(told, r) && Complete(u, signed, Adopted(u, s, j, r), j, told).Ok?
    ensures Complete(u, signed, Adopted(u, s, j, r), j, told).value == Adopted(u, s, j, r)
  {
    hide ServerUpdate, Rerandomize, Commit, AddBlindings;
    var s1 := Adopted(u, s, j, r);
    FixedRound(s1.commitment, j.rerandomization, told.charge, told.blindDelta);
    CancellingBlindings(s1.blinding, j.rerandomization, told.blindDelta);
  }

  /** What may be on disk: the old state and its journal, or the state that one round leads to. */
  ghost predicate OldOrAdopted(u: Setup, s: NoteState, j: Journal, r: ServerAnswer, d: Disk) {
    || d == Disk(Some(s), Some(j))
    || (r.charge <= s.balance && d.state == Some(Adopted(u, s, j, r)) && (d.journal == Some(j) || d.journal.None?))
  }

  /** However often completion is tried, with whatever tellings of the answer, while the server signs on, and
      wherever it dies: the answer is applied at most once, and is never undone. */
  lemma {:induction false} AppliedAtMostOnce(u: Setup, signed: Signatures, s: NoteState, j: Journal, r: ServerAnswer, tries: seq<Try>)
    requires GoodState(u.depth, u.config.stateKey, u.repr, signed, s) && ChargesHonestly(s, j, r)
    requires SignaturesGrow(signed, tries) && forall t :: t in tries ==> SameRound(t.answer, r)
    ensures var d := AfterTries(u, Disk(Some(s), Some(j)), tries);
      && OldOrAdopted(u, s, j, r, d)
      && GoodState(u.depth, u.config.stateKey, u.repr, LastSigned(signed, tries), d.state.value)
      && (tries != [] && AfterTries(u, Disk(Some(s), Some(j)), tries[..|tries| - 1]).state != Some(s) ==>
            d.state == AfterTries(u, Disk(Some(s), Some(j)), tries[..|tries| - 1]).state)
  {
    hide CompleteResponse, GoodState, ChargesHonestly;
    if tries != [] {
      var before, last := tries[..|tries| - 1], tries[|tries| - 1];
      AppliedAtMostOnce(u, signed, s, j, r, before);
      var d := AfterTries(u, Disk(Some(s), Some(j)), before);
      GoodStays(u.depth, u.config.stateKey, u.repr, LastSigned(signed, before), last.signed, d.state.value);
      if d.journal.Some? && Complete(u, last.signed, d.state.value, j, last.answer).Ok? {
        AdoptedStateIsGood(u.depth, ChargeCap(u.config), u.config.stateKey, u.repr, last.signed, d.state.value, j, last.answer);
        if d == Disk(Some(s), Some(j)) {
          FirstIsAdopted(u, last.signed, s, j, r, last.answer);
        } else {
          AgainChangesNothing(u, last.signed, s, j, r, last.answer);
        }
      }
    }
  }

  class NoteWallet {
    const u: Setup
    var state: Option<NoteState>
    var stateFile: Option<NoteState>
    var journalFile: Option<Journal>

    function OnDisk(): Disk
      reads this
    {
      Disk(stateFile, journalFile)
    }

    /** Memory agrees with the file, and the file is good. */
    ghost predicate Valid(signed: Signatures)
      reads this
    {
      && state == stateFile
      && (state.Some? ==> GoodState(u.depth, u.config.stateKey, u.repr, signed, state.value))
    }

    /** A restart: whatever the dead process left on disk. */
    constructor Open(u: Setup, disk: Disk)
      ensures this.u == u && OnDisk() == disk && state == disk.state
    {
      this.u := u;
      state, stateFile, journalFile := disk.state, disk.state, disk.journal;
    }

    /** The code takes any secret; the state is a good one exactly when it is not zero. */
    method ConfirmDeposit(secret: Felt, noteId: nat, amount: nat, expiry: nat, blinding: nat, ghost signed: Signatures)
      returns (r: Result<(), ClientError>)
      requires Valid(signed) && noteId < Pow(2, u.depth) && amount < U128 && expiry < U64
      modifies this
      ensures Valid(signed) <==> r.Err? || secret != ZERO
      ensures journalFile == old(journalFile)
      ensures r.Ok? <==> old(state).None?
      ensures r.Ok? ==> state == Some(GenesisState(u.config, u.repr, secret, noteId, amount, expiry, blinding))
      ensures r.Ok? ==> var s := state.value;
        && s.deployment == u.config.deployment && s.noteId == noteId && s.secret == secret && s.depositAmount == amount && s.expiry == expiry
        && s.balance == amount && s.blinding == blinding && s.anchor == GENESIS_ANCHOR && s.isGenesis && s.signature.None?
        && s.commitment == Commit(amount, blinding, u.repr(Leaf(noteId, Registration(secret), amount, expiry)))
      ensures r.Err? ==> r.error == NoteAlreadyExists && state == old(state)
    {
      if state.Some? { return Err(NoteAlreadyExists); }
      var next := GenesisState(u.config, u.repr, secret, noteId, amount, expiry, blinding);
      stateFile := Some(next);
      state := Some(next);
      r := Ok(());
    }

    /** Writes the journal only for a request whose proof exists; touches the state not at all. */
    method PrepareRequest(payload: string, payloadHash: Felt, activeRoot: Felt, siblings: seq<Felt>, rho: nat, now: nat, requestId: string, signed: Signatures)
      returns (r: Result<RequestInputs, ClientError>)
      requires Valid(signed) && now < U64
      modifies this`journalFile
      ensures Valid(signed)
      ensures r.Ok? <==>
        && old(journalFile).None? && PayloadHash(payload) == payloadHash && state.Some? && ChargeCap(u.config) <= state.value.balance
        && |siblings| == u.depth && PathRoot(NODE_HASH, state.value.noteId, StateLeaf(state.value), siblings) == activeRoot
        && now <= state.value.expiry
      ensures r.Ok? ==>
        && r.value == RequestInputsOf(u.config, state.value, activeRoot, now, rho, requestId, payloadHash)
        && RequestProofExists(u.depth, u.repr, signed, r.value)
        && journalFile == Some(Journal(requestId, r.value.requestNullifier, payloadHash, rho))
      ensures r.Ok? ==> var s := state.value;
        && r.value.deployment == s.deployment && r.value.activeRoot == activeRoot && r.value.stateKey == u.config.stateKey && r.value.requestTime == now
        && r.value.solvencyBound == (if u.config.policyEnabled then u.config.policyChargeCap else u.config.requestChargeCap)
        && r.value.requestNullifier == Nullifier(s.secret, s.anchor)
        && r.value.authorizationTag == Authorization(Nullifier(s.secret, s.anchor), RequestContext(requestId, PayloadHash(payload)))
        && r.value.anonymousCommitment == Rerandomize(s.commitment, rho)
      ensures r.Err? ==> journalFile == old(journalFile)
    {
      if journalFile.Some? { return Err(PendingRequest); }
      if PayloadHash(payload) != payloadHash { return Err(PayloadHashMismatch); }
      if state.None? { return Err(NoActiveNote); }
      var s := state.value;
      if s.balance < ChargeCap(u.config) { return Err(InsufficientBalance); }
      if Reopened(u.repr, s) != s.commitment { return Err(InconsistentState); }
      var inputs := RequestInputsOf(u.config, s, activeRoot, now, rho, requestId, payloadHash);
      var private := RequestWitnessOf(s, siblings, rho, requestId, payloadHash);
      BuiltRequestIsProvable(u.config, u.depth, u.repr, signed, s, activeRoot, siblings, now, rho, requestId, payloadHash);
      if !RequestHolds(u.depth, u.repr, signed, inputs, private) { return Err(UnsatisfiedCircuit); }
      journalFile := Some(Journal(requestId, inputs.requestNullifier, payloadHash, rho));
      r := Ok(inputs);
    }

    /** Save the next state, then clear the journal; `death` says where the process dies, if it does. */
    method CompletePendingResponse(response: ServerAnswer, signed: Signatures, death: Death) returns (r: Result<(), ClientError>)
      requires Valid(signed)
      modifies this
      ensures OnDisk() == Attempt(u, signed, old(OnDisk()), response, death)
      ensures death.Lives? ==> Valid(signed)
      ensures stateFile.Some? ==> GoodState(u.depth, u.config.stateKey, u.repr, signed, stateFile.value)
      ensures r.Err? ==> OnDisk() == old(OnDisk()) && state == old(state)
      ensures r.Ok? ==>
        && old(journalFile).Some? && old(state).Some?
        && response.requestId == old(journalFile).value.requestId && response.nullifier == old(journalFile).value.nullifier
        && response.responseHash == ResponseHash(response.payload) && response.nextAnchor != ZERO
        && response.charge <= (if u.config.policyEnabled then u.config.policyChargeCap else u.config.requestChargeCap)
        && response.charge <= old(state).value.balance
      ensures r.Ok? && death.Lives? ==>
        && journalFile.None? && state.Some? && state == stateFile
        && state.value.balance + response.charge == old(state).value.balance
        && state.value.commitment == response.nextCommitment && state.value.anchor == response.nextAnchor
    {
      if journalFile.None? { return Err(PendingRequest); }
      if state.None? { return Err(NoActiveNote); }
      var s, journal := state.value, journalFile.value;
      var current := Reopened(u.repr, s);
      if current != s.commitment { return Err(InconsistentState); }
      var anonymous := Rerandomize(current, journal.rerandomization);
      var applied := ApplyResponse(ChargeCap(u.config), u.config.stateKey, signed, s, journal, anonymous, response);
      if applied.Err? { return Err(applied.error); }
      AdoptedStateIsGood(u.depth, ChargeCap(u.config), u.config.stateKey, u.repr, signed, s, journal, response);
      if death.DiesBeforeSave? { return Ok(()); }
      stateFile := Some(applied.value);
      if death.DiesAfterSave? { return Ok(()); }
      state := Some(applied.value);
      journalFile := None;
      r := Ok(());
    }

    method BuildWithdrawal(destination: nat, activeRoot: Felt, siblings: seq<Felt>, clearance: Option<Signature>, signed: Signatures)
      returns (r: Result<WithdrawalInputs, ClientError>)
      requires Valid(signed)
      ensures r.Ok? <==>
        && state.Some? && |siblings| == u.depth && PathRoot(NODE_HASH, state.value.noteId, StateLeaf(state.value), siblings) == activeRoot
        && (clearance.Some? ==> Verifies(signed, u.config.clearanceKey,
              ClearanceMessage(state.value.deployment, Nullifier(state.value.secret, state.value.anchor)), clearance.value))
      ensures r.Ok? ==>
        && r.value == WithdrawalInputsOf(u.config, state.value, activeRoot, destination, clearance.Some?)
        && WithdrawalProofExists(u.depth, u.repr, signed, r.value)
      ensures r.Ok? ==> var s := state.value;
        && r.value.deployment == s.deployment && r.value.activeRoot == activeRoot
        && r.value.stateKey == u.config.stateKey && r.value.clearanceKey == u.config.clearanceKey
        && r.value.noteId == s.noteId && r.value.finalBalance == s.balance && r.value.destination == destination
        && r.value.withdrawalNullifier == Nullifier(s.secret, s.anchor) && r.value.hasClearance == clearance.Some?
        && r.value.withdrawalTag == WithdrawalTag(Nullifier(s.secret, s.anchor), destination, s.balance, clearance.Some?)
    {
      if state.None? { return Err(NoActiveNote); }
      var s := state.value;
      var nullifier := Nullifier(s.secret, s.anchor);
      if clearance.Some? && !Verifies(signed, u.config.clearanceKey, ClearanceMessage(s.deployment, nullifier), clearance.value) { return Err(InvalidSignature); }
      var inputs := WithdrawalInputsOf(u.config, s, activeRoot, destination, clearance.Some?);
      var private := WithdrawalWitnessOf(s, siblings);
      BuiltWithdrawalIsProvable(u.config, u.depth, u.repr, signed, s, activeRoot, siblings, destination, clearance.Some?);
      if !WithdrawalHolds(u.depth, u.repr, signed, inputs, private) { return Err(UnsatisfiedCircuit); }
      r := Ok(inputs);
    }
  }
}
