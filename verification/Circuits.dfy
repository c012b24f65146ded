/** The two Groth16 statements as relations between a private witness and public inputs.

    A proof is ideal: the adapter accepts public inputs exactly when a witness exists.  So
    are signatures: one is valid exactly when its message is among those signed under the
    key.  `repr` is the integer that stands for a digest when it multiplies a point. */
module Circuits {
  import opened Powers
  import opened Felts
  import opened Merkle
  import opened VaultSpec
  import opened Pedersen

  /** What has been signed so far, and under which key. */
  type Signatures = set<(Key, Felt)>

  datatype RequestWitness = RequestWitness(
    secret: Felt, requestContext: Felt, noteId: nat, depositAmount: nat, expiry: nat, siblings: seq<Felt>,
    balance: nat, blinding: nat, rerandomization: nat, anchor: Felt, isGenesis: bool)

  datatype WithdrawalWitness = WithdrawalWitness(
    secret: Felt, depositAmount: nat, expiry: nat, siblings: seq<Felt>,
    blinding: nat, anchor: Felt, isGenesis: bool)

  function NoteLeaf(noteId: nat, secret: Felt, amount: nat, expiry: nat): Felt {
    Leaf(noteId, Registration(secret), amount, expiry)
  }

  function WitnessLeaf(w: RequestWitness): Felt {
    NoteLeaf(w.noteId, w.secret, w.depositAmount, w.expiry)
  }

  function WitnessCommitment(repr: Felt -> nat, w: RequestWitness): Point {
    Commit(w.balance, w.blinding, repr(WitnessLeaf(w)))
  }

  /** RequestCircuit::generate_constraints */
  predicate RequestHolds(depth: nat, repr: Felt -> nat, signed: Signatures, p: RequestInputs, w: RequestWitness) {
    && w.secret != ZERO
    && w.noteId < Pow(2, depth) && w.depositAmount < U128 && w.expiry < U64 && w.balance < U128
    && p.requestTime < U64 && p.solvencyBound < U128
    && w.expiry >= p.requestTime
    && w.balance >= p.solvencyBound
    && |w.siblings| == depth
    && PathRoot(NODE_HASH, w.noteId, WitnessLeaf(w), w.siblings) == p.activeRoot
    && (w.isGenesis ==> w.anchor == GENESIS_ANCHOR && w.balance == w.depositAmount)
    && (!w.isGenesis ==> (p.stateKey, StateMessage(p.deployment, WitnessCommitment(repr, w), w.anchor)) in signed)
    && p.anonymousCommitment == Rerandomize(WitnessCommitment(repr, w), w.rerandomization)
    && p.requestNullifier == Nullifier(w.secret, w.anchor)
    && p.authorizationTag == Authorization(p.requestNullifier, w.requestContext)
  }

  function SpentCommitment(repr: Felt -> nat, p: WithdrawalInputs, w: WithdrawalWitness): Point {
    Commit(p.finalBalance, w.blinding, repr(NoteLeaf(p.noteId, w.secret, w.depositAmount, w.expiry)))
  }

  /** WithdrawalCircuit::generate_constraints */
  predicate WithdrawalHolds(depth: nat, repr: Felt -> nat, signed: Signatures, p: WithdrawalInputs, w: WithdrawalWitness) {
    && w.secret != ZERO
    && p.noteId < Pow(2, depth) && w.depositAmount < U128 && w.expiry < U64 && p.finalBalance < U128
    && w.depositAmount >= p.finalBalance
    && |w.siblings| == depth
    && PathRoot(NODE_HASH, p.noteId, NoteLeaf(p.noteId, w.secret, w.depositAmount, w.expiry), w.siblings) == p.activeRoot
    && (w.isGenesis ==> w.anchor == GENESIS_ANCHOR && p.finalBalance == w.depositAmount)
    && (!w.isGenesis ==> (p.stateKey, StateMessage(p.deployment, SpentCommitment(repr, p, w), w.anchor)) in signed)
    && p.withdrawalNullifier == Nullifier(w.secret, w.anchor)
    && p.withdrawalTag == WithdrawalTag(p.withdrawalNullifier, p.destination, p.finalBalance, p.hasClearance)
    && (p.hasClearance ==> (p.clearanceKey, ClearanceMessage(p.deployment, p.withdrawalNullifier)) in signed)
  }

  /** More signatures never invalidate a proof: archived requests stay good. */
  lemma RequestMonotone(depth: nat, repr: Felt -> nat, signed: Signatures, signed': Signatures, p: RequestInputs, w: RequestWitness)
    requires signed <= signed' && RequestHolds(depth, repr, signed, p, w)
    ensures RequestHolds(depth, repr, signed', p, w)
  {
  }

  lemma WithdrawalMonotone(depth: nat, repr: Felt -> nat, signed: Signatures, signed': Signatures, p: WithdrawalInputs, w: WithdrawalWitness)
    requires signed <= signed' && WithdrawalHolds(depth, repr, signed, p, w)
    ensures WithdrawalHolds(depth, repr, signed', p, w)
  {
  }

  /** One authorization tag is good for one nullifier, one state and one request context: a proof shown for another client
      request or another payload needs another tag. */
  lemma AuthorizationBinds(depth: nat, repr: Felt -> nat, signed: Signatures, p: RequestInputs, w: RequestWitness, p': RequestInputs, w': RequestWitness)
    requires RequestHolds(depth, repr, signed, p, w) && RequestHolds(depth, repr, signed, p', w')
    requires p.authorizationTag == p'.authorizationTag
    ensures p.requestNullifier == p'.requestNullifier && w.requestContext == w'.requestContext && w.secret == w'.secret && w.anchor == w'.anchor
  {
    hide PathRoot, Commit, Rerandomize;
  }

  /** One withdrawal tag is good for one nullifier, one destination, one balance and one way of closing. */
  lemma WithdrawalTagBinds(depth: nat, repr: Felt -> nat, signed: Signatures, p: WithdrawalInputs, w: WithdrawalWitness, p': WithdrawalInputs, w': WithdrawalWitness)
    requires WithdrawalHolds(depth, repr, signed, p, w) && WithdrawalHolds(depth, repr, signed, p', w')
    requires p.withdrawalTag == p'.withdrawalTag
    ensures p.withdrawalNullifier == p'.withdrawalNullifier && p.destination == p'.destination
    ensures p.finalBalance == p'.finalBalance && p.hasClearance == p'.hasClearance
  {
    hide PathRoot, Commit;
  }

  /** Signatures of other deployments, or under other keys, serve nobody here: without one of this deployment only a genesis
      state can be spent or withdrawn, and nothing can be closed with a clearance. */
  lemma ForeignSignaturesAreUseless(depth: nat, repr: Felt -> nat, signed: Signatures, p: RequestInputs, w: RequestWitness, p': WithdrawalInputs, w': WithdrawalWitness)
    requires forall key, message :: (key, message) in signed && message.StateMessage? ==> key != p.stateKey || message.stateOf != p.deployment
    requires forall key, message :: (key, message) in signed && message.StateMessage? ==> key != p'.stateKey || message.stateOf != p'.deployment
    requires forall key, message :: (key, message) in signed && message.ClearanceMessage? ==> key != p'.clearanceKey || message.clearanceOf != p'.deployment
    ensures RequestHolds(depth, repr, signed, p, w) ==> w.isGenesis && w.balance == w.depositAmount
    ensures WithdrawalHolds(depth, repr, signed, p', w') ==> w'.isGenesis && p'.finalBalance == w'.depositAmount && !p'.hasClearance
  {
    hide PathRoot, Commit, Rerandomize;
  }

  ghost predicate RequestProofExists(depth: nat, repr: Felt -> nat, signed: Signatures, p: RequestInputs) {
    exists w :: RequestHolds(depth, repr, signed, p, w)
  }

  ghost predicate WithdrawalProofExists(depth: nat, repr: Felt -> nat, signed: Signatures, p: WithdrawalInputs) {
    exists w :: WithdrawalHolds(depth, repr, signed, p, w)
  }
}
