/** Vault, server and anyone holding secrets, running together.

    Clients are adversarial: anyone who has a witness may make a proof, and every vault call
    may be made with any arguments.  What counts on chain and at the server is the proofs that
    were made: a statement nobody proved is never accepted, even if a witness for it exists.
    The server follows processor.rs: it checks the request against a root its indexer told it,
    takes the nullifier, charges at most the cap, updates the commitment it cannot open, signs
    and finalizes.  A request may have been checked long before it takes its nullifier, so
    every root ever told counts; and a nullifier that is only accepted may be taken again, by
    a retry.  The witness stored in an entry is history that the server never sees. */
module Protocol {
  import opened Powers
  import opened Felts
  import opened Modular
  import opened Merkle
  import opened VaultSpec
  import opened VaultInvariant
  import opened Pedersen
  import opened Circuits

  datatype Params = Params(cfg: Config, chargeCap: nat, repr: Felt -> nat)

  /** What became of a nullifier: a request took it, was charged and signed, or a clearance barred it. */
  datatype Entry =
    | Accepted(inputs: RequestInputs, opening: RequestWitness)
    | Charged(inputs: RequestInputs, opening: RequestWitness, charge: nat, blindDelta: nat, randomness: Felt)
    | Barred

  datatype World = World(
    vault: VaultState, entries: map<Felt, Entry>, serverRoots: set<Felt>,
    requests: set<RequestInputs>, withdrawals: set<WithdrawalInputs>)

  predicate IsRequest(entry: Entry) { entry.Accepted? || entry.Charged? }

  function NextCommitment(entry: Entry): Point
    requires entry.Charged?
  {
    ServerUpdate(entry.inputs.anonymousCommitment, entry.charge, entry.blindDelta)
  }

  function NextAnchorOf(entry: Entry): Felt
    requires entry.Charged?
  {
    NextAnchor(entry.randomness, entry.inputs.requestNullifier, NextCommitment(entry))
  }

  function SignedState(cfg: Config, entry: Entry): (Key, Felt)
    requires entry.Charged?
  {
    (cfg.stateKey, StateMessage(cfg.deployment, NextCommitment(entry), NextAnchorOf(entry)))
  }

  /** The signatures released so far. */
  function Released(cfg: Config, entries: map<Felt, Entry>): Signatures {
    (set x | x in entries && entries[x].Charged? :: SignedState(cfg, entries[x]))
    + (set x | x in entries && entries[x].Barred? :: (cfg.clearanceKey, ClearanceMessage(cfg.deployment, x)))
  }

  datatype Action =
    | VaultCall(env: Env, call: Call)
    | SyncRoot
    | ProveRequest(inputs: RequestInputs, opening: RequestWitness)
    | ProveWithdrawal(withdrawal: WithdrawalInputs, spending: WithdrawalWitness)
    | Reserve(inputs: RequestInputs, opening: RequestWitness)
    | Finalize(nullifier: Felt, charge: nat, blindDelta: nat, randomness: Felt)
    | Clear(nullifier: Felt)

  /** The proof adapter of the vault accepts exactly the proofs that were made. */
  predicate AdapterIsIdeal(w: World, env: Env, call: Call) {
    match call
    case CallMutualClose(inputs, _) => env.proofAccepted <==> inputs in w.withdrawals
    case CallInitiateEscape(inputs, _) => env.proofAccepted <==> inputs in w.withdrawals
    case CallChallengeEscape(_, inputs, _) => env.proofAccepted <==> inputs in w.requests
    case _ => true
  }

  predicate ServerAccepts(p: Params, w: World, inputs: RequestInputs) {
    && inputs.deployment == p.cfg.deployment && inputs.stateKey == p.cfg.stateKey
    && inputs.activeRoot in w.serverRoots
    && inputs.solvencyBound >= p.chargeCap
    && inputs in w.requests
    && (inputs.requestNullifier in w.entries ==> w.entries[inputs.requestNullifier].Accepted?)
  }

  predicate Allowed(p: Params, w: World, a: Action) {
    match a
    case VaultCall(env, call) => WellTyped(p.cfg, call) && AdapterIsIdeal(w, env, call)
    case SyncRoot => true
    case ProveRequest(inputs, opening) => RequestHolds(p.cfg.depth, p.repr, Released(p.cfg, w.entries), inputs, opening)
    case ProveWithdrawal(inputs, o) => WithdrawalHolds(p.cfg.depth, p.repr, Released(p.cfg, w.entries), inputs, o)
    case Reserve(inputs, opening) => ServerAccepts(p, w, inputs) && RequestHolds(p.cfg.depth, p.repr, Released(p.cfg, w.entries), inputs, opening)
    case Finalize(x, charge, _, _) => x in w.entries && w.entries[x].Accepted? && charge <= p.chargeCap
    case Clear(x) => x !in w.entries
  }

  function Apply(p: Params, w: World, a: Action): World {
    match a
    case VaultCall(env, call) =>
      var outcome := Step(p.cfg, w.vault, env, call);
      if outcome.Done? then w.(vault := outcome.state) else w
    case SyncRoot => w.(serverRoots := w.serverRoots + {w.vault.currentRoot})
    case ProveRequest(inputs, _) => w.(requests := w.requests + {inputs})
    case ProveWithdrawal(inputs, _) => w.(withdrawals := w.withdrawals + {inputs})
    case Reserve(inputs, opening) => w.(entries := w.entries[inputs.requestNullifier := Accepted(inputs, opening)])
    case Finalize(x, charge, delta, randomness) =>
      if x in w.entries && w.entries[x].Accepted? then
        w.(entries := w.entries[x := Charged(w.entries[x].inputs, w.entries[x].opening, charge, delta, randomness)])
      else w
    case Clear(x) => w.(entries := w.entries[x := Barred])
  }

  function InitialWorld(p: Params): World {
    World(InitialState(p.cfg), map[], {InitialState(p.cfg).currentRoot}, {}, {})
  }

  // ---- The invariant ----

  /** The leaf a note was deposited with. */
  function DepositedLeaf(s: VaultState, id: nat): Felt {
    LeafOf(id, NoteAt(s, id))
  }

  /** Multiplying by J loses nothing on the leaves that were ever deposited. */
  ghost predicate LeavesStayApart(repr: Felt -> nat, s: VaultState) {
    forall i, k :: i in s.notes && k in s.notes && repr(DepositedLeaf(s, i)) % ORDER == repr(DepositedLeaf(s, k)) % ORDER ==> i == k
  }

  /** A root that some set of deposited leaves once had. */
  ghost predicate WasRoot(p: Params, s: VaultState, root: Felt, leaves: map<nat, Felt>) {
    && root == Root(NODE_HASH, leaves, ZERO, p.cfg.depth)
    && (forall i :: i in leaves ==> i in s.notes && leaves[i] == DepositedLeaf(s, i))
  }

  ghost predicate RootIsHistoric(p: Params, s: VaultState, root: Felt) {
    exists leaves :: WasRoot(p, s, root, leaves)
  }

  ghost predicate RootsAreHistoric(p: Params, w: World) {
    forall root {:trigger RootIsHistoric(p, w.vault, root)} :: root in w.serverRoots ==> RootIsHistoric(p, w.vault, root)
  }

  /** Whatever was proved has a witness. */
  ghost predicate ProofsAreSound(p: Params, w: World) {
    && (forall inputs :: inputs in w.requests ==> RequestProofExists(p.cfg.depth, p.repr, Released(p.cfg, w.entries), inputs))
    && (forall inputs :: inputs in w.withdrawals ==> WithdrawalProofExists(p.cfg.depth, p.repr, Released(p.cfg, w.entries), inputs))
  }

  /** An accepted request: its proof, its note, and what it was charged. */
  ghost predicate EntryIsSound(p: Params, w: World, x: Felt)
    requires x in w.entries
  {
    var entry := w.entries[x];
    IsRequest(entry) ==>
      && entry.inputs.requestNullifier == x && entry.inputs in w.requests
      && entry.inputs.deployment == p.cfg.deployment && entry.inputs.stateKey == p.cfg.stateKey
      && RequestHolds(p.cfg.depth, p.repr, Released(p.cfg, w.entries), entry.inputs, entry.opening)
      && entry.opening.noteId in w.vault.notes
      && WitnessLeaf(entry.opening) == DepositedLeaf(w.vault, entry.opening.noteId)
      && p.chargeCap <= entry.inputs.solvencyBound
      && (entry.Charged? ==> entry.charge <= p.chargeCap)
  }

  ghost predicate EntriesAreSound(p: Params, w: World) {
    forall x {:trigger EntryIsSound(p, w, x)} :: x in w.entries ==> EntryIsSound(p, w, x)
  }

  /** Request `x` spends the state that request `y` produced. */
  ghost predicate Follows(p: Params, w: World, x: Felt, y: Felt)
    requires x in w.entries && y in w.entries && IsRequest(w.entries[x])
  {
    && w.entries[y].Charged?
    && WitnessCommitment(p.repr, w.entries[x].opening) == NextCommitment(w.entries[y])
    && w.entries[x].opening.anchor == NextAnchorOf(w.entries[y])
  }

  function Charges(entries: map<Felt, Entry>, chain: seq<Felt>): nat {
    if chain == [] then 0
    else
      var last := chain[|chain| - 1];
      Charges(entries, chain[..|chain| - 1]) + (if last in entries && entries[last].Charged? then entries[last].charge else 0)
  }

  /** `chain` lists exactly the accepted requests of the note, each once. */
  ghost predicate ListsRequests(w: World, id: nat, chain: seq<Felt>) {
    && (forall x :: x in chain <==> x in w.entries && IsRequest(w.entries[x]) && w.entries[x].opening.noteId == id)
    && (forall i, k :: 0 <= i < k < |chain| ==> chain[i] != chain[k])
  }

  /** The first request spends the genesis state, each other one what its predecessor produced. */
  ghost predicate Linked(p: Params, w: World, chain: seq<Felt>)
    requires forall x :: x in chain ==> x in w.entries && (w.entries[x].Accepted? || w.entries[x].Charged?)
  {
    && (forall i :: 0 <= i < |chain| ==> (w.entries[chain[i]].opening.isGenesis <==> i == 0))
    && (forall i :: 0 < i < |chain| ==> Follows(p, w, chain[i], chain[i - 1]))
  }

  /** Each request spends what the earlier ones left of the deposit. */
  ghost predicate Balanced(w: World, id: nat, chain: seq<Felt>)
    requires forall x :: x in chain ==> x in w.entries && (w.entries[x].Accepted? || w.entries[x].Charged?)
  {
    forall i :: 0 <= i < |chain| ==> w.entries[chain[i]].opening.balance + Charges(w.entries, chain[..i]) == NoteAt(w.vault, id).depositAmount
  }

  ghost predicate IsChain(p: Params, w: World, id: nat, chain: seq<Felt>) {
    ListsRequests(w, id, chain) && Linked(p, w, chain) && Balanced(w, id, chain)
  }

  ghost predicate HasChain(p: Params, w: World, id: nat) {
    exists chain :: IsChain(p, w, id, chain)
  }

  ghost predicate EveryNoteHasChain(p: Params, w: World) {
    forall id {:trigger HasChain(p, w, id)} :: id in w.vault.notes ==> HasChain(p, w, id)
  }

  ghost predicate Good(p: Params, w: World) {
    && Inv(p.cfg, w.vault)
    && RootsAreHistoric(p, w)
    && ProofsAreSound(p, w)
    && EntriesAreSound(p, w)
    && EveryNoteHasChain(p, w)
  }

  // ---- Reading the invariant ----

  /** A signed state message was released for a charged request. */
  lemma SignedStateHasSource(cfg: Config, entries: map<Felt, Entry>, c: Point, anchor: Felt) returns (y: Felt)
    requires (cfg.stateKey, StateMessage(cfg.deployment, c, anchor)) in Released(cfg, entries)
    ensures y in entries && entries[y].Charged? && NextCommitment(entries[y]) == c && NextAnchorOf(entries[y]) == anchor
  {
    hide ServerUpdate;
    y :| y in entries && entries[y].Charged? && SignedState(cfg, entries[y]) == (cfg.stateKey, StateMessage(cfg.deployment, c, anchor));
  }

  /** What the server signed opens, for the owner, to the balance less the charge. */
  lemma NextCommitmentOpens(p: Params, w: World, y: Felt)
    requires y in w.entries && w.entries[y].Charged? && EntryIsSound(p, w, y)
    ensures var entry := w.entries[y]; var o := entry.opening;
      && entry.charge <= o.balance
      && NextCommitment(entry) == Commit(o.balance - entry.charge, AddBlindings(AddBlindings(o.blinding, o.rerandomization), entry.blindDelta), p.repr(WitnessLeaf(o)))
  {
    hide Commit, AddBlindings, ServerUpdate, Rerandomize;
    var entry := w.entries[y];
    var o := entry.opening;
    UpdateOpens(o.balance, o.blinding, p.repr(WitnessLeaf(o)), o.rerandomization, entry.charge, entry.blindDelta);
  }

  /** The balance and note that any opening of a signed state must show. */
  lemma SignedStateBinds(p: Params, w: World, y: Felt, id: nat, balance: nat, blinding: nat)
    requires LeavesStayApart(p.repr, w.vault)
    requires y in w.entries && w.entries[y].Charged? && EntryIsSound(p, w, y)
    requires id in w.vault.notes && balance < U128
    requires NextCommitment(w.entries[y]) == Commit(balance, blinding, p.repr(DepositedLeaf(w.vault, id)))
    ensures w.entries[y].opening.noteId == id
    ensures balance + w.entries[y].charge == w.entries[y].opening.balance
  {
    hide Commit, ServerUpdate, NextCommitment;
    NextCommitmentOpens(p, w, y);
    var entry := w.entries[y];
    var blinding' := AddBlindings(AddBlindings(entry.opening.blinding, entry.opening.rerandomization), entry.blindDelta);
    CommitBinds(entry.opening.balance - entry.charge, blinding', p.repr(WitnessLeaf(entry.opening)), balance, blinding, p.repr(DepositedLeaf(w.vault, id)));
  }

  /** A state someone can spend: the note of the leaf, and either genesis or a released signature. */
  ghost predicate Spendable(p: Params, w: World, id: nat, secret: Felt, balance: nat, blinding: nat, anchor: Felt, isGenesis: bool) {
    && id in w.vault.notes && balance < U128
    && NoteAt(w.vault, id).commitment == Registration(secret)
    && (isGenesis ==> anchor == GENESIS_ANCHOR && balance == NoteAt(w.vault, id).depositAmount)
    && (!isGenesis ==> (p.cfg.stateKey, StateMessage(p.cfg.deployment, Commit(balance, blinding, p.repr(DepositedLeaf(w.vault, id))), anchor))
                       in Released(p.cfg, w.entries))
  }

  ghost predicate AllCharged(w: World, chain: seq<Felt>) {
    forall x :: x in chain ==> x in w.entries && w.entries[x].Charged?
  }

  ghost predicate SpentByRequest(w: World, nullifier: Felt) {
    nullifier in w.entries && IsRequest(w.entries[nullifier])
  }

  /** Requests on one note carry nullifiers of one secret. */
  lemma SameNoteSameSecret(p: Params, w: World, x: Felt, id: nat, secret: Felt)
    requires x in w.entries && IsRequest(w.entries[x]) && EntryIsSound(p, w, x)
    requires w.entries[x].opening.noteId == id && NoteAt(w.vault, id).commitment == Registration(secret)
    ensures x == Nullifier(secret, w.entries[x].opening.anchor)
  {
  }

  /** Every request but the last has a successor, so it was charged. */
  lemma AllButLastCharged(p: Params, w: World, id: nat, chain: seq<Felt>)
    requires IsChain(p, w, id, chain)
    ensures forall k :: 0 <= k < |chain| - 1 ==> chain[k] in w.entries && w.entries[chain[k]].Charged?
    ensures forall x :: x in chain ==> x == chain[|chain| - 1] || w.entries[x].Charged?
  {
    hide NextCommitment, WitnessCommitment, NextAnchorOf;
    forall k | 0 <= k < |chain| - 1 ensures chain[k] in w.entries && w.entries[chain[k]].Charged? {
      assert chain[k] in chain && chain[k + 1] in chain;
      assert Follows(p, w, chain[k + 1], chain[k]);
    }
  }

  /** No request is accepted whose time lies after the expiry its note was deposited with. */
  lemma RequestBeforeExpiry(p: Params, w: World, x: Felt)
    requires x in w.entries && IsRequest(w.entries[x]) && EntryIsSound(p, w, x)
    ensures var entry := w.entries[x];
      && entry.opening.noteId in w.vault.notes
      && entry.inputs.requestTime <= NoteAt(w.vault, entry.opening.noteId).expiryTs
      && entry.opening.depositAmount == NoteAt(w.vault, entry.opening.noteId).depositAmount
      && NoteAt(w.vault, entry.opening.noteId).commitment == Registration(entry.opening.secret)
  {
    hide PathRoot, Commit, Rerandomize;
  }

  /** A state whose nullifier no accepted request carries is the one at the end of its note's chain. */
  lemma UnspentIsTip(p: Params, w: World, id: nat, chain: seq<Felt>, secret: Felt, balance: nat, blinding: nat, anchor: Felt, isGenesis: bool)
    requires LeavesStayApart(p.repr, w.vault) && EntriesAreSound(p, w) && IsChain(p, w, id, chain)
    requires Spendable(p, w, id, secret, balance, blinding, anchor, isGenesis)
    requires !SpentByRequest(w, Nullifier(secret, anchor))
    ensures AllCharged(w, chain)
    ensures balance + Charges(w.entries, chain) == NoteAt(w.vault, id).depositAmount
    ensures isGenesis <==> chain == []
    ensures !isGenesis ==>
      && Commit(balance, blinding, p.repr(DepositedLeaf(w.vault, id))) == NextCommitment(w.entries[chain[|chain| - 1]])
      && anchor == NextAnchorOf(w.entries[chain[|chain| - 1]])
  {
    hide Commit, ServerUpdate, NextCommitment, RequestHolds;
    if isGenesis {
      GenesisUnspentIsEmpty(p, w, id, chain, secret);
    } else {
      var y := SignedStateHasSource(p.cfg, w.entries, Commit(balance, blinding, p.repr(DepositedLeaf(w.vault, id))), anchor);
      SignedStateBinds(p, w, y, id, balance, blinding);
      ProducerIsLast(p, w, id, chain, y, secret);
    }
  }

  lemma GenesisUnspentIsEmpty(p: Params, w: World, id: nat, chain: seq<Felt>, secret: Felt)
    requires EntriesAreSound(p, w) && IsChain(p, w, id, chain) && NoteAt(w.vault, id).commitment == Registration(secret)
    requires !SpentByRequest(w, Nullifier(secret, GENESIS_ANCHOR))
    ensures chain == []
  {
    if chain != [] {
      assert chain[0] in chain && EntryIsSound(p, w, chain[0]);
      SameNoteSameSecret(p, w, chain[0], id, secret);
    }
  }

  /** The request whose outcome nobody spent ends the chain, and what it left is the deposit less all charges. */
  lemma ProducerIsLast(p: Params, w: World, id: nat, chain: seq<Felt>, y: Felt, secret: Felt)
    requires EntriesAreSound(p, w) && IsChain(p, w, id, chain) && NoteAt(w.vault, id).commitment == Registration(secret)
    requires y in w.entries && w.entries[y].Charged? && w.entries[y].opening.noteId == id && w.entries[y].charge <= w.entries[y].opening.balance
    requires !SpentByRequest(w, Nullifier(secret, NextAnchorOf(w.entries[y])))
    ensures chain != [] && chain[|chain| - 1] == y && AllCharged(w, chain)
    ensures w.entries[y].opening.balance - w.entries[y].charge + Charges(w.entries, chain) == NoteAt(w.vault, id).depositAmount
  {
    hide NextCommitment, WitnessCommitment, NextAnchorOf, RequestHolds, EntryIsSound, Charges, Balanced;
    assert y in chain;
    var k :| 0 <= k < |chain| && chain[k] == y;
    if k + 1 < |chain| {
      assert chain[k + 1] in chain && Follows(p, w, chain[k + 1], chain[k]) && EntryIsSound(p, w, chain[k + 1]);
      SameNoteSameSecret(p, w, chain[k + 1], id, secret);
    }
    AllButLastCharged(p, w, id, chain);
    TipBalance(p, w, id, chain);
  }

  /** What the last request of a chain spent is what all others left. */
  lemma TipBalance(p: Params, w: World, id: nat, chain: seq<Felt>)
    requires IsChain(p, w, id, chain) && chain != [] && chain[|chain| - 1] in w.entries && w.entries[chain[|chain| - 1]].Charged?
    ensures var tip := w.entries[chain[|chain| - 1]];
      tip.opening.balance - tip.charge + Charges(w.entries, chain) == NoteAt(w.vault, id).depositAmount
  {
    hide Linked;
  }

  /** Membership in a root that deposited leaves once had names a deposited note. */
  lemma MembershipNamesNote(p: Params, s: VaultState, root: Felt, leaves: map<nat, Felt>, id: nat, secret: Felt, amount: nat, expiry: nat, siblings: seq<Felt>)
    requires WasRoot(p, s, root, leaves) && id < Pow(2, p.cfg.depth) && |siblings| == p.cfg.depth
    requires PathRoot(NODE_HASH, id, NoteLeaf(id, secret, amount, expiry), siblings) == root
    ensures id in s.notes && NoteLeaf(id, secret, amount, expiry) == DepositedLeaf(s, id)
  {
    OpeningIsTrue(p.cfg.depth, leaves, id, NoteLeaf(id, secret, amount, expiry), siblings);
  }

  lemma RequestNamesNote(p: Params, w: World, inputs: RequestInputs, opening: RequestWitness)
    requires RootsAreHistoric(p, w) && Allowed(p, w, Reserve(inputs, opening))
    ensures opening.noteId in w.vault.notes && WitnessLeaf(opening) == DepositedLeaf(w.vault, opening.noteId)
  {
    hide Commit, Rerandomize;
    var o := opening;
    assert RootIsHistoric(p, w.vault, inputs.activeRoot);
    var leaves :| WasRoot(p, w.vault, inputs.activeRoot, leaves);
    MembershipNamesNote(p, w.vault, inputs.activeRoot, leaves, o.noteId, o.secret, o.depositAmount, o.expiry, o.siblings);
  }

  // ---- What every step keeps ----

  /** Notes keep what they were deposited with. */
  ghost predicate NotesPersist(s: VaultState, s': VaultState) {
    forall id :: id in s.notes ==> id in s'.notes && s'.notes[id].(status := s.notes[id].status) == s.notes[id]
  }

  /** Nothing that was deposited, signed, told or proved is ever lost. */
  ghost predicate Grows(p: Params, w: World, w': World) {
    && NotesPersist(w.vault, w'.vault)
    && Released(p.cfg, w.entries) <= Released(p.cfg, w'.entries)
    && w.serverRoots <= w'.serverRoots && w.requests <= w'.requests && w.withdrawals <= w'.withdrawals
  }

  lemma ReleasedGrows(cfg: Config, entries: map<Felt, Entry>, entries': map<Felt, Entry>)
    requires forall x :: x in entries && (entries[x].Charged? || entries[x].Barred?) ==> x in entries' && entries'[x] == entries[x]
    ensures Released(cfg, entries) <= Released(cfg, entries')
  {
    hide SignedState;
  }

  lemma ActionGrows(p: Params, w: World, a: Action)
    requires NotesInOrder(p.cfg, w.vault) && Allowed(p, w, a)
    ensures Grows(p, w, Apply(p, w, a))
  {
    hide Step, RequestHolds, WithdrawalHolds, Released;
    ReleasedGrows(p.cfg, w.entries, Apply(p, w, a).entries);
    if a.VaultCall? && Step(p.cfg, w.vault, a.env, a.call).Done? {
      StepKeepsNotes(p.cfg, w.vault, a.env, a.call);
    }
  }

  lemma WasRootStays(p: Params, s: VaultState, s': VaultState, root: Felt, leaves: map<nat, Felt>)
    requires WasRoot(p, s, root, leaves) && NotesPersist(s, s')
    ensures WasRoot(p, s', root, leaves)
  {
  }

  lemma ActionKeepsRoots(p: Params, w: World, a: Action)
    requires RootIsTrue(p.cfg, w.vault) && RootsAreHistoric(p, w)
    requires NotesPersist(w.vault, Apply(p, w, a).vault)
    ensures RootsAreHistoric(p, Apply(p, w, a))
  {
    hide Step;
    var w' := Apply(p, w, a);
    assert WasRoot(p, w.vault, w.vault.currentRoot, ActiveLeaves(w.vault.notes));
    forall root | root in w'.serverRoots ensures RootIsHistoric(p, w'.vault, root) {
      assert root == w.vault.currentRoot || RootIsHistoric(p, w.vault, root);
      var leaves :| WasRoot(p, w.vault, root, leaves);
      WasRootStays(p, w.vault, w'.vault, root, leaves);
    }
  }

  lemma ActionKeepsProofs(p: Params, w: World, a: Action)
    requires ProofsAreSound(p, w) && Allowed(p, w, a)
    requires Released(p.cfg, w.entries) <= Released(p.cfg, Apply(p, w, a).entries)
    ensures ProofsAreSound(p, Apply(p, w, a))
  {
    hide Step, RequestHolds, WithdrawalHolds, Released;
    var w' := Apply(p, w, a);
    var signed, signed' := Released(p.cfg, w.entries), Released(p.cfg, w'.entries);
    forall inputs | inputs in w'.requests ensures RequestProofExists(p.cfg.depth, p.repr, signed', inputs) {
      assert inputs in w.requests ==> RequestProofExists(p.cfg.depth, p.repr, signed, inputs);
      var o :| RequestHolds(p.cfg.depth, p.repr, signed, inputs, o);
      RequestMonotone(p.cfg.depth, p.repr, signed, signed', inputs, o);
    }
    forall inputs | inputs in w'.withdrawals ensures WithdrawalProofExists(p.cfg.depth, p.repr, signed', inputs) {
      assert inputs in w.withdrawals ==> WithdrawalProofExists(p.cfg.depth, p.repr, signed, inputs);
      var o :| WithdrawalHolds(p.cfg.depth, p.repr, signed, inputs, o);
      WithdrawalMonotone(p.cfg.depth, p.repr, signed, signed', inputs, o);
    }
  }

  /** An entry that a step leaves alone, or charges within the cap, stays sound. */
  lemma EntryStaysSound(p: Params, w: World, w': World, x: Felt)
    requires Grows(p, w, w') && x in w.entries && EntryIsSound(p, w, x)
    requires x in w'.entries
    requires w'.entries[x] == w.entries[x]
          || (w.entries[x].Accepted? && w'.entries[x].Charged? && w'.entries[x].charge <= p.chargeCap
              && w'.entries[x].inputs == w.entries[x].inputs && w'.entries[x].opening == w.entries[x].opening)
    ensures EntryIsSound(p, w', x)
  {
    hide RequestHolds, Released;
    var entry := w.entries[x];
    if IsRequest(entry) {
      RequestMonotone(p.cfg.depth, p.repr, Released(p.cfg, w.entries), Released(p.cfg, w'.entries), entry.inputs, entry.opening);
      var id := entry.opening.noteId;
      assert w'.vault.notes[id].(status := w.vault.notes[id].status) == w.vault.notes[id];
    }
  }

  lemma ActionKeepsEntries(p: Params, w: World, a: Action)
    requires EntriesAreSound(p, w) && RootsAreHistoric(p, w) && Allowed(p, w, a) && Grows(p, w, Apply(p, w, a))
    ensures EntriesAreSound(p, Apply(p, w, a))
  {
    hide Step, RequestHolds, WithdrawalHolds, Released;
    var w' := Apply(p, w, a);
    forall x | x in w'.entries ensures EntryIsSound(p, w', x) {
      if a.Reserve? && x == a.inputs.requestNullifier {
        RequestNamesNote(p, w, a.inputs, a.opening);
        RequestMonotone(p.cfg.depth, p.repr, Released(p.cfg, w.entries), Released(p.cfg, w'.entries), a.inputs, a.opening);
      } else if !(a.Clear? && x == a.nullifier) {
        EntryStaysSound(p, w, w', x);
      }
    }
  }

  // ---- Chains ----

  lemma {:induction false} ChargesFrame(entries: map<Felt, Entry>, entries': map<Felt, Entry>, chain: seq<Felt>)
    requires forall x :: x in chain ==> x in entries && x in entries' && entries'[x] == entries[x]
    ensures Charges(entries', chain) == Charges(entries, chain)
  {
    if chain != [] {
      assert chain[|chain| - 1] in chain;
      ChargesFrame(entries, entries', chain[..|chain| - 1]);
    }
  }

  /** A chain whose entries a step leaves alone, or only charges at the tip, stays the chain. */
  lemma ChainStays(p: Params, w: World, w': World, id: nat, chain: seq<Felt>)
    requires IsChain(p, w, id, chain) && id in w.vault.notes && NotesPersist(w.vault, w'.vault)
    requires forall x :: x in chain ==>
      && x in w'.entries && IsRequest(w'.entries[x]) && w'.entries[x].opening == w.entries[x].opening
      && (w.entries[x].Charged? ==> w'.entries[x] == w.entries[x])
    requires forall x :: x in w'.entries && IsRequest(w'.entries[x]) && w'.entries[x].opening.noteId == id ==> x in chain
    ensures IsChain(p, w', id, chain)
  {
    hide NextCommitment, WitnessCommitment, NextAnchorOf;
    AllButLastCharged(p, w, id, chain);
    StaysLinked(p, w, w', id, chain);
    hide Follows, Linked;
    assert w'.vault.notes[id].(status := w.vault.notes[id].status) == w.vault.notes[id];
    forall i | 0 <= i < |chain|
      ensures w'.entries[chain[i]].opening.balance + Charges(w'.entries, chain[..i]) == NoteAt(w'.vault, id).depositAmount
    {
      assert chain[i] in chain;
      ChargesFrame(w.entries, w'.entries, chain[..i]);
    }
  }

  lemma StaysLinked(p: Params, w: World, w': World, id: nat, chain: seq<Felt>)
    requires IsChain(p, w, id, chain)
    requires forall x :: x in chain ==> x in w.entries && x in w'.entries && (w'.entries[x].Accepted? || w'.entries[x].Charged?)
    requires forall x :: x in chain ==> w'.entries[x].opening == w.entries[x].opening && (w.entries[x].Charged? ==> w'.entries[x] == w.entries[x])
    ensures Linked(p, w', chain)
  {
    hide NextCommitment, WitnessCommitment, NextAnchorOf, Balanced;
    forall i | 0 <= i < |chain| ensures chain[i] in chain {
    }
    forall i | 0 < i < |chain| ensures Follows(p, w', chain[i], chain[i - 1]) {
      assert chain[i] in chain && chain[i - 1] in chain;
      assert Follows(p, w, chain[i], chain[i - 1]);
    }
  }

  /** Only an accepted request on the note, or a retry that takes one of its nullifiers, can change the chain of a note. */
  lemma OtherActionsKeepChain(p: Params, w: World, a: Action, id: nat, chain: seq<Felt>)
    requires Allowed(p, w, a) && NotesPersist(w.vault, Apply(p, w, a).vault) && IsChain(p, w, id, chain) && id in w.vault.notes
    requires a.Reserve? ==> a.opening.noteId != id && a.inputs.requestNullifier !in chain
    ensures IsChain(p, Apply(p, w, a), id, chain)
  {
    hide Step, RequestHolds, WithdrawalHolds, Released, Linked, Balanced;
    ChainStays(p, w, Apply(p, w, a), id, chain);
  }

  /** A request on a fresh nullifier spends the state at the end of its note's chain. */
  lemma RequestSpendsTip(p: Params, w: World, inputs: RequestInputs, o: RequestWitness, chain: seq<Felt>)
    requires EntriesAreSound(p, w) && inputs.requestNullifier !in w.entries
    requires LeavesStayApart(p.repr, w.vault) && RequestHolds(p.cfg.depth, p.repr, Released(p.cfg, w.entries), inputs, o)
    requires inputs.deployment == p.cfg.deployment && inputs.stateKey == p.cfg.stateKey
    requires o.noteId in w.vault.notes && WitnessLeaf(o) == DepositedLeaf(w.vault, o.noteId) && IsChain(p, w, o.noteId, chain)
    ensures AllCharged(w, chain)
    ensures o.balance + Charges(w.entries, chain) == NoteAt(w.vault, o.noteId).depositAmount
    ensures o.isGenesis <==> chain == []
    ensures !o.isGenesis ==>
      && WitnessCommitment(p.repr, o) == NextCommitment(w.entries[chain[|chain| - 1]])
      && o.anchor == NextAnchorOf(w.entries[chain[|chain| - 1]])
  {
    hide Commit, NextCommitment, Linked, Balanced, ListsRequests, EntryIsSound, Rerandomize, PathRoot;
    UnspentIsTip(p, w, o.noteId, chain, o.secret, o.balance, o.blinding, o.anchor, o.isGenesis);
  }

  /** What two chains share, in worlds that share its entries, is linked and balanced in both. */
  lemma {:induction false} PrefixStays(p: Params, w: World, w': World, id: nat, chain: seq<Felt>, chain': seq<Felt>, n: nat)
    requires IsChain(p, w, id, chain) && w'.vault == w.vault
    requires n <= |chain| && n <= |chain'| && chain'[..n] == chain[..n]
    requires forall i :: 0 <= i < n ==> chain[i] in w'.entries && w'.entries[chain[i]] == w.entries[chain[i]]
    ensures forall i :: 0 <= i < n ==> chain'[i] == chain[i] && (w'.entries[chain[i]].opening.isGenesis <==> i == 0)
    ensures forall i :: 0 <= i < n ==> w'.entries[chain[i]].opening.balance + Charges(w'.entries, chain'[..i]) == NoteAt(w'.vault, id).depositAmount
    ensures forall i :: 0 < i < n ==> Follows(p, w', chain'[i], chain'[i - 1])
    ensures Charges(w'.entries, chain'[..n]) == Charges(w.entries, chain[..n])
  {
    hide NextCommitment, WitnessCommitment, NextAnchorOf;
    forall i | 0 <= i < n ensures chain'[i] == chain[i] && chain[i] in chain {
      assert chain'[..n][i] == chain[..n][i];
    }
    forall i | 0 <= i <= n ensures Charges(w'.entries, chain'[..i]) == Charges(w.entries, chain[..i]) {
      assert chain'[..i] == chain'[..n][..i] == chain[..n][..i] == chain[..i];
      ChargesFrame(w.entries, w'.entries, chain[..i]);
    }
    forall i | 0 < i < n ensures Follows(p, w', chain'[i], chain'[i - 1]) {
      assert Follows(p, w, chain[i], chain[i - 1]);
    }
  }

  lemma PrefixIsChain(p: Params, w: World, w': World, id: nat, chain: seq<Felt>, n: nat)
    requires IsChain(p, w, id, chain) && w'.vault == w.vault && n <= |chain| && ListsRequests(w', id, chain[..n])
    requires forall i :: 0 <= i < n ==> chain[i] in w'.entries && w'.entries[chain[i]] == w.entries[chain[i]]
    ensures IsChain(p, w', id, chain[..n])
    ensures Charges(w'.entries, chain[..n]) == Charges(w.entries, chain[..n])
  {
    hide Follows;
    assert chain[..n][..n] == chain[..n];
    PrefixStays(p, w, w', id, chain, chain[..n], n);
  }

  /** A new request that spends the tip goes to the end of its note's chain. */
  lemma {:induction false} ChainExtends(p: Params, w: World, w': World, id: nat, chain: seq<Felt>, x: Felt)
    requires IsChain(p, w, id, chain)
    requires x !in w.entries && x in w'.entries && w' == w.(entries := w.entries[x := w'.entries[x]])
    requires w'.entries[x].Accepted? && w'.entries[x].opening.noteId == id
    requires w'.entries[x].opening.balance + Charges(w.entries, chain) == NoteAt(w.vault, id).depositAmount
    requires w'.entries[x].opening.isGenesis <==> chain == []
    requires chain != [] ==> chain[|chain| - 1] in w'.entries && Follows(p, w', x, chain[|chain| - 1])
    ensures IsChain(p, w', id, chain + [x])
  {
    hide Follows, Linked, Balanced;
    ListsWithLast(w, w', id, chain, x);
    assert (chain + [x])[..|chain|] == chain == chain[..|chain|];
    PrefixStays(p, w, w', id, chain, chain + [x], |chain|);
    LinkedWithLast(p, w', chain, x);
    BalancedWithLast(w', id, chain, x);
  }

  lemma {:induction false} BalancedWithLast(w: World, id: nat, chain: seq<Felt>, x: Felt)
    requires forall y :: y in chain + [x] ==> y in w.entries && (w.entries[y].Accepted? || w.entries[y].Charged?)
    requires forall i :: 0 <= i < |chain| ==>
      chain[i] in w.entries && IsRequest(w.entries[chain[i]])
      && w.entries[chain[i]].opening.balance + Charges(w.entries, (chain + [x])[..i]) == NoteAt(w.vault, id).depositAmount
    requires x in w.entries && IsRequest(w.entries[x]) && w.entries[x].opening.balance + Charges(w.entries, chain) == NoteAt(w.vault, id).depositAmount
    ensures Balanced(w, id, chain + [x])
  {
    assert (chain + [x])[..|chain|] == chain;
  }

  lemma ListsWithLast(w: World, w': World, id: nat, chain: seq<Felt>, x: Felt)
    requires ListsRequests(w, id, chain) && x !in w.entries && x in w'.entries && w'.entries == w.entries[x := w'.entries[x]]
    requires IsRequest(w'.entries[x]) && w'.entries[x].opening.noteId == id
    ensures ListsRequests(w', id, chain + [x])
    ensures forall i :: 0 <= i < |chain| ==> chain[i] in w.entries && chain[i] in w'.entries && w'.entries[chain[i]] == w.entries[chain[i]]
  {
    forall i | 0 <= i < |chain| ensures chain[i] in w.entries && chain[i] != x {
      assert chain[i] in chain;
    }
  }

  lemma {:induction false} LinkedWithLast(p: Params, w: World, chain: seq<Felt>, x: Felt)
    requires forall y :: y in chain + [x] ==> y in w.entries && (w.entries[y].Accepted? || w.entries[y].Charged?)
    requires forall i :: 0 <= i < |chain| ==> chain[i] in w.entries && IsRequest(w.entries[chain[i]]) && (w.entries[chain[i]].opening.isGenesis <==> i == 0)
    requires forall i :: 0 < i < |chain| ==> Follows(p, w, (chain + [x])[i], (chain + [x])[i - 1])
    requires x in w.entries && IsRequest(w.entries[x]) && (w.entries[x].opening.isGenesis <==> chain == [])
    requires chain != [] ==> Follows(p, w, x, chain[|chain| - 1])
    ensures Linked(p, w, chain + [x])
  {
    hide Follows;
  }

  /** A request on a fresh nullifier extends the chain of its note and no other. */
  lemma ReserveKeepsChain(p: Params, w: World, inputs: RequestInputs, opening: RequestWitness, id: nat, chain: seq<Felt>)
    requires EntriesAreSound(p, w) && inputs.requestNullifier !in w.entries
    requires LeavesStayApart(p.repr, w.vault) && Allowed(p, w, Reserve(inputs, opening))
    requires opening.noteId in w.vault.notes && WitnessLeaf(opening) == DepositedLeaf(w.vault, opening.noteId)
    requires id in w.vault.notes && IsChain(p, w, id, chain)
    ensures IsChain(p, Apply(p, w, Reserve(inputs, opening)), id, if id == opening.noteId then chain + [inputs.requestNullifier] else chain)
  {
    hide RequestHolds, WitnessCommitment, NextCommitment, NextAnchorOf, Released, EntryIsSound;
    var w' := Apply(p, w, Reserve(inputs, opening));
    if id == opening.noteId {
      RequestSpendsTip(p, w, inputs, opening, chain);
      ChainExtends(p, w, w', id, chain, inputs.requestNullifier);
    } else {
      ChainStays(p, w, w', id, chain);
    }
  }

  // ---- A retry that takes an accepted nullifier again ----

  function Forget(w: World, x: Felt): World {
    w.(entries := w.entries - {x})
  }

  /** The chain without `x`, which can only have been its last. */
  function Without(chain: seq<Felt>, x: Felt): seq<Felt> {
    if chain != [] && chain[|chain| - 1] == x then chain[..|chain| - 1] else chain
  }

  /** A request that was accepted and not charged has no successor, so the chain does without it, charging the same. */
  lemma ForgetKeepsChain(p: Params, w: World, x: Felt, id: nat, chain: seq<Felt>)
    requires x in w.entries && w.entries[x].Accepted? && IsChain(p, w, id, chain)
    ensures IsChain(p, Forget(w, x), id, Without(chain, x))
    ensures Charges(Forget(w, x).entries, Without(chain, x)) == Charges(w.entries, chain)
  {
    hide Follows, Linked, Balanced, ListsRequests;
    var w', shorter := Forget(w, x), Without(chain, x);
    ListsWithout(p, w, id, chain, x);
    var n := |shorter|;
    assert chain[..n] == shorter && chain[..|chain|] == chain;
    PrefixIsChain(p, w, w', id, chain, n);
  }

  lemma ListsWithout(p: Params, w: World, id: nat, chain: seq<Felt>, x: Felt)
    requires x in w.entries && w.entries[x].Accepted? && IsChain(p, w, id, chain)
    ensures var shorter := Without(chain, x); var w' := Forget(w, x);
      && ListsRequests(w', id, shorter)
      && (forall i :: 0 <= i < |shorter| ==> chain[i] in w.entries && chain[i] in w'.entries && w'.entries[chain[i]] == w.entries[chain[i]])
  {
    hide Follows, Balanced, Linked;
    var w', shorter := Forget(w, x), Without(chain, x);
    AllButLastCharged(p, w, id, chain);
    forall y ensures y in shorter <==> y in chain && y != x {
      if y in chain && y != x {
        var k :| 0 <= k < |chain| && chain[k] == y;
        assert shorter[k] == y;
      }
    }
    forall i | 0 <= i < |shorter| ensures chain[i] in w.entries && chain[i] != x {
      assert shorter[i] in shorter;
    }
  }

  lemma ForgetGrows(p: Params, w: World, x: Felt)
    requires x in w.entries && w.entries[x].Accepted?
    ensures Grows(p, w, Forget(w, x))
  {
    ReleasedGrows(p.cfg, w.entries, Forget(w, x).entries);
  }

  lemma ForgetKeepsEntries(p: Params, w: World, x: Felt)
    requires EntriesAreSound(p, w) && x in w.entries && w.entries[x].Accepted?
    ensures EntriesAreSound(p, Forget(w, x)) && Grows(p, w, Forget(w, x))
  {
    hide RequestHolds, Released, EntryIsSound;
    ForgetGrows(p, w, x);
    forall y | y in Forget(w, x).entries ensures EntryIsSound(p, Forget(w, x), y) {
      EntryStaysSound(p, w, Forget(w, x), y);
    }
  }

  /** A retry that takes an accepted nullifier again is a fresh request once the first one is forgotten. */
  lemma RetakeIsFresh(p: Params, w: World, inputs: RequestInputs, opening: RequestWitness)
    requires EntriesAreSound(p, w) && Allowed(p, w, Reserve(inputs, opening)) && inputs.requestNullifier in w.entries
    ensures EntriesAreSound(p, Forget(w, inputs.requestNullifier)) && Grows(p, w, Forget(w, inputs.requestNullifier))
    ensures Allowed(p, Forget(w, inputs.requestNullifier), Reserve(inputs, opening))
    ensures Apply(p, Forget(w, inputs.requestNullifier), Reserve(inputs, opening)) == Apply(p, w, Reserve(inputs, opening))
  {
    hide RequestHolds, Released, EntryIsSound;
    var x := inputs.requestNullifier;
    ForgetKeepsEntries(p, w, x);
    RequestMonotone(p.cfg.depth, p.repr, Released(p.cfg, w.entries), Released(p.cfg, Forget(w, x).entries), inputs, opening);
    assert (w.entries - {x})[x := Accepted(inputs, opening)] == w.entries[x := Accepted(inputs, opening)];
  }

  lemma ReserveHasChain(p: Params, w: World, inputs: RequestInputs, opening: RequestWitness, id: nat)
    requires EntriesAreSound(p, w) && LeavesStayApart(p.repr, w.vault) && Allowed(p, w, Reserve(inputs, opening))
    requires opening.noteId in w.vault.notes && WitnessLeaf(opening) == DepositedLeaf(w.vault, opening.noteId)
    requires id in w.vault.notes && HasChain(p, w, id)
    ensures HasChain(p, Apply(p, w, Reserve(inputs, opening)), id)
  {
    hide RequestHolds, Released, EntryIsSound, IsChain, Apply, Allowed;
    var x := inputs.requestNullifier;
    var chain :| IsChain(p, w, id, chain);
    if x in w.entries {
      AcceptedAgain(p, w, inputs, opening);
      RetakeIsFresh(p, w, inputs, opening);
      ForgetKeepsChain(p, w, x, id, chain);
      ReserveKeepsChain(p, Forget(w, x), inputs, opening, id, Without(chain, x));
    } else {
      ReserveKeepsChain(p, w, inputs, opening, id, chain);
    }
  }

  lemma AcceptedAgain(p: Params, w: World, inputs: RequestInputs, opening: RequestWitness)
    requires Allowed(p, w, Reserve(inputs, opening)) && inputs.requestNullifier in w.entries
    ensures w.entries[inputs.requestNullifier].Accepted?
  {
  }

  /** A note that was just deposited has no requests yet. */
  lemma NewNoteHasChain(p: Params, w: World, w': World, id: nat)
    requires EntriesAreSound(p, w) && w'.entries == w.entries && id !in w.vault.notes
    ensures HasChain(p, w', id)
  {
    hide RequestHolds, Released;
    forall x | x in w'.entries && IsRequest(w'.entries[x]) ensures w'.entries[x].opening.noteId != id {
      assert EntryIsSound(p, w, x);
    }
    assert IsChain(p, w', id, []);
  }

  lemma ActionKeepsChains(p: Params, w: World, a: Action)
    requires EveryNoteHasChain(p, w) && EntriesAreSound(p, w) && RootsAreHistoric(p, w) && LeavesStayApart(p.repr, w.vault)
    requires Allowed(p, w, a) && NotesPersist(w.vault, Apply(p, w, a).vault)
    ensures EveryNoteHasChain(p, Apply(p, w, a))
  {
    hide Step, RequestHolds, WithdrawalHolds, Released, EntryIsSound, IsChain;
    var w' := Apply(p, w, a);
    forall id | id in w'.vault.notes ensures HasChain(p, w', id) {
      if id !in w.vault.notes {
        NewNoteHasChain(p, w, w', id);
      } else if a.Reserve? {
        RequestNamesNote(p, w, a.inputs, a.opening);
        ReserveHasChain(p, w, a.inputs, a.opening, id);
      } else {
        assert HasChain(p, w, id);
        var chain :| IsChain(p, w, id, chain);
        OtherActionsKeepChain(p, w, a, id, chain);
      }
    }
  }

  /** Every step keeps the invariant. */
  lemma ActionKeepsGood(p: Params, w: World, a: Action)
    requires Good(p, w) && LeavesStayApart(p.repr, w.vault) && Allowed(p, w, a)
    ensures Good(p, Apply(p, w, a)) && Grows(p, w, Apply(p, w, a))
  {
    hide RootIsTrue, NotesInOrder, PendingMatchesStatus, Solvent, RootsAreHistoric, ProofsAreSound, EntriesAreSound, EveryNoteHasChain, LeavesStayApart, Step;
    ActionGrows(p, w, a);
    ActionKeepsRoots(p, w, a);
    ActionKeepsProofs(p, w, a);
    ActionKeepsEntries(p, w, a);
    ActionKeepsChains(p, w, a);
    if a.VaultCall? && Step(p.cfg, w.vault, a.env, a.call).Done? {
      StepKeepsInv(p.cfg, w.vault, a.env, a.call);
    }
  }

  // ---- Whole runs ----

  function After(p: Params, w: World, actions: seq<Action>): World {
    if actions == [] then w
    else Apply(p, After(p, w, actions[..|actions| - 1]), actions[|actions| - 1])
  }

  ghost predicate LegalFrom(p: Params, w: World, actions: seq<Action>) {
    actions != [] ==>
      && LegalFrom(p, w, actions[..|actions| - 1])
      && Allowed(p, After(p, w, actions[..|actions| - 1]), actions[|actions| - 1])
  }

  function WorldAfter(p: Params, actions: seq<Action>): World { After(p, InitialWorld(p), actions) }

  ghost predicate Legal(p: Params, actions: seq<Action>) { LegalFrom(p, InitialWorld(p), actions) }

  lemma FewerLeavesApart(p: Params, s: VaultState, s': VaultState)
    requires NotesPersist(s, s') && LeavesStayApart(p.repr, s')
    ensures LeavesStayApart(p.repr, s)
  {
    forall i | i in s.notes ensures DepositedLeaf(s', i) == DepositedLeaf(s, i) {
      assert s'.notes[i].(status := s.notes[i].status) == s.notes[i];
    }
  }

  /** Leaves that are apart at the end of a run were apart one step before. */
  lemma ApartBefore(p: Params, w: World, actions: seq<Action>)
    requires Inv(p.cfg, w.vault) && LegalFrom(p, w, actions) && actions != [] && LeavesStayApart(p.repr, After(p, w, actions).vault)
    ensures LeavesStayApart(p.repr, After(p, w, actions[..|actions| - 1]).vault)
  {
    hide RootIsTrue, NotesInOrder, PendingMatchesStatus, Solvent, LeavesStayApart, Allowed, Apply, Released, NotesPersist;
    var mid, a := After(p, w, actions[..|actions| - 1]), actions[|actions| - 1];
    InvIsKept(p, w, actions[..|actions| - 1]);
    ActionGrows(p, mid, a);
    FewerLeavesApart(p, mid.vault, Apply(p, mid, a).vault);
  }

  lemma GrowsOn(p: Params, w: World, w1: World, w2: World)
    requires (w == w1 || Grows(p, w, w1)) && (w1 == w2 || Grows(p, w1, w2))
    ensures Grows(p, w, w2)
  {
    hide Released;
    forall id | id in w.vault.notes ensures id in w2.vault.notes && w2.vault.notes[id].(status := w.vault.notes[id].status) == w.vault.notes[id] {
      assert id in w1.vault.notes && w1.vault.notes[id].(status := w.vault.notes[id].status) == w.vault.notes[id];
    }
  }

  /** Runs keep the vault's own invariant and lose nothing, whatever the leaves. */
  lemma {:induction false} InvIsKept(p: Params, w: World, actions: seq<Action>)
    requires Inv(p.cfg, w.vault) && LegalFrom(p, w, actions)
    ensures Inv(p.cfg, After(p, w, actions).vault) && Grows(p, w, After(p, w, actions))
  {
    hide RootIsTrue, NotesInOrder, PendingMatchesStatus, Solvent, Allowed, Grows;
    if actions != [] {
      var before, a := actions[..|actions| - 1], actions[|actions| - 1];
      InvIsKept(p, w, before);
      var mid := After(p, w, before);
      if a.VaultCall? && Step(p.cfg, mid.vault, a.env, a.call).Done? {
        AllowedIsTyped(p, mid, a);
        StepKeepsInv(p.cfg, mid.vault, a.env, a.call);
      }
      ActionGrows(p, mid, a);
      GrowsOn(p, w, mid, Apply(p, mid, a));
    } else {
      GrowsOn(p, w, w, w);
    }
  }

  lemma AllowedIsTyped(p: Params, w: World, a: Action)
    requires Allowed(p, w, a) && a.VaultCall?
    ensures WellTyped(p.cfg, a.call)
  {
  }

  /** However clients, server and vault interleave, a good world stays good. */
  lemma {:induction false} GoodIsKept(p: Params, w: World, actions: seq<Action>)
    requires Good(p, w) && LegalFrom(p, w, actions) && LeavesStayApart(p.repr, After(p, w, actions).vault)
    ensures Good(p, After(p, w, actions))
  {
    hide Inv, RootsAreHistoric, ProofsAreSound, EntriesAreSound, EveryNoteHasChain, LeavesStayApart, Allowed, Apply;
    if actions != [] {
      ApartBefore(p, w, actions);
      GoodIsKept(p, w, actions[..|actions| - 1]);
      ActionKeepsGood(p, After(p, w, actions[..|actions| - 1]), actions[|actions| - 1]);
    }
  }

  lemma InitialIsGood(p: Params)
    ensures Good(p, InitialWorld(p))
  {
    assert WasRoot(p, InitialWorld(p).vault, InitialState(p.cfg).currentRoot, map[]);
  }

  /** Every reachable world is good. */
  lemma RunIsGood(p: Params, actions: seq<Action>)
    requires Legal(p, actions) && LeavesStayApart(p.repr, WorldAfter(p, actions).vault)
    ensures Good(p, WorldAfter(p, actions))
  {
    InitialIsGood(p);
    GoodIsKept(p, InitialWorld(p), actions);
  }
}
