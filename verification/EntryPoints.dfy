/** When exactly each entry point of the vault goes through, and what its clocks mean over runs.

    A path passes exactly when its residues are the siblings of the tree of Active notes, so the
    conditions here speak of that tree and not of the hashing that checks it. */
module EntryPoints {
  import opened Powers
  import opened Felts
  import opened Merkle
  import opened VaultSpec
  import opened VaultInvariant

  /** These words are the path of the note in the tree of Active notes, in any encoding. */
  ghost predicate IsTruePath(cfg: Config, s: VaultState, id: nat, siblings: seq<Word>) {
    Residues(siblings) == TrueSiblings(NODE_HASH, ActiveLeaves(s.notes), ZERO, cfg.depth, id)
  }

  lemma PathPassesIff(cfg: Config, s: VaultState, id: nat, oldLeaf: Felt, newLeaf: Felt, siblings: seq<Word>)
    requires RootIsTrue(cfg, s) && |siblings| == cfg.depth && id < Pow(2, cfg.depth) && oldLeaf == LeafAt(ActiveLeaves(s.notes), ZERO, id)
    ensures VerifyAndUpdate(s.currentRoot, id, oldLeaf, newLeaf, siblings).0 <==> IsTruePath(cfg, s, id, siblings)
  {
    hide VerifyAndUpdate;
    if VerifyAndUpdate(s.currentRoot, id, oldLeaf, newLeaf, siblings).0 {
      PathCheckIsSound(cfg, ActiveLeaves(s.notes), s.currentRoot, id, oldLeaf, newLeaf, siblings);
    }
    if IsTruePath(cfg, s, id, siblings) {
      TruePathPasses(cfg, ActiveLeaves(s.notes), id, newLeaf, siblings);
    }
  }

  // ---- When a call goes through ----

  /** Native coin arrives with the call, to the last wei; tokens are fetched, and no coin may come along. */
  predicate IsFunded(cfg: Config, env: Env, amount: nat, value: nat) {
    if cfg.weiPerUnit == 0 then value == 0 && env.transfersSucceed else amount <= MAX_NATIVE_UNITS && value == amount * cfg.weiPerUnit
  }

  /** The first midnight at or after a time. */
  predicate IsFirstMidnight(e: nat, time: nat) { e % 86400 == 0 && time <= e < time + 86400 }

  lemma DepositIff(cfg: Config, s: VaultState, env: Env, commitment: Word, amount: nat, siblings: seq<Word>, value: nat, expiry: nat)
    requires Inv(cfg, s) && |siblings| == cfg.depth && IsFirstMidnight(expiry, env.now + cfg.noteTtl)
    ensures Deposit(cfg, s, env, commitment, amount, siblings, value).Done? <==>
      && !s.paused && amount > 0 && IsFunded(cfg, env, amount, value)
      && commitment.wraps == 0 && commitment.residue != ZERO && expiry < U64
      && s.nextNoteId + 1 < Pow(2, cfg.depth) && IsTruePath(cfg, s, s.nextNoteId, siblings)
    ensures Deposit(cfg, s, env, commitment, amount, siblings, value).Done? ==>
      var s' := Deposit(cfg, s, env, commitment, amount, siblings, value).state;
      && s'.notes == s.notes[s.nextNoteId := Note(commitment.residue, amount, expiry, Active)] && s'.nextNoteId == s.nextNoteId + 1
      && s'.funds == s.funds + (if cfg.weiPerUnit == 0 then amount else value)
      && s'.pending == s.pending && s'.usedNullifiers == s.usedNullifiers && s'.payments == s.payments
  {
    hide RootIsTrue, VerifyAndUpdate, Solvent;
    MidnightIsUnique(expiry, BucketedExpiry(env.now + cfg.noteTtl), env.now + cfg.noteTtl);
    var note := Note(commitment.residue, amount, BucketedExpiry(env.now + cfg.noteTtl), Active);
    PathPassesIff(cfg, s, s.nextNoteId, ZERO, LeafOf(s.nextNoteId, note), siblings);
  }

  lemma MidnightIsUnique(e: nat, e': nat, time: nat)
    requires IsFirstMidnight(e, time) && IsFirstMidnight(e', time)
    ensures e == e'
  {
  }

  /** What mutual close and escape ask of a withdrawal alike. */
  ghost predicate IsCurrentWithdrawal(cfg: Config, s: VaultState, env: Env, inputs: WithdrawalInputs, siblings: seq<Word>) {
    && !s.paused && env.proofAccepted
    && inputs.deployment == cfg.deployment && inputs.stateKey == cfg.stateKey && inputs.clearanceKey == cfg.clearanceKey
    && inputs.activeRoot == Root(NODE_HASH, ActiveLeaves(s.notes), ZERO, cfg.depth)
    && inputs.noteId in s.notes && s.notes[inputs.noteId].status == Active
    && inputs.finalBalance <= s.notes[inputs.noteId].depositAmount
    && inputs.withdrawalNullifier !in s.usedNullifiers
    && IsTruePath(cfg, s, inputs.noteId, siblings)
  }

  lemma MutualCloseIff(cfg: Config, s: VaultState, env: Env, inputs: WithdrawalInputs, siblings: seq<Word>)
    requires Inv(cfg, s) && |siblings| == cfg.depth && inputs.noteId < Pow(2, cfg.depth)
    ensures MutualClose(cfg, s, env, inputs, siblings).Done? <==>
      IsCurrentWithdrawal(cfg, s, env, inputs, siblings) && inputs.hasClearance && env.transfersSucceed
    ensures MutualClose(cfg, s, env, inputs, siblings).Done? ==>
      var s' := MutualClose(cfg, s, env, inputs, siblings).state;
      && s'.notes == s.notes[inputs.noteId := s.notes[inputs.noteId].(status := Closed)] && s'.pending == s.pending
      && s'.usedNullifiers == s.usedNullifiers + {inputs.withdrawalNullifier}
  {
    hide VerifyAndUpdate, Payouts;
    if inputs.noteId in s.notes && s.notes[inputs.noteId].status == Active {
      OpenNotesAreCovered(cfg, s, inputs.noteId);
      PathPassesIff(cfg, s, inputs.noteId, LeafOf(inputs.noteId, s.notes[inputs.noteId]), ZERO, siblings);
    }
  }

  /** The escape's deadline is the block time and the whole challenge period. */
  lemma InitiateEscapeIff(cfg: Config, s: VaultState, env: Env, inputs: WithdrawalInputs, siblings: seq<Word>)
    requires Inv(cfg, s) && |siblings| == cfg.depth && inputs.noteId < Pow(2, cfg.depth) && env.now < U64
    ensures InitiateEscape(cfg, s, env, inputs, siblings).Done? <==>
      IsCurrentWithdrawal(cfg, s, env, inputs, siblings) && !inputs.hasClearance && env.now + cfg.challengePeriod < U64
    ensures InitiateEscape(cfg, s, env, inputs, siblings).Done? ==>
      var s' := InitiateEscape(cfg, s, env, inputs, siblings).state;
      && s'.notes == s.notes[inputs.noteId := s.notes[inputs.noteId].(status := PendingWithdrawal)]
      && s'.usedNullifiers == s.usedNullifiers + {inputs.withdrawalNullifier} && s'.funds == s.funds && s'.payments == s.payments
      && inputs.noteId in s'.pending && s'.pending - {inputs.noteId} == s.pending - {inputs.noteId}
      && s'.pending[inputs.noteId].challengeDeadline == env.now + cfg.challengePeriod
      && s'.pending[inputs.noteId].withdrawalNullifier == inputs.withdrawalNullifier
      && s'.pending[inputs.noteId].finalBalance == inputs.finalBalance && s'.pending[inputs.noteId].destination == inputs.destination
      && s'.pending[inputs.noteId].activeRoot == inputs.activeRoot
  {
    hide VerifyAndUpdate, Payouts;
    if inputs.noteId in s.notes && s.notes[inputs.noteId].status == Active {
      PathPassesIff(cfg, s, inputs.noteId, LeafOf(inputs.noteId, s.notes[inputs.noteId]), ZERO, siblings);
    }
  }

  lemma FinalizeEscapeIff(cfg: Config, s: VaultState, env: Env, id: nat)
    requires Inv(cfg, s)
    ensures FinalizeEscape(cfg, s, env, id).Done? <==> id in s.pending && env.now >= s.pending[id].challengeDeadline && env.transfersSucceed
    ensures FinalizeEscape(cfg, s, env, id).Done? ==>
      var s' := FinalizeEscape(cfg, s, env, id).state;
      s'.notes == s.notes[id := s.notes[id].(status := Closed)] && s'.pending == s.pending - {id} && s'.currentRoot == s.currentRoot
  {
    hide RootIsTrue, Payouts;
    if id in s.pending {
      OpenNotesAreCovered(cfg, s, id);
    }
  }

  lemma ClaimExpiredIff(cfg: Config, s: VaultState, env: Env, id: nat, siblings: seq<Word>)
    requires Inv(cfg, s) && |siblings| == cfg.depth && id < Pow(2, cfg.depth)
    ensures ClaimExpired(cfg, s, env, id, siblings).Done? <==>
      id in s.notes && s.notes[id].status == Active && env.now >= s.notes[id].expiryTs && IsTruePath(cfg, s, id, siblings) && env.transfersSucceed
    ensures ClaimExpired(cfg, s, env, id, siblings).Done? ==>
      var s' := ClaimExpired(cfg, s, env, id, siblings).state;
      s'.notes == s.notes[id := s.notes[id].(status := Closed)] && s'.pending == s.pending && s'.usedNullifiers == s.usedNullifiers
  {
    hide VerifyAndUpdate;
    if id in s.notes && s.notes[id].status == Active {
      OpenNotesAreCovered(cfg, s, id);
      PathPassesIff(cfg, s, id, LeafOf(id, s.notes[id]), ZERO, siblings);
    }
  }

  /** The log tells the truth about roots, balances, nullifiers and deadlines. */
  lemma EventsAnnounce(cfg: Config, s: VaultState, env: Env, call: Call)
    requires Step(cfg, s, env, call).Done?
    ensures var Done(s', event) := Step(cfg, s, env, call);
      match event
      case NoteDeposited(_, _, _, _, newRoot) => newRoot == s'.currentRoot
      case MutualClosed(id, x, balance) => x in s'.usedNullifiers && x !in s.usedNullifiers && call.CallMutualClose? && balance == call.withdrawal.finalBalance
      case EscapeInitiated(id, x, balance, deadline, newRoot) =>
        && newRoot == s'.currentRoot && id in s'.pending
        && s'.pending[id].withdrawalNullifier == x && s'.pending[id].finalBalance == balance && s'.pending[id].challengeDeadline == deadline
      case EscapeChallenged(id, x, restoredRoot) => restoredRoot == s'.currentRoot && id in s.pending && s.pending[id].withdrawalNullifier == x
      case EscapeFinalized(id, x, balance) => id in s.pending && s.pending[id].withdrawalNullifier == x && s.pending[id].finalBalance == balance
      case ExpiredClaimed(id, amount, newRoot) => newRoot == s'.currentRoot && NoteAt(s, id).depositAmount == amount
  {
    hide VerifyAndUpdate, Payouts;
  }

  // ---- The window of an escape ----

  lemma {:induction false} RunFromKeepsInv(cfg: Config, s: VaultState, txs: seq<Tx>)
    requires Inv(cfg, s) && TypedRun(cfg, txs)
    ensures Inv(cfg, Run(cfg, s, txs).0)
  {
    hide Inv, Step;
    if txs != [] {
      RunFromKeepsInv(cfg, s, txs[..|txs| - 1]);
      var mid, last := Run(cfg, s, txs[..|txs| - 1]).0, txs[|txs| - 1];
      if Step(cfg, mid, last.env, last.call).Done? {
        StepKeepsInv(cfg, mid, last.env, last.call);
      }
    }
  }

  predicate IsPendingUnder(s: VaultState, id: nat, nullifier: Felt) {
    id in s.pending && s.pending[id].withdrawalNullifier == nullifier
  }

  lemma StepKeepsEntry(cfg: Config, s: VaultState, env: Env, call: Call, id: nat, x: Felt)
    requires x in s.usedNullifiers && Step(cfg, s, env, call).Done?
    ensures var s' := Step(cfg, s, env, call).state;
      x in s'.usedNullifiers && (IsPendingUnder(s', id, x) ==> IsPendingUnder(s, id, x) && s'.pending[id] == s.pending[id])
  {
    hide VerifyAndUpdate, Payouts;
  }

  /** A nullifier opens no second escape, so whatever is pending under it later is the entry of now. */
  lemma {:induction false} EntryStays(cfg: Config, s: VaultState, txs: seq<Tx>, id: nat, x: Felt)
    requires IsPendingUnder(s, id, x) && x in s.usedNullifiers
    ensures var s' := Run(cfg, s, txs).0; x in s'.usedNullifiers && (IsPendingUnder(s', id, x) ==> s'.pending[id] == s.pending[id])
  {
    hide Step;
    if txs != [] {
      EntryStays(cfg, s, txs[..|txs| - 1], id, x);
      var mid, last := Run(cfg, s, txs[..|txs| - 1]).0, txs[|txs| - 1];
      if Step(cfg, mid, last.env, last.call).Done? {
        StepKeepsEntry(cfg, mid, last.env, last.call, id, x);
      }
    }
  }

  lemma PendingClock(cfg: Config, s: VaultState, env: Env, id: nat, request: RequestInputs, path: seq<Word>)
    requires Inv(cfg, s) && id in s.pending
    ensures FinalizeEscape(cfg, s, env, id) == Revert(ChallengeNotExpired) <==> env.now < s.pending[id].challengeDeadline
    ensures FinalizeEscape(cfg, s, env, id).Done? <==> env.now >= s.pending[id].challengeDeadline && env.transfersSucceed
    ensures ChallengeEscape(cfg, s, env, id, request, path) == Revert(ChallengeExpired) <==> env.now >= s.pending[id].challengeDeadline
  {
    hide VerifyAndUpdate, Payouts, RootIsTrue, Solvent;
    FinalizeEscapeIff(cfg, s, env, id);
  }

  /** An escape opened at a time can be challenged throughout the whole challenge period from then and not after it, and
      finalized after it and not before, whatever else is called as long as it stays pending. */
  lemma EscapeWindow(cfg: Config, s: VaultState, env: Env, inputs: WithdrawalInputs, siblings: seq<Word>, txs: seq<Tx>,
                     env': Env, request: RequestInputs, path: seq<Word>)
    requires Inv(cfg, s) && TypedRun(cfg, txs) && WellTyped(cfg, CallInitiateEscape(inputs, siblings)) && env.now < U64
    requires InitiateEscape(cfg, s, env, inputs, siblings).Done?
    requires IsPendingUnder(Run(cfg, InitiateEscape(cfg, s, env, inputs, siblings).state, txs).0, inputs.noteId, inputs.withdrawalNullifier)
    ensures var s' := Run(cfg, InitiateEscape(cfg, s, env, inputs, siblings).state, txs).0; var id := inputs.noteId;
      && (FinalizeEscape(cfg, s', env', id) == Revert(ChallengeNotExpired) <==> env'.now < env.now + cfg.challengePeriod)
      && (FinalizeEscape(cfg, s', env', id).Done? <==> env'.now >= env.now + cfg.challengePeriod && env'.transfersSucceed)
      && (ChallengeEscape(cfg, s', env', id, request, path) == Revert(ChallengeExpired) <==> env'.now >= env.now + cfg.challengePeriod)
  {
    hide VerifyAndUpdate, Inv, Run, FinalizeEscape, ChallengeEscape, InitiateEscape, IsCurrentWithdrawal;
    var call, begun := CallInitiateEscape(inputs, siblings), InitiateEscape(cfg, s, env, inputs, siblings).state;
    assert Step(cfg, s, env, call) == InitiateEscape(cfg, s, env, inputs, siblings);
    StepKeepsInv(cfg, s, env, call);
    InitiateEscapeIff(cfg, s, env, inputs, siblings);
    RunFromKeepsInv(cfg, begun, txs);
    EntryStays(cfg, begun, txs, inputs.noteId, inputs.withdrawalNullifier);
    PendingClock(cfg, Run(cfg, begun, txs).0, env', inputs.noteId, request, path);
  }

  /** So a vault that was deployed leaves every escape a window that is not empty, and exactly as long as its constructor was told. */
  lemma EscapeLeavesWindow(a: Deployer, depth: nat, deployment: Deployment, s: VaultState, env: Env, inputs: WithdrawalInputs, siblings: seq<Word>, txs: seq<Tx>,
                           env': Env, request: RequestInputs, path: seq<Word>)
    requires RefusedDeployment(a).None? && env.now < U64
    requires Inv(DeployedConfig(a, depth, deployment), s) && TypedRun(DeployedConfig(a, depth, deployment), txs)
    requires WellTyped(DeployedConfig(a, depth, deployment), CallInitiateEscape(inputs, siblings))
    requires InitiateEscape(DeployedConfig(a, depth, deployment), s, env, inputs, siblings).Done?
    requires var cfg := DeployedConfig(a, depth, deployment);
      IsPendingUnder(Run(cfg, InitiateEscape(cfg, s, env, inputs, siblings).state, txs).0, inputs.noteId, inputs.withdrawalNullifier)
    ensures var cfg := DeployedConfig(a, depth, deployment);
      var s' := Run(cfg, InitiateEscape(cfg, s, env, inputs, siblings).state, txs).0;
      && env.now < env.now + a.challengePeriod
      && (env'.now < env.now + a.challengePeriod ==>
            && FinalizeEscape(cfg, s', env', inputs.noteId) == Revert(ChallengeNotExpired)
            && ChallengeEscape(cfg, s', env', inputs.noteId, request, path) != Revert(ChallengeExpired))
      && (env'.now >= env.now + a.challengePeriod ==>
            && FinalizeEscape(cfg, s', env', inputs.noteId) != Revert(ChallengeNotExpired)
            && ChallengeEscape(cfg, s', env', inputs.noteId, request, path) == Revert(ChallengeExpired))
  {
    hide InitiateEscape, FinalizeEscape, ChallengeEscape, Run, Inv, WellTyped, TypedRun, IsPendingUnder;
    EscapeWindow(DeployedConfig(a, depth, deployment), s, env, inputs, siblings, txs, env', request, path);
  }

  lemma OpeningEscape(cfg: Config, s: VaultState, env: Env, inputs: WithdrawalInputs, siblings: seq<Word>)
    requires Inv(cfg, s) && WellTyped(cfg, CallInitiateEscape(inputs, siblings)) && InitiateEscape(cfg, s, env, inputs, siblings).Done?
    ensures var s' := InitiateEscape(cfg, s, env, inputs, siblings).state;
      && Inv(cfg, s') && IsPendingUnder(s', inputs.noteId, inputs.withdrawalNullifier) && inputs.withdrawalNullifier in s'.usedNullifiers
      && s'.pending[inputs.noteId].finalBalance == inputs.finalBalance && s'.pending[inputs.noteId].destination == inputs.destination
      && inputs.noteId in s'.notes && s'.notes[inputs.noteId].depositAmount == NoteAt(s, inputs.noteId).depositAmount
  {
    hide VerifyAndUpdate, Inv;
    assert Step(cfg, s, env, CallInitiateEscape(inputs, siblings)) == InitiateEscape(cfg, s, env, inputs, siblings);
    StepKeepsInv(cfg, s, env, CallInitiateEscape(inputs, siblings));
  }

  /** Whatever is called in between, the finalization of an escape pays its destination its balance, the treasury the rest
      of the deposit, and over the whole log nobody anything else for the note. */
  lemma EscapePays(cfg: Config, s: VaultState, env: Env, inputs: WithdrawalInputs, siblings: seq<Word>, txs: seq<Tx>, env': Env)
    requires Inv(cfg, s) && TypedRun(cfg, txs) && WellTyped(cfg, CallInitiateEscape(inputs, siblings))
    requires InitiateEscape(cfg, s, env, inputs, siblings).Done?
    requires var later := Run(cfg, InitiateEscape(cfg, s, env, inputs, siblings).state, txs).0;
      IsPendingUnder(later, inputs.noteId, inputs.withdrawalNullifier) && FinalizeEscape(cfg, later, env', inputs.noteId).Done?
    ensures var later := Run(cfg, InitiateEscape(cfg, s, env, inputs, siblings).state, txs).0;
      var log := FinalizeEscape(cfg, later, env', inputs.noteId).state.payments;
      && PaidTo(log, inputs.noteId, User(inputs.destination)) == inputs.finalBalance
      && PaidTo(log, inputs.noteId, Treasury) + inputs.finalBalance == NoteAt(s, inputs.noteId).depositAmount
      && (forall payee :: payee != User(inputs.destination) && payee != Treasury ==> PaidTo(log, inputs.noteId, payee) == 0)
  {
    hide InitiateEscape, FinalizeEscape, Run, RootIsTrue, PaidTo;
    OpeningEscape(cfg, s, env, inputs, siblings);
    var begun := InitiateEscape(cfg, s, env, inputs, siblings).state;
    var later := Run(cfg, begun, txs).0;
    RunFromKeepsInv(cfg, begun, txs);
    EntryStays(cfg, begun, txs, inputs.noteId, inputs.withdrawalNullifier);
    NoteStays(cfg, begun, txs, inputs.noteId);
    FinalizePays(cfg, later, env', inputs.noteId);
    OpenNoteIsUnpaid(cfg, later, inputs.noteId);
  }

  // ---- The expiry of a note, and what it brought in ----

  lemma {:induction false} NoteStays(cfg: Config, s: VaultState, txs: seq<Tx>, id: nat)
    requires Inv(cfg, s) && TypedRun(cfg, txs) && id in s.notes
    ensures var s' := Run(cfg, s, txs).0; id in s'.notes && s'.notes[id].(status := s.notes[id].status) == s.notes[id]
  {
    hide Inv, Step;
    if txs != [] {
      RunFromKeepsInv(cfg, s, txs[..|txs| - 1]);
      NoteStays(cfg, s, txs[..|txs| - 1], id);
      var mid, last := Run(cfg, s, txs[..|txs| - 1]).0, txs[|txs| - 1];
      if Step(cfg, mid, last.env, last.call).Done? {
        InvIsOrdered(cfg, mid);
        StepKeepsNotes(cfg, mid, last.env, last.call);
      }
    }
  }

  lemma InvIsOrdered(cfg: Config, s: VaultState)
    requires Inv(cfg, s)
    ensures NotesInOrder(cfg, s)
  {
  }

  /** The last midnight before a time, or that time. */
  function LastMidnight(time: nat): nat { time - time % 86400 }

  lemma MidnightsMeet(e: nat, time: nat, now: nat)
    requires IsFirstMidnight(e, time)
    ensures now >= e <==> LastMidnight(now) >= time
  {
  }

  /** A note that nobody closed can be claimed for the treasury exactly from the first midnight on that its time to live
      has passed since the deposit, whatever else was called in between. */
  lemma ExpiryWindow(cfg: Config, s: VaultState, env: Env, commitment: Word, amount: nat, siblings: seq<Word>, value: nat, txs: seq<Tx>, env': Env, path: seq<Word>)
    requires Inv(cfg, s) && TypedRun(cfg, txs) && WellTyped(cfg, CallDeposit(commitment, amount, siblings, value)) && |path| == cfg.depth
    requires Deposit(cfg, s, env, commitment, amount, siblings, value).Done?
    ensures var s' := Run(cfg, Deposit(cfg, s, env, commitment, amount, siblings, value).state, txs).0; var id := s.nextNoteId;
      ClaimExpired(cfg, s', env', id, path).Done? <==>
        NoteAt(s', id).status == Active && LastMidnight(env'.now) >= env.now + cfg.noteTtl && IsTruePath(cfg, s', id, path) && env'.transfersSucceed
  {
    var call, entered := CallDeposit(commitment, amount, siblings, value), Deposit(cfg, s, env, commitment, amount, siblings, value).state;
    var e := BucketedExpiry(env.now + cfg.noteTtl);
    assert Step(cfg, s, env, call) == Deposit(cfg, s, env, commitment, amount, siblings, value);
    StepKeepsInv(cfg, s, env, call);
    DepositIff(cfg, s, env, commitment, amount, siblings, value, e);
    hide Deposit, RootIsTrue, Solvent, IsTruePath, ClaimExpired, Run, BucketedExpiry;
    NoteStays(cfg, entered, txs, s.nextNoteId);
    RunFromKeepsInv(cfg, entered, txs);
    ClaimExpiredIff(cfg, Run(cfg, entered, txs).0, env', s.nextNoteId, path);
    MidnightsMeet(e, env.now + cfg.noteTtl, env'.now);
  }

  /** What a note brought in is what leaves with it: in coin the very value of the deposit call, in tokens the amount. */
  lemma ClosingReturnsDeposit(cfg: Config, s: VaultState, env: Env, commitment: Word, amount: nat, siblings: seq<Word>, value: nat, txs: seq<Tx>, env': Env, call: Call)
    requires Inv(cfg, s) && TypedRun(cfg, txs) && WellTyped(cfg, CallDeposit(commitment, amount, siblings, value)) && WellTyped(cfg, call)
    requires Deposit(cfg, s, env, commitment, amount, siblings, value).Done?
    requires var s' := Run(cfg, Deposit(cfg, s, env, commitment, amount, siblings, value).state, txs).0;
      && Step(cfg, s', env', call).Done? && Step(cfg, s', env', call).event.noteId == s.nextNoteId
      && NoteAt(Step(cfg, s', env', call).state, s.nextNoteId).status == Closed
    ensures var s' := Run(cfg, Deposit(cfg, s, env, commitment, amount, siblings, value).state, txs).0;
      s'.funds - Step(cfg, s', env', call).state.funds == if cfg.weiPerUnit == 0 then amount else value
  {
    var first, entered := CallDeposit(commitment, amount, siblings, value), Deposit(cfg, s, env, commitment, amount, siblings, value).state;
    assert Step(cfg, s, env, first) == Deposit(cfg, s, env, commitment, amount, siblings, value);
    StepKeepsInv(cfg, s, env, first);
    DepositIff(cfg, s, env, commitment, amount, siblings, value, BucketedExpiry(env.now + cfg.noteTtl));
    hide Deposit, RootIsTrue, Solvent, IsTruePath, Run, BucketedExpiry, Step;
    NoteStays(cfg, entered, txs, s.nextNoteId);
    RunFromKeepsInv(cfg, entered, txs);
    ClosingTakes(cfg, Run(cfg, entered, txs).0, env', call);
  }

  lemma ClosingTakes(cfg: Config, s: VaultState, env: Env, call: Call)
    requires Inv(cfg, s) && Step(cfg, s, env, call).Done?
    requires NoteAt(Step(cfg, s, env, call).state, Step(cfg, s, env, call).event.noteId).status == Closed
    ensures var id := Step(cfg, s, env, call).event.noteId;
      s.funds - Step(cfg, s, env, call).state.funds == NoteAt(s, id).depositAmount * (if cfg.weiPerUnit == 0 then 1 else cfg.weiPerUnit)
  {
    hide VerifyAndUpdate, Payouts, RootIsTrue, Solvent;
  }
}
