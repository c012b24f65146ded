/** What the state chain means for the money: no forks, exact balances, and what each way
    of closing a note pays in every reachable world. */
module Settlement {
  import opened Powers
  import opened Felts
  import opened Merkle
  import opened VaultSpec
  import opened VaultInvariant
  import opened Pedersen
  import opened Circuits
  import opened Protocol

  // ---- The chain of a note ----

  lemma SpenderOnSameNote(p: Params, w: World, x: Felt, y: Felt)
    requires EntriesAreSound(p, w) && LeavesStayApart(p.repr, w.vault)
    requires x in w.entries && y in w.entries && IsRequest(w.entries[x]) && Follows(p, w, x, y)
    ensures w.entries[x].opening.noteId == w.entries[y].opening.noteId
    ensures NoteAt(w.vault, w.entries[x].opening.noteId).commitment == Registration(w.entries[x].opening.secret)
    ensures EntryIsSound(p, w, x)
  {
    hide Commit, NextCommitment;
    assert EntryIsSound(p, w, x) && EntryIsSound(p, w, y);
    var o := w.entries[x].opening;
    SignedStateBinds(p, w, y, o.noteId, o.balance, o.blinding);
  }

  /** Two accepted requests never spend the same signed state. */
  lemma NoForks(p: Params, w: World, x1: Felt, x2: Felt, y: Felt)
    requires EntriesAreSound(p, w) && LeavesStayApart(p.repr, w.vault)
    requires x1 in w.entries && x2 in w.entries && y in w.entries && IsRequest(w.entries[x1]) && IsRequest(w.entries[x2])
    requires Follows(p, w, x1, y) && Follows(p, w, x2, y)
    ensures x1 == x2
  {
    hide EntryIsSound, RequestHolds, NextCommitment, WitnessCommitment;
    SpenderOnSameNote(p, w, x1, y);
    SpenderOnSameNote(p, w, x2, y);
    SameNoteSameSecret(p, w, x1, w.entries[y].opening.noteId, w.entries[x2].opening.secret);
    SameNoteSameSecret(p, w, x2, w.entries[y].opening.noteId, w.entries[x2].opening.secret);
  }

  /** A request of the note stands where its predecessor stands, one further: the predecessor is named by the anchor. */
  lemma PlaceIsForced(p: Params, w: World, id: nat, a: seq<Felt>, b: seq<Felt>, n: nat, j: nat)
    requires EntriesAreSound(p, w) && IsChain(p, w, id, a) && IsChain(p, w, id, b)
    requires n < |a| && n < |b| && a[..n] == b[..n]
    requires j < |a| && a[j] == b[n]
    ensures j == n
  {
    hide NextCommitment, WitnessCommitment, RequestHolds;
    assert a[j] in a && b[n] in b;
    if n > 0 {
      assert a[n - 1] == a[..n][n - 1] == b[..n][n - 1] == b[n - 1];
      assert j > 0 && a[j - 1] in a && b[n - 1] in b;
      assert Follows(p, w, a[j], a[j - 1]) && Follows(p, w, b[n], b[n - 1]);
      assert EntryIsSound(p, w, a[j - 1]) && EntryIsSound(p, w, b[n - 1]);
    }
  }

  lemma {:induction false} SamePrefix(p: Params, w: World, id: nat, a: seq<Felt>, b: seq<Felt>, n: nat)
    requires EntriesAreSound(p, w) && IsChain(p, w, id, a) && IsChain(p, w, id, b)
    requires n <= |a| && n <= |b|
    ensures a[..n] == b[..n]
    decreases n
  {
    hide EntriesAreSound, Linked, Balanced;
    if n > 0 {
      SamePrefix(p, w, id, a, b, n - 1);
      assert b[n - 1] in b && b[n - 1] in a;
      var j :| 0 <= j < |a| && a[j] == b[n - 1];
      PlaceIsForced(p, w, id, a, b, n - 1, j);
      assert a[..n] == a[..n - 1] + [a[n - 1]] && b[..n] == b[..n - 1] + [b[n - 1]];
    }
  }

  /** The accepted requests of a note can be ordered in one way only. */
  lemma ChainIsUnique(p: Params, w: World, id: nat, a: seq<Felt>, b: seq<Felt>)
    requires EntriesAreSound(p, w) && IsChain(p, w, id, a) && IsChain(p, w, id, b)
    ensures a == b
  {
    hide EntriesAreSound, Linked, Balanced;
    var n := if |a| <= |b| then |a| else |b|;
    SamePrefix(p, w, id, a, b, n);
    assert a[..|a|] == a && b[..|b|] == b;
    if |a| < |b| {
      NoMoreElements(a, b);
    } else if |b| < |a| {
      NoMoreElements(b, a);
    }
  }

  lemma NoMoreElements(a: seq<Felt>, b: seq<Felt>)
    requires |a| < |b| && b[..|a|] == a && b[|a|] in a
    ensures exists i, k :: 0 <= i < k < |b| && b[i] == b[k]
  {
    var i :| 0 <= i < |a| && a[i] == b[|a|];
    assert b[..|a|][i] == b[i];
  }

  /** Every commitment the server signed opens, for the owner, to the deposit less all charges up to it:
      never negative and never wrapped. */
  lemma SignedCommitmentOpens(p: Params, w: World, id: nat, chain: seq<Felt>, k: nat) returns (blinding: nat)
    requires EntriesAreSound(p, w) && IsChain(p, w, id, chain)
    requires k < |chain| && w.entries[chain[k]].Charged?
    ensures Charges(w.entries, chain[..k + 1]) <= NoteAt(w.vault, id).depositAmount
    ensures NextCommitment(w.entries[chain[k]])
         == Commit(NoteAt(w.vault, id).depositAmount - Charges(w.entries, chain[..k + 1]), blinding, p.repr(DepositedLeaf(w.vault, id)))
  {
    hide Commit, RequestHolds, NextCommitment, Linked;
    var x := chain[k];
    assert x in chain && EntryIsSound(p, w, x) && WitnessLeaf(w.entries[x].opening) == DepositedLeaf(w.vault, id);
    NextCommitmentOpens(p, w, x);
    assert chain[..k + 1][..k] == chain[..k];
    var left := NoteAt(w.vault, id).depositAmount - Charges(w.entries, chain[..k + 1]);
    assert left == w.entries[x].opening.balance - w.entries[x].charge;
    blinding := AddBlindings(AddBlindings(w.entries[x].opening.blinding, w.entries[x].opening.rerandomization), w.entries[x].blindDelta);
  }

  // ---- Withdrawals ----

  /** The statement a withdrawal proved, about the note it names. */
  ghost predicate Backs(p: Params, w: World, inputs: WithdrawalInputs, o: WithdrawalWitness) {
    && inputs in w.withdrawals
    && inputs.deployment == p.cfg.deployment && inputs.stateKey == p.cfg.stateKey && inputs.clearanceKey == p.cfg.clearanceKey
    && WithdrawalHolds(p.cfg.depth, p.repr, Released(p.cfg, w.entries), inputs, o)
    && inputs.noteId in w.vault.notes
    && NoteLeaf(inputs.noteId, o.secret, o.depositAmount, o.expiry) == DepositedLeaf(w.vault, inputs.noteId)
  }

  lemma BacksStays(p: Params, w: World, w': World, inputs: WithdrawalInputs, o: WithdrawalWitness)
    requires Backs(p, w, inputs, o) && Grows(p, w, w')
    ensures Backs(p, w', inputs, o)
  {
    hide WithdrawalHolds, Released;
    var id := inputs.noteId;
    assert w'.vault.notes[id].(status := w.vault.notes[id].status) == w.vault.notes[id];
    WithdrawalMonotone(p.cfg.depth, p.repr, Released(p.cfg, w.entries), Released(p.cfg, w'.entries), inputs, o);
  }

  /** A withdrawal on a state that no accepted request spent asks for the deposit less all charges. */
  lemma UnspentWithdrawalIsExact(p: Params, w: World, inputs: WithdrawalInputs, o: WithdrawalWitness, chain: seq<Felt>)
    requires EntriesAreSound(p, w) && LeavesStayApart(p.repr, w.vault)
    requires Backs(p, w, inputs, o) && !SpentByRequest(w, inputs.withdrawalNullifier)
    requires IsChain(p, w, inputs.noteId, chain)
    ensures AllCharged(w, chain)
    ensures inputs.finalBalance + Charges(w.entries, chain) == NoteAt(w.vault, inputs.noteId).depositAmount
    ensures o.anchor == TipAnchor(w, chain)
  {
    hide EntriesAreSound, Linked, Balanced, ListsRequests, Commit, PathRoot, NextCommitment;
    UnspentIsTip(p, w, inputs.noteId, chain, o.secret, inputs.finalBalance, o.blinding, o.anchor, o.isGenesis);
  }

  /** The anchor of the state at the end of a chain. */
  function TipAnchor(w: World, chain: seq<Felt>): Felt
    requires AllCharged(w, chain)
  {
    if chain == [] then GENESIS_ANCHOR
    else
      assert chain[|chain| - 1] in chain;
      NextAnchorOf(w.entries[chain[|chain| - 1]])
  }

  predicate IsCharged(w: World, x: Felt) { x in w.entries && w.entries[x].Charged? }

  /** So does one on a state whose request was accepted but never charged. */
  lemma UnchargedWithdrawalIsExact(p: Params, w: World, inputs: WithdrawalInputs, o: WithdrawalWitness, chain: seq<Felt>)
    requires EntriesAreSound(p, w) && LeavesStayApart(p.repr, w.vault)
    requires Backs(p, w, inputs, o) && !IsCharged(w, inputs.withdrawalNullifier)
    requires IsChain(p, w, inputs.noteId, chain)
    ensures inputs.finalBalance + Charges(w.entries, chain) == NoteAt(w.vault, inputs.noteId).depositAmount
  {
    hide EntriesAreSound, IsChain, Backs;
    var x := inputs.withdrawalNullifier;
    if SpentByRequest(w, x) {
      ForgetKeepsEntries(p, w, x);
      BacksStays(p, w, Forget(w, x), inputs, o);
      ForgetKeepsChain(p, w, x, inputs.noteId, chain);
      UnspentWithdrawalIsExact(p, Forget(w, x), inputs, o, Without(chain, x));
    } else {
      UnspentWithdrawalIsExact(p, w, inputs, o, chain);
    }
  }

  /** The proof of a withdrawal the vault let through is about the note it closes. */
  lemma AcceptedWithdrawalIsBacked(p: Params, w: World, inputs: WithdrawalInputs) returns (o: WithdrawalWitness)
    requires RootIsTrue(p.cfg, w.vault) && ProofsAreSound(p, w) && inputs in w.withdrawals
    requires BoundToVault(p.cfg, inputs) && inputs.activeRoot == w.vault.currentRoot
    ensures Backs(p, w, inputs, o)
  {
    hide Commit, Released;
    assert WithdrawalProofExists(p.cfg.depth, p.repr, Released(p.cfg, w.entries), inputs);
    o :| WithdrawalHolds(p.cfg.depth, p.repr, Released(p.cfg, w.entries), inputs, o);
    assert WasRoot(p, w.vault, w.vault.currentRoot, ActiveLeaves(w.vault.notes));
    MembershipNamesNote(p, w.vault, w.vault.currentRoot, ActiveLeaves(w.vault.notes), inputs.noteId, o.secret, o.depositAmount, o.expiry, o.siblings);
  }

  /** A released clearance means that no request has the nullifier. */
  lemma ClearanceExcludesRequests(p: Params, w: World, inputs: WithdrawalInputs, o: WithdrawalWitness)
    requires Backs(p, w, inputs, o) && inputs.hasClearance
    ensures inputs.withdrawalNullifier in w.entries && w.entries[inputs.withdrawalNullifier].Barred?
  {
    hide Commit, PathRoot, NextCommitment, NextAnchorOf;
    var m := (p.cfg.clearanceKey, ClearanceMessage(p.cfg.deployment, inputs.withdrawalNullifier));
    assert m in Released(p.cfg, w.entries);
    assert forall x :: x in w.entries && w.entries[x].Charged? ==> SignedState(p.cfg, w.entries[x]) != m;
  }

  lemma MutualCloseChecked(cfg: Config, s: VaultState, env: Env, inputs: WithdrawalInputs, siblings: seq<Word>)
    requires MutualClose(cfg, s, env, inputs, siblings).Done?
    ensures BoundToVault(cfg, inputs) && inputs.hasClearance && inputs.activeRoot == s.currentRoot && env.proofAccepted
    ensures inputs.finalBalance <= NoteAt(s, inputs.noteId).depositAmount
    ensures NoteAt(s, inputs.noteId).status == Active
    ensures PaysOut(s.payments, MutualClose(cfg, s, env, inputs, siblings).state.payments, inputs.noteId, inputs.destination, inputs.finalBalance,
                    NoteAt(s, inputs.noteId).depositAmount - inputs.finalBalance)
  {
    hide PaysOut, Payouts;
    PayoutsPay(s.payments, inputs.noteId, inputs.destination, inputs.finalBalance, NoteAt(s, inputs.noteId).depositAmount - inputs.finalBalance);
  }

  /** A mutual close pays the owner exactly the deposit less everything charged on the note, and the operator the rest. */
  lemma MutualClosePaysExactly(p: Params, w: World, env: Env, inputs: WithdrawalInputs, siblings: seq<Word>, chain: seq<Felt>)
    requires RootIsTrue(p.cfg, w.vault) && ProofsAreSound(p, w) && EntriesAreSound(p, w) && LeavesStayApart(p.repr, w.vault)
    requires AdapterIsIdeal(w, env, CallMutualClose(inputs, siblings))
    requires MutualClose(p.cfg, w.vault, env, inputs, siblings).Done?
    requires IsChain(p, w, inputs.noteId, chain)
    ensures AllCharged(w, chain) && Charges(w.entries, chain) <= NoteAt(w.vault, inputs.noteId).depositAmount
    ensures inputs.finalBalance == NoteAt(w.vault, inputs.noteId).depositAmount - Charges(w.entries, chain)
    ensures var before, after := w.vault.payments, MutualClose(p.cfg, w.vault, env, inputs, siblings).state.payments;
      PaysOut(before, after, inputs.noteId, inputs.destination, NoteAt(w.vault, inputs.noteId).depositAmount - Charges(w.entries, chain), Charges(w.entries, chain))
  {
    hide RootIsTrue, ProofsAreSound, EntriesAreSound, LeavesStayApart, IsChain, Backs, MutualClose, PaysOut;
    MutualCloseChecked(p.cfg, w.vault, env, inputs, siblings);
    var o := AcceptedWithdrawalIsBacked(p, w, inputs);
    ClearanceExcludesRequests(p, w, inputs, o);
    UnspentWithdrawalIsExact(p, w, inputs, o, chain);
  }

  /** Over the whole log this address got the deposit less the charges for the note, the treasury the charges, and nobody else anything. */
  ghost predicate PaidExactly(log: seq<Payment>, id: nat, destination: nat, deposit: nat, charges: nat) {
    && PaidTo(log, id, User(destination)) + charges == deposit
    && PaidTo(log, id, Treasury) == charges
    && (forall payee :: payee != User(destination) && payee != Treasury ==> PaidTo(log, id, payee) == 0)
  }

  /** Whatever happened before, a mutual close that goes through pays exactly what the note's one chain leaves. */
  lemma RunClosesExactly(p: Params, actions: seq<Action>, env: Env, inputs: WithdrawalInputs, siblings: seq<Word>) returns (chain: seq<Felt>)
    requires Legal(p, actions) && LeavesStayApart(p.repr, WorldAfter(p, actions).vault)
    requires Allowed(p, WorldAfter(p, actions), VaultCall(env, CallMutualClose(inputs, siblings)))
    requires MutualClose(p.cfg, WorldAfter(p, actions).vault, env, inputs, siblings).Done?
    ensures var w := WorldAfter(p, actions); var id := inputs.noteId;
      var log := MutualClose(p.cfg, w.vault, env, inputs, siblings).state.payments;
      && IsChain(p, w, id, chain) && AllCharged(w, chain)
      && inputs.finalBalance + Charges(w.entries, chain) == NoteAt(w.vault, id).depositAmount
      && PaidExactly(log, id, inputs.destination, NoteAt(w.vault, id).depositAmount, Charges(w.entries, chain))
  {
    hide LeavesStayApart, IsChain, Backs, MutualClose, RootIsTrue, ProofsAreSound, EntriesAreSound;
    var w := WorldAfter(p, actions);
    RunIsGood(p, actions);
    MutualCloseChecked(p.cfg, w.vault, env, inputs, siblings);
    var o := AcceptedWithdrawalIsBacked(p, w, inputs);
    BackedNoteExists(p, w, inputs, o);
    assert HasChain(p, w, inputs.noteId);
    chain :| IsChain(p, w, inputs.noteId, chain);
    MutualClosePaysExactly(p, w, env, inputs, siblings, chain);
    OpenNoteIsUnpaid(p.cfg, w.vault, inputs.noteId);
  }

  lemma BackedNoteExists(p: Params, w: World, inputs: WithdrawalInputs, o: WithdrawalWitness)
    requires Backs(p, w, inputs, o)
    ensures inputs.noteId in w.vault.notes
  {
  }

  // ---- A cleared note is frozen ----

  /** A new request on the note of an unspent withdrawal would carry the withdrawal's own nullifier. */
  lemma OnlyTipIsAccepted(p: Params, w: World, inputs: WithdrawalInputs, o: WithdrawalWitness, chain: seq<Felt>, request: RequestInputs, r: RequestWitness)
    requires EntriesAreSound(p, w) && RootsAreHistoric(p, w) && LeavesStayApart(p.repr, w.vault) && Allowed(p, w, Reserve(request, r))
    requires Backs(p, w, inputs, o) && IsChain(p, w, inputs.noteId, chain) && r.noteId == inputs.noteId
    requires !SpentByRequest(w, inputs.withdrawalNullifier) && request.requestNullifier !in w.entries
    ensures request.requestNullifier == inputs.withdrawalNullifier
  {
    hide EntriesAreSound, RootsAreHistoric, LeavesStayApart, Linked, Balanced, ListsRequests, Commit, PathRoot, NextCommitment, Released;
    UnspentWithdrawalIsExact(p, w, inputs, o, chain);
    RequestNamesNote(p, w, request, r);
    RequestSpendsTip(p, w, request, r, chain);
    if chain != [] {
      assert chain[|chain| - 1] in chain;
    }
  }

  /** What a clearance for the unspent state of a note fixes. */
  ghost predicate IsCleared(p: Params, w: World, inputs: WithdrawalInputs, o: WithdrawalWitness, chain: seq<Felt>) {
    && Backs(p, w, inputs, o) && IsChain(p, w, inputs.noteId, chain)
    && inputs.withdrawalNullifier in w.entries && w.entries[inputs.withdrawalNullifier].Barred?
  }

  /** No request is accepted on a cleared note, fresh or as a retry. */
  lemma ClearedNoteTakesNoRequest(p: Params, w: World, inputs: WithdrawalInputs, o: WithdrawalWitness, chain: seq<Felt>, request: RequestInputs, r: RequestWitness)
    requires EntriesAreSound(p, w) && RootsAreHistoric(p, w) && LeavesStayApart(p.repr, w.vault) && Allowed(p, w, Reserve(request, r))
    requires IsCleared(p, w, inputs, o, chain)
    ensures r.noteId != inputs.noteId && request.requestNullifier !in chain
  {
    hide EntriesAreSound, RootsAreHistoric, LeavesStayApart, IsChain, Backs, RequestHolds;
    var x := request.requestNullifier;
    UnspentWithdrawalIsExact(p, w, inputs, o, chain);
    if r.noteId == inputs.noteId {
      if x in w.entries {
        RetakeIsFresh(p, w, request, r);
        RootsWithout(p, w, x);
        BacksStays(p, w, Forget(w, x), inputs, o);
        ForgetKeepsChain(p, w, x, inputs.noteId, chain);
        OnlyTipIsAccepted(p, Forget(w, x), inputs, o, Without(chain, x), request, r);
      } else {
        OnlyTipIsAccepted(p, w, inputs, o, chain, request, r);
      }
    }
  }

  lemma RootsWithout(p: Params, w: World, x: Felt)
    requires RootsAreHistoric(p, w)
    ensures RootsAreHistoric(p, Forget(w, x))
  {
  }

  lemma ClearedStepStays(p: Params, w: World, inputs: WithdrawalInputs, o: WithdrawalWitness, chain: seq<Felt>, a: Action)
    requires EntriesAreSound(p, w) && RootsAreHistoric(p, w) && LeavesStayApart(p.repr, w.vault)
    requires Allowed(p, w, a) && Grows(p, w, Apply(p, w, a)) && IsCleared(p, w, inputs, o, chain)
    ensures IsCleared(p, Apply(p, w, a), inputs, o, chain)
    ensures Charges(Apply(p, w, a).entries, chain) == Charges(w.entries, chain)
  {
    hide EntriesAreSound, RootsAreHistoric, LeavesStayApart, Linked, Balanced, RequestHolds, WithdrawalHolds, Step, Released;
    UnspentWithdrawalIsExact(p, w, inputs, o, chain);
    BacksStays(p, w, Apply(p, w, a), inputs, o);
    if a.Reserve? {
      ClearedNoteTakesNoRequest(p, w, inputs, o, chain, a.inputs, a.opening);
    }
    OtherActionsKeepChain(p, w, a, inputs.noteId, chain);
    ChargesFrame(w.entries, Apply(p, w, a).entries, chain);
  }

  /** Once a clearance for the unspent state of a note is out, whatever follows leaves its chain and its charges alone. */
  lemma {:induction false} ClearedNoteIsFrozen(p: Params, w: World, inputs: WithdrawalInputs, o: WithdrawalWitness, chain: seq<Felt>, actions: seq<Action>)
    requires Good(p, w) && LegalFrom(p, w, actions) && LeavesStayApart(p.repr, After(p, w, actions).vault)
    requires IsCleared(p, w, inputs, o, chain)
    ensures IsCleared(p, After(p, w, actions), inputs, o, chain)
    ensures Charges(After(p, w, actions).entries, chain) == Charges(w.entries, chain)
  {
    hide Inv, RootsAreHistoric, ProofsAreSound, EntriesAreSound, EveryNoteHasChain, LeavesStayApart, IsCleared, Allowed, Apply, Grows;
    if actions != [] {
      var before, a := actions[..|actions| - 1], actions[|actions| - 1];
      var mid := After(p, w, before);
      ApartBefore(p, w, actions);
      GoodIsKept(p, w, before);
      ClearedNoteIsFrozen(p, w, inputs, o, chain, before);
      ActionKeepsGood(p, mid, a);
      ClearedStepStays(p, mid, inputs, o, chain, a);
    }
  }

  // ---- The escape game ----

  ghost predicate BacksPending(p: Params, w: World, id: nat, inputs: WithdrawalInputs, o: WithdrawalWitness)
    requires id in w.vault.pending
  {
    && Backs(p, w, inputs, o) && inputs.noteId == id
    && inputs.withdrawalNullifier == w.vault.pending[id].withdrawalNullifier
    && inputs.finalBalance == w.vault.pending[id].finalBalance
    && inputs.destination == w.vault.pending[id].destination
  }

  /** Every pending escape is backed by the proof it was opened with. */
  ghost predicate PendingIsBacked(p: Params, w: World, id: nat)
    requires id in w.vault.pending
  {
    exists inputs, o :: BacksPending(p, w, id, inputs, o)
  }

  ghost predicate EscapesAreBacked(p: Params, w: World) {
    forall id {:trigger PendingIsBacked(p, w, id)} :: id in w.vault.pending ==> PendingIsBacked(p, w, id)
  }

  lemma StepPending(cfg: Config, s: VaultState, env: Env, call: Call)
    requires Step(cfg, s, env, call).Done?
    ensures var s' := Step(cfg, s, env, call).state;
      forall id :: id in s'.pending && !(call.CallInitiateEscape? && id == call.withdrawal.noteId) ==> id in s.pending && s'.pending[id] == s.pending[id]
    ensures call.CallInitiateEscape? ==>
      var inputs := call.withdrawal; var s' := Step(cfg, s, env, call).state;
      && BoundToVault(cfg, inputs) && inputs.activeRoot == s.currentRoot && env.proofAccepted
      && inputs.noteId in s'.pending && s'.pending[inputs.noteId].withdrawalNullifier == inputs.withdrawalNullifier
      && s'.pending[inputs.noteId].finalBalance == inputs.finalBalance && s'.pending[inputs.noteId].destination == inputs.destination
  {
  }

  lemma ActionKeepsBacking(p: Params, w: World, a: Action)
    requires RootIsTrue(p.cfg, w.vault) && ProofsAreSound(p, w) && EscapesAreBacked(p, w)
    requires Allowed(p, w, a) && Grows(p, w, Apply(p, w, a))
    ensures EscapesAreBacked(p, Apply(p, w, a))
  {
    hide RootIsTrue, ProofsAreSound, Backs, RequestHolds, WithdrawalHolds, Released, Step, Grows;
    var w' := Apply(p, w, a);
    forall id | id in w'.vault.pending ensures PendingIsBacked(p, w', id) {
      if a.VaultCall? && Step(p.cfg, w.vault, a.env, a.call).Done? {
        StepPending(p.cfg, w.vault, a.env, a.call);
      }
      if a.VaultCall? && Step(p.cfg, w.vault, a.env, a.call).Done? && a.call.CallInitiateEscape? && id == a.call.withdrawal.noteId {
        var o := AcceptedWithdrawalIsBacked(p, w, a.call.withdrawal);
        BacksStays(p, w, w', a.call.withdrawal, o);
        assert BacksPending(p, w', id, a.call.withdrawal, o);
      } else {
        assert PendingIsBacked(p, w, id);
        var inputs, o :| BacksPending(p, w, id, inputs, o);
        BacksStays(p, w, w', inputs, o);
        assert BacksPending(p, w', id, inputs, o);
      }
    }
  }

  lemma {:induction false} BackingIsKept(p: Params, w: World, actions: seq<Action>)
    requires Good(p, w) && EscapesAreBacked(p, w) && LegalFrom(p, w, actions) && LeavesStayApart(p.repr, After(p, w, actions).vault)
    ensures EscapesAreBacked(p, After(p, w, actions))
  {
    hide NotesInOrder, RootIsTrue, Solvent, RootsAreHistoric, ProofsAreSound, EntriesAreSound, EveryNoteHasChain, LeavesStayApart, EscapesAreBacked, Allowed, Apply, Grows;
    if actions != [] {
      var before, a := actions[..|actions| - 1], actions[|actions| - 1];
      ApartBefore(p, w, actions);
      GoodIsKept(p, w, before);
      BackingIsKept(p, w, before);
      ActionKeepsGood(p, After(p, w, before), a);
      ActionKeepsBacking(p, After(p, w, before), a);
    }
  }

  lemma RunIsBacked(p: Params, actions: seq<Action>)
    requires Legal(p, actions) && LeavesStayApart(p.repr, WorldAfter(p, actions).vault)
    ensures Good(p, WorldAfter(p, actions)) && EscapesAreBacked(p, WorldAfter(p, actions))
  {
    InitialIsGood(p);
    GoodIsKept(p, InitialWorld(p), actions);
    BackingIsKept(p, InitialWorld(p), actions);
  }

  /** A pending escape claims exactly the deposit less all charges, unless the server charged a request on the very
      state it withdraws. */
  lemma EscapeIsExactOrCharged(p: Params, w: World, id: nat, chain: seq<Felt>)
    requires EntriesAreSound(p, w) && LeavesStayApart(p.repr, w.vault)
    requires id in w.vault.pending && PendingIsBacked(p, w, id) && IsChain(p, w, id, chain)
    ensures IsCharged(w, w.vault.pending[id].withdrawalNullifier)
         || w.vault.pending[id].finalBalance + Charges(w.entries, chain) == NoteAt(w.vault, id).depositAmount
  {
    hide EntriesAreSound, LeavesStayApart, IsChain, Backs;
    var inputs, o :| BacksPending(p, w, id, inputs, o);
    if !IsCharged(w, inputs.withdrawalNullifier) {
      UnchargedWithdrawalIsExact(p, w, inputs, o, chain);
    }
  }

  /** The same after any run. */
  lemma RunEscapesAreExactOrCharged(p: Params, actions: seq<Action>, id: nat) returns (chain: seq<Felt>)
    requires Legal(p, actions) && LeavesStayApart(p.repr, WorldAfter(p, actions).vault)
    requires id in WorldAfter(p, actions).vault.pending
    ensures var w := WorldAfter(p, actions);
      && IsChain(p, w, id, chain)
      && (IsCharged(w, w.vault.pending[id].withdrawalNullifier)
          || w.vault.pending[id].finalBalance + Charges(w.entries, chain) == NoteAt(w.vault, id).depositAmount)
  {
    hide RootIsTrue, NotesInOrder, Solvent, RootsAreHistoric, ProofsAreSound, EntriesAreSound, LeavesStayApart, IsChain, PendingIsBacked;
    var w := WorldAfter(p, actions);
    RunIsBacked(p, actions);
    assert id in w.vault.notes && HasChain(p, w, id);
    chain :| IsChain(p, w, id, chain);
    EscapeIsExactOrCharged(p, w, id, chain);
  }

  /** What an escape that runs out its window pays: the exact balance and the exact charges, unless the server slept on a
      charged request it could have shown. */
  lemma FinalizedEscapePays(p: Params, w: World, env: Env, id: nat, chain: seq<Felt>)
    requires EntriesAreSound(p, w) && LeavesStayApart(p.repr, w.vault)
    requires id in w.vault.pending && PendingIsBacked(p, w, id) && IsChain(p, w, id, chain)
    requires FinalizeEscape(p.cfg, w.vault, env, id).Done?
    ensures IsCharged(w, w.vault.pending[id].withdrawalNullifier)
         || (&& w.vault.pending[id].finalBalance + Charges(w.entries, chain) == NoteAt(w.vault, id).depositAmount
             && PaysOut(w.vault.payments, FinalizeEscape(p.cfg, w.vault, env, id).state.payments, id, w.vault.pending[id].destination,
                        w.vault.pending[id].finalBalance, Charges(w.entries, chain)))
  {
    hide EntriesAreSound, LeavesStayApart, IsChain, PendingIsBacked, PaysOut;
    EscapeIsExactOrCharged(p, w, id, chain);
    FinalizePays(p.cfg, w.vault, env, id);
  }

  /** So over any run: an escape that is finalized was charged after all, or its whole log is exact. */
  lemma RunFinalizesExactly(p: Params, actions: seq<Action>, env: Env, id: nat) returns (chain: seq<Felt>)
    requires Legal(p, actions) && LeavesStayApart(p.repr, WorldAfter(p, actions).vault)
    requires FinalizeEscape(p.cfg, WorldAfter(p, actions).vault, env, id).Done?
    ensures var w := WorldAfter(p, actions); var log := FinalizeEscape(p.cfg, w.vault, env, id).state.payments;
      && IsChain(p, w, id, chain) && id in w.vault.pending
      && (IsCharged(w, w.vault.pending[id].withdrawalNullifier)
          || PaidExactly(log, id, w.vault.pending[id].destination, NoteAt(w.vault, id).depositAmount, Charges(w.entries, chain)))
  {
    hide LeavesStayApart, IsChain, PendingIsBacked, FinalizeEscape, RootIsTrue, NotesInOrder, ProofsAreSound, EntriesAreSound, RootsAreHistoric;
    var w := WorldAfter(p, actions);
    RunIsBacked(p, actions);
    FinalizePays(p.cfg, w.vault, env, id);
    assert id in w.vault.notes && HasChain(p, w, id) && PendingIsBacked(p, w, id);
    chain :| IsChain(p, w, id, chain);
    FinalizedEscapePays(p, w, env, id, chain);
    OpenNoteIsUnpaid(p.cfg, w.vault, id);
  }

  /** When exactly a challenge goes through. */
  lemma ChallengeIff(cfg: Config, s: VaultState, env: Env, id: nat, request: RequestInputs, siblings: seq<Word>)
    requires Inv(cfg, s) && id in s.pending && |siblings| == cfg.depth
    ensures ChallengeEscape(cfg, s, env, id, request, siblings).Done? <==>
      && env.now < s.pending[id].challengeDeadline && env.proofAccepted
      && request.deployment == cfg.deployment && request.stateKey == cfg.stateKey
      && request.requestNullifier == s.pending[id].withdrawalNullifier
      && Residues(siblings) == TrueSiblings(NODE_HASH, ActiveLeaves(s.notes), ZERO, cfg.depth, id)
    ensures ChallengeEscape(cfg, s, env, id, request, siblings).Done? ==>
      var s' := ChallengeEscape(cfg, s, env, id, request, siblings).state;
      && s'.notes == s.notes[id := s.notes[id].(status := Active)] && s'.pending == s.pending - {id}
      && s'.currentRoot == Root(NODE_HASH, ActiveLeaves(s.notes)[id := DepositedLeaf(s, id)], ZERO, cfg.depth)
  {
    assert id in s.notes && id < Pow(2, cfg.depth) && LeafAt(ActiveLeaves(s.notes), ZERO, id) == ZERO;
    var (opens, root) := VerifyAndUpdate(s.currentRoot, id, ZERO, DepositedLeaf(s, id), siblings);
    if opens {
      PathCheckIsSound(cfg, ActiveLeaves(s.notes), s.currentRoot, id, ZERO, DepositedLeaf(s, id), siblings);
    }
    if Residues(siblings) == TrueSiblings(NODE_HASH, ActiveLeaves(s.notes), ZERO, cfg.depth, id) {
      TruePathPasses(cfg, ActiveLeaves(s.notes), id, DepositedLeaf(s, id), siblings);
    }
  }

  /** Before the deadline the archived request always defeats an escape on the state it was charged on, whatever
      root it was made under, and the root becomes the one with exactly that leaf put back. */
  lemma ChallengeSucceeds(p: Params, w: World, env: Env, id: nat, siblings: seq<Word>)
    requires Inv(p.cfg, w.vault) && EntriesAreSound(p, w) && id in w.vault.pending
    requires IsCharged(w, w.vault.pending[id].withdrawalNullifier)
    requires env.now < w.vault.pending[id].challengeDeadline
    requires Residues(siblings) == TrueSiblings(NODE_HASH, ActiveLeaves(w.vault.notes), ZERO, p.cfg.depth, id)
    requires AdapterIsIdeal(w, env, CallChallengeEscape(id, w.entries[w.vault.pending[id].withdrawalNullifier].inputs, siblings))
    ensures var outcome := ChallengeEscape(p.cfg, w.vault, env, id, w.entries[w.vault.pending[id].withdrawalNullifier].inputs, siblings);
      && outcome.Done?
      && outcome.state.notes == w.vault.notes[id := w.vault.notes[id].(status := Active)]
      && outcome.state.currentRoot == Root(NODE_HASH, ActiveLeaves(w.vault.notes)[id := DepositedLeaf(w.vault, id)], ZERO, p.cfg.depth)
  {
    hide Inv, RequestHolds, ChallengeEscape;
    var x := w.vault.pending[id].withdrawalNullifier;
    assert EntryIsSound(p, w, x);
    ChallengeIff(p.cfg, w.vault, env, id, w.entries[x].inputs, siblings);
  }

  lemma SameNullifierSameState(p: Params, signed: Signatures, request: RequestInputs, r: RequestWitness, inputs: WithdrawalInputs, o: WithdrawalWitness)
    requires RequestHolds(p.cfg.depth, p.repr, signed, request, r) && WithdrawalHolds(p.cfg.depth, p.repr, signed, inputs, o)
    requires request.requestNullifier == inputs.withdrawalNullifier
    ensures r.secret == o.secret && r.anchor == o.anchor
  {
    hide PathRoot, Commit, Rerandomize;
  }

  /** Nobody challenges without having proved a request over the very secret and anchor being withdrawn. */
  lemma ChallengeNeedsSameState(p: Params, w: World, env: Env, id: nat, request: RequestInputs, siblings: seq<Word>)
    requires Inv(p.cfg, w.vault) && ProofsAreSound(p, w) && id in w.vault.pending && PendingIsBacked(p, w, id) && |siblings| == p.cfg.depth
    requires AdapterIsIdeal(w, env, CallChallengeEscape(id, request, siblings))
    requires ChallengeEscape(p.cfg, w.vault, env, id, request, siblings).Done?
    ensures request in w.requests && !Unproven(w, w.vault.pending[id].withdrawalNullifier)
    ensures exists inputs, o, r :: BacksPending(p, w, id, inputs, o)
              && RequestHolds(p.cfg.depth, p.repr, Released(p.cfg, w.entries), request, r)
              && r.secret == o.secret && r.anchor == o.anchor
  {
    hide Inv, ChallengeEscape, Released, RequestHolds, WithdrawalHolds;
    ChallengeIff(p.cfg, w.vault, env, id, request, siblings);
    var inputs, o :| BacksPending(p, w, id, inputs, o);
    assert RequestProofExists(p.cfg.depth, p.repr, Released(p.cfg, w.entries), request);
    var r :| RequestHolds(p.cfg.depth, p.repr, Released(p.cfg, w.entries), request, r);
    SameNullifierSameState(p, Released(p.cfg, w.entries), request, r, inputs, o);
  }

  /** Nobody ever proved a request with this nullifier. */
  predicate Unproven(w: World, x: Felt) { forall request :: request in w.requests ==> request.requestNullifier != x }

  /** A step pays only for the note it closes. */
  lemma StepPays(cfg: Config, s: VaultState, env: Env, call: Call, id: nat)
    requires Step(cfg, s, env, call).Done?
    ensures var Done(s', event) := Step(cfg, s, env, call);
      && (event.noteId != id ==> SamePaid(s.payments, s'.payments, id))
      && (event.EscapeFinalized? && event.noteId == id ==>
            id in s.pending && s.pending[id].finalBalance <= NoteAt(s, id).depositAmount
            && PaysOut(s.payments, s'.payments, id, s.pending[id].destination, s.pending[id].finalBalance, NoteAt(s, id).depositAmount - s.pending[id].finalBalance))
  {
    hide VerifyAndUpdate, PaidTo;
    match call {
      case CallMutualClose(inputs, _) => PayoutsPay(s.payments, inputs.noteId, inputs.destination, inputs.finalBalance, NoteAt(s, inputs.noteId).depositAmount - inputs.finalBalance);
      case CallFinalizeEscape(n) => FinalizePays(cfg, s, env, n);
      case CallClaimExpired(n, _) => TreasuryPays(s.payments, n, 0, NoteAt(s, n).depositAmount);
      case _ =>
    }
  }

  ghost predicate SamePaid(before: seq<Payment>, after: seq<Payment>, id: nat) {
    forall payee :: PaidTo(after, id, payee) == PaidTo(before, id, payee)
  }

  /** The escape is still pending as it was and nobody was paid, or it ran out its window and was paid out. */
  ghost predicate StandsOrPaid(s: VaultState, s': VaultState, id: nat)
    requires id in s.pending && s.pending[id].finalBalance <= NoteAt(s, id).depositAmount
  {
    var e := s.pending[id];
    || (id in s'.pending && s'.pending[id] == e && SamePaid(s.payments, s'.payments, id))
    || (&& NoteAt(s', id).status == Closed
        && PaidTo(s'.payments, id, User(e.destination)) == PaidTo(s.payments, id, User(e.destination)) + e.finalBalance
        && PaidTo(s'.payments, id, Treasury) == PaidTo(s.payments, id, Treasury) + NoteAt(s, id).depositAmount - e.finalBalance
        && (forall payee :: payee != User(e.destination) && payee != Treasury ==> PaidTo(s'.payments, id, payee) == PaidTo(s.payments, id, payee)))
  }

  /** Only a finalization and a challenge with its nullifier touch a pending escape. */
  lemma StepOnPending(cfg: Config, s: VaultState, env: Env, call: Call, id: nat)
    requires NotesInOrder(cfg, s) && PendingMatchesStatus(s) && id in s.pending && Step(cfg, s, env, call).Done?
    ensures var Done(s', event) := Step(cfg, s, env, call);
      if event.noteId != id then id in s'.pending && s'.pending[id] == s.pending[id]
      else if event.EscapeFinalized? then NoteAt(s', id).status == Closed
      else call.CallChallengeEscape? && env.proofAccepted && call.request.requestNullifier == s.pending[id].withdrawalNullifier
  {
    hide VerifyAndUpdate, Payouts;
  }

  /** Nothing touches a note that is closed. */
  lemma StepOnClosed(cfg: Config, s: VaultState, env: Env, call: Call, id: nat)
    requires NoteAt(s, id).status == Closed && id < s.nextNoteId && Step(cfg, s, env, call).Done?
    ensures Step(cfg, s, env, call).event.noteId != id && NoteAt(Step(cfg, s, env, call).state, id) == NoteAt(s, id)
  {
    hide VerifyAndUpdate, Payouts;
  }

  /** Without a proof for its nullifier, no call touches a pending escape but its own finalization. */
  lemma UnprovenStepStands(p: Params, w: World, a: Action, id: nat)
    requires NotesInOrder(p.cfg, w.vault) && PendingMatchesStatus(w.vault) && Allowed(p, w, a) && id in w.vault.pending
    requires Unproven(Apply(p, w, a), w.vault.pending[id].withdrawalNullifier)
    ensures StandsOrPaid(w.vault, Apply(p, w, a).vault, id)
  {
    hide RequestHolds, WithdrawalHolds, Released, PaidTo, Step;
    if a.VaultCall? && Step(p.cfg, w.vault, a.env, a.call).Done? {
      StepPays(p.cfg, w.vault, a.env, a.call, id);
      StepOnPending(p.cfg, w.vault, a.env, a.call, id);
    }
  }

  lemma ClosedStepStays(p: Params, w: World, a: Action, id: nat)
    requires Allowed(p, w, a) && NoteAt(w.vault, id).status == Closed && id < w.vault.nextNoteId
    ensures NoteAt(Apply(p, w, a).vault, id).status == Closed && SamePaid(w.vault.payments, Apply(p, w, a).vault.payments, id)
  {
    hide RequestHolds, WithdrawalHolds, Released, PaidTo, Step;
    if a.VaultCall? && Step(p.cfg, w.vault, a.env, a.call).Done? {
      StepPays(p.cfg, w.vault, a.env, a.call, id);
      StepOnClosed(p.cfg, w.vault, a.env, a.call, id);
    }
  }

  /** Whatever follows, such an escape stays pending until its finalization pays it. */
  lemma {:induction false} UnprovenEscapeStands(p: Params, w: World, actions: seq<Action>, id: nat)
    requires Inv(p.cfg, w.vault) && LegalFrom(p, w, actions) && id in w.vault.pending
    requires Unproven(After(p, w, actions), w.vault.pending[id].withdrawalNullifier)
    ensures StandsOrPaid(w.vault, After(p, w, actions).vault, id)
  {
    hide RootIsTrue, NotesInOrder, Solvent, Allowed, Apply, Released, PaidTo;
    if actions != [] {
      var before, a := actions[..|actions| - 1], actions[|actions| - 1];
      var mid := After(p, w, before);
      InvIsKept(p, w, before);
      ActionGrows(p, mid, a);
      UnprovenEscapeStands(p, w, before, id);
      assert mid.vault.notes[id].(status := w.vault.notes[id].status) == w.vault.notes[id];
      UnprovenNext(p, w, mid, a, id);
    }
  }

  lemma UnprovenNext(p: Params, w: World, mid: World, a: Action, id: nat)
    requires id in w.vault.notes && id in w.vault.pending && w.vault.pending[id].finalBalance <= NoteAt(w.vault, id).depositAmount
    requires Inv(p.cfg, mid.vault) && StandsOrPaid(w.vault, mid.vault, id)
    requires Allowed(p, mid, a) && Unproven(Apply(p, mid, a), w.vault.pending[id].withdrawalNullifier)
    requires NoteAt(mid.vault, id).depositAmount == NoteAt(w.vault, id).depositAmount && id in mid.vault.notes
    ensures StandsOrPaid(w.vault, Apply(p, mid, a).vault, id)
  {
    hide Apply, Allowed, Unproven, RootIsTrue, Solvent, PaidTo;
    if id in mid.vault.pending && mid.vault.pending[id] == w.vault.pending[id] && SamePaid(w.vault.payments, mid.vault.payments, id) {
      UnprovenStepStands(p, mid, a, id);
    } else {
      ClosedStepStays(p, mid, a, id);
    }
  }

  lemma UnprovenIsUnspent(p: Params, w: World, x: Felt)
    requires EntriesAreSound(p, w) && Unproven(w, x)
    ensures !SpentByRequest(w, x)
  {
    hide RequestHolds;
    assert x in w.entries ==> EntryIsSound(p, w, x);
  }

  /** An escape on a state for which nobody ever proves a request cannot be challenged: whatever follows, it stays
      pending until its finalization pays it, and what it claims is exactly the deposit less all charges on the note. */
  lemma UnprovenEscapeIsSafe(p: Params, w: World, actions: seq<Action>, id: nat) returns (chain: seq<Felt>)
    requires Good(p, w) && EscapesAreBacked(p, w) && LegalFrom(p, w, actions) && LeavesStayApart(p.repr, After(p, w, actions).vault)
    requires id in w.vault.pending && Unproven(After(p, w, actions), w.vault.pending[id].withdrawalNullifier)
    ensures StandsOrPaid(w.vault, After(p, w, actions).vault, id)
    ensures var w' := After(p, w, actions);
      && IsChain(p, w', id, chain) && AllCharged(w', chain)
      && w.vault.pending[id].finalBalance + Charges(w'.entries, chain) == NoteAt(w.vault, id).depositAmount
      && (NoteAt(w'.vault, id).status != PendingWithdrawal ==>
            PaidExactly(w'.vault.payments, id, w.vault.pending[id].destination, NoteAt(w.vault, id).depositAmount, Charges(w'.entries, chain)))
  {
    hide NotesInOrder, Solvent, RootIsTrue, RootsAreHistoric, ProofsAreSound, EntriesAreSound, LeavesStayApart, LegalFrom, After, IsChain, WithdrawalHolds, Unproven, Released;
    var w', x := After(p, w, actions), w.vault.pending[id].withdrawalNullifier;
    UnprovenEscapeStands(p, w, actions, id);
    GoodIsKept(p, w, actions);
    InvIsKept(p, w, actions);
    assert PendingIsBacked(p, w, id);
    var inputs, o :| BacksPending(p, w, id, inputs, o);
    BacksStays(p, w, w', inputs, o);
    UnprovenIsUnspent(p, w', x);
    assert HasChain(p, w', id);
    chain :| IsChain(p, w', id, chain);
    UnspentWithdrawalIsExact(p, w', inputs, o, chain);
    OpenNoteIsUnpaid(p.cfg, w.vault, id);
    assert w'.vault.notes[id].(status := w.vault.notes[id].status) == w.vault.notes[id];
  }

  // ---- A note under a zero secret ----

  predicate WithdrawsFrom(call: Call, id: nat) {
    (call.CallMutualClose? || call.CallInitiateEscape?) && call.withdrawal.noteId == id
  }

  lemma WithdrawalChecked(cfg: Config, s: VaultState, env: Env, call: Call)
    requires (call.CallMutualClose? || call.CallInitiateEscape?) && Step(cfg, s, env, call).Done?
    ensures BoundToVault(cfg, call.withdrawal) && call.withdrawal.activeRoot == s.currentRoot && env.proofAccepted
  {
    hide PathRoot;
  }

  /** The vault takes a deposit under a zero secret, but the circuits refuse such a note: no request on it is ever
      accepted and every withdrawal from it reverts, whatever was proved. */
  lemma ZeroSecretIsStuck(p: Params, actions: seq<Action>, id: nat)
    requires Legal(p, actions) && LeavesStayApart(p.repr, WorldAfter(p, actions).vault)
    requires id in WorldAfter(p, actions).vault.notes && NoteAt(WorldAfter(p, actions).vault, id).commitment == Registration(ZERO)
    ensures var w := WorldAfter(p, actions);
      && (forall x :: x in w.entries && IsRequest(w.entries[x]) ==> w.entries[x].opening.noteId != id)
      && (forall env, call :: WithdrawsFrom(call, id) && Allowed(p, w, VaultCall(env, call)) ==> Step(p.cfg, w.vault, env, call).Revert?)
  {
    hide Step, EveryNoteHasChain, RootsAreHistoric, RootIsTrue;
    var w := WorldAfter(p, actions);
    RunIsGood(p, actions);
    forall x | x in w.entries && IsRequest(w.entries[x]) ensures w.entries[x].opening.noteId != id {
      assert EntryIsSound(p, w, x);
    }
    forall env, call | WithdrawsFrom(call, id) && Allowed(p, w, VaultCall(env, call)) ensures Step(p.cfg, w.vault, env, call).Revert? {
      if Step(p.cfg, w.vault, env, call).Done? {
        WithdrawalChecked(p.cfg, w.vault, env, call);
        var o := AcceptedWithdrawalIsBacked(p, w, call.withdrawal);
      }
    }
  }
}
