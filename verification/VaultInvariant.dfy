/** What every call to the vault keeps, whatever siblings and proofs callers supply. */
module VaultInvariant {
  import opened Powers
  import opened Felts
  import opened Merkle
  import opened VaultSpec

  /** The leaves the contract means to commit to: one for each Active note. */
  function ActiveLeaves(notes: map<nat, Note>): map<nat, Felt> {
    map id | id in notes && notes[id].status == Active :: LeafOf(id, notes[id])
  }

  function OpenPart(note: Note): nat {
    if note.status in {Active, PendingWithdrawal} then note.depositAmount else 0
  }

  /** Deposits of the notes below `n` that are not yet paid out. */
  function OpenDeposits(notes: map<nat, Note>, n: nat): nat {
    if n == 0 then 0
    else OpenDeposits(notes, n - 1) + (if n - 1 in notes then OpenPart(notes[n - 1]) else 0)
  }

  /** Everything ever paid out for one note. */
  function PaidFor(payments: seq<Payment>, id: nat): nat {
    if payments == [] then 0
    else
      var last := payments[|payments| - 1];
      PaidFor(payments[..|payments| - 1], id) + (if last.noteId == id then last.amount else 0)
  }

  /** Everything ever paid out to one payee for one note. */
  function PaidTo(payments: seq<Payment>, id: nat, payee: Payee): nat {
    if payments == [] then 0
    else
      var last := payments[|payments| - 1];
      PaidTo(payments[..|payments| - 1], id, payee) + (if last.noteId == id && last.to == payee then last.amount else 0)
  }

  /** Between two states of the log the owner's address got `balance` for the note, the treasury `share`, and nobody anything else. */
  ghost predicate PaysOut(before: seq<Payment>, after: seq<Payment>, id: nat, destination: nat, balance: nat, share: nat) {
    && PaidTo(after, id, User(destination)) == PaidTo(before, id, User(destination)) + balance
    && PaidTo(after, id, Treasury) == PaidTo(before, id, Treasury) + share
    && (forall n, payee :: n != id || (payee != User(destination) && payee != Treasury) ==> PaidTo(after, n, payee) == PaidTo(before, n, payee))
  }

  /** The stored root is the root of the tree of Active notes. */
  ghost predicate RootIsTrue(cfg: Config, s: VaultState) {
    s.currentRoot == Root(NODE_HASH, ActiveLeaves(s.notes), ZERO, cfg.depth)
  }

  ghost predicate NotesInOrder(cfg: Config, s: VaultState) {
    && s.nextNoteId < Pow(2, cfg.depth)
    && (forall id: nat :: id in s.notes <==> id < s.nextNoteId)
    && (forall id :: id in s.notes ==> s.notes[id].status != Uninitialized && 0 < s.notes[id].depositAmount < U128 && s.notes[id].expiryTs < U64)
  }

  ghost predicate PendingMatchesStatus(s: VaultState) {
    && (forall id: nat :: id in s.pending <==> id in s.notes && s.notes[id].status == PendingWithdrawal)
    && (forall id :: id in s.pending ==> s.pending[id].finalBalance <= NoteAt(s, id).depositAmount && s.pending[id].withdrawalNullifier in s.usedNullifiers)
  }

  /** The vault holds exactly the open deposits; a closed note was paid out in full, an open one not at all. */
  ghost predicate Solvent(cfg: Config, s: VaultState) {
    && s.funds == OpenDeposits(s.notes, s.nextNoteId) * Unit(cfg)
    && (forall id: nat :: PaidFor(s.payments, id) == if NoteAt(s, id).status == Closed then NoteAt(s, id).depositAmount else 0)
  }

  ghost predicate Inv(cfg: Config, s: VaultState) {
    RootIsTrue(cfg, s) && NotesInOrder(cfg, s) && PendingMatchesStatus(s) && Solvent(cfg, s)
  }

  // ---- The root ----

  /** With an ideal hash a path that opens the root shows the true leaf and the true siblings. */
  lemma OpeningIsTrue(depth: nat, leaves: map<nat, Felt>, id: nat, leaf: Felt, siblings: seq<Felt>)
    requires id < Pow(2, depth) && |siblings| == depth
    requires PathRoot(NODE_HASH, id, leaf, siblings) == Root(NODE_HASH, leaves, ZERO, depth)
    ensures leaf == LeafAt(leaves, ZERO, id) && siblings == TrueSiblings(NODE_HASH, leaves, ZERO, depth, id)
  {
    VerifiedUpdate(NODE_HASH, leaves, ZERO, id, leaf, leaf, siblings);
    forall l | 0 <= l < depth ensures !CollidesAt(NODE_HASH, leaves, ZERO, id, leaf, siblings, l) {
    }
  }

  /** So one accepted path check turns the root of the tree into that of the updated tree. */
  lemma PathCheckIsSound(cfg: Config, leaves: map<nat, Felt>, root: Felt, id: nat, oldLeaf: Felt, newLeaf: Felt, siblings: seq<Word>)
    requires root == Root(NODE_HASH, leaves, ZERO, cfg.depth)
    requires id < Pow(2, cfg.depth) && |siblings| == cfg.depth
    requires VerifyAndUpdate(root, id, oldLeaf, newLeaf, siblings).0
    ensures oldLeaf == LeafAt(leaves, ZERO, id)
    ensures Residues(siblings) == TrueSiblings(NODE_HASH, leaves, ZERO, cfg.depth, id)
    ensures VerifyAndUpdate(root, id, oldLeaf, newLeaf, siblings).1 == Root(NODE_HASH, leaves[id := newLeaf], ZERO, cfg.depth)
  {
    OpeningIsTrue(cfg.depth, leaves, id, oldLeaf, Residues(siblings));
    TruePathPasses(cfg, leaves, id, newLeaf, siblings);
  }

  /** A leaf tells its note: id, commitment, amount and expiry. */
  lemma LeafTells(id: nat, note: Note, id': nat, note': Note)
    requires LeafOf(id, note) == LeafOf(id', note')
    ensures id == id' && note.(status := note'.status) == note'
  {
  }

  /** The other direction: the true siblings, in any encoding, always pass. */
  lemma TruePathPasses(cfg: Config, leaves: map<nat, Felt>, id: nat, newLeaf: Felt, siblings: seq<Word>)
    requires id < Pow(2, cfg.depth)
    requires Residues(siblings) == TrueSiblings(NODE_HASH, leaves, ZERO, cfg.depth, id)
    ensures VerifyAndUpdate(Root(NODE_HASH, leaves, ZERO, cfg.depth), id, LeafAt(leaves, ZERO, id), newLeaf, siblings)
         == (true, Root(NODE_HASH, leaves[id := newLeaf], ZERO, cfg.depth))
  {
    PathOpensRoot(NODE_HASH, leaves, ZERO, cfg.depth, id);
    SiblingsIgnoreLeaf(NODE_HASH, leaves, ZERO, cfg.depth, id, newLeaf);
    PathOpensRoot(NODE_HASH, leaves[id := newLeaf], ZERO, cfg.depth, id);
  }

  /** Changing the status of one note is writing one leaf. */
  lemma StatusWritesLeaf(depth: nat, notes: map<nat, Note>, id: nat, note: Note)
    ensures Root(NODE_HASH, ActiveLeaves(notes[id := note]), ZERO, depth)
         == Root(NODE_HASH, ActiveLeaves(notes)[id := if note.status == Active then LeafOf(id, note) else ZERO], ZERO, depth)
  {
    SameLeavesSameNodes(NODE_HASH, ActiveLeaves(notes[id := note]),
      ActiveLeaves(notes)[id := if note.status == Active then LeafOf(id, note) else ZERO], ZERO, depth, 0);
  }

  // ---- The ledger ----

  lemma {:induction false} OpenDepositsFrame(a: map<nat, Note>, b: map<nat, Note>, n: nat)
    requires forall i :: 0 <= i < n ==> (i in a <==> i in b) && (i in a ==> a[i] == b[i])
    ensures OpenDeposits(a, n) == OpenDeposits(b, n)
  {
    if n > 0 {
      OpenDepositsFrame(a, b, n - 1);
    }
  }

  /** Rewriting one note moves the sum by the change of its own part. */
  lemma {:induction false} OpenDepositsUpdate(notes: map<nat, Note>, n: nat, id: nat, note: Note)
    requires id < n && id in notes
    ensures OpenDeposits(notes[id := note], n) + OpenPart(notes[id]) == OpenDeposits(notes, n) + OpenPart(note)
  {
    if id == n - 1 {
      OpenDepositsFrame(notes[id := note], notes, n - 1);
    } else {
      OpenDepositsUpdate(notes, n - 1, id, note);
    }
  }

  lemma {:induction false} PaidForAppend(a: seq<Payment>, b: seq<Payment>, id: nat)
    ensures PaidFor(a + b, id) == PaidFor(a, id) + PaidFor(b, id)
  {
    if b == [] {
      assert a + b == a;
    } else {
      PaidForAppend(a, b[..|b| - 1], id);
      assert (a + b)[..|a + b| - 1] == a + b[..|b| - 1];
    }
  }

  lemma PaidForSettlement(id: nat, destination: nat, balance: nat, operatorShare: nat, other: nat)
    ensures PaidFor(Payouts(id, destination, balance, operatorShare), other) == if other == id then balance + operatorShare else 0
  {
    PaidForAppend(if balance != 0 then [Payment(id, User(destination), balance)] else [],
                  if operatorShare != 0 then [Payment(id, Treasury, operatorShare)] else [], other);
  }

  lemma {:induction false} PaidToAppend(a: seq<Payment>, b: seq<Payment>, id: nat, payee: Payee)
    ensures PaidTo(a + b, id, payee) == PaidTo(a, id, payee) + PaidTo(b, id, payee)
    decreases |b|
  {
    if b == [] {
      assert a + b == a;
    } else {
      PaidToAppend(a, b[..|b| - 1], id, payee);
      assert (a + b)[..|a + b| - 1] == a + b[..|b| - 1];
    }
  }

  lemma PaidToOne(payment: Payment, id: nat, payee: Payee)
    ensures PaidTo([payment], id, payee) == if payment.noteId == id && payment.to == payee then payment.amount else 0
  {
    assert [payment][..0] == [];
  }

  /** The owner gets the balance and the treasury the operator's share. */
  lemma PayoutsPay(payments: seq<Payment>, id: nat, destination: nat, balance: nat, share: nat)
    ensures PaysOut(payments, payments + Payouts(id, destination, balance, share), id, destination, balance, share)
  {
    var user := if balance != 0 then [Payment(id, User(destination), balance)] else [];
    var rest := if share != 0 then [Payment(id, Treasury, share)] else [];
    forall n, payee
      ensures PaidTo(payments + Payouts(id, destination, balance, share), n, payee)
           == PaidTo(payments, n, payee) + (if n == id && payee == User(destination) then balance else if n == id && payee == Treasury then share else 0)
    {
      PaidToAppend(payments, user + rest, n, payee);
      PaidToAppend(user, rest, n, payee);
      PaidToOne(Payment(id, User(destination), balance), n, payee);
      PaidToOne(Payment(id, Treasury, share), n, payee);
    }
  }

  lemma TreasuryPays(payments: seq<Payment>, id: nat, destination: nat, amount: nat)
    ensures PaysOut(payments, payments + [Payment(id, Treasury, amount)], id, destination, 0, amount)
  {
    forall n, payee
      ensures PaidTo(payments + [Payment(id, Treasury, amount)], n, payee) == PaidTo(payments, n, payee) + (if n == id && payee == Treasury then amount else 0)
    {
      PaidToAppend(payments, [Payment(id, Treasury, amount)], n, payee);
      PaidToOne(Payment(id, Treasury, amount), n, payee);
    }
  }

  /** One payee never got more than all together. */
  lemma {:induction false} PaidToBelow(payments: seq<Payment>, id: nat, payee: Payee)
    ensures PaidTo(payments, id, payee) <= PaidFor(payments, id)
  {
    if payments != [] {
      PaidToBelow(payments[..|payments| - 1], id, payee);
    }
  }

  /** Nobody was paid anything for a note that is open. */
  lemma OpenNoteIsUnpaid(cfg: Config, s: VaultState, id: nat)
    requires Solvent(cfg, s) && NoteAt(s, id).status != Closed
    ensures forall payee :: PaidTo(s.payments, id, payee) == 0
  {
    forall payee ensures PaidTo(s.payments, id, payee) == 0 {
      PaidToBelow(s.payments, id, payee);
    }
  }

  /** A finalization pays the pending balance to the pending destination, and the rest of the deposit to the treasury. */
  lemma FinalizePays(cfg: Config, s: VaultState, env: Env, id: nat)
    requires FinalizeEscape(cfg, s, env, id).Done?
    ensures id in s.pending && s.pending[id].finalBalance <= NoteAt(s, id).depositAmount
    ensures PaysOut(s.payments, FinalizeEscape(cfg, s, env, id).state.payments, id, s.pending[id].destination, s.pending[id].finalBalance,
                    NoteAt(s, id).depositAmount - s.pending[id].finalBalance)
  {
    hide PaysOut, Payouts;
    PayoutsPay(s.payments, id, s.pending[id].destination, s.pending[id].finalBalance, NoteAt(s, id).depositAmount - s.pending[id].finalBalance);
  }

  /** What nobody withdrew before the expiry goes to the treasury, all of it, and the owner was never paid. */
  lemma ClaimPaysTreasury(cfg: Config, s: VaultState, env: Env, id: nat, siblings: seq<Word>)
    requires Inv(cfg, s) && ClaimExpired(cfg, s, env, id, siblings).Done?
    ensures var log := ClaimExpired(cfg, s, env, id, siblings).state.payments;
      && PaidTo(log, id, Treasury) == NoteAt(s, id).depositAmount
      && (forall destination :: PaidTo(log, id, User(destination)) == 0)
      && (forall n, payee :: n != id ==> PaidTo(log, n, payee) == PaidTo(s.payments, n, payee))
  {
    hide RootIsTrue, PaidTo;
    OpenNoteIsUnpaid(cfg, s, id);
    TreasuryPays(s.payments, id, 0, NoteAt(s, id).depositAmount);
    forall destination ensures PaidTo(ClaimExpired(cfg, s, env, id, siblings).state.payments, id, User(destination)) == 0 {
      TreasuryPays(s.payments, id, destination, NoteAt(s, id).depositAmount);
    }
  }

  lemma LedgerSplits(before: nat, after: nat, d: nat, unit: nat)
    requires before == after + d
    ensures before * unit == after * unit + d * unit
    ensures after * unit >= 0 && d * unit >= 0
  {
  }

  lemma CloseMovesLedger(cfg: Config, s: VaultState, id: nat)
    requires NotesInOrder(cfg, s) && s.funds == OpenDeposits(s.notes, s.nextNoteId) * Unit(cfg)
    requires id in s.notes && s.notes[id].status in {Active, PendingWithdrawal}
    ensures s.funds >= s.notes[id].depositAmount * Unit(cfg)
    ensures s.funds - s.notes[id].depositAmount * Unit(cfg)
         == OpenDeposits(s.notes[id := s.notes[id].(status := Closed)], s.nextNoteId) * Unit(cfg)
  {
    var closed := s.notes[id].(status := Closed);
    OpenDepositsUpdate(s.notes, s.nextNoteId, id, closed);
    LedgerSplits(OpenDeposits(s.notes, s.nextNoteId), OpenDeposits(s.notes[id := closed], s.nextNoteId), s.notes[id].depositAmount, Unit(cfg));
  }

  /** A note is closed by paying its deposit out of funds that cover it. */
  lemma ClosingStaysSolvent(cfg: Config, s: VaultState, s': VaultState, id: nat, paid: seq<Payment>)
    requires NotesInOrder(cfg, s) && Solvent(cfg, s)
    requires id in s.notes && s.notes[id].status in {Active, PendingWithdrawal}
    requires s'.notes == s.notes[id := s.notes[id].(status := Closed)] && s'.nextNoteId == s.nextNoteId
    requires s'.funds == s.funds - s.notes[id].depositAmount * Unit(cfg)
    requires s'.payments == s.payments + paid
    requires forall other: nat :: PaidFor(paid, other) == if other == id then s.notes[id].depositAmount else 0
    ensures Solvent(cfg, s')
  {
    CloseMovesLedger(cfg, s, id);
    forall other: nat ensures PaidFor(s'.payments, other) == if NoteAt(s', other).status == Closed then NoteAt(s', other).depositAmount else 0 {
      PaidForAppend(s.payments, paid, other);
    }
  }

  /** Rewriting an open note as an open note of the same deposit moves no money. */
  lemma ReopeningStaysSolvent(cfg: Config, s: VaultState, s': VaultState, id: nat, note: Note)
    requires NotesInOrder(cfg, s) && Solvent(cfg, s) && id in s.notes
    requires note.depositAmount == s.notes[id].depositAmount
    requires s.notes[id].status in {Active, PendingWithdrawal} && note.status in {Active, PendingWithdrawal}
    requires s'.notes == s.notes[id := note] && s'.nextNoteId == s.nextNoteId && s'.funds == s.funds && s'.payments == s.payments
    ensures Solvent(cfg, s')
  {
    OpenDepositsUpdate(s.notes, s.nextNoteId, id, note);
    forall other: nat ensures PaidFor(s'.payments, other) == if NoteAt(s', other).status == Closed then NoteAt(s', other).depositAmount else 0 {
      assert PaidFor(s.payments, other) == if NoteAt(s, other).status == Closed then NoteAt(s, other).depositAmount else 0;
    }
  }

  /** A new note is entered together with its deposit. */
  lemma OpeningStaysSolvent(cfg: Config, s: VaultState, s': VaultState, note: Note)
    requires NotesInOrder(cfg, s) && Solvent(cfg, s) && note.status == Active
    requires s'.notes == s.notes[s.nextNoteId := note] && s'.nextNoteId == s.nextNoteId + 1
    requires s'.funds == s.funds + note.depositAmount * Unit(cfg) && s'.payments == s.payments
    ensures Solvent(cfg, s')
  {
    OpenDepositsFrame(s.notes, s'.notes, s.nextNoteId);
    LedgerSplits(OpenDeposits(s'.notes, s'.nextNoteId), OpenDeposits(s.notes, s.nextNoteId), note.depositAmount, Unit(cfg));
    forall other: nat ensures PaidFor(s'.payments, other) == if NoteAt(s', other).status == Closed then NoteAt(s', other).depositAmount else 0 {
      assert PaidFor(s.payments, other) == if NoteAt(s, other).status == Closed then NoteAt(s, other).depositAmount else 0;
    }
  }

  /** Ids stay the numbers below the next one, and pending records those of the pending notes. */
  lemma RecordsKeep(cfg: Config, s: VaultState, s': VaultState, id: nat, note: Note)
    requires NotesInOrder(cfg, s) && PendingMatchesStatus(s)
    requires s'.notes == s.notes[id := note] && s.usedNullifiers <= s'.usedNullifiers
    requires id < s.nextNoteId == s'.nextNoteId || (id == s.nextNoteId && s'.nextNoteId == id + 1 < Pow(2, cfg.depth))
    requires note.status != Uninitialized && 0 < note.depositAmount < U128 && note.expiryTs < U64
    requires s'.pending - {id} == s.pending - {id} && (id in s'.pending <==> note.status == PendingWithdrawal)
    requires id in s'.pending ==> s'.pending[id].finalBalance <= note.depositAmount && s'.pending[id].withdrawalNullifier in s'.usedNullifiers
    ensures NotesInOrder(cfg, s') && PendingMatchesStatus(s')
  {
    forall i: nat ensures (i in s'.pending <==> i in s'.notes && s'.notes[i].status == PendingWithdrawal)
                       && (i in s'.pending ==> s'.pending[i].finalBalance <= NoteAt(s', i).depositAmount && s'.pending[i].withdrawalNullifier in s'.usedNullifiers) {
      if i != id {
        assert i in s.pending <==> i in s.pending - {id};
        assert i in s'.pending <==> i in s'.pending - {id};
        if i in s.pending {
          assert (s.pending - {id})[i] == s.pending[i] && (s'.pending - {id})[i] == s'.pending[i];
        }
      }
    }
  }

  // ---- The entry points ----

  /** Entering a note at the next id, whatever the expiry rounding gave. */
  lemma EnteringKeeps(cfg: Config, s: VaultState, s': VaultState, note: Note, siblings: seq<Word>)
    requires Inv(cfg, s) && |siblings| == cfg.depth && s.nextNoteId + 1 < Pow(2, cfg.depth)
    requires note.status == Active && 0 < note.depositAmount < U128 && note.expiryTs < U64
    requires VerifyAndUpdate(s.currentRoot, s.nextNoteId, ZERO, LeafOf(s.nextNoteId, note), siblings) == (true, s'.currentRoot)
    requires s'.notes == s.notes[s.nextNoteId := note] && s'.nextNoteId == s.nextNoteId + 1
    requires s'.pending == s.pending && s'.usedNullifiers == s.usedNullifiers
    requires s'.funds == s.funds + note.depositAmount * Unit(cfg) && s'.payments == s.payments
    ensures Inv(cfg, s')
  {
    LeafWriteKeepsRoot(cfg, s, s', s.nextNoteId, note, ZERO, siblings);
    RecordsKeep(cfg, s, s', s.nextNoteId, note);
    OpeningStaysSolvent(cfg, s, s', note);
  }

  /** A checked path update that writes the leaf of the new note record keeps the root true. */
  lemma LeafWriteKeepsRoot(cfg: Config, s: VaultState, s': VaultState, id: nat, note: Note, oldLeaf: Felt, siblings: seq<Word>)
    requires RootIsTrue(cfg, s) && |siblings| == cfg.depth && id < Pow(2, cfg.depth)
    requires s'.notes == s.notes[id := note]
    requires VerifyAndUpdate(s.currentRoot, id, oldLeaf, if note.status == Active then LeafOf(id, note) else ZERO, siblings) == (true, s'.currentRoot)
    ensures RootIsTrue(cfg, s')
    ensures oldLeaf == LeafAt(ActiveLeaves(s.notes), ZERO, id)
    ensures Residues(siblings) == TrueSiblings(NODE_HASH, ActiveLeaves(s.notes), ZERO, cfg.depth, id)
  {
    PathCheckIsSound(cfg, ActiveLeaves(s.notes), s.currentRoot, id, oldLeaf, if note.status == Active then LeafOf(id, note) else ZERO, siblings);
    StatusWritesLeaf(cfg.depth, s.notes, id, note);
  }

  /** Closing an Active note: its leaf leaves the tree and its deposit leaves the vault. */
  lemma ClosingActiveKeeps(cfg: Config, s: VaultState, s': VaultState, id: nat, paid: seq<Payment>, siblings: seq<Word>)
    requires Inv(cfg, s) && |siblings| == cfg.depth && id in s.notes && s.notes[id].status == Active
    requires VerifyAndUpdate(s.currentRoot, id, LeafOf(id, s.notes[id]), ZERO, siblings) == (true, s'.currentRoot)
    requires s'.notes == s.notes[id := s.notes[id].(status := Closed)] && s'.nextNoteId == s.nextNoteId
    requires s'.pending == s.pending && s.usedNullifiers <= s'.usedNullifiers
    requires s'.funds == s.funds - s.notes[id].depositAmount * Unit(cfg) && s'.payments == s.payments + paid
    requires forall other: nat :: PaidFor(paid, other) == if other == id then s.notes[id].depositAmount else 0
    ensures Inv(cfg, s')
  {
    LeafWriteKeepsRoot(cfg, s, s', id, s.notes[id].(status := Closed), LeafOf(id, s.notes[id]), siblings);
    RecordsKeep(cfg, s, s', id, s.notes[id].(status := Closed));
    ClosingStaysSolvent(cfg, s, s', id, paid);
  }

  lemma DepositKeeps(cfg: Config, s: VaultState, env: Env, commitment: Word, amount: nat, siblings: seq<Word>, value: nat)
    requires Inv(cfg, s) && |siblings| == cfg.depth && amount < U128
    requires Deposit(cfg, s, env, commitment, amount, siblings, value).Done?
    ensures Inv(cfg, Deposit(cfg, s, env, commitment, amount, siblings, value).state)
  {
    var s' := Deposit(cfg, s, env, commitment, amount, siblings, value).state;
    EnteringKeeps(cfg, s, s', s'.notes[s.nextNoteId], siblings);
  }

  lemma MutualCloseKeeps(cfg: Config, s: VaultState, env: Env, inputs: WithdrawalInputs, siblings: seq<Word>)
    requires Inv(cfg, s) && |siblings| == cfg.depth
    requires MutualClose(cfg, s, env, inputs, siblings).Done?
    ensures Inv(cfg, MutualClose(cfg, s, env, inputs, siblings).state)
  {
    hide PathRoot, Root, OpenDeposits, PaidFor;
    var s' := MutualClose(cfg, s, env, inputs, siblings).state;
    var id, note := inputs.noteId, NoteAt(s, inputs.noteId);
    var paid := Payouts(id, inputs.destination, inputs.finalBalance, note.depositAmount - inputs.finalBalance);
    forall other: nat ensures PaidFor(paid, other) == if other == id then note.depositAmount else 0 {
      PaidForSettlement(id, inputs.destination, inputs.finalBalance, note.depositAmount - inputs.finalBalance, other);
    }
    ClosingActiveKeeps(cfg, s, s', id, paid, siblings);
  }

  lemma InitiateEscapeKeeps(cfg: Config, s: VaultState, env: Env, inputs: WithdrawalInputs, siblings: seq<Word>)
    requires Inv(cfg, s) && |siblings| == cfg.depth
    requires InitiateEscape(cfg, s, env, inputs, siblings).Done?
    ensures Inv(cfg, InitiateEscape(cfg, s, env, inputs, siblings).state)
  {
    hide PathRoot, Root, OpenDeposits, PaidFor;
    var s' := InitiateEscape(cfg, s, env, inputs, siblings).state;
    var id, note := inputs.noteId, NoteAt(s, inputs.noteId);
    LeafWriteKeepsRoot(cfg, s, s', id, note.(status := PendingWithdrawal), LeafOf(id, note), siblings);
    RecordsKeep(cfg, s, s', id, note.(status := PendingWithdrawal));
    ReopeningStaysSolvent(cfg, s, s', id, note.(status := PendingWithdrawal));
  }

  lemma ChallengeEscapeKeeps(cfg: Config, s: VaultState, env: Env, id: nat, inputs: RequestInputs, siblings: seq<Word>)
    requires Inv(cfg, s) && |siblings| == cfg.depth
    requires ChallengeEscape(cfg, s, env, id, inputs, siblings).Done?
    ensures Inv(cfg, ChallengeEscape(cfg, s, env, id, inputs, siblings).state)
  {
    hide PathRoot, Root, OpenDeposits, PaidFor;
    var s' := ChallengeEscape(cfg, s, env, id, inputs, siblings).state;
    var note := NoteAt(s, id);
    LeafWriteKeepsRoot(cfg, s, s', id, note.(status := Active), ZERO, siblings);
    RecordsKeep(cfg, s, s', id, note.(status := Active));
    ReopeningStaysSolvent(cfg, s, s', id, note.(status := Active));
  }

  /** Finalizing needs no path: the leaf left the tree when the escape began. */
  lemma FinalizeEscapeKeeps(cfg: Config, s: VaultState, env: Env, id: nat)
    requires Inv(cfg, s)
    requires FinalizeEscape(cfg, s, env, id).Done?
    ensures Inv(cfg, FinalizeEscape(cfg, s, env, id).state)
  {
    hide PathRoot, Root, OpenDeposits, PaidFor;
    var s' := FinalizeEscape(cfg, s, env, id).state;
    var note, pending := NoteAt(s, id), s.pending[id];
    assert ActiveLeaves(s'.notes) == ActiveLeaves(s.notes);
    RecordsKeep(cfg, s, s', id, note.(status := Closed));
    var paid := Payouts(id, pending.destination, pending.finalBalance, note.depositAmount - pending.finalBalance);
    forall other: nat ensures PaidFor(paid, other) == if other == id then note.depositAmount else 0 {
      PaidForSettlement(id, pending.destination, pending.finalBalance, note.depositAmount - pending.finalBalance, other);
    }
    ClosingStaysSolvent(cfg, s, s', id, paid);
  }

  lemma ClaimExpiredKeeps(cfg: Config, s: VaultState, env: Env, id: nat, siblings: seq<Word>)
    requires Inv(cfg, s) && |siblings| == cfg.depth
    requires ClaimExpired(cfg, s, env, id, siblings).Done?
    ensures Inv(cfg, ClaimExpired(cfg, s, env, id, siblings).state)
  {
    var note := NoteAt(s, id);
    var paid := [Payment(id, Treasury, note.depositAmount)];
    assert paid[..0] == [];
    assert forall other: nat :: PaidFor(paid, other) == if other == id then note.depositAmount else 0;
    ClosingActiveKeeps(cfg, s, ClaimExpired(cfg, s, env, id, siblings).state, id, paid, siblings);
  }

  /** Every call with adversarial arguments keeps root, statuses and ledger right. */
  lemma StepKeepsInv(cfg: Config, s: VaultState, env: Env, call: Call)
    requires Inv(cfg, s) && WellTyped(cfg, call)
    requires Step(cfg, s, env, call).Done?
    ensures Inv(cfg, Step(cfg, s, env, call).state)
  {
    match call
    case CallDeposit(commitment, amount, siblings, value) => DepositKeeps(cfg, s, env, commitment, amount, siblings, value);
    case CallMutualClose(inputs, siblings) => MutualCloseKeeps(cfg, s, env, inputs, siblings);
    case CallInitiateEscape(inputs, siblings) => InitiateEscapeKeeps(cfg, s, env, inputs, siblings);
    case CallChallengeEscape(id, inputs, siblings) => ChallengeEscapeKeeps(cfg, s, env, id, inputs, siblings);
    case CallFinalizeEscape(id) => FinalizeEscapeKeeps(cfg, s, env, id);
    case CallClaimExpired(id, siblings) => ClaimExpiredKeeps(cfg, s, env, id, siblings);
  }

  // ---- Whole runs ----

  datatype Tx = Tx(env: Env, call: Call)

  function Run(cfg: Config, s: VaultState, txs: seq<Tx>): (VaultState, seq<Event>) {
    if txs == [] then (s, [])
    else
      var (mid, events) := Run(cfg, s, txs[..|txs| - 1]);
      var last := txs[|txs| - 1];
      match Step(cfg, mid, last.env, last.call)
      case Done(next, event) => (next, events + [event])
      case Revert(_) => (mid, events)
  }

  ghost predicate TypedRun(cfg: Config, txs: seq<Tx>) {
    forall k :: 0 <= k < |txs| ==> WellTyped(cfg, txs[k].call)
  }

  lemma {:induction false} RunKeepsInv(cfg: Config, txs: seq<Tx>)
    requires TypedRun(cfg, txs)
    ensures Inv(cfg, Run(cfg, InitialState(cfg), txs).0)
  {
    if txs == [] {
    } else {
      RunKeepsInv(cfg, txs[..|txs| - 1]);
      var mid := Run(cfg, InitialState(cfg), txs[..|txs| - 1]).0;
      var last := txs[|txs| - 1];
      if Step(cfg, mid, last.env, last.call).Done? {
        StepKeepsInv(cfg, mid, last.env, last.call);
      }
    }
  }

  /** Payouts never fail for lack of money or by underflow: an open note can always be paid in full. */
  lemma OpenNotesAreCovered(cfg: Config, s: VaultState, id: nat)
    requires Inv(cfg, s) && id in s.notes && s.notes[id].status in {Active, PendingWithdrawal}
    ensures s.funds >= s.notes[id].depositAmount * Unit(cfg)
    ensures id in s.pending ==> s.pending[id].finalBalance <= s.notes[id].depositAmount
  {
    CloseMovesLedger(cfg, s, id);
  }

  /** What a note was deposited with never changes, ids are never reused, and Closed is final. */
  lemma StepKeepsNotes(cfg: Config, s: VaultState, env: Env, call: Call)
    requires NotesInOrder(cfg, s)
    requires Step(cfg, s, env, call).Done?
    ensures var s' := Step(cfg, s, env, call).state;
      && s.nextNoteId <= s'.nextNoteId && s.usedNullifiers <= s'.usedNullifiers
      && (forall id :: id in s.notes ==>
            && id in s'.notes
            && s'.notes[id].(status := s.notes[id].status) == s.notes[id]
            && (s.notes[id].status == Closed ==> s'.notes[id].status == Closed))
  {
  }

  /** How often an event of the log opened a withdrawal under this nullifier. */
  function Withdrawals(events: seq<Event>, nullifier: Felt): nat {
    if events == [] then 0
    else
      var last := events[|events| - 1];
      Withdrawals(events[..|events| - 1], nullifier)
      + (if (last.MutualClosed? || last.EscapeInitiated?) && last.nullifier == nullifier then 1 else 0)
  }

  /** A successful call burns the nullifier of the withdrawal it opens, which was fresh, and no other. */
  lemma StepBurns(cfg: Config, s: VaultState, env: Env, call: Call)
    requires Step(cfg, s, env, call).Done?
    ensures var Done(s', event) := Step(cfg, s, env, call);
      if event.MutualClosed? || event.EscapeInitiated? then
        event.nullifier !in s.usedNullifiers && s'.usedNullifiers == s.usedNullifiers + {event.nullifier}
      else
        s'.usedNullifiers == s.usedNullifiers
  {
  }

  /** A nullifier opens at most one withdrawal in any run, challenged or not. */
  lemma {:induction false} NullifierBurnsOnce(cfg: Config, txs: seq<Tx>, nullifier: Felt)
    ensures var (s, events) := Run(cfg, InitialState(cfg), txs);
      Withdrawals(events, nullifier) == if nullifier in s.usedNullifiers then 1 else 0
  {
    if txs != [] {
      NullifierBurnsOnce(cfg, txs[..|txs| - 1], nullifier);
      var (mid, events) := Run(cfg, InitialState(cfg), txs[..|txs| - 1]);
      var last := txs[|txs| - 1];
      var outcome := Step(cfg, mid, last.env, last.call);
      if outcome.Done? {
        StepBurns(cfg, mid, last.env, last.call);
        assert (events + [outcome.event])[..|events|] == events;
      }
    }
  }
}
