/** The indexer's mirror of the vault tree, driven by events alone.

    It never sees the storage of the contract; replaying what the contract emitted keeps
    its tree equal to the one the stored root commits to, and so the paths it serves pass. */
module Indexer {
  import opened Powers
  import opened Felts
  import opened Merkle
  import opened SparseTree
  import opened VaultSpec
  import opened VaultInvariant

  datatype Mirror = Mirror(leaves: map<nat, Felt>, originals: map<nat, Felt>)

  const EMPTY_MIRROR: Mirror := Mirror(map[], map[])

  /** One event, on values. */
  function Replay(m: Mirror, event: Event): Mirror {
    match event
    case NoteDeposited(id, commitment, amount, expiry, _) =>
      var leaf := Leaf(id, commitment, amount, expiry);
      Mirror(m.leaves[id := leaf], m.originals[id := leaf])
    case MutualClosed(id, _, _) => m.(leaves := m.leaves[id := ZERO])
    case EscapeInitiated(id, _, _, _, _) => m.(leaves := m.leaves[id := ZERO])
    case EscapeChallenged(id, _, _) => if id in m.originals then m.(leaves := m.leaves[id := m.originals[id]]) else m
    case EscapeFinalized(_, _, _) => m
    case ExpiredClaimed(id, _, _) => m.(leaves := m.leaves[id := ZERO])
  }

  class TreeMirror {
    const tree: MerkleTree<Felt>
    var originalLeaves: map<nat, Felt>

    ghost predicate Valid()
      reads this, tree
    {
      tree.Valid() && tree.h == NODE_HASH && tree.zero == ZERO
    }

    ghost function View(): Mirror
      reads this, tree
      requires Valid()
    {
      Mirror(tree.Leaves(), originalLeaves)
    }

    constructor (depth: nat)
      ensures Valid() && fresh(tree) && tree.depth == depth && View() == EMPTY_MIRROR
    {
      tree := new MerkleTree<Felt>(NODE_HASH, ZERO, depth);
      originalLeaves := map[];
    }

    method ProcessEvent(event: Event)
      requires Valid()
      modifies this, tree
      ensures Valid() && View() == Replay(old(View()), event)
    {
      match event {
        case NoteDeposited(noteId, commitment, amount, expiryTs, _) =>
          var leaf := Leaf(noteId, commitment, amount, expiryTs);
          tree.SetLeaf(noteId, leaf);
          originalLeaves := originalLeaves[noteId := leaf];
        case MutualClosed(noteId, _, _) =>
          tree.SetLeaf(noteId, ZERO);
        case EscapeInitiated(noteId, _, _, _, _) =>
          tree.SetLeaf(noteId, ZERO);
        case EscapeChallenged(noteId, _, _) =>
          if noteId in originalLeaves {
            tree.SetLeaf(noteId, originalLeaves[noteId]);
          }
        case EscapeFinalized(_, _, _) =>
        case ExpiredClaimed(noteId, _, _) =>
          tree.SetLeaf(noteId, ZERO);
      }
    }

    method GetPath(noteId: nat) returns (siblings: seq<Felt>)
      requires Valid()
      ensures siblings == ServedPath(View(), tree.depth, noteId)
    {
      siblings := tree.GetSiblings(noteId);
    }
  }

  function ServedPath(m: Mirror, depth: nat, id: nat): seq<Felt> {
    TrueSiblings(NODE_HASH, m.leaves, ZERO, depth, id)
  }

  /** The mirror holds the leaves of the Active notes, and remembers every leaf ever deposited. */
  ghost predicate Synced(s: VaultState, m: Mirror) {
    && (forall i: nat :: LeafAt(m.leaves, ZERO, i) == LeafAt(ActiveLeaves(s.notes), ZERO, i))
    && (forall id :: id in s.notes ==> id in m.originals && m.originals[id] == LeafOf(id, s.notes[id]))
  }

  /** What an event says of the one note record its call rewrote. */
  ghost predicate Describes(s: VaultState, s': VaultState, event: Event) {
    var id := event.noteId;
    && id in s'.notes && s'.notes == s.notes[id := s'.notes[id]]
    && (if event.NoteDeposited? then
          id !in s.notes && s'.notes[id] == Note(event.commitment, event.amount, event.expiryTs, Active)
        else
          && id in s.notes
          && (event.EscapeFinalized? || event.EscapeChallenged? ==> s.notes[id].status == PendingWithdrawal)
          && s'.notes[id] == s.notes[id].(status :=
               if event.EscapeInitiated? then PendingWithdrawal else if event.EscapeChallenged? then Active else Closed))
  }

  /** Events are truthful and complete. */
  lemma StepDescribed(cfg: Config, s: VaultState, env: Env, call: Call)
    requires NotesInOrder(cfg, s)
    requires Step(cfg, s, env, call).Done?
    ensures Describes(s, Step(cfg, s, env, call).state, Step(cfg, s, env, call).event)
  {
  }

  /** Rewriting one record writes one leaf. */
  lemma RecordWritesLeaf(notes: map<nat, Note>, id: nat, note: Note, i: nat)
    ensures LeafAt(ActiveLeaves(notes[id := note]), ZERO, i)
         == if i != id then LeafAt(ActiveLeaves(notes), ZERO, i) else if note.status == Active then LeafOf(id, note) else ZERO
  {
  }

  /** So does every event, of the leaf that its record then stands for. */
  lemma EventWritesLeaf(s: VaultState, s': VaultState, event: Event, m: Mirror, i: nat)
    requires Synced(s, m) && Describes(s, s', event)
    ensures LeafAt(Replay(m, event).leaves, ZERO, i)
         == if i != event.noteId then LeafAt(m.leaves, ZERO, i)
            else if s'.notes[i].status == Active then LeafOf(i, s'.notes[i]) else ZERO
  {
    hide ActiveLeaves;
    if event.EscapeFinalized? {
      RecordWritesLeaf(s.notes, event.noteId, s.notes[event.noteId], event.noteId);
      assert s.notes[event.noteId := s.notes[event.noteId]] == s.notes;
      assert LeafAt(m.leaves, ZERO, event.noteId) == LeafAt(ActiveLeaves(s.notes), ZERO, event.noteId);
    }
  }

  lemma EventRemembersLeaves(s: VaultState, s': VaultState, event: Event, m: Mirror)
    requires (forall id :: id in s.notes ==> id in m.originals && m.originals[id] == LeafOf(id, s.notes[id])) && Describes(s, s', event)
    ensures forall id :: id in s'.notes ==> id in Replay(m, event).originals && Replay(m, event).originals[id] == LeafOf(id, s'.notes[id])
  {
  }

  lemma EventKeepsSync(s: VaultState, s': VaultState, event: Event, m: Mirror)
    requires Synced(s, m) && Describes(s, s', event)
    ensures Synced(s', Replay(m, event))
  {
    hide ActiveLeaves, LeafAt, Replay;
    EventRemembersLeaves(s, s', event, m);
    forall i: nat ensures LeafAt(Replay(m, event).leaves, ZERO, i) == LeafAt(ActiveLeaves(s'.notes), ZERO, i) {
      EventWritesLeaf(s, s', event, m, i);
      RecordWritesLeaf(s.notes, event.noteId, s'.notes[event.noteId], i);
    }
  }

  /** Each successful call and its event move vault and mirror alike. */
  lemma StepKeepsSync(cfg: Config, s: VaultState, env: Env, call: Call, m: Mirror)
    requires Inv(cfg, s) && Synced(s, m)
    requires Step(cfg, s, env, call).Done?
    ensures Synced(Step(cfg, s, env, call).state, Replay(m, Step(cfg, s, env, call).event))
  {
    StepDescribed(cfg, s, env, call);
    EventKeepsSync(s, Step(cfg, s, env, call).state, Step(cfg, s, env, call).event, m);
  }

  function ReplayAll(events: seq<Event>): Mirror {
    if events == [] then EMPTY_MIRROR else Replay(ReplayAll(events[..|events| - 1]), events[|events| - 1])
  }

  lemma {:induction false} RunKeepsSync(cfg: Config, txs: seq<Tx>)
    requires TypedRun(cfg, txs)
    ensures var (s, events) := Run(cfg, InitialState(cfg), txs); Synced(s, ReplayAll(events))
  {
    if txs == [] {
    } else {
      RunKeepsSync(cfg, txs[..|txs| - 1]);
      RunKeepsInv(cfg, txs[..|txs| - 1]);
      var (mid, events) := Run(cfg, InitialState(cfg), txs[..|txs| - 1]);
      var last := txs[|txs| - 1];
      var outcome := Step(cfg, mid, last.env, last.call);
      if outcome.Done? {
        StepKeepsSync(cfg, mid, last.env, last.call, ReplayAll(events));
        assert (events + [outcome.event])[..|events|] == events;
      }
    }
  }

  /** After any run the mirror's root is the stored root. */
  lemma MirrorRootIsVaultRoot(cfg: Config, txs: seq<Tx>)
    requires TypedRun(cfg, txs)
    ensures var (s, events) := Run(cfg, InitialState(cfg), txs);
      Root(NODE_HASH, ReplayAll(events).leaves, ZERO, cfg.depth) == s.currentRoot
  {
    RunKeepsSync(cfg, txs);
    RunKeepsInv(cfg, txs);
    var (s, events) := Run(cfg, InitialState(cfg), txs);
    SameLeavesSameNodes(NODE_HASH, ReplayAll(events).leaves, ActiveLeaves(s.notes), ZERO, cfg.depth, 0);
  }

  /** The note whose path a call has to show. */
  function SubjectOf(s: VaultState, call: Call): nat {
    match call
    case CallDeposit(_, _, _, _) => s.nextNoteId
    case CallMutualClose(w, _) => w.noteId
    case CallInitiateEscape(w, _) => w.noteId
    case CallChallengeEscape(id, _, _) => id
    case CallFinalizeEscape(id) => id
    case CallClaimExpired(id, _) => id
  }

  /** A call that uses the mirror's root and a path the mirror serves is never refused as stale. */
  lemma ServedPathIsAccepted(cfg: Config, s: VaultState, m: Mirror, env: Env, call: Call)
    requires Inv(cfg, s) && Synced(s, m) && WellTyped(cfg, call)
    requires !call.CallFinalizeEscape? ==> Residues(call.siblings) == ServedPath(m, cfg.depth, SubjectOf(s, call))
    requires call.CallMutualClose? || call.CallInitiateEscape? ==> call.withdrawal.activeRoot == Root(NODE_HASH, m.leaves, ZERO, cfg.depth)
    ensures Step(cfg, s, env, call) != Revert(StaleRoot)
  {
    if !call.CallFinalizeEscape? {
      var id := SubjectOf(s, call);
      var leaves := ActiveLeaves(s.notes);
      SameLeavesSameNodes(NODE_HASH, m.leaves, leaves, ZERO, cfg.depth, 0);
      ServedPathIsTrue(cfg.depth, m.leaves, leaves, id);
      PathOpensRoot(NODE_HASH, leaves, ZERO, cfg.depth, id);
      OpeningPathIsNotStale(cfg, s, env, call, LeafAt(leaves, ZERO, id));
    }
  }

  /** The only way to be refused as stale is a wrong root or a path that does not open it. */
  lemma OpeningPathIsNotStale(cfg: Config, s: VaultState, env: Env, call: Call, leaf: Felt)
    requires !call.CallFinalizeEscape? && NotesInOrder(cfg, s)
    requires leaf == LeafAt(ActiveLeaves(s.notes), ZERO, SubjectOf(s, call))
    requires PathRoot(NODE_HASH, SubjectOf(s, call), leaf, Residues(call.siblings)) == s.currentRoot
    requires call.CallMutualClose? || call.CallInitiateEscape? ==> call.withdrawal.activeRoot == s.currentRoot
    ensures Step(cfg, s, env, call) != Revert(StaleRoot)
  {
    var id := SubjectOf(s, call);
    match call
    case CallDeposit(commitment, amount, siblings, value) =>
      assert id !in s.notes;
    case CallMutualClose(inputs, siblings) =>
      assert NoteAt(s, id).status == Active ==> leaf == LeafOf(id, NoteAt(s, id));
    case CallInitiateEscape(inputs, siblings) =>
      assert NoteAt(s, id).status == Active ==> leaf == LeafOf(id, NoteAt(s, id));
    case CallChallengeEscape(_, inputs, siblings) =>
      assert NoteAt(s, id).status == PendingWithdrawal ==> leaf == ZERO;
    case CallFinalizeEscape(_) =>
    case CallClaimExpired(_, siblings) =>
      assert NoteAt(s, id).status == Active ==> leaf == LeafOf(id, NoteAt(s, id));
  }

  lemma ServedPathIsTrue(depth: nat, a: map<nat, Felt>, b: map<nat, Felt>, id: nat)
    requires forall i: nat :: LeafAt(a, ZERO, i) == LeafAt(b, ZERO, i)
    ensures TrueSiblings(NODE_HASH, a, ZERO, depth, id) == TrueSiblings(NODE_HASH, b, ZERO, depth, id)
  {
    forall k | 0 <= k < depth
      ensures NodeAt(NODE_HASH, a, ZERO, k, Sibling(Shift(id, k))) == NodeAt(NODE_HASH, b, ZERO, k, Sibling(Shift(id, k)))
    {
      SameLeavesSameNodes(NODE_HASH, a, b, ZERO, k, Sibling(Shift(id, k)));
    }
  }

  datatype TreeSnapshot = TreeSnapshot(root: Felt, nextNoteId: nat, leaves: seq<Felt>)
  datatype PathResult = Path(activeRoot: Felt, noteId: nat, siblings: seq<Felt>) | BadLeafCount | BadNoteIndex | BadRoot

  function SnapshotLeaves(leaves: seq<Felt>): map<nat, Felt> {
    map i: nat | i < |leaves| :: leaves[i]
  }

  /** The browser rebuilds the whole tree from a snapshot and serves a path only under a root it checked. */
  method TreePath(depth: nat, snapshot: TreeSnapshot, noteId: nat, requireExisting: bool) returns (result: PathResult)
    ensures result.BadLeafCount? <==> |snapshot.leaves| != snapshot.nextNoteId
    ensures result.BadNoteIndex? <==> !result.BadLeafCount? && !(if requireExisting then noteId < snapshot.nextNoteId else noteId == snapshot.nextNoteId)
    ensures result.BadRoot? <==> !result.BadLeafCount? && !result.BadNoteIndex?
                                 && snapshot.root != Root(NODE_HASH, SnapshotLeaves(snapshot.leaves), ZERO, depth)
    ensures result.Path? ==>
      && result == Path(snapshot.root, noteId, TrueSiblings(NODE_HASH, SnapshotLeaves(snapshot.leaves), ZERO, depth, noteId))
      && (noteId < Pow(2, depth) ==> PathRoot(NODE_HASH, noteId, if requireExisting then snapshot.leaves[noteId] else ZERO, result.siblings) == snapshot.root)
  {
    if |snapshot.leaves| != snapshot.nextNoteId { return BadLeafCount; }
    if (requireExisting && noteId >= snapshot.nextNoteId) || (!requireExisting && noteId != snapshot.nextNoteId) { return BadNoteIndex; }
    var tree := new MerkleTree<Felt>(NODE_HASH, ZERO, depth);
    for index := 0 to |snapshot.leaves|
      invariant tree.Valid() && tree.h == NODE_HASH && tree.zero == ZERO && tree.depth == depth && fresh(tree)
      invariant tree.Leaves() == SnapshotLeaves(snapshot.leaves[..index])
    {
      tree.SetLeaf(index, snapshot.leaves[index]);
    }
    assert snapshot.leaves[..|snapshot.leaves|] == snapshot.leaves;
    if tree.RootHash() != snapshot.root { return BadRoot; }
    var siblings := tree.GetSiblings(noteId);
    result := Path(snapshot.root, noteId, siblings);
  }
}
