/** Durable leaf reservation: many signer processes over one database, any of which may die
    between reserving a leaf and signing with it.

    The stored counter moves before anything is signed, so a crash burns a leaf and no leaf
    of a tree signs twice (`OneMessagePerLeaf`); that holds across the two trees of a signer
    exactly when they are different trees (`LeavesSafeIff`). */
module Signer {
  import opened Powers
  import opened Wrappers
  import opened Felts
  import X = Xmss
  import Merkle

  datatype Tree = State | Clear

  datatype TreeRow = TreeRow(epoch: nat, root: Felt, nextLeaf: nat)

  type Rows = map<Tree, TreeRow>

  datatype SignerError = Mismatch | Database | CapacityExhausted

  // ---- The stored counters ----

  function AfterEnsure(rows: Rows, tree: Tree, epoch: nat, root: Felt): (Rows, Result<(), SignerError>) {
    if tree !in rows then (rows[tree := TreeRow(epoch, root, 0)], Ok(()))
    else if rows[tree].epoch == epoch && rows[tree].root == root then (rows, Ok(()))
    else (rows, Err(Mismatch))
  }

  function AfterReserve(rows: Rows, tree: Tree, epoch: nat, root: Felt, capacity: nat): (Rows, Result<nat, SignerError>) {
    if tree !in rows then (rows, Err(Database))
    else if rows[tree].epoch != epoch || rows[tree].root != root then (rows, Err(Mismatch))
    else if rows[tree].nextLeaf >= capacity then (rows, Err(CapacityExhausted))
    else (rows[tree := rows[tree].(nextLeaf := rows[tree].nextLeaf + 1)], Ok(rows[tree].nextLeaf))
  }

  class SignerStateStore {
    var rows: Rows

    constructor ()
      ensures rows == map[]
    {
      rows := map[];
    }

    method EnsureTree(tree: Tree, epoch: nat, root: Felt) returns (result: Result<(), SignerError>)
      modifies this
      ensures (rows, result) == AfterEnsure(old(rows), tree, epoch, root)
      ensures result.Ok? <==> (tree in old(rows) ==> old(rows)[tree].epoch == epoch && old(rows)[tree].root == root)
      ensures rows == if tree in old(rows) then old(rows) else old(rows)[tree := TreeRow(epoch, root, 0)]
    {
      if tree in rows {
        var row := rows[tree];
        if row.epoch == epoch && row.root == root {
          return Ok(());
        }
        return Err(Mismatch);
      }
      rows := rows[tree := TreeRow(epoch, root, 0)];
      result := Ok(());
    }

    /** One transaction: read, check, advance. */
    method ReserveLeaf(tree: Tree, epoch: nat, root: Felt, capacity: nat) returns (result: Result<nat, SignerError>)
      modifies this
      ensures (rows, result) == AfterReserve(old(rows), tree, epoch, root, capacity)
      ensures result.Ok? <==>
        tree in old(rows) && old(rows)[tree].epoch == epoch && old(rows)[tree].root == root && old(rows)[tree].nextLeaf < capacity
      ensures result.Ok? ==> result.value == old(rows)[tree].nextLeaf && rows == old(rows)[tree := TreeRow(epoch, root, result.value + 1)]
      ensures result.Err? ==> rows == old(rows)
    {
      if tree !in rows {
        return Err(Database);
      }
      var row := rows[tree];
      if row.epoch != epoch || row.root != root {
        return Err(Mismatch);
      }
      var next := row.nextLeaf;
      if next >= capacity {
        return Err(CapacityExhausted);
      }
      rows := rows[tree := TreeRow(row.epoch, row.root, next + 1)];
      result := Ok(next);
    }
  }

  /** sign_next_state and sign_clearance on a durable signer: the leaf is taken from the store before the
      message is built, and the signature is that leaf's. */
  method SignNext(store: SignerStateStore, key: X.XmssKeypair<Felt>, tree: Tree, epoch: nat, root: Felt, buildMessage: nat -> Felt)
    returns (result: Result<(X.Signature<Felt>, nat, Felt), SignerError>)
    requires key.Valid() && root == key.root
    modifies store, key`nextIndex
    ensures key.Valid()
    ensures var reserved := AfterReserve(old(store.rows), tree, epoch, root, Pow(2, key.height));
      && store.rows == reserved.0
      && (reserved.1.Err? ==> result == Err(reserved.1.error))
      && (reserved.1.Ok? ==>
            var leaf := reserved.1.value;
            result == Ok((X.SignatureOf(key.s, key.seed, key.height, leaf, buildMessage(leaf)), leaf, buildMessage(leaf))))
  {
    var leaf := store.ReserveLeaf(tree, epoch, root, Pow(2, key.height));
    if leaf.Err? {
      return Err(leaf.error);
    }
    var message := buildMessage(leaf.value);
    var signature := key.SignReserved(leaf.value, message);
    if signature.None? {
      return Err(CapacityExhausted);
    }
    result := Ok((signature.value, leaf.value, message));
  }

  // ---- Processes ----

  datatype Config = Config(epoch: nat, stateRoot: Felt, clearRoot: Felt, capacity: nat)

  function RootOf(c: Config, tree: Tree): Felt { if tree.State? then c.stateRoot else c.clearRoot }

  datatype Process =
    | Opening(config: Config)
    | Idle(config: Config)
    | Holding(config: Config, tree: Tree, leaf: nat)

  /** One use of a leaf: what was signed, under which root, by a tree of what size. */
  datatype Use = Use(tree: Tree, root: Felt, leaf: nat, message: Felt, capacity: nat)

  datatype History = History(rows: Rows, processes: map<nat, Process>, uses: set<Use>)

  datatype Event =
    | Open(process: nat, config: Config)
    | FinishOpening(process: nat)
    | Reserve(process: nat, tree: Tree)
    | SignHeld(process: nat, message: Felt)
    | Crash(process: nat)

  const FRESH: History := History(map[], map[], {})

  predicate Enabled(h: History, e: Event) {
    match e
    case Open(k, _) => k !in h.processes
    case FinishOpening(k) => k in h.processes && h.processes[k].Opening?
    case Reserve(k, _) => k in h.processes && h.processes[k].Idle?
    case SignHeld(k, _) => k in h.processes && h.processes[k].Holding?
    case Crash(k) => k in h.processes
  }

  function Next(h: History, e: Event): History
    requires Enabled(h, e)
  {
    match e
    case Open(k, c) =>
      var (rows, result) := AfterEnsure(h.rows, State, c.epoch, c.stateRoot);
      if result.Err? then h else h.(rows := rows, processes := h.processes[k := Opening(c)])
    case FinishOpening(k) =>
      var c := h.processes[k].config;
      var (rows, result) := AfterEnsure(h.rows, Clear, c.epoch, c.clearRoot);
      if result.Err? then h.(processes := h.processes - {k}) else h.(rows := rows, processes := h.processes[k := Idle(c)])
    case Reserve(k, tree) =>
      var c := h.processes[k].config;
      var (rows, result) := AfterReserve(h.rows, tree, c.epoch, RootOf(c, tree), c.capacity);
      if result.Err? then h else h.(rows := rows, processes := h.processes[k := Holding(c, tree, result.value)])
    case SignHeld(k, message) =>
      var Holding(c, tree, leaf) := h.processes[k];
      h.(uses := h.uses + {Use(tree, RootOf(c, tree), leaf, message, c.capacity)}, processes := h.processes[k := Idle(c)])
    case Crash(k) => h.(processes := h.processes - {k})
  }

  // ---- The invariant ----

  predicate LeafIsTaken(rows: Rows, tree: Tree, root: Felt, leaf: nat) {
    tree in rows && rows[tree].root == root && leaf < rows[tree].nextLeaf
  }

  predicate ProcessIsSound(h: History, k: nat)
    requires k in h.processes
  {
    h.processes[k].Holding? ==>
      var Holding(c, tree, leaf) := h.processes[k];
      && LeafIsTaken(h.rows, tree, RootOf(c, tree), leaf) && leaf < c.capacity
      && (forall use :: use in h.uses && use.tree == tree ==> use.leaf != leaf)
  }

  predicate HeldApart(h: History) {
    forall k, l :: k in h.processes && l in h.processes && k != l && h.processes[k].Holding? && h.processes[l].Holding? ==>
      h.processes[k].tree == h.processes[l].tree ==> h.processes[k].leaf != h.processes[l].leaf
  }

  predicate UsesAreSound(h: History) {
    && (forall use :: use in h.uses ==> LeafIsTaken(h.rows, use.tree, use.root, use.leaf) && use.leaf < use.capacity)
    && (forall a, b :: a in h.uses && b in h.uses && a.tree == b.tree && a.leaf == b.leaf ==> a == b)
  }

  predicate Inv(h: History) {
    (forall k :: k in h.processes ==> ProcessIsSound(h, k)) && HeldApart(h) && UsesAreSound(h)
  }

  /** Stored trees never change and their counters never fall. */
  predicate CountersGrow(rows: Rows, rows': Rows) {
    forall tree :: tree in rows ==>
      tree in rows' && rows'[tree].epoch == rows[tree].epoch && rows'[tree].root == rows[tree].root && rows[tree].nextLeaf <= rows'[tree].nextLeaf
  }

  lemma EventGrowsCounters(h: History, e: Event)
    requires Enabled(h, e)
    ensures CountersGrow(h.rows, Next(h, e).rows)
  {
  }

  lemma ReserveKeeps(h: History, k: nat, tree: Tree)
    requires Inv(h) && Enabled(h, Reserve(k, tree))
    ensures Inv(Next(h, Reserve(k, tree)))
  {
    var h' := Next(h, Reserve(k, tree));
    var c := h.processes[k].config;
    if AfterReserve(h.rows, tree, c.epoch, RootOf(c, tree), c.capacity).1.Ok? {
      var leaf := h.rows[tree].nextLeaf;
      forall l | l in h'.processes ensures ProcessIsSound(h', l) {
        if l != k { assert ProcessIsSound(h, l); }
      }
      forall l | l in h.processes && l != k && h.processes[l].Holding? && h.processes[l].tree == tree ensures h.processes[l].leaf != leaf {
        assert ProcessIsSound(h, l);
      }
    }
  }

  lemma SignKeeps(h: History, k: nat, message: Felt)
    requires Inv(h) && Enabled(h, SignHeld(k, message))
    ensures Inv(Next(h, SignHeld(k, message)))
  {
  }

  lemma StartAndCrashKeep(h: History, e: Event)
    requires Inv(h) && Enabled(h, e) && (e.Open? || e.FinishOpening? || e.Crash?)
    ensures Inv(Next(h, e))
  {
    hide AfterReserve;
    var h' := Next(h, e);
    forall l | l in h'.processes ensures ProcessIsSound(h', l) {
      assert l in h.processes ==> ProcessIsSound(h, l);
    }
  }

  lemma EventKeepsInv(h: History, e: Event)
    requires Inv(h) && Enabled(h, e)
    ensures Inv(Next(h, e))
  {
    hide Inv;
    match e
    case Reserve(k, tree) => ReserveKeeps(h, k, tree);
    case SignHeld(k, message) => SignKeeps(h, k, message);
    case _ => StartAndCrashKeep(h, e);
  }

  // ---- Whole histories ----

  /** The events lead from an empty database to `h`. */
  ghost predicate Runs(events: seq<Event>, h: History)
    decreases |events|, 0
  {
    if events == [] then h == FRESH else RunsThenSteps(events[..|events| - 1], events[|events| - 1], h)
  }

  ghost predicate RunsThenSteps(before: seq<Event>, e: Event, h: History)
    decreases |before|, 1
  {
    exists h0 :: Runs(before, h0) && Enabled(h0, e) && h == Next(h0, e)
  }

  lemma {:induction false} RunKeepsInv(events: seq<Event>, h: History)
    requires Runs(events, h)
    ensures Inv(h)
    decreases |events|
  {
    if events != [] {
      var before, e := events[..|events| - 1], events[|events| - 1];
      assert RunsThenSteps(before, e, h);
      var h0 :| Runs(before, h0) && Enabled(h0, e) && h == Next(h0, e);
      RunKeepsInv(before, h0);
      EventKeepsInv(h0, e);
    }
  }

  /** However signers start, die and restart, a leaf of a tree signs one message, and every used leaf is
      below the stored counter and the capacity. */
  lemma OneMessagePerLeaf(events: seq<Event>, h: History, a: Use, b: Use)
    requires Runs(events, h) && a in h.uses && b in h.uses && a.tree == b.tree && a.leaf == b.leaf
    ensures a == b
    ensures a.tree in h.rows && a.root == h.rows[a.tree].root && a.leaf < h.rows[a.tree].nextLeaf && a.leaf < a.capacity
  {
    RunKeepsInv(events, h);
    assert LeafIsTaken(h.rows, a.tree, a.root, a.leaf);
  }

  // ---- The two trees of one signer ----

  /** One tree signed two messages with one leaf. */
  ghost predicate LeafReused(h: History) {
    exists a, b :: a in h.uses && b in h.uses && a.root == b.root && a.leaf == b.leaf && a.message != b.message
  }

  predicate OnlyConfig(events: seq<Event>, c: Config) {
    forall i :: 0 <= i < |events| && events[i].Open? ==> events[i].config == c
  }

  predicate Configured(h: History, c: Config) {
    && (forall k :: k in h.processes ==> h.processes[k].config == c)
    && (forall use :: use in h.uses ==> use.root == RootOf(c, use.tree))
  }

  lemma {:induction false} ConfigIsKept(events: seq<Event>, h: History, c: Config)
    requires Runs(events, h) && OnlyConfig(events, c)
    ensures Configured(h, c)
    decreases |events|
  {
    if events != [] {
      var before, e := events[..|events| - 1], events[|events| - 1];
      assert RunsThenSteps(before, e, h);
      var h0 :| Runs(before, h0) && Enabled(h0, e) && h == Next(h0, e);
      ConfigIsKept(before, h0, c);
      assert events[|events| - 1] == e;
      StepKeepsConfig(h0, e, c);
    }
  }

  lemma StepKeepsConfig(h: History, e: Event, c: Config)
    requires Configured(h, c) && Enabled(h, e) && (e.Open? ==> e.config == c)
    ensures Configured(Next(h, e), c)
  {
  }

  lemma DistinctTreesAreSafe(c: Config, events: seq<Event>, h: History)
    requires c.stateRoot != c.clearRoot && Runs(events, h) && OnlyConfig(events, c)
    ensures !LeafReused(h)
  {
    ConfigIsKept(events, h, c);
    RunKeepsInv(events, h);
  }

  lemma ExtendRun(events: seq<Event>, h: History, e: Event)
    requires Runs(events, h) && Enabled(h, e)
    ensures Runs(events + [e], Next(h, e))
  {
  }

  /** An idle signer can take the next leaf of a tree and sign any message with it. */
  lemma IdleCanSign(events: seq<Event>, h: History, c: Config, tree: Tree, message: Felt)
    returns (events': seq<Event>, h': History)
    requires Runs(events, h) && OnlyConfig(events, c) && 0 in h.processes && h.processes[0] == Idle(c)
    requires tree in h.rows && h.rows[tree].epoch == c.epoch && h.rows[tree].root == RootOf(c, tree) && h.rows[tree].nextLeaf < c.capacity
    ensures Runs(events', h') && OnlyConfig(events', c) && h'.processes == h.processes
    ensures h'.rows == h.rows[tree := h.rows[tree].(nextLeaf := h.rows[tree].nextLeaf + 1)]
    ensures h'.uses == h.uses + {Use(tree, RootOf(c, tree), h.rows[tree].nextLeaf, message, c.capacity)}
  {
    var middle := Next(h, Reserve(0, tree));
    ExtendRun(events, h, Reserve(0, tree));
    ExtendRun(events + [Reserve(0, tree)], middle, SignHeld(0, message));
    events', h' := events + [Reserve(0, tree)] + [SignHeld(0, message)], Next(middle, SignHeld(0, message));
  }

  lemma CanOpen(c: Config) returns (events: seq<Event>, h: History)
    ensures Runs(events, h) && OnlyConfig(events, c) && h.processes == map[0 := Idle(c)]
    ensures h.rows == map[State := TreeRow(c.epoch, c.stateRoot, 0), Clear := TreeRow(c.epoch, c.clearRoot, 0)]
  {
    ExtendRun([], FRESH, Open(0, c));
    var opening := Next(FRESH, Open(0, c));
    ExtendRun([] + [Open(0, c)], opening, FinishOpening(0));
    events, h := [] + [Open(0, c)] + [FinishOpening(0)], Next(opening, FinishOpening(0));
  }

  /** With one seed for both trees, the first state and the first clearance share a leaf. */
  lemma EqualTreesReuse(c: Config) returns (events: seq<Event>, h: History)
    requires c.stateRoot == c.clearRoot && c.capacity > 0
    ensures Runs(events, h) && OnlyConfig(events, c) && LeafReused(h)
  {
    events, h := CanOpen(c);
    events, h := IdleCanSign(events, h, c, State, Num(0));
    events, h := IdleCanSign(events, h, c, Clear, Num(1));
    assert Use(State, c.stateRoot, 0, Num(0), c.capacity) in h.uses && Use(Clear, c.clearRoot, 0, Num(1), c.capacity) in h.uses;
  }

  ghost predicate NeverReuses(c: Config) {
    forall events, h :: Runs(events, h) && OnlyConfig(events, c) ==> !LeafReused(h)
  }

  /** No leaf ever signs twice exactly when the state tree and the clearance tree differ. */
  lemma LeavesSafeIff(c: Config)
    requires c.capacity > 0
    ensures NeverReuses(c) <==> c.stateRoot != c.clearRoot
  {
    if c.stateRoot == c.clearRoot {
      var events, h := EqualTreesReuse(c);
    } else {
      forall events, h | Runs(events, h) && OnlyConfig(events, c) ensures !LeafReused(h) {
        DistinctTreesAreSafe(c, events, h);
      }
    }
  }
}
