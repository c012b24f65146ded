/** The request server: its nullifier table, and handlers that interleave and die.

    Every line of a handler that touches the table is one step; other handlers, crashes and
    restarts may come in between.  The table is all that survives.  What a run of the server
    does is a run of the protocol (`RunFollowsProtocol`), and what it releases for one
    nullifier is one answer (`AnswersAgree`, `NeverAnswerAndClearance`). */
module Server {
  import opened Wrappers
  import opened Felts
  import opened VaultSpec
  import opened Pedersen
  import opened Circuits
  import P = Protocol
  import Settlement

  // ---- What a column can hold ----

  const I64_LIMIT: nat := 0x8000_0000_0000_0000
  const U16: nat := 0x1_0000
  const U32: nat := 0x1_0000_0000

  /** `c as i64` for a u128, and `v as u128` for an i64. */
  function AsI64(c: nat): (v: int)
    ensures 0 - I64_LIMIT <= v < I64_LIMIT
  {
    var low := c % U64;
    if low < I64_LIMIT then low else low - U64
  }

  function AsU128(v: int): nat { v % U128 }

  /** `c as i32` for a u32, and `v as u32` for an i32. */
  function AsI32(c: nat): (v: int)
    ensures 0 - U32 / 2 <= v < U32 / 2
  {
    var low := c % U32;
    if low < U32 / 2 then low else low - U32
  }

  function AsU32(v: int): nat { v % U32 }

  /** The charge that is read back once it has been written to the table. */
  function StoredCharge(c: nat): nat { AsU128(AsI64(c)) }

  /** Exactly which charges survive the i64 column. */
  lemma ChargeSurvivesIff(c: nat)
    requires c < U128
    ensures StoredCharge(c) == c <==> c < I64_LIMIT || c >= U128 - I64_LIMIT
  {
    var q := c / U64;
    assert c == U64 * q + c % U64;
    assert q == U64 - 1 || U64 * q <= U64 * (U64 - 2);
  }

  // ---- The nullifier table ----

  datatype Status = Reserved | Finalized | ClearanceReserved

  datatype Columns = Columns(
    charge: Option<int>, code: Option<int>, payload: Option<string>, responseHash: Option<Felt>,
    nextCommitment: Option<Point>, nextAnchor: Option<Felt>, blindDelta: Option<nat>,
    epoch: Option<int>, sigRoot: Option<Felt>, leaf: Option<nat>, reason: Option<int>, evidence: Option<Felt>)

  const NULLS: Columns := Columns(None, None, None, None, None, None, None, None, None, None, None, None)

  datatype Row = Row(status: Status, requestId: Option<string>, payloadHash: Option<Felt>, columns: Columns)

  type Table = map<Felt, Row>

  datatype ServerError = Replay | NullifierUsed | ProviderFailed | Internal

  datatype Response = Response(
    requestId: string, nullifier: Felt, code: nat, payload: string, responseHash: Felt, charge: nat,
    nextCommitment: Point, nextAnchor: Felt, blindDelta: nat, epoch: nat, sigRoot: Felt, leaf: nat,
    reason: Option<nat>, evidence: Option<Felt>)

  predicate FitsTheWire(r: Response) {
    r.code < U16 && r.epoch < U32 && r.charge < U128 && (r.reason.Some? ==> r.reason.value < U32)
  }

  /** NullifierStore::finalize: what is written for an answer. */
  function Written(r: Response): Columns {
    Columns(Some(AsI64(r.charge)), Some(r.code), Some(r.payload), Some(r.responseHash), Some(r.nextCommitment),
            Some(r.nextAnchor), Some(r.blindDelta), Some(AsI32(r.epoch)), Some(r.sigRoot), Some(r.leaf),
            if r.reason.Some? then Some(AsI32(r.reason.value)) else None, r.evidence)
  }

  function OrElse<T>(o: Option<T>, default: T): T {
    if o.Some? then o.value else default
  }

  /** row_to_record, then build_response_from_record. */
  function Rebuilt(nullifier: Felt, row: Row): Response {
    var c := row.columns;
    Response(OrElse(row.requestId, ""), nullifier, OrElse(c.code, 200) % U16, OrElse(c.payload, ""), OrElse(c.responseHash, ZERO),
             if c.charge.Some? then AsU128(c.charge.value) else 0,
             OrElse(c.nextCommitment, Point(0, 0, 0)), OrElse(c.nextAnchor, ZERO), OrElse(c.blindDelta, 0),
             if c.epoch.Some? then AsU32(c.epoch.value) else 0, OrElse(c.sigRoot, ZERO), OrElse(c.leaf, 0),
             if c.reason.Some? then Some(AsU32(c.reason.value)) else None, c.evidence)
  }

  function Narrowed(r: Response): Response { r.(charge := StoredCharge(r.charge)) }

  /** What a retry is told differs from what the first caller was told in the charge at most, and there
      exactly when the charge does not survive the column. */
  lemma RebuiltIff(r: Response, row: Row)
    requires FitsTheWire(r) && row.columns == Written(r) && row.requestId == Some(r.requestId)
    ensures Rebuilt(r.nullifier, row) == Narrowed(r)
    ensures Rebuilt(r.nullifier, row) == r <==> r.charge < I64_LIMIT || r.charge >= U128 - I64_LIMIT
  {
    ChargeSurvivesIff(r.charge);
  }

  /** A charge of 2^63 is told to the caller as such, and to a retry as almost 2^128. */
  lemma LargeChargeIsMisread()
    ensures StoredCharge(I64_LIMIT) == U128 - I64_LIMIT
  {
  }

  function ReservedRow(requestId: string, payloadHash: Felt): Row {
    Row(Reserved, Some(requestId), Some(payloadHash), NULLS)
  }

  const CLEARED_ROW: Row := Row(ClearanceReserved, None, None, NULLS)

  function AfterReserve(rows: Table, x: Felt, requestId: string, payloadHash: Felt): (Table, Result<(), ServerError>) {
    if x in rows then (rows, Err(Replay)) else (rows[x := ReservedRow(requestId, payloadHash)], Ok(()))
  }

  function AfterFinalize(rows: Table, x: Felt, r: Response): (Table, Result<(), ServerError>) {
    if x in rows && rows[x].status == Reserved then (rows[x := rows[x].(status := Finalized, columns := Written(r))], Ok(()))
    else (rows, Err(Internal))
  }

  function AfterClearance(rows: Table, x: Felt): (Table, Result<(), ServerError>) {
    if x in rows then (rows, Err(NullifierUsed)) else (rows[x := CLEARED_ROW], Ok(()))
  }

  class NullifierStore {
    var rows: Table

    constructor ()
      ensures rows == map[]
    {
      rows := map[];
    }

    /** INSERT under a unique key. */
    method Reserve(x: Felt, requestId: string, payloadHash: Felt) returns (result: Result<(), ServerError>)
      modifies this
      ensures (rows, result) == AfterReserve(old(rows), x, requestId, payloadHash)
      ensures result == (if x in old(rows) then Err(Replay) else Ok(()))
      ensures rows == if x in old(rows) then old(rows) else old(rows)[x := Row(Reserved, Some(requestId), Some(payloadHash), NULLS)]
    {
      if x in rows {
        return Err(Replay);
      }
      rows := rows[x := Row(Reserved, Some(requestId), Some(payloadHash), NULLS)];
      result := Ok(());
    }

    /** UPDATE guarded by the old status: of many finalizers one succeeds. */
    method Finalize(x: Felt, r: Response) returns (result: Result<(), ServerError>)
      modifies this
      ensures (rows, result) == AfterFinalize(old(rows), x, r)
      ensures result == (if x in old(rows) && old(rows)[x].status == Reserved then Ok(()) else Err(Internal))
      ensures rows == if result.Ok? then old(rows)[x := Row(Finalized, old(rows)[x].requestId, old(rows)[x].payloadHash, Written(r))] else old(rows)
    {
      var updated := 0;
      if x in rows && rows[x].status == Reserved {
        rows := rows[x := Row(Finalized, rows[x].requestId, rows[x].payloadHash, Written(r))];
        updated := 1;
      }
      result := if updated == 0 then Err(Internal) else Ok(());
    }

    method ReserveClearance(x: Felt) returns (result: Result<(), ServerError>)
      modifies this
      ensures (rows, result) == AfterClearance(old(rows), x)
      ensures result == (if x in old(rows) then Err(NullifierUsed) else Ok(()))
      ensures rows == if x in old(rows) then old(rows) else old(rows)[x := Row(ClearanceReserved, None, None, NULLS)]
    {
      if x in rows {
        return Err(NullifierUsed);
      }
      rows := rows[x := Row(ClearanceReserved, None, None, NULLS)];
      result := Ok(());
    }

    method LookUp(x: Felt) returns (found: Option<Row>)
      ensures found == if x in rows then Some(rows[x]) else None
    {
      found := if x in rows then Some(rows[x]) else None;
    }

    /** Some row of that client request, when there is one. */
    method LookUpByClientId(requestId: string) returns (found: Option<(Felt, Row)>)
      ensures found.Some? ==> found.value.0 in rows && rows[found.value.0] == found.value.1 && found.value.1.requestId == Some(requestId)
      ensures found.None? ==> forall x :: x in rows ==> rows[x].requestId != Some(requestId)
    {
      if x :| x in rows && rows[x].requestId == Some(requestId) {
        found := Some((x, rows[x]));
      } else {
        found := None;
      }
    }
  }

  // ---- Handlers ----

  /** A request that passed every check before step 10; `opening` is what its proof proves. */
  datatype Request = Request(requestId: string, payload: string, inputs: RequestInputs, opening: RequestWitness)

  datatype ProviderAnswer = ProviderAnswer(code: nat, payload: string, charge: nat, reason: Option<nat>, evidence: Option<Felt>)

  /** The random values and the place in the signing tree that one answer uses. */
  datatype Signing = Signing(blindDelta: nat, randomness: Felt, epoch: nat, sigRoot: Felt, leaf: nat)

  predicate FitsTypes(a: ProviderAnswer, s: Signing) {
    a.code < U16 && s.epoch < U32 && a.charge < U128 && (a.reason.Some? ==> a.reason.value < U32)
  }

  function Answer(request: Request, a: ProviderAnswer, s: Signing): (r: Response)
    ensures FitsTypes(a, s) ==> FitsTheWire(r)
  {
    var x := request.inputs.requestNullifier;
    var next := ServerUpdate(request.inputs.anonymousCommitment, a.charge, s.blindDelta);
    Response(request.requestId, x, a.code, a.payload, ResponseHash(a.payload), a.charge, next, NextAnchor(s.randomness, x, next),
             s.blindDelta, s.epoch, s.sigRoot, s.leaf, a.reason, a.evidence)
  }

  /** Field by field: the answer carries what the provider said, what the server signed with, and the updated commitment. */
  predicate Tells(r: Response, request: Request, a: ProviderAnswer, s: Signing) {
    && r.requestId == request.requestId && r.nullifier == request.inputs.requestNullifier
    && r.code == a.code && r.payload == a.payload && r.responseHash == ResponseHash(a.payload)
    && r.charge == a.charge && r.reason == a.reason && r.evidence == a.evidence
    && r.nextCommitment == ServerUpdate(request.inputs.anonymousCommitment, a.charge, s.blindDelta)
    && r.nextAnchor == NextAnchor(s.randomness, request.inputs.requestNullifier, r.nextCommitment)
    && r.blindDelta == s.blindDelta && r.epoch == s.epoch && r.sigRoot == s.sigRoot && r.leaf == s.leaf
  }

  predicate SameRequest(row: Row, request: Request) {
    row.requestId == Some(request.requestId) && row.payloadHash == Some(PayloadHash(request.payload))
  }

  datatype Handler =
    | Checked(request: Request)
    | Vacant(request: Request)
    | Holding(request: Request)
    | Executed(request: Request, answer: ProviderAnswer)
    | Signed(request: Request, answer: ProviderAnswer, signing: Signing)
    | Committed(response: Response)
    | Recalled(response: Response)
    | ClearanceAsked(nullifier: Felt)
    | ClearanceVacant(nullifier: Felt)
    | ClearanceSigned(nullifier: Felt)
    | ClearanceTaken(nullifier: Felt)

  datatype Release = Answered(response: Response) | Cleared(nullifier: Felt)

  /** `world` is the protocol's view: the vault, and per nullifier which request won it. */
  datatype Machine = Machine(world: P.World, root: Felt, rows: Table, handlers: map<nat, Handler>, released: set<Release>)

  datatype Event =
    | Outside(action: P.Action)
    | Arrive(handler: nat, request: Request)
    | AskClearance(handler: nat, nullifier: Felt)
    | LookUp(handler: nat)
    | Insert(handler: nat)
    | Execute(handler: nat, outcome: Option<ProviderAnswer>)
    | Sign(handler: nat, signing: Signing)
    | Commit(handler: nat)
    | Reply(handler: nat)
    | Recover(nullifier: Felt)
    | Crash(handler: nat)
    | Restart

  function InitialMachine(p: P.Params): Machine {
    Machine(P.InitialWorld(p), InitialState(p.cfg).currentRoot, map[], map[], {})
  }

  /** Steps 1 to 9 of process_request. */
  ghost predicate PassesChecks(p: P.Params, m: Machine, request: Request) {
    && request.inputs.deployment == p.cfg.deployment && request.inputs.stateKey == p.cfg.stateKey
    && request.inputs.activeRoot == m.root
    && request.inputs.solvencyBound >= p.chargeCap
    && request.inputs in m.world.requests
    && RequestHolds(p.cfg.depth, p.repr, P.Released(p.cfg, m.world.entries), request.inputs, request.opening)
  }

  ghost predicate Enabled(p: P.Params, m: Machine, e: Event) {
    match e
    case Outside(a) => (a.VaultCall? || a.SyncRoot? || a.ProveRequest? || a.ProveWithdrawal?) && P.Allowed(p, m.world, a)
    case Arrive(h, request) => h !in m.handlers && PassesChecks(p, m, request)
    case AskClearance(h, _) => h !in m.handlers
    case LookUp(h) => h in m.handlers && (m.handlers[h].Checked? || m.handlers[h].ClearanceAsked?)
    case Insert(h) => h in m.handlers && (m.handlers[h].Vacant? || m.handlers[h].ClearanceSigned?)
    case Execute(h, outcome) => h in m.handlers && m.handlers[h].Holding?
    case Sign(h, signing) => h in m.handlers && (m.handlers[h].ClearanceVacant? || (m.handlers[h].Executed? && FitsTypes(m.handlers[h].answer, signing)))
    case Commit(h) => h in m.handlers && m.handlers[h].Signed?
    case Reply(h) => h in m.handlers && (m.handlers[h].Committed? || m.handlers[h].Recalled? || m.handlers[h].ClearanceTaken?)
    case Recover(_) => true
    case Crash(h) => h in m.handlers
    case Restart => true
  }

  function Gone(m: Machine, h: nat): Machine { m.(handlers := m.handlers - {h}) }

  function Becomes(m: Machine, h: nat, handler: Handler): Machine { m.(handlers := m.handlers[h := handler]) }

  function NextLookUp(m: Machine, h: nat): Machine
    requires h in m.handlers && (m.handlers[h].Checked? || m.handlers[h].ClearanceAsked?)
  {
    match m.handlers[h]
    case Checked(request) =>
      var x := request.inputs.requestNullifier;
      if x !in m.rows then Becomes(m, h, Vacant(request))
      else if SameRequest(m.rows[x], request) && m.rows[x].status == Finalized then Becomes(m, h, Recalled(Rebuilt(x, m.rows[x])))
      else if SameRequest(m.rows[x], request) && m.rows[x].status == Reserved then Becomes(m, h, Holding(request))
      else Gone(m, h)
    case ClearanceAsked(x) => if x in m.rows then Gone(m, h) else Becomes(m, h, ClearanceVacant(x))
  }

  /** A handler wins a nullifier that is free, or finalizes one that is reserved. */
  function Wins(m: Machine, x: Felt, row: Row, seen: P.Entry): Machine {
    m.(rows := m.rows[x := row], world := m.world.(entries := m.world.entries[x := seen]))
  }

  function NextInsert(m: Machine, h: nat): Machine
    requires h in m.handlers && (m.handlers[h].Vacant? || m.handlers[h].ClearanceSigned?)
  {
    match m.handlers[h]
    case Vacant(request) =>
      var x := request.inputs.requestNullifier;
      if AfterReserve(m.rows, x, request.requestId, PayloadHash(request.payload)).1.Err? then Gone(m, h)
      else
        var row := ReservedRow(request.requestId, PayloadHash(request.payload));
        Becomes(Wins(m, x, row, P.Accepted(request.inputs, request.opening)), h, Holding(request))
    case ClearanceSigned(x) =>
      if AfterClearance(m.rows, x).1.Err? then Gone(m, h)
      else Becomes(Wins(m, x, CLEARED_ROW, P.Barred), h, ClearanceTaken(x))
  }

  /** The request of this handler wins the nullifier, whoever reserved it. */
  function NextCommit(m: Machine, h: nat): Machine
    requires h in m.handlers && m.handlers[h].Signed?
  {
    var Signed(request, a, s) := m.handlers[h];
    var x, r := request.inputs.requestNullifier, Answer(request, a, s);
    var (rows, result) := AfterFinalize(m.rows, x, r);
    if result.Err? then Gone(m, h)
    else Becomes(Wins(m, x, rows[x], P.Charged(request.inputs, request.opening, a.charge, s.blindDelta, s.randomness)), h, Committed(r))
  }

  function NextExecute(p: P.Params, m: Machine, h: nat, outcome: Option<ProviderAnswer>): Machine
    requires h in m.handlers && m.handlers[h].Holding?
  {
    if outcome.None? || outcome.value.charge > p.chargeCap then Gone(m, h)
    else Becomes(m, h, Executed(m.handlers[h].request, outcome.value))
  }

  function NextSign(m: Machine, h: nat, signing: Signing): Machine
    requires h in m.handlers && (m.handlers[h].ClearanceVacant? || m.handlers[h].Executed?)
  {
    match m.handlers[h]
    case Executed(request, a) => Becomes(m, h, Signed(request, a, signing))
    case ClearanceVacant(x) => Becomes(m, h, ClearanceSigned(x))
  }

  function ReleaseOf(handler: Handler): Release
    requires handler.Committed? || handler.Recalled? || handler.ClearanceTaken?
  {
    if handler.ClearanceTaken? then Cleared(handler.nullifier) else Answered(handler.response)
  }

  function Next(p: P.Params, m: Machine, e: Event): Machine
    requires Enabled(p, m, e)
  {
    match e
    case Outside(a) =>
      var w := P.Apply(p, m.world, a);
      m.(world := w, root := if a.SyncRoot? then w.vault.currentRoot else m.root)
    case Arrive(h, request) => Becomes(m, h, Checked(request))
    case AskClearance(h, x) => Becomes(m, h, ClearanceAsked(x))
    case LookUp(h) => NextLookUp(m, h)
    case Insert(h) => NextInsert(m, h)
    case Execute(h, outcome) => NextExecute(p, m, h, outcome)
    case Sign(h, signing) => NextSign(m, h, signing)
    case Commit(h) => NextCommit(m, h)
    case Reply(h) => Gone(m.(released := m.released + {ReleaseOf(m.handlers[h])}), h)
    case Recover(x) =>
      if x in m.rows && m.rows[x].status == Finalized then m.(released := m.released + {Answered(Rebuilt(x, m.rows[x]))}) else m
    case Crash(h) => Gone(m, h)
    case Restart => m.(handlers := map[])
  }

  // ---- The invariant ----

  /** The table and the protocol agree on a nullifier. */
  predicate RowMatches(cap: nat, row: Row, seen: P.Entry) {
    match row.status
    case Reserved => seen.Accepted?
    case ClearanceReserved => seen.Barred?
    case Finalized =>
      && seen.Charged? && seen.charge <= cap
      && row.columns.charge == Some(AsI64(seen.charge))
      && row.columns.nextCommitment == Some(P.NextCommitment(seen))
      && row.columns.nextAnchor == Some(P.NextAnchorOf(seen))
      && row.columns.blindDelta == Some(seen.blindDelta)
      && row.columns.payload.Some? && row.columns.responseHash == Some(ResponseHash(row.columns.payload.value))
  }

  predicate TableMatches(cap: nat, rows: Table, entries: map<Felt, P.Entry>) {
    rows.Keys == entries.Keys && forall x :: x in rows ==> RowMatches(cap, rows[x], entries[x])
  }

  ghost predicate StillGood(p: P.Params, w: P.World, request: Request) {
    && request.inputs.deployment == p.cfg.deployment && request.inputs.stateKey == p.cfg.stateKey
    && request.inputs.activeRoot in w.serverRoots
    && request.inputs.solvencyBound >= p.chargeCap
    && request.inputs in w.requests
    && RequestHolds(p.cfg.depth, p.repr, P.Released(p.cfg, w.entries), request.inputs, request.opening)
  }

  predicate Holds(rows: Table, request: Request) {
    var x := request.inputs.requestNullifier;
    x in rows && rows[x].status != ClearanceReserved && SameRequest(rows[x], request)
  }

  /** `r` is what the row says up to the charge column, and its charge is the one signed, as it is or as it is read back. */
  predicate Recorded(rows: Table, entries: map<Felt, P.Entry>, r: Response) {
    var x := r.nullifier;
    && x in rows && rows[x].status == Finalized && x in entries && entries[x].Charged?
    && Rebuilt(x, rows[x]) == Narrowed(r)
    && (r.charge == entries[x].charge || r.charge == StoredCharge(entries[x].charge))
  }

  ghost predicate HandlerIsSound(p: P.Params, rows: Table, w: P.World, handler: Handler) {
    match handler
    case Checked(request) => StillGood(p, w, request)
    case Vacant(request) => StillGood(p, w, request)
    case Holding(request) => StillGood(p, w, request) && Holds(rows, request)
    case Executed(request, a) => StillGood(p, w, request) && Holds(rows, request) && a.charge <= p.chargeCap
    case Signed(request, a, s) => StillGood(p, w, request) && Holds(rows, request) && a.charge <= p.chargeCap && FitsTypes(a, s)
    case Committed(r) => Recorded(rows, w.entries, r)
    case Recalled(r) => Recorded(rows, w.entries, r)
    case ClearanceTaken(x) => x in rows && rows[x].status == ClearanceReserved
    case _ => true
  }

  predicate ReleaseIsSound(rows: Table, entries: map<Felt, P.Entry>, release: Release) {
    match release
    case Answered(r) => Recorded(rows, entries, r)
    case Cleared(x) => x in rows && rows[x].status == ClearanceReserved
  }

  ghost predicate MachineInv(p: P.Params, m: Machine) {
    && TableMatches(p.chargeCap, m.rows, m.world.entries) && m.root in m.world.serverRoots
    && (forall h :: h in m.handlers ==> HandlerIsSound(p, m.rows, m.world, m.handlers[h]))
    && (forall release :: release in m.released ==> ReleaseIsSound(m.rows, m.world.entries, release))
  }

  // ---- Every step keeps it ----

  /** none -> Reserved -> Finalized, or none -> ClearanceReserved, and nothing else. */
  predicate Advances(rows: Table, rows': Table) {
    forall x :: x in rows ==>
      && x in rows'
      && (if rows[x].status == Reserved then
            rows'[x].status != ClearanceReserved && rows'[x].requestId == rows[x].requestId && rows'[x].payloadHash == rows[x].payloadHash
          else rows'[x] == rows[x])
  }

  predicate ChargesStay(entries: map<Felt, P.Entry>, entries': map<Felt, P.Entry>) {
    forall x :: x in entries && entries[x].Charged? ==> x in entries' && entries'[x] == entries[x]
  }

  /** The protocol forgets no signature, no root and no proof. */
  ghost predicate WorldGrows(p: P.Params, w: P.World, w': P.World) {
    && w.serverRoots <= w'.serverRoots && w.requests <= w'.requests && P.Released(p.cfg, w.entries) <= P.Released(p.cfg, w'.entries)
    && ChargesStay(w.entries, w'.entries)
  }

  lemma HandlerStaysSound(p: P.Params, m: Machine, m': Machine, handler: Handler)
    requires HandlerIsSound(p, m.rows, m.world, handler) && Advances(m.rows, m'.rows) && WorldGrows(p, m.world, m'.world)
    ensures HandlerIsSound(p, m'.rows, m'.world, handler)
  {
    hide RequestHolds, P.Released, Rebuilt;
    if handler.Checked? || handler.Vacant? || handler.Holding? || handler.Executed? || handler.Signed? {
      RequestMonotone(p.cfg.depth, p.repr, P.Released(p.cfg, m.world.entries), P.Released(p.cfg, m'.world.entries),
                      handler.request.inputs, handler.request.opening);
    }
  }

  /** What advances the table and grows the world keeps everything but the handlers and releases it brings itself. */
  lemma InvCarries(p: P.Params, m: Machine, m': Machine)
    requires MachineInv(p, m) && Advances(m.rows, m'.rows) && WorldGrows(p, m.world, m'.world)
    requires TableMatches(p.chargeCap, m'.rows, m'.world.entries) && m'.root in m'.world.serverRoots
    requires forall h :: h in m'.handlers ==> (h in m.handlers && m'.handlers[h] == m.handlers[h]) || HandlerIsSound(p, m'.rows, m'.world, m'.handlers[h])
    requires forall release :: release in m'.released ==> release in m.released || ReleaseIsSound(m'.rows, m'.world.entries, release)
    ensures MachineInv(p, m')
  {
    hide HandlerIsSound, TableMatches, Recorded, P.Released;
    forall h | h in m'.handlers ensures HandlerIsSound(p, m'.rows, m'.world, m'.handlers[h]) {
      if h in m.handlers && m'.handlers[h] == m.handlers[h] {
        HandlerStaysSound(p, m, m', m.handlers[h]);
      }
    }
    forall release | release in m'.released ensures ReleaseIsSound(m'.rows, m'.world.entries, release) {
      if release in m.released {
        ReleaseStays(m.rows, m.world.entries, m'.rows, m'.world.entries, release);
      }
    }
  }

  lemma ReleaseStays(rows: Table, entries: map<Felt, P.Entry>, rows': Table, entries': map<Felt, P.Entry>, release: Release)
    requires ReleaseIsSound(rows, entries, release) && Advances(rows, rows') && ChargesStay(entries, entries')
    ensures ReleaseIsSound(rows', entries', release)
  {
    hide Rebuilt;
  }

  /** Steps that touch neither table nor world. */
  lemma InvStays(p: P.Params, m: Machine, m': Machine)
    requires MachineInv(p, m) && m'.rows == m.rows && m'.world == m.world && m'.root == m.root
    requires forall h :: h in m'.handlers ==> (h in m.handlers && m'.handlers[h] == m.handlers[h]) || HandlerIsSound(p, m.rows, m.world, m'.handlers[h])
    requires forall release :: release in m'.released ==> release in m.released || ReleaseIsSound(m.rows, m.world.entries, release)
    ensures MachineInv(p, m')
  {
    hide HandlerIsSound, ReleaseIsSound, TableMatches;
  }

  lemma OutsideKeeps(p: P.Params, m: Machine, a: P.Action)
    requires MachineInv(p, m) && Enabled(p, m, Outside(a))
    ensures MachineInv(p, Next(p, m, Outside(a)))
  {
    hide HandlerIsSound, ReleaseIsSound, RowMatches, RequestHolds, WithdrawalHolds, Step, P.Released, PassesChecks;
    InvCarries(p, m, Next(p, m, Outside(a)));
  }

  lemma I64RoundTrip(c: nat)
    ensures AsI64(AsU128(AsI64(c))) == AsI64(c)
  {
  }

  /** A finalized row can be read back as an answer. */
  lemma FinalizedIsRecorded(p: P.Params, m: Machine, x: Felt)
    requires TableMatches(p.chargeCap, m.rows, m.world.entries) && x in m.rows && m.rows[x].status == Finalized
    ensures Recorded(m.rows, m.world.entries, Rebuilt(x, m.rows[x]))
  {
    hide P.NextCommitment, P.NextAnchorOf;
    assert RowMatches(p.chargeCap, m.rows[x], m.world.entries[x]);
    I64RoundTrip(m.world.entries[x].charge);
  }

  lemma LookUpKeeps(p: P.Params, m: Machine, h: nat)
    requires MachineInv(p, m) && h in m.handlers && (m.handlers[h].Checked? || m.handlers[h].ClearanceAsked?)
    ensures MachineInv(p, NextLookUp(m, h))
  {
    hide ReleaseIsSound, TableMatches, StillGood, Rebuilt, Recorded;
    assert HandlerIsSound(p, m.rows, m.world, m.handlers[h]);
    if m.handlers[h].Checked? {
      var x := m.handlers[h].request.inputs.requestNullifier;
      if x in m.rows && m.rows[x].status == Finalized {
        FinalizedIsRecorded(p, m, x);
      }
    }
    InvStays(p, m, NextLookUp(m, h));
  }

  lemma ReserveIsAllowed(p: P.Params, m: Machine, request: Request)
    requires StillGood(p, m.world, request)
    requires request.inputs.requestNullifier in m.world.entries ==> m.world.entries[request.inputs.requestNullifier].Accepted?
    ensures P.Allowed(p, m.world, P.Reserve(request.inputs, request.opening))
  {
    hide RequestHolds, P.Released;
  }

  predicate MayWin(rows: Table, x: Felt, row: Row) {
    x in rows ==>
      rows[x].status == Reserved && row.status != ClearanceReserved && row.requestId == rows[x].requestId && row.payloadHash == rows[x].payloadHash
  }

  lemma ReservedMatches(cap: nat, row: Row, seen: P.Entry)
    requires RowMatches(cap, row, seen) && row.status == Reserved
    ensures seen.Accepted?
  {
  }

  /** Winning a nullifier advances the table and grows the world. */
  lemma WinsGrows(p: P.Params, m: Machine, x: Felt, row: Row, seen: P.Entry)
    requires TableMatches(p.chargeCap, m.rows, m.world.entries) && MayWin(m.rows, x, row) && RowMatches(p.chargeCap, row, seen)
    ensures Advances(m.rows, Wins(m, x, row, seen).rows) && WorldGrows(p, m.world, Wins(m, x, row, seen).world)
    ensures TableMatches(p.chargeCap, Wins(m, x, row, seen).rows, Wins(m, x, row, seen).world.entries)
  {
    hide P.Released, RowMatches;
    if x in m.rows {
      ReservedMatches(p.chargeCap, m.rows[x], m.world.entries[x]);
    }
    P.ReleasedGrows(p.cfg, m.world.entries, Wins(m, x, row, seen).world.entries);
  }

  lemma WinsKeeps(p: P.Params, m: Machine, x: Felt, row: Row, seen: P.Entry, h: nat, handler: Handler)
    requires MachineInv(p, m) && MayWin(m.rows, x, row) && RowMatches(p.chargeCap, row, seen)
    requires HandlerIsSound(p, Wins(m, x, row, seen).rows, Wins(m, x, row, seen).world, handler)
    ensures MachineInv(p, Becomes(Wins(m, x, row, seen), h, handler))
  {
    hide RowMatches, ReleaseIsSound, HandlerIsSound, MayWin, Advances;
    var m1 := Wins(m, x, row, seen);
    WinsGrows(p, m, x, row, seen);
    InvCarries(p, m, m1);
    InvStays(p, m1, Becomes(m1, h, handler));
  }

  lemma InsertKeeps(p: P.Params, m: Machine, h: nat)
    requires MachineInv(p, m) && h in m.handlers && (m.handlers[h].Vacant? || m.handlers[h].ClearanceSigned?)
    ensures MachineInv(p, NextInsert(m, h))
  {
    hide ReleaseIsSound, TableMatches, StillGood;
    assert HandlerIsSound(p, m.rows, m.world, m.handlers[h]);
    match m.handlers[h] {
      case Vacant(request) =>
        var x := request.inputs.requestNullifier;
        var row, seen := ReservedRow(request.requestId, PayloadHash(request.payload)), P.Accepted(request.inputs, request.opening);
        if x in m.rows {
          InvStays(p, m, Gone(m, h));
        } else {
          WinsGrows(p, m, x, row, seen);
          HandlerStaysSound(p, m, Wins(m, x, row, seen), m.handlers[h]);
          WinsKeeps(p, m, x, row, seen, h, Holding(request));
        }
      case ClearanceSigned(x) =>
        if x in m.rows {
          InvStays(p, m, Gone(m, h));
        } else {
          WinsKeeps(p, m, x, CLEARED_ROW, P.Barred, h, ClearanceTaken(x));
        }
    }
  }

  lemma CommittedRow(cap: nat, rows: Table, entries: map<Felt, P.Entry>, request: Request, a: ProviderAnswer, s: Signing)
    requires FitsTypes(a, s) && a.charge <= cap && Holds(rows, request) && rows[request.inputs.requestNullifier].status == Reserved
    ensures var x, r := request.inputs.requestNullifier, Answer(request, a, s);
      var row, seen := AfterFinalize(rows, x, r).0[x], P.Charged(request.inputs, request.opening, a.charge, s.blindDelta, s.randomness);
      MayWin(rows, x, row) && RowMatches(cap, row, seen) && Recorded(rows[x := row], entries[x := seen], r)
  {
    hide ServerUpdate, AsI64;
    var x, r := request.inputs.requestNullifier, Answer(request, a, s);
    RebuiltIff(r, AfterFinalize(rows, x, r).0[x]);
  }

  lemma CommitKeeps(p: P.Params, m: Machine, h: nat)
    requires MachineInv(p, m) && h in m.handlers && m.handlers[h].Signed?
    ensures MachineInv(p, NextCommit(m, h))
  {
    hide ReleaseIsSound, TableMatches, StillGood, Rebuilt, Written, Answer, Recorded, RowMatches;
    var Signed(request, a, s) := m.handlers[h];
    var x, r := request.inputs.requestNullifier, Answer(request, a, s);
    assert HandlerIsSound(p, m.rows, m.world, m.handlers[h]);
    if m.rows[x].status != Reserved {
      InvStays(p, m, Gone(m, h));
    } else {
      CommittedRow(p.chargeCap, m.rows, m.world.entries, request, a, s);
      WinsKeeps(p, m, x, AfterFinalize(m.rows, x, r).0[x],
                P.Charged(request.inputs, request.opening, a.charge, s.blindDelta, s.randomness), h, Committed(r));
    }
  }

  lemma CheckedIsGood(p: P.Params, m: Machine, request: Request)
    requires PassesChecks(p, m, request) && m.root in m.world.serverRoots
    ensures StillGood(p, m.world, request)
  {
    hide RequestHolds, P.Released;
  }

  /** Steps of one handler that touch neither the table nor the protocol. */
  lemma HandlerStepKeeps(p: P.Params, m: Machine, e: Event)
    requires MachineInv(p, m) && Enabled(p, m, e) && (e.Execute? || e.Sign? || e.Reply?)
    ensures MachineInv(p, Next(p, m, e))
  {
    hide TableMatches, StillGood, Holds, Rebuilt, Recorded, PassesChecks, P.Released, P.Allowed, P.Apply;
    assert HandlerIsSound(p, m.rows, m.world, m.handlers[e.handler]);
    InvStays(p, m, Next(p, m, e));
  }

  /** Handlers that come and go, and reading a record back. */
  lemma QuietKeeps(p: P.Params, m: Machine, e: Event)
    requires MachineInv(p, m) && Enabled(p, m, e) && (e.Arrive? || e.AskClearance? || e.Recover? || e.Crash? || e.Restart?)
    ensures MachineInv(p, Next(p, m, e))
  {
    hide TableMatches, StillGood, Holds, Rebuilt, Recorded, PassesChecks, P.Released, P.Allowed, P.Apply;
    if e.Arrive? {
      CheckedIsGood(p, m, e.request);
    } else if e.Recover? && e.nullifier in m.rows && m.rows[e.nullifier].status == Finalized {
      FinalizedIsRecorded(p, m, e.nullifier);
    }
    InvStays(p, m, Next(p, m, e));
  }

  /** Every step of every handler, and every crash, keeps the invariant. */
  lemma EventKeepsInv(p: P.Params, m: Machine, e: Event)
    requires MachineInv(p, m) && Enabled(p, m, e)
    ensures MachineInv(p, Next(p, m, e))
  {
    hide MachineInv, PassesChecks, P.Allowed, P.Apply, NextLookUp, NextInsert, NextCommit, NextExecute, NextSign;
    match e
    case Outside(a) => OutsideKeeps(p, m, a);
    case LookUp(h) => LookUpKeeps(p, m, h);
    case Insert(h) => InsertKeeps(p, m, h);
    case Commit(h) => CommitKeeps(p, m, h);
    case _ =>
      if e.Execute? || e.Sign? || e.Reply? {
        HandlerStepKeeps(p, m, e);
      } else {
        QuietKeeps(p, m, e);
      }
  }

  lemma OthersLeaveTable(p: P.Params, m: Machine, e: Event)
    requires Enabled(p, m, e) && !e.Insert? && !e.Commit?
    ensures Next(p, m, e).rows == m.rows
    ensures !e.Outside? ==> Next(p, m, e).world == m.world
  {
    hide PassesChecks, P.Allowed, P.Apply, Rebuilt;
  }

  /** A row goes none, reserved, finalized, or none, cleared, and nothing else. */
  lemma EventAdvances(p: P.Params, m: Machine, e: Event)
    requires (forall h :: h in m.handlers ==> HandlerIsSound(p, m.rows, m.world, m.handlers[h])) && Enabled(p, m, e)
    ensures Advances(m.rows, Next(p, m, e).rows)
  {
    hide PassesChecks, P.Allowed, P.Apply, StillGood, Recorded, Answer, Written;
    if e.Commit? {
      assert HandlerIsSound(p, m.rows, m.world, m.handlers[e.handler]);
    } else if !e.Insert? {
      OthersLeaveTable(p, m, e);
    }
  }

  // ---- Whole runs ----

  /** The events lead from an empty table to `m`. */
  ghost predicate Runs(p: P.Params, events: seq<Event>, m: Machine)
    decreases |events|, 0
  {
    if events == [] then m == InitialMachine(p)
    else RunsThenSteps(p, events[..|events| - 1], events[|events| - 1], m)
  }

  ghost predicate RunsThenSteps(p: P.Params, before: seq<Event>, e: Event, m: Machine)
    decreases |before|, 1
  {
    exists m0 :: Runs(p, before, m0) && Enabled(p, m0, e) && m == Next(p, m0, e)
  }

  lemma {:induction false} RunKeepsInv(p: P.Params, events: seq<Event>, m: Machine)
    requires Runs(p, events, m)
    ensures MachineInv(p, m)
    decreases |events|
  {
    hide Enabled, Next, HandlerIsSound, ReleaseIsSound, RowMatches;
    if events != [] {
      var before, e := events[..|events| - 1], events[|events| - 1];
      assert RunsThenSteps(p, before, e, m);
      var m0 :| Runs(p, before, m0) && Enabled(p, m0, e) && m == Next(p, m0, e);
      RunKeepsInv(p, before, m0);
      EventKeepsInv(p, m0, e);
    }
  }

  /** What is released was signed by the protocol, for the request that won the nullifier. */
  lemma ReleasedIsSigned(p: P.Params, m: Machine, r: Response)
    requires MachineInv(p, m) && Answered(r) in m.released
    ensures r.nullifier in m.rows && m.rows[r.nullifier].status == Finalized && Narrowed(r) == Rebuilt(r.nullifier, m.rows[r.nullifier])
    ensures r.nullifier in m.world.entries && m.world.entries[r.nullifier].Charged? && m.world.entries[r.nullifier].charge <= p.chargeCap
    ensures var entry := m.world.entries[r.nullifier];
      && r.nextCommitment == P.NextCommitment(entry) && r.nextAnchor == P.NextAnchorOf(entry)
      && r.blindDelta == entry.blindDelta && r.responseHash == ResponseHash(r.payload)
      && (r.charge == entry.charge || r.charge == StoredCharge(entry.charge))
  {
    hide P.NextCommitment, P.NextAnchorOf, AsI64, AsU128, HandlerIsSound;
    assert ReleaseIsSound(m.rows, m.world.entries, Answered(r));
    assert RowMatches(p.chargeCap, m.rows[r.nullifier], m.world.entries[r.nullifier]);
  }

  /** Whatever interleaves and crashes, all answers released for a nullifier are one, up to the charge column. */
  lemma AnswersAgreeUpToCharge(p: P.Params, events: seq<Event>, m: Machine, r: Response, r': Response)
    requires Runs(p, events, m)
    requires Answered(r) in m.released && Answered(r') in m.released && r.nullifier == r'.nullifier
    ensures Narrowed(r) == Narrowed(r')
  {
    hide MachineInv, Runs;
    RunKeepsInv(p, events, m);
    ReleasedIsSigned(p, m, r);
    ReleasedIsSigned(p, m, r');
  }

  /** They are one without exception when the charge that was signed survives the column. */
  lemma AnswersAgree(p: P.Params, events: seq<Event>, m: Machine, r: Response, r': Response)
    requires Runs(p, events, m)
    requires Answered(r) in m.released && Answered(r') in m.released && r.nullifier == r'.nullifier
    requires r.nullifier in m.world.entries && m.world.entries[r.nullifier].Charged?
    requires StoredCharge(m.world.entries[r.nullifier].charge) == m.world.entries[r.nullifier].charge
    ensures r == r'
  {
    hide MachineInv, Runs, StoredCharge;
    AnswersAgreeUpToCharge(p, events, m, r, r');
    RunKeepsInv(p, events, m);
    ReleasedIsSigned(p, m, r);
    ReleasedIsSigned(p, m, r');
    assert Narrowed(r).(charge := r.charge) == r && Narrowed(r').(charge := r'.charge) == r';
  }

  /** A nullifier that was cleared was never answered, nor will be. */
  lemma NeverAnswerAndClearance(p: P.Params, events: seq<Event>, m: Machine, r: Response)
    requires Runs(p, events, m) && Answered(r) in m.released
    ensures Cleared(r.nullifier) !in m.released
  {
    hide Runs, HandlerIsSound, Recorded, RowMatches;
    RunKeepsInv(p, events, m);
    ReleasedIsSigned(p, m, r);
    assert Cleared(r.nullifier) in m.released ==> ReleaseIsSound(m.rows, m.world.entries, Cleared(r.nullifier));
  }

  /** A finalized request that is sent again is told what was recorded, and takes nothing. */
  lemma RetryIsToldTheSame(p: P.Params, m: Machine, h: nat, r: Response)
    requires h in m.handlers && m.handlers[h].Checked? && m.handlers[h].request.inputs.requestNullifier == r.nullifier
    requires Recorded(m.rows, m.world.entries, r) && SameRequest(m.rows[r.nullifier], m.handlers[h].request)
    ensures NextLookUp(m, h) == Becomes(m, h, Recalled(Narrowed(r)))
  {
    hide Rebuilt;
  }

  /** A request is let through exactly when its nullifier is free, or was taken by the same client request with the same
      payload, and then it is read the record back or goes on where the first attempt died; all others are refused. */
  lemma LookUpDecides(m: Machine, h: nat)
    requires h in m.handlers && m.handlers[h].Checked?
    ensures var request, after := m.handlers[h].request, NextLookUp(m, h); var x := request.inputs.requestNullifier;
      var mine := x in m.rows && m.rows[x].requestId == Some(request.requestId) && m.rows[x].payloadHash == Some(PayloadHash(request.payload));
      && after.rows == m.rows && after.world == m.world && after.released == m.released
      && (h in after.handlers <==> x !in m.rows || (mine && m.rows[x].status != ClearanceReserved))
      && (h in after.handlers ==>
            (after.handlers[h].Vacant? <==> x !in m.rows) && (after.handlers[h] == Holding(request) <==> mine && m.rows[x].status == Reserved)
            && (after.handlers[h].Recalled? <==> mine && m.rows[x].status == Finalized))
  {
    hide Rebuilt;
  }

  // ---- Every request that passes can be answered, and read back ----

  lemma ExtendRunBy(p: P.Params, events: seq<Event>, m: Machine, e: Event)
    requires Runs(p, events, m) && Enabled(p, m, e)
    ensures Runs(p, events + [e], Next(p, m, e))
  {
    hide Enabled, Next;
    assert (events + [e])[..|events + [e]| - 1] == events;
    assert RunsThenSteps(p, events, e, Next(p, m, e));
  }

  /** The row a request leaves once its answer is committed. */
  function CommittedAs(request: Request, r: Response): Row {
    Row(Finalized, Some(request.requestId), Some(PayloadHash(request.payload)), Written(r))
  }

  lemma RequestCanReserve(p: P.Params, events: seq<Event>, m: Machine, request: Request) returns (events': seq<Event>, m': Machine)
    requires Runs(p, events, m) && m.handlers == map[] && PassesChecks(p, m, request) && IsFreeOrMine(m.rows, request)
    ensures Runs(p, events', m') && m'.handlers == map[0 := Holding(request)]
    ensures m'.rows == m.rows[request.inputs.requestNullifier := ReservedRow(request.requestId, PayloadHash(request.payload))]
  {
    hide PassesChecks, Runs, P.Allowed;
    var m1, m2 := Becomes(m, 0, Checked(request)), NextLookUp(Becomes(m, 0, Checked(request)), 0);
    ExtendRunBy(p, events, m, Arrive(0, request));
    events' := events + [Arrive(0, request)];
    assert Next(p, m, Arrive(0, request)) == m1;
    ExtendRunBy(p, events', m1, LookUp(0));
    events' := events' + [LookUp(0)];
    if request.inputs.requestNullifier in m.rows {
      m' := m2;
      assert m.rows[request.inputs.requestNullifier := ReservedRow(request.requestId, PayloadHash(request.payload))] == m.rows;
    } else {
      ExtendRunBy(p, events', m2, Insert(0));
      events', m' := events' + [Insert(0)], Next(p, m2, Insert(0));
    }
  }

  /** Nobody took the nullifier, or an earlier attempt of this very request did and died before its answer was committed. */
  predicate IsFreeOrMine(rows: Table, request: Request) {
    request.inputs.requestNullifier in rows ==>
      rows[request.inputs.requestNullifier] == ReservedRow(request.requestId, PayloadHash(request.payload))
  }

  lemma AnswerTells(request: Request, a: ProviderAnswer, s: Signing)
    ensures Tells(Answer(request, a, s), request, a, s)
  {
    hide ServerUpdate;
  }

  /** A handler that nobody disturbs takes its request from arrival to a committed answer with any charge within the cap,
      also when an earlier attempt had reserved the nullifier and died. */
  lemma RequestCanCommit(p: P.Params, events: seq<Event>, m: Machine, request: Request, a: ProviderAnswer, s: Signing)
    returns (events': seq<Event>, m': Machine)
    requires Runs(p, events, m) && m.handlers == map[] && PassesChecks(p, m, request) && IsFreeOrMine(m.rows, request)
    requires a.charge <= p.chargeCap && FitsTypes(a, s)
    ensures Runs(p, events', m') && m'.handlers == map[0 := Committed(Answer(request, a, s))]
    ensures Tells(m'.handlers[0].response, request, a, s)
    ensures m'.rows == m.rows[request.inputs.requestNullifier := CommittedAs(request, Answer(request, a, s))]
  {
    AnswerTells(request, a, s);
    hide PassesChecks, Runs, Answer, Written, FitsTypes, P.Allowed, Tells, IsFreeOrMine;
    var m3;
    events', m3 := RequestCanReserve(p, events, m, request);
    var m4, m5 := Becomes(m3, 0, Executed(request, a)), Becomes(m3, 0, Signed(request, a, s));
    ExtendRunBy(p, events', m3, Execute(0, Some(a)));
    events' := events' + [Execute(0, Some(a))];
    assert Next(p, m3, Execute(0, Some(a))) == m4;
    ExtendRunBy(p, events', m4, Sign(0, s));
    events' := events' + [Sign(0, s)];
    assert Next(p, m4, Sign(0, s)) == m5;
    ExtendRunBy(p, events', m5, Commit(0));
    events', m' := events' + [Commit(0)], Next(p, m5, Commit(0));
    assert m'.rows == m.rows[request.inputs.requestNullifier := CommittedAs(request, Answer(request, a, s))];
  }

  /** Once an answer is committed, its caller and whoever recovers it are told the same exactly when the charge survives the column. */
  lemma RecoveryAgreesIff(p: P.Params, events: seq<Event>, m: Machine, h: nat) returns (events': seq<Event>, m': Machine)
    requires Runs(p, events, m) && h in m.handlers && m.handlers[h].Committed? && m.handlers[h].response.charge < U128
    requires Recorded(m.rows, m.world.entries, m.handlers[h].response)
    ensures var r := m.handlers[h].response;
      && Runs(p, events', m') && Answered(r) in m'.released && Answered(Narrowed(r)) in m'.released
      && (Narrowed(r) == r <==> r.charge < I64_LIMIT || r.charge >= U128 - I64_LIMIT)
  {
    hide Runs, Rebuilt, StoredCharge;
    var r, m1 := m.handlers[h].response, Next(p, m, Reply(h));
    ExtendRunBy(p, events, m, Reply(h));
    ExtendRunBy(p, events + [Reply(h)], m1, Recover(r.nullifier));
    events', m' := events + [Reply(h)] + [Recover(r.nullifier)], Next(p, m1, Recover(r.nullifier));
    ChargeSurvivesIff(r.charge);
  }

  // ---- Runs of the server are runs of the protocol ----

  ghost predicate Reaches(p: P.Params, actions: seq<P.Action>, w: P.World) {
    P.Legal(p, actions) && P.WorldAfter(p, actions) == w
  }

  lemma ExtendRun(p: P.Params, actions: seq<P.Action>, w: P.World, a: P.Action)
    requires Reaches(p, actions, w) && P.Allowed(p, w, a)
    ensures Reaches(p, actions + [a], P.Apply(p, w, a))
  {
  }

  /** Reserving again and then finalizing is what winning the nullifier amounts to. */
  lemma CommitFollows(p: P.Params, m: Machine, request: Request, a: ProviderAnswer, s: Signing)
    requires StillGood(p, m.world, request) && a.charge <= p.chargeCap
    requires request.inputs.requestNullifier in m.world.entries && m.world.entries[request.inputs.requestNullifier].Accepted?
    ensures var reserve, x := P.Reserve(request.inputs, request.opening), request.inputs.requestNullifier;
      var finalize := P.Finalize(x, a.charge, s.blindDelta, s.randomness);
      && P.Allowed(p, m.world, reserve) && P.Allowed(p, P.Apply(p, m.world, reserve), finalize)
      && P.Apply(p, P.Apply(p, m.world, reserve), finalize)
         == m.world.(entries := m.world.entries[x := P.Charged(request.inputs, request.opening, a.charge, s.blindDelta, s.randomness)])
  {
    ReserveIsAllowed(p, m, request);
    var x := request.inputs.requestNullifier;
    var row := P.Charged(request.inputs, request.opening, a.charge, s.blindDelta, s.randomness);
    assert m.world.entries[x := P.Accepted(request.inputs, request.opening)][x := row] == m.world.entries[x := row];
  }

  lemma ClearFollows(p: P.Params, w: P.World, x: Felt)
    requires x !in w.entries
    ensures P.Allowed(p, w, P.Clear(x)) && P.Apply(p, w, P.Clear(x)) == w.(entries := w.entries[x := P.Barred])
  {
  }

  lemma InsertFollows(p: P.Params, m: Machine, h: nat, actions: seq<P.Action>) returns (after: seq<P.Action>)
    requires TableMatches(p.chargeCap, m.rows, m.world.entries) && h in m.handlers && (m.handlers[h].Vacant? || m.handlers[h].ClearanceSigned?)
    requires HandlerIsSound(p, m.rows, m.world, m.handlers[h]) && Reaches(p, actions, m.world)
    ensures Reaches(p, after, NextInsert(m, h).world)
  {
    hide RequestHolds, Reaches, P.Released, StillGood, P.Allowed, Holds;
    after := actions;
    match m.handlers[h] {
      case Vacant(request) =>
        if request.inputs.requestNullifier !in m.rows {
          ReserveIsAllowed(p, m, request);
          ExtendRun(p, actions, m.world, P.Reserve(request.inputs, request.opening));
          after := actions + [P.Reserve(request.inputs, request.opening)];
        }
      case ClearanceSigned(x) =>
        if x !in m.rows {
          ClearFollows(p, m.world, x);
          ExtendRun(p, actions, m.world, P.Clear(x));
          after := actions + [P.Clear(x)];
        }
    }
  }

  lemma CommitRunFollows(p: P.Params, m: Machine, h: nat, actions: seq<P.Action>) returns (after: seq<P.Action>)
    requires TableMatches(p.chargeCap, m.rows, m.world.entries) && h in m.handlers && m.handlers[h].Signed?
    requires HandlerIsSound(p, m.rows, m.world, m.handlers[h]) && Reaches(p, actions, m.world)
    ensures Reaches(p, after, NextCommit(m, h).world)
  {
    hide RequestHolds, Reaches, P.Released, StillGood, P.Allowed, P.Apply, Answer, Written;
    var Signed(request, a, s) := m.handlers[h];
    var x := request.inputs.requestNullifier;
    after := actions;
    if m.rows[x].status == Reserved {
      assert RowMatches(p.chargeCap, m.rows[x], m.world.entries[x]);
      CommitFollows(p, m, request, a, s);
      var reserve, finalize := P.Reserve(request.inputs, request.opening), P.Finalize(x, a.charge, s.blindDelta, s.randomness);
      ExtendRun(p, actions, m.world, reserve);
      ExtendRun(p, actions + [reserve], P.Apply(p, m.world, reserve), finalize);
      after := actions + [reserve] + [finalize];
    }
  }

  lemma EventFollows(p: P.Params, m: Machine, e: Event, actions: seq<P.Action>) returns (after: seq<P.Action>)
    requires TableMatches(p.chargeCap, m.rows, m.world.entries) && (forall h :: h in m.handlers ==> HandlerIsSound(p, m.rows, m.world, m.handlers[h]))
    requires Enabled(p, m, e) && Reaches(p, actions, m.world)
    ensures Reaches(p, after, Next(p, m, e).world)
  {
    hide Reaches, PassesChecks, NextLookUp, NextInsert, NextCommit, NextExecute, NextSign, P.Allowed, P.Apply, StillGood, Holds, Recorded, RowMatches;
    if e.Outside? {
      ExtendRun(p, actions, m.world, e.action);
      return actions + [e.action];
    } else if e.Insert? {
      assert HandlerIsSound(p, m.rows, m.world, m.handlers[e.handler]);
      after := InsertFollows(p, m, e.handler, actions);
    } else if e.Commit? {
      assert HandlerIsSound(p, m.rows, m.world, m.handlers[e.handler]);
      after := CommitRunFollows(p, m, e.handler, actions);
    } else {
      OthersLeaveTable(p, m, e);
      after := actions;
    }
  }

  /** Every run of the server, however its handlers interleave and die, is a run of the protocol. */
  lemma {:induction false} RunFollowsProtocol(p: P.Params, events: seq<Event>, m: Machine) returns (actions: seq<P.Action>)
    requires Runs(p, events, m)
    ensures Reaches(p, actions, m.world)
    decreases |events|
  {
    hide Enabled, Next, HandlerIsSound, ReleaseIsSound, RowMatches;
    if events == [] { return []; }
    var before, e := events[..|events| - 1], events[|events| - 1];
    assert RunsThenSteps(p, before, e, m);
    var m0 :| Runs(p, before, m0) && Enabled(p, m0, e) && m == Next(p, m0, e);
    RunKeepsInv(p, before, m0);
    actions := RunFollowsProtocol(p, before, m0);
    actions := EventFollows(p, m0, e, actions);
  }

  /** So everything proved of the protocol holds of the server. */
  lemma RunIsGood(p: P.Params, events: seq<Event>, m: Machine)
    requires Runs(p, events, m) && P.LeavesStayApart(p.repr, m.world.vault)
    ensures P.Good(p, m.world) && Settlement.EscapesAreBacked(p, m.world)
  {
    var actions := RunFollowsProtocol(p, events, m);
    Settlement.RunIsBacked(p, actions);
  }

  // ---- The code of one handler ----

  /** The steps of a handler that holds its nullifier, with nothing in between. */
  function Finished(p: P.Params, m: Machine, h: nat, outcome: Option<ProviderAnswer>, signing: Signing): Machine
    requires h in m.handlers && m.handlers[h].Holding?
  {
    var m1 := NextExecute(p, m, h, outcome);
    var m2 := if h in m1.handlers then NextSign(m1, h, signing) else m1;
    if h in m2.handlers then NextCommit(m2, h) else m2
  }

  function Held(m: Machine, h: nat): Machine
    requires h in m.handlers && m.handlers[h].Checked?
  {
    var m1 := NextLookUp(m, h);
    if h in m1.handlers && m1.handlers[h].Vacant? then NextInsert(m1, h) else m1
  }

  /** All the steps of a request handler with nothing in between. */
  function ServedAlone(p: P.Params, m: Machine, h: nat, outcome: Option<ProviderAnswer>, signing: Signing): Machine
    requires h in m.handlers && m.handlers[h].Checked?
  {
    var m1 := Held(m, h);
    if h in m1.handlers && m1.handlers[h].Holding? then Finished(p, m1, h, outcome, signing) else m1
  }

  /** The second half of process_request: ask the provider, sign, finalize. */
  method ExecuteAndFinalize(store: NullifierStore, request: Request, cap: nat, outcome: Option<ProviderAnswer>, signing: Signing,
                            ghost p: P.Params, ghost m: Machine, ghost h: nat)
    returns (result: Result<Response, ServerError>)
    requires store.rows == m.rows && p.chargeCap == cap && h in m.handlers && m.handlers[h] == Holding(request)
    modifies store
    ensures store.rows == Finished(p, m, h, outcome, signing).rows
    ensures result.Ok? <==> h in Finished(p, m, h, outcome, signing).handlers
    ensures result.Ok? ==> Finished(p, m, h, outcome, signing).handlers[h] == Committed(result.value)
    ensures result.Ok? ==> outcome.Some? && outcome.value.charge <= cap && Tells(result.value, request, outcome.value, signing)
    ensures result.Err? ==> result.error == if outcome.None? then ProviderFailed else Internal
  {
    hide Rebuilt, Written, ServerUpdate;
    if outcome.None? {
      return Err(ProviderFailed);
    }
    if outcome.value.charge > cap {
      return Err(Internal);
    }
    var response := Answer(request, outcome.value, signing);
    var finalized := store.Finalize(request.inputs.requestNullifier, response);
    if finalized.Err? {
      return Err(Internal);
    }
    result := Ok(response);
  }

  /** process_request from step 10 on does what those steps do. */
  method ProcessRequest(store: NullifierStore, request: Request, cap: nat, outcome: Option<ProviderAnswer>, signing: Signing,
                        ghost p: P.Params, ghost m: Machine, ghost h: nat)
    returns (result: Result<Response, ServerError>)
    requires store.rows == m.rows && p.chargeCap == cap && h in m.handlers && m.handlers[h] == Checked(request)
    modifies store
    ensures store.rows == ServedAlone(p, m, h, outcome, signing).rows
    ensures result.Ok? <==> h in ServedAlone(p, m, h, outcome, signing).handlers
    ensures result.Ok? ==> ServedAlone(p, m, h, outcome, signing).handlers[h] in {Committed(result.value), Recalled(result.value)}
    ensures result == Err(Replay) <==> request.inputs.requestNullifier in old(store.rows) && var row := old(store.rows)[request.inputs.requestNullifier];
      row.requestId != Some(request.requestId) || row.payloadHash != Some(PayloadHash(request.payload)) || row.status == ClearanceReserved
    ensures result.Ok? && request.inputs.requestNullifier in old(store.rows) ==> var row := old(store.rows)[request.inputs.requestNullifier];
      row.requestId == Some(request.requestId) && row.payloadHash == Some(PayloadHash(request.payload)) && row.status != ClearanceReserved
    ensures result.Ok? && (request.inputs.requestNullifier in old(store.rows) ==> old(store.rows)[request.inputs.requestNullifier].status != Finalized) ==>
      outcome.Some? && outcome.value.charge <= cap && Tells(result.value, request, outcome.value, signing)
  {
    hide Rebuilt, Finished;
    var x, payloadHash := request.inputs.requestNullifier, PayloadHash(request.payload);
    var found := store.LookUp(x);
    if found.Some? && SameRequest(found.value, request) && found.value.status == Finalized {
      return Ok(Rebuilt(x, found.value));
    } else if found.Some? && SameRequest(found.value, request) && found.value.status == Reserved {
    } else if found.Some? {
      return Err(Replay);
    } else {
      var reserved := store.Reserve(x, request.requestId, payloadHash);
      if reserved.Err? {
        return Err(Replay);
      }
    }
    result := ExecuteAndFinalize(store, request, cap, outcome, signing, p, Held(m, h), h);
  }

  /** process_clearance: the signature is made first, and released only if the nullifier was still free. */
  method ProcessClearance(store: NullifierStore, x: Felt) returns (result: Result<Felt, ServerError>)
    modifies store
    ensures (result == Ok(x) && x !in old(store.rows)) || (result == Err(NullifierUsed) && x in old(store.rows))
    ensures store.rows == if result.Ok? then old(store.rows)[x := CLEARED_ROW] else old(store.rows)
  {
    var found := store.LookUp(x);
    if found.Some? {
      return Err(NullifierUsed);
    }
    var taken := store.ReserveClearance(x);
    if taken.Err? {
      return Err(NullifierUsed);
    }
    result := Ok(x);
  }
}
