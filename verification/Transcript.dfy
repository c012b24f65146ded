/** What a released answer tells: the very answer the provider gave to a handler that held that
    request, and the very place in the signing tree that signed it, however handlers
    interleave and die in between. */
module Transcript {
  import opened Wrappers
  import opened Felts
  import opened Pedersen
  import opened Circuits
  import P = Protocol
  import opened Server

  /** Event k of the run is the provider answering `a` to a handler that holds the request. */
  ghost predicate ExecutedAt(p: P.Params, events: seq<Event>, k: nat, m: Machine, h: nat, request: Request, a: ProviderAnswer) {
    && k < |events| && Runs(p, events[..k], m) && events[k] == Execute(h, Some(a))
    && h in m.handlers && m.handlers[h] == Holding(request)
  }

  ghost predicate WasExecuted(p: P.Params, events: seq<Event>, request: Request, a: ProviderAnswer) {
    exists k: nat, m, h: nat :: ExecutedAt(p, events, k, m, h, request, a)
  }

  /** Event k of the run is the signing of that answer. */
  ghost predicate SignedAt(p: P.Params, events: seq<Event>, k: nat, m: Machine, h: nat, request: Request, a: ProviderAnswer, s: Signing) {
    && k < |events| && Runs(p, events[..k], m) && events[k] == Sign(h, s)
    && h in m.handlers && m.handlers[h] == Executed(request, a) && FitsTypes(a, s)
  }

  ghost predicate WasSigned(p: P.Params, events: seq<Event>, request: Request, a: ProviderAnswer, s: Signing) {
    exists k: nat, m, h: nat :: SignedAt(p, events, k, m, h, request, a, s)
  }

  lemma ExecutedStays(p: P.Params, events: seq<Event>, e: Event, request: Request, a: ProviderAnswer)
    requires WasExecuted(p, events, request, a)
    ensures WasExecuted(p, events + [e], request, a)
  {
    hide Runs;
    var k: nat, m, h: nat :| ExecutedAt(p, events, k, m, h, request, a);
    assert (events + [e])[..k] == events[..k];
    assert ExecutedAt(p, events + [e], k, m, h, request, a);
  }

  lemma SignedStays(p: P.Params, events: seq<Event>, e: Event, request: Request, a: ProviderAnswer, s: Signing)
    requires WasSigned(p, events, request, a, s)
    ensures WasSigned(p, events + [e], request, a, s)
  {
    hide Runs, FitsTypes;
    var k: nat, m, h: nat :| SignedAt(p, events, k, m, h, request, a, s);
    assert (events + [e])[..k] == events[..k];
    assert SignedAt(p, events + [e], k, m, h, request, a, s);
  }

  /** An execution and a signature of this run stand behind it. */
  ghost predicate IsGenuine(p: P.Params, events: seq<Event>, request: Request, a: ProviderAnswer, s: Signing) {
    WasExecuted(p, events, request, a) && WasSigned(p, events, request, a, s) && FitsTypes(a, s)
  }

  /** What a handler that has executed or signed remembers did happen. */
  ghost predicate HandlerIsGenuine(p: P.Params, events: seq<Event>, handler: Handler) {
    match handler
    case Executed(request, a) => WasExecuted(p, events, request, a)
    case Signed(request, a, s) => IsGenuine(p, events, request, a, s)
    case _ => true
  }

  /** A finalized row and the protocol's entry record one genuine answer. */
  ghost predicate RowRecords(p: P.Params, events: seq<Event>, x: Felt, row: Row, seen: P.Entry, request: Request, a: ProviderAnswer, s: Signing) {
    && IsGenuine(p, events, request, a, s) && request.inputs.requestNullifier == x
    && row.requestId == Some(request.requestId) && row.payloadHash == Some(PayloadHash(request.payload))
    && Tells(Rebuilt(x, row).(charge := a.charge), request, a, s)
    && seen == P.Charged(request.inputs, request.opening, a.charge, s.blindDelta, s.randomness)
  }

  ghost predicate RowIsGenuine(p: P.Params, events: seq<Event>, x: Felt, row: Row, seen: P.Entry) {
    exists request, a, s :: RowRecords(p, events, x, row, seen, request, a, s)
  }

  ghost predicate AllGenuine(p: P.Params, events: seq<Event>, m: Machine) {
    && (forall h :: h in m.handlers ==> HandlerIsGenuine(p, events, m.handlers[h]))
    && (forall x :: x in m.rows && m.rows[x].status == Finalized ==> x in m.world.entries && RowIsGenuine(p, events, x, m.rows[x], m.world.entries[x]))
  }

  lemma HandlerStays(p: P.Params, events: seq<Event>, e: Event, handler: Handler)
    requires HandlerIsGenuine(p, events, handler)
    ensures HandlerIsGenuine(p, events + [e], handler)
  {
    hide WasExecuted, WasSigned;
    match handler
    case Executed(request, a) => ExecutedStays(p, events, e, request, a);
    case Signed(request, a, s) =>
      ExecutedStays(p, events, e, request, a);
      SignedStays(p, events, e, request, a, s);
    case _ =>
  }

  lemma RowStays(p: P.Params, events: seq<Event>, e: Event, x: Felt, row: Row, seen: P.Entry)
    requires RowIsGenuine(p, events, x, row, seen)
    ensures RowIsGenuine(p, events + [e], x, row, seen)
  {
    hide WasExecuted, WasSigned, Tells, Rebuilt;
    var request, a, s :| RowRecords(p, events, x, row, seen, request, a, s);
    ExecutedStays(p, events, e, request, a);
    SignedStays(p, events, e, request, a, s);
    assert RowRecords(p, events + [e], x, row, seen, request, a, s);
  }

  // ---- Every step keeps it ----

  lemma GenuineCarries(p: P.Params, events: seq<Event>, e: Event, m: Machine, m': Machine)
    requires AllGenuine(p, events, m)
    requires forall h :: h in m'.handlers ==> (h in m.handlers && m'.handlers[h] == m.handlers[h]) || HandlerIsGenuine(p, events + [e], m'.handlers[h])
    requires forall x :: x in m'.rows && m'.rows[x].status == Finalized ==>
      x in m'.world.entries
      && (|| (x in m.rows && m'.rows[x] == m.rows[x] && x in m.world.entries && m'.world.entries[x] == m.world.entries[x])
          || RowIsGenuine(p, events + [e], x, m'.rows[x], m'.world.entries[x]))
    ensures AllGenuine(p, events + [e], m')
  {
    hide HandlerIsGenuine, RowIsGenuine;
    forall h | h in m'.handlers ensures HandlerIsGenuine(p, events + [e], m'.handlers[h]) {
      if h in m.handlers && m'.handlers[h] == m.handlers[h] {
        HandlerStays(p, events, e, m.handlers[h]);
      }
    }
    forall x | x in m'.rows && m'.rows[x].status == Finalized ensures RowIsGenuine(p, events + [e], x, m'.rows[x], m'.world.entries[x]) {
      if x in m.rows && m'.rows[x] == m.rows[x] && m.rows[x].status == Finalized && x in m.world.entries && m'.world.entries[x] == m.world.entries[x] {
        RowStays(p, events, e, x, m.rows[x], m.world.entries[x]);
      }
    }
  }

  lemma ExecuteKeeps(p: P.Params, events: seq<Event>, m: Machine, h: nat, outcome: Option<ProviderAnswer>)
    requires Runs(p, events, m) && AllGenuine(p, events, m) && h in m.handlers && m.handlers[h].Holding?
    ensures AllGenuine(p, events + [Execute(h, outcome)], NextExecute(p, m, h, outcome))
  {
    hide Runs, RowIsGenuine;
    var e := Execute(h, outcome);
    if outcome.Some? {
      assert (events + [e])[..|events|] == events;
      assert ExecutedAt(p, events + [e], |events|, m, h, m.handlers[h].request, outcome.value);
    }
    GenuineCarries(p, events, e, m, NextExecute(p, m, h, outcome));
  }

  lemma SignKeeps(p: P.Params, events: seq<Event>, m: Machine, h: nat, signing: Signing)
    requires Runs(p, events, m) && AllGenuine(p, events, m) && Enabled(p, m, Sign(h, signing))
    ensures AllGenuine(p, events + [Sign(h, signing)], NextSign(m, h, signing))
  {
    hide Runs, RowIsGenuine, WasExecuted, FitsTypes;
    var e := Sign(h, signing);
    if m.handlers[h].Executed? {
      var request, a := m.handlers[h].request, m.handlers[h].answer;
      assert (events + [e])[..|events|] == events;
      assert SignedAt(p, events + [e], |events|, m, h, request, a, signing);
      assert HandlerIsGenuine(p, events, m.handlers[h]);
      ExecutedStays(p, events, e, request, a);
    }
    GenuineCarries(p, events, e, m, NextSign(m, h, signing));
  }

  /** What is written for an answer is read back as that answer, but for the charge. */
  lemma WrittenTells(request: Request, a: ProviderAnswer, s: Signing)
    requires FitsTypes(a, s)
    ensures var row := CommittedAs(request, Answer(request, a, s));
      Tells(Rebuilt(request.inputs.requestNullifier, row).(charge := a.charge), request, a, s)
  {
    hide AsI64, ServerUpdate;
    RebuiltIff(Answer(request, a, s), CommittedAs(request, Answer(request, a, s)));
  }

  lemma CommitKeepsGenuine(p: P.Params, events: seq<Event>, m: Machine, h: nat)
    requires MachineInv(p, m) && AllGenuine(p, events, m) && h in m.handlers && m.handlers[h].Signed?
    ensures AllGenuine(p, events + [Commit(h)], NextCommit(m, h))
  {
    hide TableMatches, StillGood, Rebuilt, Written, Answer, Tells, WasExecuted, WasSigned, FitsTypes, ReleaseIsSound;
    var Signed(request, a, s) := m.handlers[h];
    var e, x := Commit(h), request.inputs.requestNullifier;
    assert HandlerIsSound(p, m.rows, m.world, m.handlers[h]) && HandlerIsGenuine(p, events, m.handlers[h]);
    HandlerStays(p, events, e, m.handlers[h]);
    if m.rows[x].status == Reserved {
      WrittenTells(request, a, s);
      var m' := NextCommit(m, h);
      assert m'.rows[x] == CommittedAs(request, Answer(request, a, s));
      assert RowRecords(p, events + [e], x, m'.rows[x], m'.world.entries[x], request, a, s);
    }
    hide RowIsGenuine;
    GenuineCarries(p, events, e, m, NextCommit(m, h));
  }

  lemma InsertKeepsGenuine(p: P.Params, events: seq<Event>, m: Machine, h: nat)
    requires TableMatches(p.chargeCap, m.rows, m.world.entries) && AllGenuine(p, events, m) && Enabled(p, m, Insert(h))
    ensures AllGenuine(p, events + [Insert(h)], NextInsert(m, h))
  {
    hide RowMatches, PassesChecks, RowIsGenuine, P.Allowed, WasExecuted, WasSigned;
    GenuineCarries(p, events, Insert(h), m, NextInsert(m, h));
  }

  lemma OutsideKeepsGenuine(p: P.Params, events: seq<Event>, m: Machine, a: P.Action)
    requires AllGenuine(p, events, m) && Enabled(p, m, Outside(a))
    ensures AllGenuine(p, events + [Outside(a)], Next(p, m, Outside(a)))
  {
    hide PassesChecks, RowIsGenuine, P.Allowed, WasExecuted, WasSigned;
    GenuineCarries(p, events, Outside(a), m, Next(p, m, Outside(a)));
  }

  lemma LookUpKeepsGenuine(p: P.Params, events: seq<Event>, m: Machine, h: nat)
    requires AllGenuine(p, events, m) && Enabled(p, m, LookUp(h))
    ensures AllGenuine(p, events + [LookUp(h)], NextLookUp(m, h))
  {
    hide PassesChecks, Rebuilt, RowIsGenuine, P.Allowed, P.Apply, SameRequest, WasExecuted, WasSigned;
    GenuineCarries(p, events, LookUp(h), m, NextLookUp(m, h));
  }

  lemma OtherKeepsGenuine(p: P.Params, events: seq<Event>, m: Machine, e: Event)
    requires AllGenuine(p, events, m) && Enabled(p, m, e)
    requires e.Arrive? || e.AskClearance? || e.Reply? || e.Recover? || e.Crash? || e.Restart?
    ensures AllGenuine(p, events + [e], Next(p, m, e))
  {
    hide PassesChecks, Rebuilt, RowIsGenuine, P.Allowed, P.Apply, NextLookUp, NextInsert, NextCommit, NextExecute, NextSign, WasExecuted, WasSigned, FitsTypes;
    GenuineCarries(p, events, e, m, Next(p, m, e));
  }

  lemma {:induction false} RunIsGenuine(p: P.Params, events: seq<Event>, m: Machine)
    requires Runs(p, events, m)
    ensures AllGenuine(p, events, m)
    decreases |events|
  {
    hide Enabled, Next, MachineInv, AllGenuine;
    if events == [] {
      NothingYet(p);
    } else {
      var before, e := events[..|events| - 1], events[|events| - 1];
      assert RunsThenSteps(p, before, e, m);
      var m0 :| Runs(p, before, m0) && Enabled(p, m0, e) && m == Next(p, m0, e);
      assert before + [e] == events;
      RunKeepsInv(p, before, m0);
      RunIsGenuine(p, before, m0);
      EventKeepsGenuine(p, before, m0, e);
    }
  }

  lemma NothingYet(p: P.Params)
    ensures AllGenuine(p, [], InitialMachine(p))
  {
  }

  lemma EventKeepsGenuine(p: P.Params, events: seq<Event>, m: Machine, e: Event)
    requires Runs(p, events, m) && MachineInv(p, m) && AllGenuine(p, events, m) && Enabled(p, m, e)
    ensures AllGenuine(p, events + [e], Next(p, m, e))
  {
    hide Runs, AllGenuine, PassesChecks, P.Allowed, P.Apply, NextCommit, NextExecute, NextSign, NextInsert, NextLookUp;
    hide HandlerIsSound, ReleaseIsSound, RowMatches;
    match e
    case Outside(a) => OutsideKeepsGenuine(p, events, m, a);
    case LookUp(h) => LookUpKeepsGenuine(p, events, m, h);
    case Insert(h) => InsertKeepsGenuine(p, events, m, h);
    case Execute(h, outcome) => ExecuteKeeps(p, events, m, h, outcome);
    case Sign(h, signing) => SignKeeps(p, events, m, h, signing);
    case Commit(h) => CommitKeepsGenuine(p, events, m, h);
    case _ => OtherKeepsGenuine(p, events, m, e);
  }

  /** Every released answer, told at once or read back, carries the code, payload, reason and evidence the provider gave to a
      handler that held the request, the signing place used for it, and the commitment updated by the provider's charge; the
      entry was charged that much, and the charge told is that one or what the column makes of it. */
  lemma AnswerIsGenuine(p: P.Params, events: seq<Event>, m: Machine, r: Response) returns (request: Request, a: ProviderAnswer, s: Signing)
    requires Runs(p, events, m) && Answered(r) in m.released
    ensures WasExecuted(p, events, request, a) && WasSigned(p, events, request, a, s)
    ensures Tells(r.(charge := a.charge), request, a, s) && (r.charge == a.charge || r.charge == StoredCharge(a.charge))
    ensures r.nullifier in m.world.entries && m.world.entries[r.nullifier].Charged? && m.world.entries[r.nullifier].charge == a.charge
    ensures m.world.entries[r.nullifier].inputs == request.inputs
    ensures r.nullifier in m.rows && m.rows[r.nullifier].payloadHash == Some(PayloadHash(request.payload))
  {
    hide Runs, MachineInv, WasExecuted, WasSigned, FitsTypes, HandlerIsGenuine, Rebuilt, StoredCharge;
    RunKeepsInv(p, events, m);
    RunIsGenuine(p, events, m);
    ReleasedIsSigned(p, m, r);
    var x := r.nullifier;
    assert RowIsGenuine(p, events, x, m.rows[x], m.world.entries[x]);
    request, a, s :| RowRecords(p, events, x, m.rows[x], m.world.entries[x], request, a, s);
    assert Narrowed(r).(charge := a.charge) == r.(charge := a.charge);
  }

  /** A handler that is read an answer back asked the very question the provider had answered. */
  lemma RecalledIsSameQuestion(p: P.Params, events: seq<Event>, m: Machine, h: nat) returns (request: Request, a: ProviderAnswer, s: Signing)
    requires Runs(p, events, m) && h in m.handlers && m.handlers[h].Checked?
    requires h in NextLookUp(m, h).handlers && NextLookUp(m, h).handlers[h].Recalled?
    ensures WasExecuted(p, events, request, a)
    ensures request.requestId == m.handlers[h].request.requestId && request.payload == m.handlers[h].request.payload
    ensures request.inputs.requestNullifier == m.handlers[h].request.inputs.requestNullifier
    ensures Tells(NextLookUp(m, h).handlers[h].response.(charge := a.charge), request, a, s)
  {
    hide Runs, WasExecuted, WasSigned, FitsTypes, HandlerIsGenuine, Rebuilt, Tells;
    RunIsGenuine(p, events, m);
    var x := m.handlers[h].request.inputs.requestNullifier;
    assert RowIsGenuine(p, events, x, m.rows[x], m.world.entries[x]);
    request, a, s :| RowRecords(p, events, x, m.rows[x], m.world.entries[x], request, a, s);
  }
}
