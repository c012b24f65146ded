/** When what a caller was told and what a retry is told are the same, over all runs of the
    server: the charge column holds 64 bits with a sign, so it depends on the charge cap. */
module Recovery {
  import opened Powers
  import opened Wrappers
  import opened Felts
  import opened Merkle
  import opened VaultSpec
  import VaultInvariant
  import opened Pedersen
  import opened Circuits
  import P = Protocol
  import opened Server

  /** No run of the server ever releases two answers for one nullifier. */
  ghost predicate OneAnswerInEveryRun(p: P.Params) {
    forall events, m, r, r' :: Runs(p, events, m) && Answered(r) in m.released && Answered(r') in m.released && r.nullifier == r'.nullifier ==> r == r'
  }

  lemma SmallCapAgrees(p: P.Params, events: seq<Server.Event>, m: Machine, r: Response, r': Response)
    requires p.chargeCap < I64_LIMIT && Runs(p, events, m)
    requires Answered(r) in m.released && Answered(r') in m.released && r.nullifier == r'.nullifier
    ensures r == r'
  {
    hide MachineInv, Runs, StoredCharge;
    RunKeepsInv(p, events, m);
    ReleasedIsSigned(p, m, r);
    ChargeSurvivesIff(m.world.entries[r.nullifier].charge);
    AnswersAgree(p, events, m, r, r');
  }

  // ---- A run that tells a caller one charge and a retry another ----

  const SECRET: Felt := Num(1)
  const AMOUNT: nat := U128 - 1

  /** A token vault that takes a deposit at time zero, and a server whose cap is a u128. */
  predicate TakesLargeNotes(p: P.Params) {
    p.cfg.weiPerUnit == 0 && p.cfg.depth >= 1 && BucketedExpiry(p.cfg.noteTtl) < U64 && p.chargeCap < U128
  }

  function FirstNote(cfg: Config): Note { Note(Registration(SECRET), AMOUNT, BucketedExpiry(cfg.noteTtl), Active) }

  function FirstLeaf(cfg: Config): Felt { NoteLeaf(0, SECRET, AMOUNT, BucketedExpiry(cfg.noteTtl)) }

  function FirstPath(cfg: Config): seq<Felt> { TrueSiblings(NODE_HASH, map[], ZERO, cfg.depth, 0) }

  function FirstRoot(cfg: Config): Felt { PathRoot(NODE_HASH, 0, FirstLeaf(cfg), FirstPath(cfg)) }

  function FirstWords(cfg: Config): seq<Word> {
    seq(cfg.depth, k requires 0 <= k < cfg.depth => Word(FirstPath(cfg)[k], 0))
  }

  function FirstRequest(p: P.Params): Request {
    var context := RequestContext("1", PayloadHash(""));
    var opening := RequestWitness(SECRET, context, 0, AMOUNT, BucketedExpiry(p.cfg.noteTtl), FirstPath(p.cfg), AMOUNT, 0, 0, GENESIS_ANCHOR, true);
    var x := Nullifier(SECRET, GENESIS_ANCHOR);
    Request("1", "", RequestInputs(p.cfg.deployment, FirstRoot(p.cfg), p.cfg.stateKey, 0, p.chargeCap, x, Authorization(x, context),
                                   Rerandomize(WitnessCommitment(p.repr, opening), 0)), opening)
  }

  lemma FirstDeposit(p: P.Params)
    requires TakesLargeNotes(p)
    ensures var s := InitialState(p.cfg);
      Deposit(p.cfg, s, Env(0, false, true), Word(Registration(SECRET), 0), AMOUNT, FirstWords(p.cfg), 0)
      == Done(s.(currentRoot := FirstRoot(p.cfg), notes := map[0 := FirstNote(p.cfg)], nextNoteId := 1, funds := AMOUNT),
              NoteDeposited(0, Registration(SECRET), AMOUNT, BucketedExpiry(p.cfg.noteTtl), FirstRoot(p.cfg)))
  {
    assert Residues(FirstWords(p.cfg)) == FirstPath(p.cfg);
    VaultInvariant.TruePathPasses(p.cfg, map[], 0, FirstLeaf(p.cfg), FirstWords(p.cfg));
    assert Pow(2, p.cfg.depth) >= 2;
  }

  lemma FirstRequestHolds(p: P.Params)
    requires TakesLargeNotes(p)
    ensures RequestHolds(p.cfg.depth, p.repr, P.Released(p.cfg, map[]), FirstRequest(p).inputs, FirstRequest(p).opening)
  {
    hide Rerandomize, Pedersen.Commit, PathRoot, TrueSiblings;
  }

  lemma NoEvents(p: P.Params)
    ensures Runs(p, [], InitialMachine(p))
  {
  }

  function FirstVault(cfg: Config): VaultState {
    InitialState(cfg).(currentRoot := FirstRoot(cfg), notes := map[0 := FirstNote(cfg)], nextNoteId := 1, funds := AMOUNT)
  }

  const DEPOSIT_ENV: Env := Env(0, false, true)

  function FirstCall(cfg: Config): Call { CallDeposit(Word(Registration(SECRET), 0), AMOUNT, FirstWords(cfg), 0) }

  /** Deposit, tell the server, prove: the request passes every check of the server. */
  lemma FirstRequestPasses(p: P.Params) returns (events: seq<Server.Event>, m: Machine)
    requires TakesLargeNotes(p)
    ensures Runs(p, events, m) && m.handlers == map[] && m.rows == map[] && PassesChecks(p, m, FirstRequest(p))
  {
    hide RequestHolds, Runs, Deposit, FirstRoot, FirstPath, P.Released, Rerandomize;
    var m0, request := InitialMachine(p), FirstRequest(p);
    var e1, e2, e3 := Outside(P.VaultCall(DEPOSIT_ENV, FirstCall(p.cfg))), Outside(P.SyncRoot), Outside(P.ProveRequest(request.inputs, request.opening));
    FirstRequestHolds(p);
    FirstDeposit(p);
    NoEvents(p);
    ExtendRunBy(p, [], m0, e1);
    var m1 := m0.(world := m0.world.(vault := FirstVault(p.cfg)));
    assert Next(p, m0, e1) == m1;
    ExtendRunBy(p, [] + [e1], m1, e2);
    var m2 := Next(p, m1, e2);
    ExtendRunBy(p, [] + [e1] + [e2], m2, e3);
    events, m := [] + [e1] + [e2] + [e3], Next(p, m2, e3);
  }

  /** The caller of a request that was charged 2^63 is told so; whoever recovers it is told 2^128 - 2^63. */
  lemma LargeCapDiverges(p: P.Params) returns (events: seq<Server.Event>, m: Machine, r: Response)
    requires TakesLargeNotes(p) && p.chargeCap >= I64_LIMIT
    ensures Runs(p, events, m) && Answered(r) in m.released && Answered(Narrowed(r)) in m.released
    ensures r.charge == I64_LIMIT && Narrowed(r).charge == U128 - I64_LIMIT
  {
    hide Runs, PassesChecks, FirstRequest, MachineInv, StoredCharge;
    var request, a, s := FirstRequest(p), ProviderAnswer(200, "", I64_LIMIT, None, None), Signing(0, ZERO, 0, ZERO, 0);
    r := Answer(request, a, s);
    events, m := FirstRequestPasses(p);
    events, m := RequestCanCommit(p, events, m, request, a, s);
    CommittedIsRecorded(p, events, m, 0);
    events, m := RecoveryAgreesIff(p, events, m, 0);
    LargeChargeIsMisread();
  }

  lemma CommittedIsRecorded(p: P.Params, events: seq<Server.Event>, m: Machine, h: nat)
    requires Runs(p, events, m) && h in m.handlers && m.handlers[h].Committed?
    ensures Recorded(m.rows, m.world.entries, m.handlers[h].response)
  {
    hide Runs, TableMatches, ReleaseIsSound, StillGood, Holds, Rebuilt, Recorded;
    RunKeepsInv(p, events, m);
    assert HandlerIsSound(p, m.rows, m.world, m.handlers[h]);
  }

  /** A server keeps to one answer, whatever happens, exactly when its cap is below 2^63. */
  lemma OneAnswerIff(p: P.Params)
    requires TakesLargeNotes(p)
    ensures OneAnswerInEveryRun(p) <==> p.chargeCap < I64_LIMIT
  {
    hide Runs;
    if p.chargeCap < I64_LIMIT {
      forall events, m, r, r' | Runs(p, events, m) && Answered(r) in m.released && Answered(r') in m.released && r.nullifier == r'.nullifier
        ensures r == r'
      {
        SmallCapAgrees(p, events, m, r, r');
      }
    } else {
      var events, m, r := LargeCapDiverges(p);
      assert Answered(r) in m.released && Answered(Narrowed(r)) in m.released && r != Narrowed(r);
    }
  }

  /** The constructor of the vault bounds the cap of a vault of the chain's own coin, and so no charge is ever misread there. */
  lemma NativeVaultKeepsToOneAnswer(a: Deployer, depth: nat, deployment: Deployment, p: P.Params)
    requires RefusedDeployment(a).None? && a.billingToken == 0
    requires p.cfg == DeployedConfig(a, depth, deployment) && p.chargeCap == a.requestChargeCap
    ensures OneAnswerInEveryRun(p)
  {
    hide Runs;
    forall events, m, r, r' | Runs(p, events, m) && Answered(r) in m.released && Answered(r') in m.released && r.nullifier == r'.nullifier
      ensures r == r'
    {
      SmallCapAgrees(p, events, m, r, r');
    }
  }
}
