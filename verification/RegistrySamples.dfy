/** Short runs from the empty registry that reach what the invariants do not rule out. */
module RegistrySamples {
  import opened Basics
  import opened JsonValue
  import opened RegistryModel
  import opened RegistrySteps
  import Admin = AdminGovernance

  const SAMPLE := Contract(2, "example.com", "Coin", 8, Some("COIN"))

  function Registration(custom: Custom): Step {
    SRegisterV2("id", SAMPLE, "key", Mutable([], [], custom), Issuance(None, None))
  }

  const SAMPLE_STEP := Registration(map[])

  lemma RunSnoc(env: Env, events: seq<Event>, event: Event)
    ensures Run(env, events + [event]) == Perform(env, Run(env, events), event.step, event.now).0
  {
  }

  // ---- One registration ----

  function Registered(custom: Custom): Payload { PRegister("id", SAMPLE, "key", Mutable([], [], custom)) }

  /** The registry just after its first registration. */
  predicate HoldsSample(env: Env, s: Db, custom: Custom) {
    && s.assets == [NewAsset("id", SAMPLE, Issuance(None, None), "key", FromContract, Mutable([], [], custom), 1, 0)]
    && s.log == [SystemEntry(1, 0, Registered(custom), Some(env.actionHash(Registered(custom))))]
    && s.nextSequence == 2
  }

  lemma RegisteredOnce(env: Env, custom: Custom)
    ensures HoldsSample(env, Run(env, [Event(Registration(custom), 0)]), custom)
  {
    assert FindActive(EMPTY_REGISTRY.assets, "id").None? && !NamespaceTaken(EMPTY_REGISTRY.assets, SAMPLE);
    assert RegisterV2(env, EMPTY_REGISTRY, "id", SAMPLE, "key", Mutable([], [], custom), Issuance(None, None), 0).1.Applied?;
    RunSnoc(env, [], Event(Registration(custom), 0));
    assert [] + [Event(Registration(custom), 0)] == [Event(Registration(custom), 0)];
  }

  /** The first issuer action of the registered asset, naming the hash of its registration. */
  function FirstAction(env: Env, custom: Custom, op: IssuerOp): IssuerAction {
    IssuerAction("id", env.actionHash(Registered(custom)), 0, "nonce-01", op)
  }

  lemma SampleLog(env: Env, s: Db, custom: Custom)
    requires HoldsSample(env, s, custom)
    ensures LogOf(s.log, 0) == s.log && FindActive(s.assets, "id") == Some(0)
  {
    assert s.log == [] + [s.log[0]];
    LogOfAppend([], s.log[0], 0);
  }

  lemma FirstActionPasses(env: Env, s: Db, custom: Custom, op: IssuerOp, signature: Signature, window: int)
    requires HoldsSample(env, s, custom) && 0 <= window
    requires env.verifyIssuer("key", signature, FirstAction(env, custom, op))
    ensures FindIssuerNonce(s.log, "nonce-01").None?
    ensures IssuerChecks(env, s.assets[0], s.log, FirstAction(env, custom, op), signature, 0, window).None?
  {
    assert LatestChainEntry(s.log) == Some(s.log[0]);
    assert s.log[..0] == [] && NewestIssuerTime(s.log[..0]).None?;
    assert TopIssuerTime(s.log).None?;
  }

  lemma FirstActionAtTheGate(env: Env, s: Db, custom: Custom, op: IssuerOp, signature: Signature, window: int)
    requires HoldsSample(env, s, custom) && 0 <= window && ParsesAsIssuerAction(op)
    requires env.verifyIssuer("key", signature, FirstAction(env, custom, op))
    ensures IssuerGate(env, s, "id", FirstAction(env, custom, op), signature, 0, window)
         == if RejectNoOp(s.assets[0], op).Some? then Stop(Rejected(RejectNoOp(s.assets[0], op).value)) else Go(0)
  {
    SampleLog(env, s, custom);
    FirstActionPasses(env, s, custom, op, signature, window);
  }

  const TWICE_THE_URL := ReplaceTradingVenues(1, [Venue("First", "https://venue.example"), Venue("Second", "https://venue.example")])

  /** A venue replacement with one URL twice is refused as a nonce conflict, though the registry has seen no nonce. */
  lemma NonceConflictHappens(env: Env, signature: Signature, window: int)
    requires 0 <= window && env.verifyIssuer("key", signature, FirstAction(env, map[], TWICE_THE_URL))
    ensures var s := Run(env, [Event(SAMPLE_STEP, 0)]);
            var action := FirstAction(env, map[], TWICE_THE_URL);
            && (forall e | e in s.log :: e.nonce.None?)
            && SubmitIssuerAction(env, s, "id", action, signature, 0, window) == (RolledBack(s), Rejected(NonceConflict))
  {
    hide Run, IssuerGate;
    RegisteredOnce(env, map[]);
    var s := Run(env, [Event(SAMPLE_STEP, 0)]);
    assert TWICE_THE_URL.venues[0].url == TWICE_THE_URL.venues[1].url;
    FirstActionAtTheGate(env, s, map[], TWICE_THE_URL, signature, window);
  }

  const ONE: Custom := map["grade" := Int(1)]
  const SETS_TRUE := SetCustomField(1, "grade", Bool(true))

  lemma LooksLikeNoOp(env: Env, s: Db)
    requires HoldsSample(env, s, ONE)
    ensures RejectNoOp(s.assets[0], SETS_TRUE) == Some(NoOpAction)
    ensures ApplyOp(s.assets[0], SETS_TRUE, s.nextSequence).custom != s.assets[0].custom
  {
    assert ApplyOp(s.assets[0], SETS_TRUE, s.nextSequence).custom["grade"] == Bool(true);
  }

  /** Setting true where 1 is registered is refused as a no-op, though applying it would change the asset. */
  lemma FalseNoOpHappens(env: Env, signature: Signature, window: int)
    requires 0 <= window && env.verifyIssuer("key", signature, FirstAction(env, ONE, SETS_TRUE))
    ensures var s := Run(env, [Event(Registration(ONE), 0)]);
            && SubmitIssuerAction(env, s, "id", FirstAction(env, ONE, SETS_TRUE), signature, 0, window) == (s, Rejected(NoOpAction))
            && |s.assets| == 1 && ApplyOp(s.assets[0], SETS_TRUE, s.nextSequence).custom != s.assets[0].custom
  {
    hide Run, IssuerGate, RejectNoOp, ApplyOp;
    RegisteredOnce(env, ONE);
    var s := Run(env, [Event(Registration(ONE), 0)]);
    LooksLikeNoOp(env, s);
    FirstActionAtTheGate(env, s, ONE, SETS_TRUE, signature, window);
  }

  // ---- Register and delete ----

  function DeletedRun(signature: Signature): seq<Event> {
    [Event(SAMPLE_STEP, 0), Event(SDeregisterLegacy("id", signature), 1)]
  }

  lemma DeletesTheRow(env: Env, s: Db, signature: Signature, now: int)
    requires |s.assets| == 1 && s.assets[0].assetId == "id" && s.assets[0].status == Active && s.assets[0].currentKey == "key"
    requires env.verifyDeletion("key", signature, "id")
    ensures var s' := Perform(env, s, SDeregisterLegacy("id", signature), now).0;
            && |s'.assets| == 1 && s'.assets[0].assetId == "id" && s'.assets[0].status == Deregistered
            && s'.assets[0].issuance == s.assets[0].issuance
  {
    hide FreshFragment, LogOf;
  }

  lemma DeletedOnce(env: Env, signature: Signature)
    requires env.verifyDeletion("key", signature, "id")
    ensures var s := Run(env, DeletedRun(signature));
            && |s.assets| == 1 && s.assets[0].assetId == "id" && s.assets[0].status == Deregistered
            && s.assets[0].issuance == Issuance(None, None)
  {
    hide Perform;
    RegisteredOnce(env, map[]);
    RunSnoc(env, [Event(SAMPLE_STEP, 0)], Event(SDeregisterLegacy("id", signature), 1));
    DeletesTheRow(env, Run(env, [Event(SAMPLE_STEP, 0)]), signature, 1);
    assert [Event(SAMPLE_STEP, 0)] + [Event(SDeregisterLegacy("id", signature), 1)] == DeletedRun(signature);
  }

  // ---- Add and remove an admin ----

  function AdminRun(signature: Signature): seq<Event> {
    [Event(SBootstrap(Some("root")), 0)] + [Event(SLifecycle(Admin.ADDS, signature, 300), 0)]
      + [Event(SLifecycle(Admin.REMOVES, signature, 300), 1)]
  }

  /** A registry with no asset actions treats a lifecycle submission as the admin tables alone do. */
  lemma LifecycleOnly(env: Env, s: Db, db: Admin.AdminDb, action: Admin.LifecycleAction, signature: Signature)
    requires s.log == [] && s.admin == db && s.nextSequence == |db.log| + 1 && env.verifyLifecycle(signature, action)
    requires Admin.SubmittedBy(db, action).1.Applied?
    ensures var r := SubmitAdminLifecycle(env, s, action, signature, action.timestamp, 300);
            r.0 == s.(admin := Admin.SubmittedBy(db, action).0, nextSequence := s.nextSequence + 1) && r.1 == Changed
  {
  }

  lemma Bootstraps(env: Env)
    ensures Run(env, [Event(SBootstrap(Some("root")), 0)]) == EMPTY_REGISTRY.(admin := Admin.AFTER_GENESIS)
  {
    RunSnoc(env, [], Event(SBootstrap(Some("root")), 0));
    assert [] + [Event(SBootstrap(Some("root")), 0)] == [Event(SBootstrap(Some("root")), 0)];
  }

  lemma LifecyclePerforms(env: Env, s: Db, action: Admin.LifecycleAction, signature: Signature, now: int, window: int)
    ensures Perform(env, s, SLifecycle(action, signature, window), now) == SubmitAdminLifecycle(env, s, action, signature, now, window)
  {
    hide SubmitAdminLifecycle;
  }

  lemma LifecycleSnoc(env: Env, events: seq<Event>, action: Admin.LifecycleAction, signature: Signature)
    requires var s := Run(env, events); s.log == [] && s.nextSequence == |s.admin.log| + 1
    requires env.verifyLifecycle(signature, action) && Admin.SubmittedBy(Run(env, events).admin, action).1.Applied?
    ensures var s, event := Run(env, events), Event(SLifecycle(action, signature, 300), action.timestamp);
            var after := Admin.SubmittedBy(s.admin, action).0;
            Run(env, events + [event]) == s.(admin := after, nextSequence := s.nextSequence + 1)
  {
    hide Perform, SubmitAdminLifecycle;
    RunSnoc(env, events, Event(SLifecycle(action, signature, 300), action.timestamp));
    LifecyclePerforms(env, Run(env, events), action, signature, action.timestamp, 300);
    LifecycleOnly(env, Run(env, events), Run(env, events).admin, action, signature);
  }

  lemma AdminRunReaches(env: Env, signature: Signature)
    requires env.verifyLifecycle(signature, Admin.ADDS) && env.verifyLifecycle(signature, Admin.REMOVES)
    ensures var s := Run(env, AdminRun(signature));
            && s.log == [] && s.nextSequence == 3
            && s.admin == Admin.SubmittedBy(Admin.SubmittedBy(Admin.AFTER_GENESIS, Admin.ADDS).0, Admin.REMOVES).0
  {
    hide Perform;
    Admin.AddsAndRemoves();
    var first := [Event(SBootstrap(Some("root")), 0)];
    Bootstraps(env);
    LifecycleSnoc(env, first, Admin.ADDS, signature);
    LifecycleSnoc(env, first + [Event(SLifecycle(Admin.ADDS, signature, 300), 0)], Admin.REMOVES, signature);
  }

  /** After a run that adds an admin and removes it, renaming it to the name it has is logged and changes no key. */
  lemma RenameWithoutEffectHappens(env: Env, signature: Signature)
    requires env.verifyLifecycle(signature, Admin.ADDS) && env.verifyLifecycle(signature, Admin.REMOVES)
    requires env.verifyLifecycle(signature, Admin.RENAMES)
    ensures var s := Run(env, AdminRun(signature));
            var r := SubmitAdminLifecycle(env, s, Admin.RENAMES, signature, 2, 300);
            r.1 == Changed && r.0.admin.log == s.admin.log + [Admin.AdminEntry(3, Admin.RENAMES)] && r.0.admin.keys == s.admin.keys
  {
    AdminRunReaches(env, signature);
    Admin.AddsAndRemoves();
    Admin.AppliedWithoutEffectHappens();
    LifecycleOnly(env, Run(env, AdminRun(signature)), Run(env, AdminRun(signature)).admin, Admin.RENAMES, signature);
  }
}
