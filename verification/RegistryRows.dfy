/** Rows and entries across runs: which rows are active, whose entry is whose, and how each admin key's
    actions are ordered and authorised. */
module RegistryRows {
  import opened Basics
  import opened RegistryModel
  import opened RegistrySteps
  import opened AssetHistory
  import opened RegistryInvariants
  import Admin = AdminGovernance

  // ---- At most one active row per asset id and per namespace ----

  predicate SharesNamespace(c: Contract, d: Contract) {
    c.ticker.Some? && c.ticker.value != "" && c.domain == d.domain && c.ticker == d.ticker
  }

  predicate Collide(a: Asset, b: Asset) {
    && a.status == Active && b.status == Active
    && (a.assetId == b.assetId || SharesNamespace(a.contract, b.contract))
  }

  ghost predicate ActiveRowsDiffer(assets: seq<Asset>) {
    forall i, j | 0 <= i < j < |assets| :: !Collide(assets[i], assets[j])
  }

  lemma {:induction false} ActiveIsFound(assets: seq<Asset>, u: nat)
    requires ActiveRowsDiffer(assets) && u < |assets| && assets[u].status == Active
    ensures FindActive(assets, assets[u].assetId) == Some(u)
  {
  }

  /** An action or a backfill renames nothing and activates nothing. */
  predicate SameIdentity(a: Asset, a': Asset) {
    a'.assetId == a.assetId && a'.contract == a.contract && (a.status == Deregistered ==> a'.status == Deregistered)
  }

  ghost predicate IdentitiesKept(assets: seq<Asset>, assets': seq<Asset>) {
    |assets| <= |assets'| && forall u | 0 <= u < |assets| :: SameIdentity(assets[u], assets'[u])
  }

  lemma RowsStayDifferent(assets: seq<Asset>, assets': seq<Asset>)
    requires ActiveRowsDiffer(assets) && IdentitiesKept(assets, assets') && |assets'| == |assets|
    ensures ActiveRowsDiffer(assets')
  {
  }

  lemma NewRowDiffers(assets: seq<Asset>, a: Asset)
    requires ActiveRowsDiffer(assets)
    requires FindActive(assets, a.assetId).None? && !NamespaceTaken(assets, a.contract)
    ensures ActiveRowsDiffer(assets + [a])
  {
  }

  lemma ShapeKeepsIdentities(env: Env, s: Db, s': Db, o: Outcome, step: Step)
    requires Shape(env, s, s', o, step)
    ensures IdentitiesKept(s.assets, s'.assets)
    ensures |s'.assets| > |s.assets| ==> o.Applied? && |s'.assets| == |s.assets| + 1 && s'.assets[..|s.assets|] == s.assets
  {
  }

  lemma SignedStepAddsNoRow(env: Env, s: Db, step: Step, now: int)
    requires step.SIssuer? || step.SPropose? || step.SDecide? || step.SSetIcon? || step.SAnnotate?
    ensures |Perform(env, s, step, now).0.assets| == |s.assets|
  {
    hide IssuerGate, ProposalGate, DecisionGate, SetIconGate, AnnotationGate;
  }

  lemma MaintenanceAddsNoRow(env: Env, s: Db, step: Step, now: int)
    requires step.SMigrate? || step.SDeregisterLegacy? || step.SImportIcon? || step.SBackfill? || step.SLifecycle? || step.SBootstrap?
    ensures |Perform(env, s, step, now).0.assets| == |s.assets|
  {
  }

  lemma OnlyRegistrationAddsRows(env: Env, s: Db, step: Step, now: int)
    requires |Perform(env, s, step, now).0.assets| > |s.assets|
    ensures step.SRegisterV2? || step.SRegisterLegacy?
  {
    hide Perform;
    if step.SIssuer? || step.SPropose? || step.SDecide? || step.SSetIcon? || step.SAnnotate? {
      SignedStepAddsNoRow(env, s, step, now);
    } else if !(step.SRegisterV2? || step.SRegisterLegacy?) {
      MaintenanceAddsNoRow(env, s, step, now);
    }
  }

  lemma RegistrationChecksNames(env: Env, s: Db, step: Step, now: int)
    requires step.SRegisterV2? || step.SRegisterLegacy?
    requires |Perform(env, s, step, now).0.assets| > |s.assets|
    ensures var s' := Perform(env, s, step, now).0;
            && s'.assets == s.assets + [s'.assets[|s.assets|]]
            && FindActive(s.assets, s'.assets[|s.assets|].assetId).None?
            && !NamespaceTaken(s.assets, s'.assets[|s.assets|].contract)
  {
  }

  lemma StepKeepsRowsDifferent(env: Env, s: Db, step: Step, now: int)
    requires LogsOpen(s) && ActiveRowsDiffer(s.assets)
    ensures ActiveRowsDiffer(Perform(env, s, step, now).0.assets)
    ensures IdentitiesKept(s.assets, Perform(env, s, step, now).0.assets)
  {
    hide Perform;
    var r := Perform(env, s, step, now);
    StepShape(env, s, step, now);
    ShapeKeepsIdentities(env, s, r.0, r.1, step);
    if |r.0.assets| > |s.assets| {
      OnlyRegistrationAddsRows(env, s, step, now);
      RegistrationChecksNames(env, s, step, now);
      NewRowDiffers(s.assets, r.0.assets[|s.assets|]);
    } else {
      RowsStayDifferent(s.assets, r.0.assets);
    }
  }

  /** In every reachable state an asset id has at most one active row, and so has a domain and ticker. */
  lemma {:induction false} RunKeepsRowsDifferent(env: Env, events: seq<Event>)
    ensures ActiveRowsDiffer(Run(env, events).assets)
  {
    hide Perform;
    if |events| > 0 {
      var before, last := Run(env, events[..|events| - 1]), events[|events| - 1];
      RunKeepsRowsDifferent(env, events[..|events| - 1]);
      RunKeepsCore(env, events[..|events| - 1]);
      CoreOpensLogs(env, before);
      StepKeepsRowsDifferent(env, before, last.step, last.now);
    }
  }

  // ---- What an applied entry has been checked for ----

  /** An issuer entry names the asset it belongs to, through the endpoint for its operation. */
  predicate IssuerEntryOk(assets: seq<Asset>, e: Entry) {
    e.payload.PIssuer? ==>
      && e.asset < |assets| && assets[e.asset].assetId == e.payload.action.assetId
      && (e.payload.action.op.ProposeIcon? || ParsesAsIssuerAction(e.payload.action.op))
  }

  predicate AtLeast(previous: Option<int>, time: int) { previous.None? || previous.value <= time }

  /** An admin entry is newer than everything its key signed before, with a nonce that key has not used. */
  predicate AdminEntryOk(log: seq<Entry>, admin: seq<Admin.AdminEntry>, e: Entry) {
    e.actor == AdminActor ==>
      && e.key.Some? && e.timestamp.Some? && e.nonce.Some?
      && FindAdminNonce(log, e.key.value, e.nonce.value).None?
      && AtLeast(LatestAdminAssetTime(log, e.key.value), e.timestamp.value)
      && AtLeast(Admin.LatestLifecycleTime(admin, e.key.value), e.timestamp.value)
  }

  predicate EntryOk(s: Db, o: Outcome) {
    o.Applied? ==> IssuerEntryOk(s.assets, o.entry) && AdminEntryOk(s.log, s.admin.log, o.entry)
  }

  lemma ClearedAdminEntryOk(s: Db, u: Uuid, action: AdminAction, signature: Signature, now: int, window: int)
    requires AdminCleared(s, Go(u), action, now, window)
    ensures EntryOk(s, Applied(AdminEntryOf(s.nextSequence, u, action, signature)))
  {
  }

  lemma IssuerStepsOk(env: Env, s: Db, step: Step, now: int)
    requires step.SIssuer? || step.SPropose?
    ensures EntryOk(s, Perform(env, s, step, now).1)
  {
  }

  lemma AnnotateStepOk(env: Env, s: Db, step: Step, now: int)
    requires step.SAnnotate?
    ensures EntryOk(s, Perform(env, s, step, now).1)
  {
    var g := AnnotationGate(env, s, step.urlAssetId, step.adminAction, step.signature, now, step.window);
    if g.Go? { ClearedAdminEntryOk(s, g.uuid, step.adminAction, step.signature, now, step.window); }
  }

  lemma DecideStepOk(env: Env, s: Db, step: Step, now: int)
    requires step.SDecide?
    ensures EntryOk(s, Perform(env, s, step, now).1)
  {
    var g := DecisionGate(env, s, step.urlAssetId, step.adminAction, step.signature, now, step.window);
    if g.Go? { ClearedAdminEntryOk(s, g.uuid, step.adminAction, step.signature, now, step.window); }
  }

  lemma SetIconStepOk(env: Env, s: Db, step: Step, now: int)
    requires step.SSetIcon?
    ensures EntryOk(s, Perform(env, s, step, now).1)
  {
    var g := SetIconGate(env, s, step.urlAssetId, step.adminAction, step.image, step.signature, now, step.window);
    if g.Go? { ClearedAdminEntryOk(s, g.uuid, step.adminAction, step.signature, now, step.window); }
  }

  lemma OtherStepsOk(env: Env, s: Db, step: Step, now: int)
    requires !(step.SIssuer? || step.SPropose? || step.SAnnotate? || step.SDecide? || step.SSetIcon?)
    ensures EntryOk(s, Perform(env, s, step, now).1)
  {
  }

  lemma StepEntryOk(env: Env, s: Db, step: Step, now: int)
    ensures EntryOk(s, Perform(env, s, step, now).1)
  {
    hide Perform;
    match step
    case SIssuer(_, _, _, _) => IssuerStepsOk(env, s, step, now);
    case SPropose(_, _, _, _, _) => IssuerStepsOk(env, s, step, now);
    case SAnnotate(_, _, _, _) => AnnotateStepOk(env, s, step, now);
    case SDecide(_, _, _, _) => DecideStepOk(env, s, step, now);
    case SSetIcon(_, _, _, _, _) => SetIconStepOk(env, s, step, now);
    case _ => OtherStepsOk(env, s, step, now);
  }

  // ---- Each admin key's actions, across both logs ----

  predicate SameAdmin(e: Entry, f: Entry) {
    e.actor == AdminActor && f.actor == AdminActor && e.key == f.key && e.timestamp.Some? && f.timestamp.Some?
  }

  ghost predicate AssetActionsOrdered(log: seq<Entry>) {
    forall i, j | 0 <= i < j < |log| ::
      SameAdmin(log[i], log[j]) ==> log[i].timestamp.value <= log[j].timestamp.value && log[i].nonce != log[j].nonce
  }

  ghost predicate LifecycleOrdered(log: seq<Admin.AdminEntry>) {
    forall i, j | 0 <= i < j < |log| ::
      log[i].action.actor == log[j].action.actor ==>
        log[i].action.timestamp <= log[j].action.timestamp && log[i].action.nonce != log[j].action.nonce
  }

  /** Audit order and time order agree between an asset-scoped action and a lifecycle action of one key. */
  predicate PairOrdered(e: Entry, f: Admin.AdminEntry) {
    e.actor == AdminActor && e.key == Some(f.action.actor) && e.timestamp.Some? ==>
      && (e.sequence < f.sequence ==> e.timestamp.value <= f.action.timestamp)
      && (f.sequence < e.sequence ==> f.action.timestamp <= e.timestamp.value)
  }

  ghost predicate MergedOrdered(log: seq<Entry>, admin: seq<Admin.AdminEntry>) {
    forall e, f | e in log && f in admin :: PairOrdered(e, f)
  }

  ghost predicate AdminOrder(s: Db) {
    AssetActionsOrdered(s.log) && LifecycleOrdered(s.admin.log) && MergedOrdered(s.log, s.admin.log)
  }

  lemma LifecycleAppended(log: seq<Entry>, admin: seq<Admin.AdminEntry>, f: Admin.AdminEntry)
    requires LifecycleOrdered(admin) && MergedOrdered(log, admin)
    requires forall e | e in log :: e.sequence < f.sequence
    requires Admin.FindByNonce(admin, f.action.actor, f.action.nonce).None?
    requires AtLeast(Admin.LatestLifecycleTime(admin, f.action.actor), f.action.timestamp)
    requires AtLeast(LatestAdminAssetTime(log, f.action.actor), f.action.timestamp)
    ensures LifecycleOrdered(admin + [f]) && MergedOrdered(log, admin + [f])
  {
  }

  lemma LifecycleStepKeepsOrder(env: Env, s: Db, action: Admin.LifecycleAction, signature: Signature, now: int, window: int)
    requires Numbered(s) && AdminOrder(s)
    ensures AdminOrder(SubmitAdminLifecycle(env, s, action, signature, now, window).0)
  {
    LifecycleEffect(env, s, action, signature, now, window);
    var s' := SubmitAdminLifecycle(env, s, action, signature, now, window).0;
    if s'.admin.log != s.admin.log {
      LifecycleAppended(s.log, s.admin.log, Admin.AdminEntry(s.nextSequence, action));
    }
  }

  lemma AppliedKeepsOrder(s: Db, s': Db, e: Entry)
    requires Numbered(s) && AdminOrder(s) && AdminEntryOk(s.log, s.admin.log, e)
    requires s'.log == s.log + [e] && s'.admin == s.admin && e.sequence == s.nextSequence
    ensures AdminOrder(s')
  {
  }

  lemma ShapeKeepsOrder(env: Env, s: Db, s': Db, o: Outcome, step: Step)
    requires Numbered(s) && AdminOrder(s) && Shape(env, s, s', o, step) && EntryOk(s, o)
    requires !step.SLifecycle? && !step.SBootstrap?
    ensures AdminOrder(s')
  {
    if o.Applied? { AppliedKeepsOrder(s, s', o.entry); }
  }

  lemma BootstrapKeepsOrder(s: Db, genesis: Option<Pubkey>)
    requires AdminOrder(s)
    ensures AdminOrder(s.(admin := Admin.Bootstrap(s.admin, genesis)))
  {
  }

  lemma AdminStepKeepsOrder(env: Env, s: Db, step: Step, now: int)
    requires CoreInv(env, s) && AdminOrder(s) && (step.SLifecycle? || step.SBootstrap?)
    ensures AdminOrder(Perform(env, s, step, now).0)
  {
    hide AdminOrder, SubmitAdminLifecycle;
    if step.SLifecycle? { LifecycleStepKeepsOrder(env, s, step.lifecycle, step.signature, now, step.window); }
    else { BootstrapKeepsOrder(s, step.genesis); }
  }

  lemma StepKeepsOrder(env: Env, s: Db, step: Step, now: int)
    requires CoreInv(env, s) && AdminOrder(s)
    ensures AdminOrder(Perform(env, s, step, now).0)
  {
    hide Perform;
    if step.SLifecycle? || step.SBootstrap? {
      AdminStepKeepsOrder(env, s, step, now);
    } else {
      CoreOpensLogs(env, s);
      StepShape(env, s, step, now);
      StepEntryOk(env, s, step, now);
      var r := Perform(env, s, step, now);
      ShapeKeepsOrder(env, s, r.0, r.1, step);
    }
  }

  /** After every run each admin key's timestamps ascend in audit order across both logs, and it has
      used no nonce twice in either. */
  lemma {:induction false} AdminOrderAlways(env: Env, events: seq<Event>)
    ensures AdminOrder(Run(env, events))
  {
    hide Perform;
    if |events| > 0 {
      var before, last := Run(env, events[..|events| - 1]), events[|events| - 1];
      AdminOrderAlways(env, events[..|events| - 1]);
      RunKeepsCore(env, events[..|events| - 1]);
      StepKeepsOrder(env, before, last.step, last.now);
    }
  }

  // ---- Retries of lifecycle actions ----

  /** Every logged lifecycle action passed the check of its own shape. */
  ghost predicate LifecycleValid(log: seq<Admin.AdminEntry>) {
    forall f | f in log :: Admin.ValidLifecycleOp(f.action.op)
  }

  lemma LifecycleLogsValid(
    db: Admin.AdminDb, sequence: nat, action: Admin.LifecycleAction, signed: bool, previousAsset: Option<int>,
    now: int, window: int)
    requires LifecycleValid(db.log)
    ensures LifecycleValid(Admin.SubmitLifecycle(db, sequence, action, signed, previousAsset, now, window).0.log)
  {
  }

  lemma AdminStepKeepsValid(env: Env, s: Db, step: Step, now: int)
    requires LifecycleValid(s.admin.log) && (step.SLifecycle? || step.SBootstrap?)
    ensures LifecycleValid(Perform(env, s, step, now).0.admin.log)
  {
    if step.SLifecycle? {
      LifecycleLogsValid(s.admin, s.nextSequence, step.lifecycle, env.verifyLifecycle(step.signature, step.lifecycle),
                         LatestAdminAssetTime(s.log, step.lifecycle.actor), now, step.window);
    }
  }

  lemma StepKeepsValid(env: Env, s: Db, step: Step, now: int)
    requires LogsOpen(s) && LifecycleValid(s.admin.log)
    ensures LifecycleValid(Perform(env, s, step, now).0.admin.log)
  {
    hide Perform;
    if step.SLifecycle? || step.SBootstrap? { AdminStepKeepsValid(env, s, step, now); }
    else { StepShape(env, s, step, now); }
  }

  lemma {:induction false} LifecycleValidAlways(env: Env, events: seq<Event>)
    ensures LifecycleValid(Run(env, events).admin.log)
  {
    hide Perform;
    if |events| > 0 {
      var before, last := Run(env, events[..|events| - 1]), events[|events| - 1];
      LifecycleValidAlways(env, events[..|events| - 1]);
      RunKeepsCore(env, events[..|events| - 1]);
      CoreOpensLogs(env, before);
      StepKeepsValid(env, before, last.step, last.now);
    }
  }

  lemma LifecycleNonceFinds(log: seq<Admin.AdminEntry>, f: Admin.AdminEntry)
    requires LifecycleOrdered(log) && f in log
    ensures Admin.FindByNonce(log, f.action.actor, f.action.nonce) == Some(f)
  {
  }

  lemma LifecycleRetryAt(
    db: Admin.AdminDb, sequence: nat, f: Admin.AdminEntry, previousAsset: Option<int>, now: int, window: int)
    requires LifecycleOrdered(db.log) && LifecycleValid(db.log) && f in db.log && Admin.IsActive(db.keys, f.action.actor)
    ensures Admin.SubmitLifecycle(db, sequence, f.action, true, previousAsset, now, window) == (db, Admin.Retry(f))
  {
    LifecycleNonceFinds(db.log, f);
  }

  /** Resubmitting a logged lifecycle action while its actor is active returns the original entry and changes
      nothing, at any time. */
  lemma LifecycleRetriesReplay(env: Env, events: seq<Event>, f: Admin.AdminEntry, signature: Signature, now: int, window: int)
    requires var s := Run(env, events);
             f in s.admin.log && Admin.IsActive(s.admin.keys, f.action.actor) && env.verifyLifecycle(signature, f.action)
    ensures var s := Run(env, events);
            var previousAsset := LatestAdminAssetTime(s.log, f.action.actor);
            && Admin.SubmitLifecycle(s.admin, s.nextSequence, f.action, true, previousAsset, now, window) == (s.admin, Admin.Retry(f))
            && SubmitAdminLifecycle(env, s, f.action, signature, now, window) == (s, Changed)
  {
    hide Run;
    var s := Run(env, events);
    AdminOrderAlways(env, events);
    LifecycleValidAlways(env, events);
    LifecycleRetryAt(s.admin, s.nextSequence, f, LatestAdminAssetTime(s.log, f.action.actor), now, window);
  }

  // ---- Governance over registry runs ----

  /** No admin exists yet, or the chain of authority to one genesis key holds. */
  ghost predicate Ruled(db: Admin.AdminDb) {
    (db.keys == map[] && db.log == []) || exists genesis :: Admin.Governed(db, genesis)
  }

  lemma BootstrapKeepsRuled(db: Admin.AdminDb, genesis: Option<Pubkey>)
    requires Ruled(db)
    ensures Ruled(Admin.Bootstrap(db, genesis))
  {
    if db.keys == map[] && db.log == [] {
      if genesis.Some? {
        assert db == Admin.AdminDb(map[], []);
        Admin.BootstrapGoverns(genesis.value);
      }
    } else {
      var root :| Admin.Governed(db, root);
      Admin.BootstrapIsOnce(db, root, genesis);
    }
  }

  lemma LifecycleKeepsRuled(
    db: Admin.AdminDb, sequence: nat, action: Admin.LifecycleAction, signed: bool, previousAsset: Option<int>,
    now: int, window: int)
    requires Ruled(db)
    ensures Ruled(Admin.SubmitLifecycle(db, sequence, action, signed, previousAsset, now, window).0)
  {
    if !(db.keys == map[] && db.log == []) {
      var genesis :| Admin.Governed(db, genesis);
      Admin.SubmitKeepsGoverned(db, genesis, sequence, action, signed, previousAsset, now, window);
    }
  }

  lemma RegistryLifecycleKeepsRuled(env: Env, s: Db, action: Admin.LifecycleAction, signature: Signature, now: int, window: int)
    requires Ruled(s.admin)
    ensures Ruled(SubmitAdminLifecycle(env, s, action, signature, now, window).0.admin)
  {
    LifecycleKeepsRuled(s.admin, s.nextSequence, action, env.verifyLifecycle(signature, action),
                        LatestAdminAssetTime(s.log, action.actor), now, window);
  }

  lemma AdminStepKeepsRuled(env: Env, s: Db, step: Step, now: int)
    requires Ruled(s.admin) && (step.SLifecycle? || step.SBootstrap?)
    ensures Ruled(Perform(env, s, step, now).0.admin)
  {
    hide Ruled, SubmitAdminLifecycle;
    if step.SLifecycle? { RegistryLifecycleKeepsRuled(env, s, step.lifecycle, step.signature, now, step.window); }
    else { BootstrapKeepsRuled(s.admin, step.genesis); }
  }

  lemma StepKeepsRuled(env: Env, s: Db, step: Step, now: int)
    requires LogsOpen(s) && Ruled(s.admin)
    ensures Ruled(Perform(env, s, step, now).0.admin)
  {
    hide Perform;
    if step.SLifecycle? || step.SBootstrap? { AdminStepKeepsRuled(env, s, step, now); }
    else { StepShape(env, s, step, now); }
  }

  /** Once bootstrapped, every reachable state has an active root, and every holder of root is tied to
      the genesis key by grants from keys that were active roots when they made them. */
  lemma {:induction false} RuledAlways(env: Env, events: seq<Event>)
    ensures Ruled(Run(env, events).admin)
  {
    hide Perform;
    if |events| > 0 {
      var before, last := Run(env, events[..|events| - 1]), events[|events| - 1];
      RuledAlways(env, events[..|events| - 1]);
      RunKeepsCore(env, events[..|events| - 1]);
      CoreOpensLogs(env, before);
      StepKeepsRuled(env, before, last.step, last.now);
    }
  }
}
