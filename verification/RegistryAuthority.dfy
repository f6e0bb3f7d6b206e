/** Who signed what was applied, and by what right, over every run. */
module RegistryAuthority {
  import opened Basics
  import opened RegistryModel
  import opened RegistrySteps
  import opened AssetHistory
  import opened RegistryInvariants
  import opened RegistryTheorems
  import Admin = AdminGovernance

  // ---- Signatures ----

  predicate HasSignature(e: Entry) { e.key.Some? && e.signature.Some? }

  /** The signature of a signed entry verifies, under the entry's own key, for what the entry says. */
  predicate Signed(env: Env, e: Entry) {
    match e.payload
    case PIssuer(action) => HasSignature(e) && env.verifyIssuer(e.key.value, e.signature.value, action)
    case PLegacyDeregister(assetId) => HasSignature(e) && env.verifyDeletion(e.key.value, e.signature.value, assetId)
    case PAdmin(action) =>
      HasSignature(e) && e.key.value == action.actor && env.verifyAdmin(e.key.value, e.signature.value, action)
    case _ => e.key.None? && e.signature.None?
  }

  predicate SignedIfApplied(env: Env, o: Outcome) { o.Applied? ==> Signed(env, o.entry) }

  // ---- Rights ----

  /** The key is active and holds root or the right itself. */
  predicate HoldsRight(db: Admin.AdminDb, key: Pubkey, right: Admin.Permission) {
    key in db.keys && db.keys[key].active && (Admin.Root in db.keys[key].permissions || right in db.keys[key].permissions)
  }

  function RightFor(op: AdminOp): Admin.Permission {
    match op
    case UpdateAnnotations(_) => Admin.AnnotateAssets
    case ForceDelist(_) => Admin.DelistAssets
    case ForceRelist(_) => Admin.DelistAssets
    case ApproveIcon(_) => Admin.ReviewIcons
    case RejectIcon(_, _) => Admin.ReviewIcons
    case SetIcon(_) => Admin.ManageIcons
    case MigrateAsset => Admin.MigrateAssets
  }

  predicate RightHeld(s: Db, o: Outcome) {
    o.Applied? && o.entry.payload.PAdmin? ==>
      var action := o.entry.payload.adminAction; HoldsRight(s.admin, action.actor, RightFor(action.op))
  }

  // ---- Each step ----

  lemma AdminGateVerified(
    env: Env, s: Db, url: string, action: AdminAction, signature: Signature, permission: Admin.Permission, now: int, window: int)
    requires AdminGate(env, s, url, action, signature, permission, now, window).None?
    ensures env.verifyAdmin(action.actor, signature, action)
    ensures HoldsRight(s.admin, action.actor, permission)
  {
  }

  predicate Rightful(env: Env, s: Db, o: Outcome) { SignedIfApplied(env, o) && RightHeld(s, o) }

  lemma AssignApplies(
    s: Db, u: Uuid, reuse: Option<nat>, action: AdminAction, image: Option<Bytes>, signature: Signature, now: int)
    requires u < |s.assets| && action.op.SetIcon? && (reuse.Some? ==> reuse.value < |s.proposals|)
    ensures AssignIcon(s, u, reuse, action, image, signature, now).1 == Applied(AdminEntryOf(s.nextSequence, u, action, signature))
  {
    hide FreshFragment, LogOf;
  }

  lemma DecideRightful(env: Env, s: Db, step: Step, now: int)
    requires step.SDecide?
    ensures Rightful(env, s, Perform(env, s, step, now).1)
  {
    hide FreshFragment, LogOf, AdminGate, HoldsRight, DecisionOutcome, ReplayAdmin;
    if AdminGate(env, s, step.urlAssetId, step.adminAction, step.signature, Admin.ReviewIcons, now, step.window).None? {
      AdminGateVerified(env, s, step.urlAssetId, step.adminAction, step.signature, Admin.ReviewIcons, now, step.window);
    }
  }

  lemma SetIconRightful(env: Env, s: Db, step: Step, now: int)
    requires step.SSetIcon?
    ensures Rightful(env, s, Perform(env, s, step, now).1)
  {
    hide AssignIcon, CheckImage, ReplayAdmin, AdminGate, HoldsRight, ReusableProposal;
    var g := SetIconGate(env, s, step.urlAssetId, step.adminAction, step.image, step.signature, now, step.window);
    if g.Go? {
      AdminGateVerified(env, s, step.urlAssetId, step.adminAction, step.signature, Admin.ManageIcons, now, step.window);
      AssignApplies(s, g.uuid, ReusableProposal(s, g.uuid, step.adminAction.op.hash), step.adminAction, step.image,
                    step.signature, now);
    }
  }

  lemma AnnotateRightful(env: Env, s: Db, step: Step, now: int)
    requires step.SAnnotate?
    ensures Rightful(env, s, Perform(env, s, step, now).1)
  {
    hide FreshFragment, LogOf, AdminGate, HoldsRight, NewAnnotations;
    var permission := if step.adminAction.op.UpdateAnnotations? then Admin.AnnotateAssets else Admin.DelistAssets;
    if AdminGate(env, s, step.urlAssetId, step.adminAction, step.signature, permission, now, step.window).None? {
      AdminGateVerified(env, s, step.urlAssetId, step.adminAction, step.signature, permission, now, step.window);
    }
  }

  lemma AdminStepsRightful(env: Env, s: Db, step: Step, now: int)
    requires step.SDecide? || step.SSetIcon? || step.SAnnotate?
    ensures Rightful(env, s, Perform(env, s, step, now).1)
  {
    hide Perform, Rightful;
    if step.SDecide? { DecideRightful(env, s, step, now); }
    else if step.SSetIcon? { SetIconRightful(env, s, step, now); }
    else { AnnotateRightful(env, s, step, now); }
  }

  lemma IssuerStepsSigned(env: Env, s: Db, step: Step, now: int)
    requires step.SIssuer? || step.SPropose?
    ensures SignedIfApplied(env, Perform(env, s, step, now).1)
  {
    hide IssuerGate, ProposalGate, FreshFragment, LogOf;
  }

  lemma OtherStepsSigned(env: Env, s: Db, step: Step, now: int)
    requires !(step.SIssuer? || step.SPropose? || step.SDecide? || step.SSetIcon? || step.SAnnotate?)
    ensures SignedIfApplied(env, Perform(env, s, step, now).1)
  {
    hide FreshFragment, LogOf;
  }

  lemma StepSigned(env: Env, s: Db, step: Step, now: int)
    ensures SignedIfApplied(env, Perform(env, s, step, now).1)
  {
    hide Perform;
    if step.SIssuer? || step.SPropose? { IssuerStepsSigned(env, s, step, now); }
    else if step.SDecide? || step.SSetIcon? || step.SAnnotate? { AdminStepsRightful(env, s, step, now); }
    else { OtherStepsSigned(env, s, step, now); }
  }

  // ---- Where an entry comes from ----

  /** The `n`th event of a run applied `e`. */
  ghost predicate AppliedAt(env: Env, events: seq<Event>, n: nat, e: Entry) {
    n < |events| && Perform(env, Run(env, events[..n]), events[n].step, events[n].now).1 == Applied(e)
  }

  lemma StepLogs(env: Env, s: Db, step: Step, now: int)
    requires LogsOpen(s)
    ensures var r := Perform(env, s, step, now); r.0.log == if r.1.Applied? then s.log + [r.1.entry] else s.log
  {
    hide Perform;
    StepShape(env, s, step, now);
  }

  /** Every entry of the log was applied by one event of the run. */
  lemma {:induction false} EntryApplied(env: Env, events: seq<Event>, e: Entry) returns (n: nat)
    requires e in Run(env, events).log
    ensures AppliedAt(env, events, n, e)
  {
    hide Perform;
    var prefix, last := events[..|events| - 1], events[|events| - 1];
    var before := Run(env, prefix);
    RunKeepsCore(env, prefix);
    CoreOpensLogs(env, before);
    StepLogs(env, before, last.step, last.now);
    if e in before.log {
      n := EntryApplied(env, prefix, e);
      assert prefix[..n] == events[..n];
    } else {
      n := |prefix|;
      assert events[..n] == prefix;
    }
  }

  /** After every run every signed entry carries a signature that verifies under its key for its payload. */
  lemma LogSigned(env: Env, events: seq<Event>)
    ensures forall e | e in Run(env, events).log :: Signed(env, e)
  {
    hide Perform, Run;
    forall e | e in Run(env, events).log ensures Signed(env, e) {
      var n := EntryApplied(env, events, e);
      StepSigned(env, Run(env, events[..n]), events[n].step, events[n].now);
    }
  }

  /** The key history's one interval for an issuer entry has the key its signature verifies under. */
  ghost predicate SignedInForce(env: Env, keys: seq<KeyInterval>, e: Entry) {
    exists i | 0 <= i < |keys| ::
      && InForce(keys[i], e.sequence) && (forall j | 0 <= j < |keys| && InForce(keys[j], e.sequence) :: j == i)
      && e.signature.Some?
      && match e.payload
         case PIssuer(action) => env.verifyIssuer(keys[i].key, e.signature.value, action)
         case PLegacyDeregister(assetId) => env.verifyDeletion(keys[i].key, e.signature.value, assetId)
         case _ => false
  }

  /** After every run each issuer action and each legacy deregistration was signed by the key in force: its
      signature verifies under the key of the only interval of its asset's history that covers it. */
  lemma SignedByTheKeyInForce(env: Env, events: seq<Event>, e: Entry)
    requires var s := Run(env, events); e in s.log && (e.payload.PIssuer? || e.payload.PLegacyDeregister?)
    ensures var s := Run(env, events); e.asset < |s.assets| && SignedInForce(env, s.assets[e.asset].keys, e)
  {
    hide Run;
    var s := Run(env, events);
    LogSigned(env, events);
    RunKeepsCore(env, events);
    KeyInForceAlways(env, events, e.asset);
    InForceAt(env, s.assets[e.asset], LogOf(s.log, e.asset), e);
  }

  lemma InForceAt(env: Env, a: Asset, l: seq<Entry>, e: Entry)
    requires KeyInForce(a, l) && e in l && (e.payload.PIssuer? || e.payload.PLegacyDeregister?)
    requires AssetInv(env, a, l) && Signed(env, e)
    ensures SignedInForce(env, a.keys, e)
  {
    assert WellFormed(env, e);
    var i :| 0 <= i < |a.keys| && InForce(a.keys[i], e.sequence) && e.key == Some(a.keys[i].key);
    forall j | 0 <= j < |a.keys| && InForce(a.keys[j], e.sequence) ensures j == i {
      KeyInForceIsUnique(a.keys, i, j, e.sequence);
    }
  }

  lemma OtherStepsHeld(env: Env, s: Db, step: Step, now: int)
    requires !(step.SDecide? || step.SSetIcon? || step.SAnnotate?)
    ensures RightHeld(s, Perform(env, s, step, now).1)
  {
    hide FreshFragment, LogOf, IssuerGate, ProposalGate;
  }

  lemma StepHeld(env: Env, s: Db, step: Step, now: int)
    ensures RightHeld(s, Perform(env, s, step, now).1)
  {
    hide Perform;
    if step.SDecide? || step.SSetIcon? || step.SAnnotate? { AdminStepsRightful(env, s, step, now); }
    else { OtherStepsHeld(env, s, step, now); }
  }

  /** Every admin entry after every run was applied by an event before which its actor was active and held root or
      the right of its operation, and its signature verifies under the actor's key. */
  lemma AdminEntryHadRight(env: Env, events: seq<Event>, e: Entry) returns (n: nat)
    requires e in Run(env, events).log && e.payload.PAdmin?
    ensures AppliedAt(env, events, n, e) && Signed(env, e)
    ensures var action := e.payload.adminAction; HoldsRight(Run(env, events[..n]).admin, action.actor, RightFor(action.op))
  {
    hide Perform, Run;
    n := EntryApplied(env, events, e);
    LogSigned(env, events);
    StepHeld(env, Run(env, events[..n]), events[n].step, events[n].now);
  }

  /** A migration with an approval is applied only if the approval is for a migration of that asset, its signature
      verifies, and its actor is active and may migrate. */
  lemma ApprovedMigrationHadRight(
    env: Env, s: Db, assetId: string, action: AdminAction, signature: Signature, now: int, window: int)
    requires MigrateAssetToV2(env, s, assetId, Some((action, signature)), now, window).1.Applied?
    ensures env.verifyAdmin(action.actor, signature, action) && action.op.MigrateAsset? && action.assetId == assetId
    ensures HoldsRight(s.admin, action.actor, Admin.MigrateAssets)
  {
    hide FreshFragment, LogOf;
  }

  // ---- Lifecycle actions ----

  function PermissionsOf(keys: Admin.Keys, key: Pubkey): set<Admin.Permission> {
    if key in keys then keys[key].permissions else {}
  }

  /** What a lifecycle action takes away, leaves or grants includes root. */
  predicate TouchesRoot(keys: Admin.Keys, op: Admin.LifecycleOp) {
    match op
    case AddAdmin(_, _, permissions) => Admin.Root in permissions
    case UpdatePermissions(target, permissions) => Admin.Root in permissions || Admin.Root in PermissionsOf(keys, target)
    case UpdateName(_, _) => false
    case RemoveAdmin(target) => Admin.Root in PermissionsOf(keys, target)
  }

  /** Only root may touch root; anything else takes root or the right to manage admins. */
  predicate MayChange(db: Admin.AdminDb, action: Admin.LifecycleAction) {
    if TouchesRoot(db.keys, action.op) then HoldsRight(db, action.actor, Admin.Root)
    else HoldsRight(db, action.actor, Admin.ManageAdmins)
  }

  ghost predicate LifecycleAt(env: Env, events: seq<Event>, n: nat, f: Admin.AdminEntry) {
    && n < |events| && events[n].step.SLifecycle? && events[n].step.lifecycle == f.action
    && env.verifyLifecycle(events[n].step.signature, f.action)
    && MayChange(Run(env, events[..n]).admin, f.action)
  }

  lemma LifecycleHeld(
    db: Admin.AdminDb, sequence: nat, action: Admin.LifecycleAction, signed: bool, previousAsset: Option<int>,
    now: int, window: int)
    ensures var r := Admin.SubmitLifecycle(db, sequence, action, signed, previousAsset, now, window);
            if r.1.Applied? then signed && MayChange(db, action) && r.0.log == db.log + [Admin.AdminEntry(sequence, action)]
            else r.0 == db
  {
  }

  lemma AdminTablesStand(env: Env, s: Db, step: Step, now: int)
    requires LogsOpen(s) && !step.SLifecycle?
    ensures Perform(env, s, step, now).0.admin.log == s.admin.log
  {
    if !step.SBootstrap? {
      hide Perform;
      StepShape(env, s, step, now);
    }
  }

  lemma LifecycleStepHeld(env: Env, s: Db, step: Step, now: int)
    requires step.SLifecycle?
    ensures var s' := Perform(env, s, step, now).0;
            s'.admin.log == s.admin.log
            || (env.verifyLifecycle(step.signature, step.lifecycle) && MayChange(s.admin, step.lifecycle)
                && s'.admin.log == s.admin.log + [Admin.AdminEntry(s.nextSequence, step.lifecycle)])
  {
    hide MayChange, LatestAdminAssetTime, Admin.SubmitLifecycle;
    LifecycleHeld(s.admin, s.nextSequence, step.lifecycle, env.verifyLifecycle(step.signature, step.lifecycle),
                  LatestAdminAssetTime(s.log, step.lifecycle.actor), now, step.window);
  }

  /** Every logged lifecycle action was submitted by an event with a signature that verifies and before which its
      actor was active and held root, or, where root is not touched, the right to manage admins. */
  lemma {:induction false} LifecycleHadRight(env: Env, events: seq<Event>, f: Admin.AdminEntry) returns (n: nat)
    requires f in Run(env, events).admin.log
    ensures LifecycleAt(env, events, n, f)
  {
    hide Perform, MayChange;
    var prefix, last := events[..|events| - 1], events[|events| - 1];
    var before := Run(env, prefix);
    RunKeepsCore(env, prefix);
    CoreOpensLogs(env, before);
    if last.step.SLifecycle? { LifecycleStepHeld(env, before, last.step, last.now); }
    else { AdminTablesStand(env, before, last.step, last.now); }
    if f in before.admin.log {
      n := LifecycleHadRight(env, prefix, f);
      assert prefix[..n] == events[..n];
    } else {
      n := |prefix|;
      assert events[..n] == prefix;
    }
  }
}
