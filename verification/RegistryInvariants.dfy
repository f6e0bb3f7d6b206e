/** What holds of the asset rows and the log after every run. */
module RegistryInvariants {
  import opened Basics
  import opened JsonValue
  import opened RegistryModel
  import opened RegistrySteps
  import opened AssetHistory
  import Admin = AdminGovernance

  // ---- Numbering ----

  ghost predicate LogNumbered(log: seq<Entry>, assets: nat, next: nat) {
    && (forall e | e in log :: e.asset < assets && e.sequence < next)
    && (forall i, j | 0 <= i < j < |log| :: log[i].sequence < log[j].sequence)
  }

  ghost predicate AdminNumbered(log: seq<Admin.AdminEntry>, next: nat) {
    && (forall f | f in log :: f.sequence < next)
    && (forall i, j | 0 <= i < j < |log| :: log[i].sequence < log[j].sequence)
  }

  ghost predicate NumbersDiffer(log: seq<Entry>, admin: seq<Admin.AdminEntry>) {
    forall e, f | e in log && f in admin :: e.sequence != f.sequence
  }

  /** Audit numbers ascend in both logs and are never shared between them. */
  ghost predicate Numbered(s: Db) {
    && LogNumbered(s.log, |s.assets|, s.nextSequence)
    && AdminNumbered(s.admin.log, s.nextSequence)
    && NumbersDiffer(s.log, s.admin.log)
  }

  lemma LogNumberedAppend(log: seq<Entry>, assets: nat, assets': nat, next: nat, e: Entry)
    requires LogNumbered(log, assets, next) && e.asset < assets' && assets <= assets' && e.sequence == next
    ensures LogNumbered(log + [e], assets', next + 1)
  {
  }

  ghost predicate AllAssets(env: Env, s: Db) {
    forall u | 0 <= u < |s.assets| :: AssetInv(env, s.assets[u], LogOf(s.log, u))
  }

  ghost predicate CoreInv(env: Env, s: Db) {
    Numbered(s) && AllAssets(env, s)
  }

  // ---- The shapes a step can take ----

  /** Nothing but the admin tables and the audit counter moves, the counter by one at most. */
  predicate Idle(s: Db, s': Db) {
    && s'.assets == s.assets && s'.log == s.log && s'.proposals == s.proposals && s'.fragments == s.fragments
    && s.nextSequence <= s'.nextSequence <= s.nextSequence + 1
  }

  /** One legal action on one existing asset. */
  ghost predicate Advances(env: Env, s: Db, s': Db, e: Entry)
    requires e.asset < |s.assets|
  {
    var u := e.asset;
    && |s'.assets| == |s.assets| && s'.assets == s.assets[u := s'.assets[u]]
    && s'.log == s.log + [e] && e.sequence == s.nextSequence && s'.nextSequence == s.nextSequence + 1
    && s'.admin == s.admin
    && LegalNext(env, s.assets[u], LogOf(s.log, u), e, s'.assets[u])
  }

  /** A new asset row with its first action. */
  ghost predicate Registers(env: Env, s: Db, s': Db, e: Entry) {
    && e.asset == |s.assets| && |s'.assets| == |s.assets| + 1 && s'.assets[..|s.assets|] == s.assets
    && s'.log == s.log + [e] && e.sequence == s.nextSequence && s'.nextSequence == s.nextSequence + 1
    && s'.admin == s.admin && s'.proposals == s.proposals
    && AssetInv(env, s'.assets[|s.assets|], [e])
  }

  /** Issuance references filled in on one row. */
  ghost predicate Backfills(s: Db, s': Db, u: Uuid) {
    && u < |s.assets| && s'.log == s.log && s'.proposals == s.proposals && s'.admin == s.admin
    && s'.nextSequence == s.nextSequence
    && exists issuance :: s'.assets == s.assets[u := s.assets[u].(issuance := issuance)]
  }

  ghost predicate Shape(env: Env, s: Db, s': Db, o: Outcome, step: Step) {
    match o
    case Applied(e) => if e.asset < |s.assets| then Advances(env, s, s', e) else Registers(env, s, s', e)
    case Changed =>
      if step.SBackfill? then Backfills(s, s', step.uuid) else (step.SLifecycle? || step.SBootstrap?) && Idle(s, s')
    case _ => Idle(s, s') && s'.admin == s.admin
  }

  /** Every asset's log is started, and the next audit number is beyond it. */
  ghost predicate LogsOpen(s: Db) {
    forall u | 0 <= u < |s.assets| :: LogOpen(LogOf(s.log, u), s.nextSequence)
  }

  predicate LogOpen(l: seq<Entry>, next: nat) {
    |l| > 0 && l[|l| - 1].sequence < next
  }

  lemma CoreOpensLogs(env: Env, s: Db)
    requires CoreInv(env, s)
    ensures LogsOpen(s)
  {
  }

  lemma IssuerNextIsLegal(
    env: Env, a: Asset, l: seq<Entry>, u: Uuid, action: IssuerAction, signature: Signature, sequence: nat, now: int,
    window: int)
    requires a.status == Active && LogOpen(l, sequence)
    requires FindIssuerNonce(l, action.nonce).None? && IssuerChecks(env, a, l, action, signature, now, window).None?
    ensures LegalNext(env, a, l, IssuerEntry(env, sequence, u, a.currentKey, action, signature),
                      ApplyOp(a, action.op, sequence).(updatedAt := now))
  {
    hide FindMigration, FindIssuerNonce, LatestChainEntry, NewestIssuerTime, Untimed, LooksUnchanged;
  }

  lemma IssuerCommitShape(
    env: Env, s: Db, u: Uuid, action: IssuerAction, signature: Signature, now: int, window: int, step: Step)
    requires LogsOpen(s) && Proceeds(s, Go(u)) && IssuerCleared(env, s, Go(u), action, signature, now, window)
    ensures var e := IssuerEntry(env, s.nextSequence, u, s.assets[u].currentKey, action, signature);
            Shape(env, s, CommitIssuerAction(env, s, u, action, signature, now), Applied(e), step)
  {
    IssuerNextIsLegal(env, s.assets[u], LogOf(s.log, u), u, action, signature, s.nextSequence, now, window);
    assert CommitIssuerAction(env, s, u, action, signature, now).assets[u]
        == ApplyOp(s.assets[u], action.op, s.nextSequence).(updatedAt := now);
  }

  lemma ProposalNextIsLegal(
    env: Env, a: Asset, l: seq<Entry>, u: Uuid, action: IssuerAction, signature: Signature, sequence: nat, now: int,
    window: int)
    requires a.status == Active && LogOpen(l, sequence) && action.op.ProposeIcon?
    requires FindIssuerNonce(l, action.nonce).None? && IssuerChecks(env, a, l, action, signature, now, window).None?
    ensures LegalNext(env, a, l, IssuerEntry(env, sequence, u, a.currentKey, action, signature), a.(updatedAt := now))
  {
  }

  lemma ProposalCommitShape(
    env: Env, s: Db, u: Uuid, action: IssuerAction, image: Option<Bytes>, signature: Signature, now: int, window: int,
    step: Step)
    requires LogsOpen(s) && Proceeds(s, Go(u)) && IssuerCleared(env, s, Go(u), action, signature, now, window)
    requires action.op.ProposeIcon?
    ensures var r := CommitProposal(env, s, u, action, image, signature, now); Shape(env, s, r.0, r.1, step)
  {
    ProposalNextIsLegal(env, s.assets[u], LogOf(s.log, u), u, action, signature, s.nextSequence, now, window);
  }

  /** Committing an admin action never touches the public state, the keys or the contract. */
  lemma AdminShape(
    env: Env, s: Db, u: Uuid, a: Asset, action: AdminAction, signature: Signature, proposals: seq<Proposal>, now: int,
    step: Step)
    requires LogsOpen(s) && Proceeds(s, Go(u))
    requires Project(a) == Project(s.assets[u]) && a.contract == s.assets[u].contract
    requires a.source == s.assets[u].source && a.keys == s.assets[u].keys && a.assetId == s.assets[u].assetId
    requires a.initialKey == s.assets[u].initialKey
    ensures var r := CommitAdmin(s, u, a, action, signature, proposals, now); Shape(env, s, r.0, r.1, step)
  {
    var r := CommitAdmin(s, u, a, action, signature, proposals, now);
    assert LegalNext(env, s.assets[u], LogOf(s.log, u), r.1.entry, r.0.assets[u]);
  }

  lemma DecisionShape(env: Env, s: Db, u: Uuid, i: nat, action: AdminAction, signature: Signature, now: int, step: Step)
    requires LogsOpen(s) && Proceeds(s, Go(u)) && i < |s.proposals| && IsDecision(action.op)
    ensures var r := CommitDecision(s, u, i, action, signature, now); Shape(env, s, r.0, r.1, step)
  {
    var a := s.assets[u];
    AdminShape(env, s, u, if action.op.ApproveIcon? then a.(icon := Some(i)) else a, action, signature,
               s.proposals[i := Decided(s.proposals[i], action.op.ApproveIcon?, s.nextSequence)], now, step);
  }

  lemma AssignShape(
    env: Env, s: Db, u: Uuid, reuse: Option<nat>, action: AdminAction, image: Option<Bytes>, signature: Signature,
    now: int, step: Step)
    requires LogsOpen(s) && Proceeds(s, Go(u)) && action.op.SetIcon? && (reuse.Some? ==> reuse.value < |s.proposals|)
    ensures var r := AssignIcon(s, u, reuse, action, image, signature, now); Shape(env, s, r.0, r.1, step)
  {
    var n := s.nextSequence;
    match reuse
    case Some(i) =>
      var p := s.proposals[i];
      AdminShape(env, s, u, s.assets[u].(icon := Some(i)), action, signature,
                 if p.status == Pending then s.proposals[i := Decided(p, true, n)] else s.proposals, now, step);
    case None =>
      var p := Proposal(u, action.op.hash, image, Approved, n, Some(n), None);
      AdminShape(env, s, u, s.assets[u].(icon := Some(|s.proposals|)), action, signature, s.proposals + [p], now, step);
  }

  lemma AnnotationShape(env: Env, s: Db, url: string, action: AdminAction, signature: Signature, now: int, window: int, step: Step)
    requires LogsOpen(s) && step.SAnnotate?
    ensures var r := AnnotateAsset(env, s, url, action, signature, now, window); Shape(env, s, r.0, r.1, step)
  {
    var g := AnnotationGate(env, s, url, action, signature, now, window);
    if g.Go? {
      var a := s.assets[g.uuid];
      var n := NewAnnotations(a.annotations, action.op);
      if n.Success? {
        AdminShape(env, s, g.uuid, a.(annotations := n.value), action, signature, s.proposals, now, step);
      }
    }
  }

  lemma MigrationShape(env: Env, s: Db, u: Uuid, now: int, step: Step)
    requires LogsOpen(s) && Proceeds(s, Go(u)) && FindMigration(LogOf(s.log, u)).None?
    ensures var r := CommitMigration(env, s, u, now); Shape(env, s, r.0, r.1, step)
  {
    var r := CommitMigration(env, s, u, now);
    assert LegalNext(env, s.assets[u], LogOf(s.log, u), r.1.entry, r.0.assets[u]);
  }

  lemma DeletionShape(env: Env, s: Db, u: Uuid, signature: Signature, now: int, step: Step)
    requires LogsOpen(s) && Proceeds(s, Go(u))
    ensures var r := CommitDeletion(s, u, signature, now); Shape(env, s, r.0, r.1, step)
  {
  }

  lemma ImportShape(env: Env, s: Db, u: Uuid, image: Bytes, now: int, step: Step)
    requires LogsOpen(s) && Proceeds(s, Go(u))
    ensures var r := CommitImport(env, s, u, image, now); Shape(env, s, r.0, r.1, step)
  {
    var r := CommitImport(env, s, u, image, now);
    assert LegalNext(env, s.assets[u], LogOf(s.log, u), r.1.entry, r.0.assets[u]);
  }

  lemma RegisteredShape(env: Env, s: Db, a: Asset, payload: Payload, hash: Option<Hash>, step: Step)
    requires var e := SystemEntry(s.nextSequence, |s.assets|, payload, hash); AssetInv(env, a, [e])
    ensures Shape(env, s, CommitRegistration(s, a, payload, hash),
                  Applied(SystemEntry(s.nextSequence, |s.assets|, payload, hash)), step)
  {
  }

  lemma RegisterV2Shape(
    env: Env, s: Db, assetId: string, contract: Contract, issuerKey: Pubkey, mutable: Mutable, issuance: Issuance,
    now: int, step: Step)
    ensures var r := RegisterV2(env, s, assetId, contract, issuerKey, mutable, issuance, now); Shape(env, s, r.0, r.1, step)
  {
    var r := RegisterV2(env, s, assetId, contract, issuerKey, mutable, issuance, now);
    if r.1.Applied? {
      var a := NewAsset(assetId, contract, issuance, issuerKey, FromContract, mutable, s.nextSequence, now);
      RegistrationStartsAsset(env, a, r.1.entry);
      RegisteredShape(env, s, a, r.1.entry.payload, r.1.entry.hash, step);
    }
  }

  lemma RegisterLegacyShape(env: Env, s: Db, request: LegacyRequest, issuance: Issuance, now: int, step: Step)
    ensures var r := RegisterLegacy(s, request, issuance, now); Shape(env, s, r.0, r.1, step)
  {
    var r := RegisterLegacy(s, request, issuance, now);
    if r.1.Applied? {
      var a := NewAsset(request.assetId, request.contract, issuance, request.issuerKey, RegistryRegistration,
                        Mutable([], [], map[]), s.nextSequence, now);
      RegistrationStartsAsset(env, a, r.1.entry);
      RegisteredShape(env, s, a, r.1.entry.payload, r.1.entry.hash, step);
    }
  }

  lemma IssuerStepShape(env: Env, s: Db, url: string, action: IssuerAction, signature: Signature, now: int, window: int, step: Step)
    requires LogsOpen(s)
    ensures var r := SubmitIssuerAction(env, s, url, action, signature, now, window); Shape(env, s, r.0, r.1, step)
  {
    var g := IssuerGate(env, s, url, action, signature, now, window);
    if g.Go? { IssuerCommitShape(env, s, g.uuid, action, signature, now, window, step); }
  }

  lemma ProposalStepShape(
    env: Env, s: Db, url: string, action: IssuerAction, image: Option<Bytes>, signature: Signature, now: int, window: int,
    step: Step)
    requires LogsOpen(s)
    ensures var r := SubmitIconProposal(env, s, url, action, image, signature, now, window); Shape(env, s, r.0, r.1, step)
  {
    var g := ProposalGate(env, s, url, action, image, signature, now, window);
    if g.Go? { ProposalCommitShape(env, s, g.uuid, action, image, signature, now, window, step); }
  }

  lemma DecisionStepShape(env: Env, s: Db, url: string, action: AdminAction, signature: Signature, now: int, window: int, step: Step)
    requires LogsOpen(s)
    ensures var r := DecideIconProposal(env, s, url, action, signature, now, window); Shape(env, s, r.0, r.1, step)
  {
    var g := DecisionGate(env, s, url, action, signature, now, window);
    if g.Go? {
      var i := LastProposal(s.proposals, WaitingWithHash(g.uuid, action.op.hash)).value;
      DecisionShape(env, s, g.uuid, i, action, signature, now, step);
    }
  }

  lemma SetIconStepShape(
    env: Env, s: Db, url: string, action: AdminAction, image: Option<Bytes>, signature: Signature, now: int, window: int,
    step: Step)
    requires LogsOpen(s)
    ensures var r := SetAdminIcon(env, s, url, action, image, signature, now, window); Shape(env, s, r.0, r.1, step)
  {
    var g := SetIconGate(env, s, url, action, image, signature, now, window);
    if g.Go? {
      AssignShape(env, s, g.uuid, ReusableProposal(s, g.uuid, action.op.hash), action, image, signature, now, step);
    }
  }

  lemma MigrateStepShape(
    env: Env, s: Db, assetId: string, approval: Option<(AdminAction, Signature)>, now: int, window: int, step: Step)
    requires LogsOpen(s)
    ensures var r := MigrateAssetToV2(env, s, assetId, approval, now, window); Shape(env, s, r.0, r.1, step)
  {
    var g := MigrationTarget(env, s, assetId, approval, now, window);
    if g.Go? { MigrationShape(env, s, g.uuid, now, step); }
  }

  lemma DeleteStepShape(env: Env, s: Db, assetId: string, signature: Signature, now: int, step: Step)
    requires LogsOpen(s)
    ensures var r := DeregisterLegacy(env, s, assetId, signature, now); Shape(env, s, r.0, r.1, step)
  {
    var g := FindTarget(s, assetId);
    if g.Go? { DeletionShape(env, s, g.uuid, signature, now, step); }
  }

  lemma ImportStepShape(env: Env, s: Db, assetId: string, icon: Bytes, now: int, step: Step)
    requires LogsOpen(s)
    ensures var r := ImportLegacyIcon(env, s, assetId, icon, now); Shape(env, s, r.0, r.1, step)
  {
    var g := FindTarget(s, assetId);
    if g.Go? { ImportShape(env, s, g.uuid, icon, now, step); }
  }

  lemma SignedStepShape(env: Env, s: Db, step: Step, now: int)
    requires LogsOpen(s) && (step.SIssuer? || step.SPropose? || step.SDecide? || step.SSetIcon? || step.SAnnotate?)
    ensures var r := Perform(env, s, step, now); Shape(env, s, r.0, r.1, step)
  {
    hide SubmitIssuerAction, SubmitIconProposal, DecideIconProposal, SetAdminIcon, AnnotateAsset, Shape;
    match step
    case SIssuer(url, action, signature, window) => IssuerStepShape(env, s, url, action, signature, now, window, step);
    case SPropose(url, action, image, signature, window) =>
      ProposalStepShape(env, s, url, action, image, signature, now, window, step);
    case SDecide(url, action, signature, window) => DecisionStepShape(env, s, url, action, signature, now, window, step);
    case SSetIcon(url, action, image, signature, window) =>
      SetIconStepShape(env, s, url, action, image, signature, now, window, step);
    case SAnnotate(url, action, signature, window) => AnnotationShape(env, s, url, action, signature, now, window, step);
  }

  lemma SystemStepShape(env: Env, s: Db, step: Step, now: int)
    requires LogsOpen(s)
    requires step.SRegisterV2? || step.SRegisterLegacy? || step.SMigrate? || step.SDeregisterLegacy? || step.SImportIcon?
    ensures var r := Perform(env, s, step, now); Shape(env, s, r.0, r.1, step)
  {
    hide RegisterV2, RegisterLegacy, MigrateAssetToV2, DeregisterLegacy, ImportLegacyIcon, Shape;
    match step
    case SRegisterV2(assetId, contract, key, mutable, issuance) =>
      RegisterV2Shape(env, s, assetId, contract, key, mutable, issuance, now, step);
    case SRegisterLegacy(request, issuance) => RegisterLegacyShape(env, s, request, issuance, now, step);
    case SMigrate(assetId, approval, window) => MigrateStepShape(env, s, assetId, approval, now, window, step);
    case SDeregisterLegacy(assetId, signature) => DeleteStepShape(env, s, assetId, signature, now, step);
    case SImportIcon(assetId, icon) => ImportStepShape(env, s, assetId, icon, now, step);
  }

  lemma BackfillShape(env: Env, s: Db, u: Uuid, txin: Reference, prevout: Reference, step: Step)
    requires step.SBackfill? && step.uuid == u
    ensures var r := BackfillIssuance(s, u, txin, prevout); Shape(env, s, r.0, r.1, step)
  {
  }

  lemma LifecycleShape(env: Env, s: Db, action: Admin.LifecycleAction, signature: Signature, now: int, window: int, step: Step)
    requires step.SLifecycle?
    ensures var r := SubmitAdminLifecycle(env, s, action, signature, now, window); Shape(env, s, r.0, r.1, step)
  {
  }

  lemma BootstrapShape(env: Env, s: Db, genesis: Option<Pubkey>, step: Step)
    requires step.SBootstrap?
    ensures Shape(env, s, s.(admin := Admin.Bootstrap(s.admin, genesis)), Changed, step)
  {
  }

  lemma TableStepShape(env: Env, s: Db, step: Step, now: int)
    requires step.SBackfill? || step.SLifecycle? || step.SBootstrap?
    ensures var r := Perform(env, s, step, now); Shape(env, s, r.0, r.1, step)
  {
    hide BackfillIssuance, SubmitAdminLifecycle, Shape;
    match step
    case SBackfill(u, txin, prevout) => BackfillShape(env, s, u, txin, prevout, step);
    case SLifecycle(action, signature, window) => LifecycleShape(env, s, action, signature, now, window, step);
    case SBootstrap(genesis) => BootstrapShape(env, s, genesis, step);
  }

  /** Every transaction has one of the four shapes. */
  lemma StepShape(env: Env, s: Db, step: Step, now: int)
    requires LogsOpen(s)
    ensures var r := Perform(env, s, step, now); Shape(env, s, r.0, r.1, step)
  {
    hide Perform;
    if step.SBackfill? || step.SLifecycle? || step.SBootstrap? { TableStepShape(env, s, step, now); }
    else if step.SIssuer? || step.SPropose? || step.SDecide? || step.SSetIcon? || step.SAnnotate? {
      SignedStepShape(env, s, step, now);
    } else {
      SystemStepShape(env, s, step, now);
    }
  }

  // ---- Preservation ----

  /** A row untouched by a step keeps its invariant when another asset's action is logged. */
  lemma OtherAssetKept(env: Env, a: Asset, log: seq<Entry>, e: Entry, u: Uuid)
    requires AssetInv(env, a, LogOf(log, u)) && e.asset != u
    ensures AssetInv(env, a, LogOf(log + [e], u))
  {
  }

  lemma AdvanceKeepsAssets(env: Env, s: Db, s': Db, e: Entry)
    requires AllAssets(env, s) && e.asset < |s.assets| && Advances(env, s, s', e)
    ensures AllAssets(env, s')
  {
    forall u | 0 <= u < |s'.assets|
      ensures AssetInv(env, s'.assets[u], LogOf(s'.log, u))
    {
      assert AssetInv(env, s.assets[u], LogOf(s.log, u));
      if u == e.asset {
        LogOfAppend(s.log, e, u);
        NextKeepsAsset(env, s.assets[u], LogOf(s.log, u), e, s'.assets[u]);
      } else {
        assert s'.assets[u] == s.assets[u];
        OtherAssetKept(env, s.assets[u], s.log, e, u);
      }
    }
  }

  lemma RegisterKeepsAssets(env: Env, s: Db, s': Db, e: Entry)
    requires AllAssets(env, s) && Registers(env, s, s', e)
    requires forall x | x in s.log :: x.asset < |s.assets|
    ensures AllAssets(env, s')
  {
  }

  lemma BackfillKeepsAsset(env: Env, a: Asset, l: seq<Entry>, issuance: Issuance)
    requires AssetInv(env, a, l)
    ensures AssetInv(env, a.(issuance := issuance), l)
  {
  }

  lemma IssuanceKeepsAssets(env: Env, s: Db, s': Db, u: Uuid, issuance: Issuance)
    requires AllAssets(env, s) && u < |s.assets| && s'.log == s.log
    requires s'.assets == s.assets[u := s.assets[u].(issuance := issuance)]
    ensures AllAssets(env, s')
  {
    forall v | 0 <= v < |s'.assets|
      ensures AssetInv(env, s'.assets[v], LogOf(s'.log, v))
    {
      assert AssetInv(env, s.assets[v], LogOf(s.log, v));
      BackfillKeepsAsset(env, s.assets[v], LogOf(s.log, v), issuance);
    }
  }

  lemma BackfillKeepsCore(env: Env, s: Db, u: Uuid, txin: Reference, prevout: Reference)
    requires CoreInv(env, s)
    ensures CoreInv(env, BackfillIssuance(s, u, txin, prevout).0)
  {
    var r := BackfillIssuance(s, u, txin, prevout);
    if r.1.Changed? {
      IssuanceKeepsAssets(env, s, r.0, u, Issuance(Some(txin), Some(prevout)));
      assert Numbered(r.0);
    }
  }

  /** A lifecycle submission touches the admin tables and the counter only. */
  lemma LifecycleEffect(env: Env, s: Db, action: Admin.LifecycleAction, signature: Signature, now: int, window: int)
    ensures var s' := SubmitAdminLifecycle(env, s, action, signature, now, window).0;
            && Idle(s, s')
            && (s'.admin.log == s.admin.log
                || (s'.admin.log == s.admin.log + [Admin.AdminEntry(s.nextSequence, action)]
                    && s'.nextSequence == s.nextSequence + 1))
  {
  }

  lemma LifecycleKeepsNumbers(s: Db, s': Db, f: Admin.AdminEntry)
    requires Numbered(s) && Idle(s, s') && f.sequence == s.nextSequence && s'.nextSequence == s.nextSequence + 1
    requires s'.admin.log == s.admin.log + [f]
    ensures Numbered(s')
  {
  }

  lemma LifecycleKeepsCore(env: Env, s: Db, action: Admin.LifecycleAction, signature: Signature, now: int, window: int)
    requires CoreInv(env, s)
    ensures CoreInv(env, SubmitAdminLifecycle(env, s, action, signature, now, window).0)
  {
    LifecycleEffect(env, s, action, signature, now, window);
    var s' := SubmitAdminLifecycle(env, s, action, signature, now, window).0;
    assert AllAssets(env, s');
    if s'.admin.log != s.admin.log {
      LifecycleKeepsNumbers(s, s', Admin.AdminEntry(s.nextSequence, action));
    }
  }

  lemma AdvanceKeepsNumbers(env: Env, s: Db, s': Db, e: Entry)
    requires Numbered(s) && e.asset < |s.assets| && Advances(env, s, s', e)
    ensures Numbered(s')
  {
  }

  lemma RegisterKeepsNumbers(env: Env, s: Db, s': Db, e: Entry)
    requires Numbered(s) && Registers(env, s, s', e)
    ensures Numbered(s')
  {
    LogNumberedAppend(s.log, |s.assets|, |s'.assets|, s.nextSequence, e);
  }

  lemma AppliedKeepsCore(env: Env, s: Db, s': Db, o: Outcome, step: Step)
    requires CoreInv(env, s) && o.Applied? && Shape(env, s, s', o, step)
    ensures CoreInv(env, s')
  {
    if o.entry.asset < |s.assets| {
      AdvanceKeepsNumbers(env, s, s', o.entry);
      AdvanceKeepsAssets(env, s, s', o.entry);
    } else {
      RegisterKeepsNumbers(env, s, s', o.entry);
      RegisterKeepsAssets(env, s, s', o.entry);
    }
  }

  lemma ShapeKeepsCore(env: Env, s: Db, s': Db, o: Outcome, step: Step)
    requires CoreInv(env, s) && Shape(env, s, s', o, step)
    requires !(step.SBackfill? || step.SLifecycle? || step.SBootstrap?)
    ensures CoreInv(env, s')
  {
    if o.Applied? { AppliedKeepsCore(env, s, s', o, step); }
  }

  lemma BootstrapKeepsCore(env: Env, s: Db, genesis: Option<Pubkey>)
    requires CoreInv(env, s)
    ensures CoreInv(env, s.(admin := Admin.Bootstrap(s.admin, genesis)))
  {
  }

  lemma TableStepKeepsCore(env: Env, s: Db, step: Step, now: int)
    requires CoreInv(env, s) && (step.SBackfill? || step.SLifecycle? || step.SBootstrap?)
    ensures CoreInv(env, Perform(env, s, step, now).0)
  {
    hide BackfillIssuance, SubmitAdminLifecycle, CoreInv;
    match step
    case SBackfill(u, txin, prevout) => BackfillKeepsCore(env, s, u, txin, prevout);
    case SLifecycle(action, signature, window) => LifecycleKeepsCore(env, s, action, signature, now, window);
    case SBootstrap(genesis) => BootstrapKeepsCore(env, s, genesis);
  }

  lemma StepKeepsCore(env: Env, s: Db, step: Step, now: int)
    requires CoreInv(env, s)
    ensures CoreInv(env, Perform(env, s, step, now).0)
  {
    hide Perform;
    if step.SBackfill? || step.SLifecycle? || step.SBootstrap? {
      TableStepKeepsCore(env, s, step, now);
    } else {
      var r := Perform(env, s, step, now);
      CoreOpensLogs(env, s);
      StepShape(env, s, step, now);
      ShapeKeepsCore(env, s, r.0, r.1, step);
    }
  }

  /** Every asset satisfies its invariant after every run. */
  lemma {:induction false} RunKeepsCore(env: Env, events: seq<Event>)
    ensures CoreInv(env, Run(env, events))
  {
    hide Perform;
    if |events| > 0 {
      var last := events[|events| - 1];
      RunKeepsCore(env, events[..|events| - 1]);
      StepKeepsCore(env, Run(env, events[..|events| - 1]), last.step, last.now);
    }
  }
}
