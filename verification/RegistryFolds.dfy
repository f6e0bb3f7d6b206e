/** The admin side of event sourcing: annotations and the current icon are read off the log as well. */
module RegistryFolds {
  import opened Basics
  import opened RegistryModel
  import opened RegistrySteps
  import opened RegistryInvariants
  import opened RegistryIcons
  import opened RegistrySettles
  import opened RegistryRows
  import opened RegistryPublishing
  import opened RegistrySamples
  import Admin = AdminGovernance

  datatype Curated = Curated(annotations: Annotations, icon: Option<Hash>)

  /** What one admin operation asks for, read from the operation alone. */
  function Edit(c: Curated, op: AdminOp): Curated {
    var n := c.annotations;
    match op
    case UpdateAnnotations(changes) => if SetsNull(changes) then c else c.(annotations := Annotated(n, changes))
    case ForceDelist(reason) => c.(annotations := n.(delisted := true, notes := if reason.Some? then reason else n.notes))
    case ForceRelist(reason) => c.(annotations := n.(delisted := false, notes := if reason.Some? then reason else n.notes))
    case ApproveIcon(hash) => c.(icon := Some(hash))
    case SetIcon(hash) => c.(icon := Some(hash))
    case _ => c
  }

  function CurateEntry(c: Curated, e: Entry): Curated {
    match e.payload
    case PRegister(_, _, _, _) => Curated(NO_ANNOTATIONS, None)
    case PLegacyRegister(_) => Curated(NO_ANNOTATIONS, None)
    case PIssuer(action) => if action.op.Deregister? then c.(icon := None) else c
    case PLegacyDeregister(_) => c.(icon := None)
    case PImportIcon(_, hash) => c.(icon := Some(hash))
    case PMigrate(_, _, _) => c
    case PAdmin(action) =>
      var edited := Edit(c, action.op);
      edited.(annotations := edited.annotations.(lastAction := Some(e.sequence), updatedBy := Some(action.actor)))
  }

  function Curate(l: seq<Entry>): Curated {
    if |l| == 0 then Curated(NO_ANNOTATIONS, None) else CurateEntry(Curate(l[..|l| - 1]), l[|l| - 1])
  }

  lemma CurateAppend(l: seq<Entry>, e: Entry)
    ensures Curate(l + [e]) == CurateEntry(Curate(l), e)
  {
    assert (l + [e])[..|l|] == l;
  }

  function IconHash(a: Asset, proposals: seq<Proposal>): Option<Hash> {
    if a.icon.Some? && a.icon.value < |proposals| then Some(proposals[a.icon.value].hash) else None
  }

  function CuratedOf(a: Asset, proposals: seq<Proposal>): Curated { Curated(a.annotations, IconHash(a, proposals)) }

  // ---- Each applied entry does what it says ----

  /** The row an applied entry leaves is the row before it, edited as the entry says. */
  ghost predicate Edits(s: Db, s': Db, o: Outcome) {
    o.Applied? && o.entry.asset < |s.assets| ==>
      && o.entry.asset < |s'.assets|
      && CuratedOf(s'.assets[o.entry.asset], s'.proposals)
         == CurateEntry(CuratedOf(s.assets[o.entry.asset], s.proposals), o.entry)
  }

  lemma IssuerCommitEdits(env: Env, s: Db, u: Uuid, action: IssuerAction, signature: Signature, now: int)
    requires u < |s.assets|
    ensures Edits(s, CommitIssuerAction(env, s, u, action, signature, now),
                  Applied(IssuerEntry(env, s.nextSequence, u, s.assets[u].currentKey, action, signature)))
  {
    hide FreshFragment, LogOf;
  }

  lemma IssuerEdits(env: Env, s: Db, step: Step, now: int)
    requires step.SIssuer?
    ensures Edits(s, Perform(env, s, step, now).0, Perform(env, s, step, now).1)
  {
    hide IssuerGate, CommitIssuerAction;
    var g := IssuerGate(env, s, step.urlAssetId, step.action, step.signature, now, step.window);
    if g.Go? { IssuerCommitEdits(env, s, g.uuid, step.action, step.signature, now); }
  }

  lemma ProposalEdits(env: Env, s: Db, u: Uuid, action: IssuerAction, image: Option<Bytes>, signature: Signature, now: int)
    requires u < |s.assets| && action.op.ProposeIcon? && IconOk(s.assets[u], u, s.proposals)
    ensures var r := CommitProposal(env, s, u, action, image, signature, now); Edits(s, r.0, r.1)
  {
  }

  lemma ProposeEdits(env: Env, s: Db, step: Step, now: int)
    requires step.SPropose? && IconInv(env, s)
    ensures Edits(s, Perform(env, s, step, now).0, Perform(env, s, step, now).1)
  {
    hide ProposalGate, CommitProposal;
    var g := ProposalGate(env, s, step.urlAssetId, step.action, step.image, step.signature, now, step.window);
    if g.Go? { ProposalEdits(env, s, g.uuid, step.action, step.image, step.signature, now); }
  }

  lemma AdminEdits(
    s: Db, u: Uuid, a: Asset, action: AdminAction, signature: Signature, proposals: seq<Proposal>, now: int)
    requires u < |s.assets| && CuratedOf(a, proposals) == Edit(CuratedOf(s.assets[u], s.proposals), action.op)
    ensures var r := CommitAdmin(s, u, a, action, signature, proposals, now); Edits(s, r.0, r.1)
  {
  }

  lemma DecideEdits(env: Env, s: Db, step: Step, now: int)
    requires step.SDecide?
    ensures Edits(s, Perform(env, s, step, now).0, Perform(env, s, step, now).1)
  {
    hide DecisionGate, CommitDecision;
    var g := DecisionGate(env, s, step.urlAssetId, step.adminAction, step.signature, now, step.window);
    if g.Go? {
      var action := step.adminAction;
      var i := LastProposal(s.proposals, WaitingWithHash(g.uuid, action.op.hash)).value;
      DecisionEdits(s, g.uuid, i, action, step.signature, now);
    }
  }

  lemma DecisionEdits(s: Db, u: Uuid, i: nat, action: AdminAction, signature: Signature, now: int)
    requires u < |s.assets| && i < |s.proposals| && IsDecision(action.op) && s.proposals[i].hash == action.op.hash
    ensures var r := CommitDecision(s, u, i, action, signature, now); Edits(s, r.0, r.1)
  {
    var approve := action.op.ApproveIcon?;
    AdminEdits(s, u, if approve then s.assets[u].(icon := Some(i)) else s.assets[u], action, signature,
               s.proposals[i := Decided(s.proposals[i], approve, s.nextSequence)], now);
  }

  lemma AssignEdits(
    s: Db, u: Uuid, reuse: Option<nat>, action: AdminAction, image: Option<Bytes>, signature: Signature, now: int)
    requires u < |s.assets| && action.op.SetIcon?
    requires reuse.Some? ==> reuse.value < |s.proposals| && s.proposals[reuse.value].hash == action.op.hash
    ensures var r := AssignIcon(s, u, reuse, action, image, signature, now); Edits(s, r.0, r.1)
  {
    var n := s.nextSequence;
    match reuse
    case Some(i) =>
      var p := s.proposals[i];
      AdminEdits(s, u, s.assets[u].(icon := Some(i)), action, signature,
                 if p.status == Pending then s.proposals[i := Decided(p, true, n)] else s.proposals, now);
    case None =>
      var p := Proposal(u, action.op.hash, image, Approved, n, Some(n), None);
      AdminEdits(s, u, s.assets[u].(icon := Some(|s.proposals|)), action, signature, s.proposals + [p], now);
  }

  lemma SetIconEdits(env: Env, s: Db, step: Step, now: int)
    requires step.SSetIcon?
    ensures Edits(s, Perform(env, s, step, now).0, Perform(env, s, step, now).1)
  {
    hide SetIconGate, AssignIcon;
    var g := SetIconGate(env, s, step.urlAssetId, step.adminAction, step.image, step.signature, now, step.window);
    if g.Go? {
      AssignEdits(s, g.uuid, ReusableProposal(s, g.uuid, step.adminAction.op.hash), step.adminAction, step.image,
                  step.signature, now);
    }
  }

  lemma AnnotateEdits(env: Env, s: Db, step: Step, now: int)
    requires step.SAnnotate?
    ensures Edits(s, Perform(env, s, step, now).0, Perform(env, s, step, now).1)
  {
    hide AnnotationGate, CommitAdmin;
    var action := step.adminAction;
    var g := AnnotationGate(env, s, step.urlAssetId, action, step.signature, now, step.window);
    if g.Go? {
      var n := NewAnnotations(s.assets[g.uuid].annotations, action.op);
      if n.Success? {
        AdminEdits(s, g.uuid, s.assets[g.uuid].(annotations := n.value), action, step.signature, s.proposals, now);
      }
    }
  }

  lemma MigrationEdits(env: Env, s: Db, u: Uuid, now: int)
    requires u < |s.assets|
    ensures var r := CommitMigration(env, s, u, now); Edits(s, r.0, r.1)
  {
  }

  lemma MigrateEdits(env: Env, s: Db, step: Step, now: int)
    requires step.SMigrate?
    ensures Edits(s, Perform(env, s, step, now).0, Perform(env, s, step, now).1)
  {
    hide MigrationTarget, CommitMigration;
    var g := MigrationTarget(env, s, step.assetId, step.approval, now, step.window);
    if g.Go? { MigrationEdits(env, s, g.uuid, now); }
  }

  lemma DeregisterEdits(env: Env, s: Db, step: Step, now: int)
    requires step.SDeregisterLegacy?
    ensures Edits(s, Perform(env, s, step, now).0, Perform(env, s, step, now).1)
  {
  }

  lemma ImportCommitEdits(env: Env, s: Db, u: Uuid, image: Bytes, now: int)
    requires u < |s.assets|
    ensures var r := CommitImport(env, s, u, image, now); Edits(s, r.0, r.1)
  {
  }

  lemma ImportEdits(env: Env, s: Db, step: Step, now: int)
    requires step.SImportIcon?
    ensures Edits(s, Perform(env, s, step, now).0, Perform(env, s, step, now).1)
  {
    hide CommitImport;
    var g := FindTarget(s, step.assetId);
    if g.Go? { ImportCommitEdits(env, s, g.uuid, step.icon, now); }
  }

  lemma OthersEditNothing(env: Env, s: Db, step: Step, now: int)
    requires step.SRegisterV2? || step.SRegisterLegacy? || step.SBackfill? || step.SLifecycle? || step.SBootstrap?
    ensures Edits(s, Perform(env, s, step, now).0, Perform(env, s, step, now).1)
  {
    hide FreshFragment, LogOf;
  }

  lemma StepEdits(env: Env, s: Db, step: Step, now: int)
    requires IconInv(env, s)
    ensures Edits(s, Perform(env, s, step, now).0, Perform(env, s, step, now).1)
  {
    hide Perform;
    match step
    case SIssuer(_, _, _, _) => IssuerEdits(env, s, step, now);
    case SPropose(_, _, _, _, _) => ProposeEdits(env, s, step, now);
    case SDecide(_, _, _, _) => DecideEdits(env, s, step, now);
    case SSetIcon(_, _, _, _, _) => SetIconEdits(env, s, step, now);
    case SAnnotate(_, _, _, _) => AnnotateEdits(env, s, step, now);
    case SMigrate(_, _, _) => MigrateEdits(env, s, step, now);
    case SDeregisterLegacy(_, _) => DeregisterEdits(env, s, step, now);
    case SImportIcon(_, _) => ImportEdits(env, s, step, now);
    case _ => OthersEditNothing(env, s, step, now);
  }

  // ---- Over runs ----

  predicate CuratedAt(s: Db, u: Uuid)
    requires u < |s.assets|
  {
    CuratedOf(s.assets[u], s.proposals) == Curate(LogOf(s.log, u))
  }

  ghost predicate AllCurated(s: Db) { forall u | 0 <= u < |s.assets| :: CuratedAt(s, u) }

  /** A row that kept its icon and annotations still shows the same icon once proposals have moved on. */
  lemma CuratedStays(a: Asset, a': Asset, u: Uuid, ps: seq<Proposal>, ps': seq<Proposal>)
    requires IconOk(a, u, ps) && Evolved(ps, ps') && a'.icon == a.icon && a'.annotations == a.annotations
    ensures CuratedOf(a', ps') == CuratedOf(a, ps)
  {
    if a.icon.Some? { assert Evolves(ps[a.icon.value], ps'[a.icon.value]); }
  }

  lemma AdvanceKeepsCurated(env: Env, s: Db, s': Db, e: Entry)
    requires AllCurated(s) && IconInv(env, s) && Evolved(s.proposals, s'.proposals)
    requires e.asset < |s.assets| && Advances(env, s, s', e) && Edits(s, s', Applied(e))
    ensures AllCurated(s')
  {
    forall u | 0 <= u < |s'.assets| ensures CuratedAt(s', u) {
      assert CuratedAt(s, u) && IconOk(s.assets[u], u, s.proposals);
      LogOfAppend(s.log, e, u);
      if u == e.asset {
        CurateAppend(LogOf(s.log, u), e);
      } else {
        assert s'.assets[u] == s.assets[u];
        CuratedStays(s.assets[u], s'.assets[u], u, s.proposals, s'.proposals);
      }
    }
  }

  lemma RegisterStartsCurated(env: Env, s: Db, step: Step, now: int)
    requires step.SRegisterV2? || step.SRegisterLegacy?
    requires Perform(env, s, step, now).1.Applied?
    ensures var s' := Perform(env, s, step, now).0;
            |s'.assets| == |s.assets| + 1 && CuratedOf(s'.assets[|s.assets|], s'.proposals) == Curated(NO_ANNOTATIONS, None)
  {
  }

  lemma RegisterKeepsCurated(env: Env, s: Db, s': Db, e: Entry)
    requires AllCurated(s) && Registers(env, s, s', e) && (forall x | x in s.log :: x.asset < |s.assets|)
    requires CuratedOf(s'.assets[|s.assets|], s'.proposals) == Curated(NO_ANNOTATIONS, None)
    requires e.payload.PRegister? || e.payload.PLegacyRegister?
    ensures AllCurated(s')
  {
    forall u | 0 <= u < |s'.assets| ensures CuratedAt(s', u) {
      LogOfAppend(s.log, e, u);
      if u == |s.assets| {
        CurateAppend(LogOf(s.log, u), e);
      } else {
        assert CuratedAt(s, u);
        assert s'.assets[u] == s'.assets[..|s.assets|][u] == s.assets[u];
      }
    }
  }

  lemma BackfillKeepsCurated(s: Db, s': Db, u: Uuid)
    requires AllCurated(s) && Backfills(s, s', u)
    ensures AllCurated(s')
  {
    var issuance :| s'.assets == s.assets[u := s.assets[u].(issuance := issuance)];
    forall v | 0 <= v < |s'.assets| ensures CuratedAt(s', v) { assert CuratedAt(s, v); }
  }

  lemma QuietKeepsCurated(s: Db, s': Db)
    requires AllCurated(s) && s'.assets == s.assets && s'.log == s.log && s'.proposals == s.proposals
    ensures AllCurated(s')
  {
    forall v | 0 <= v < |s'.assets| ensures CuratedAt(s', v) { assert CuratedAt(s, v); }
  }

  lemma RegistersOnlyRegistrations(env: Env, s: Db, step: Step, now: int)
    requires var r := Perform(env, s, step, now); r.1.Applied? && r.1.entry.asset >= |s.assets|
    requires LogsOpen(s)
    ensures step.SRegisterV2? || step.SRegisterLegacy?
    ensures var e := Perform(env, s, step, now).1.entry; e.payload.PRegister? || e.payload.PLegacyRegister?
  {
    hide Perform;
    StepShape(env, s, step, now);
    OnlyRegistrationAddsRows(env, s, step, now);
  }

  lemma AppliedKeepsCurated(env: Env, s: Db, step: Step, now: int)
    requires CoreInv(env, s) && SettledInv(env, s) && AllCurated(s) && Perform(env, s, step, now).1.Applied?
    ensures AllCurated(Perform(env, s, step, now).0)
  {
    hide Perform;
    var r := Perform(env, s, step, now);
    CoreOpensLogs(env, s);
    StepShape(env, s, step, now);
    if r.1.entry.asset < |s.assets| {
      StepEdits(env, s, step, now);
      StepSettles(env, s, step, now);
      StepEvolves(env, s, r.0, step);
      AdvanceKeepsCurated(env, s, r.0, r.1.entry);
    } else {
      RegistersOnlyRegistrations(env, s, step, now);
      RegisterStartsCurated(env, s, step, now);
      RegisterKeepsCurated(env, s, r.0, r.1.entry);
    }
  }

  lemma StepKeepsCurated(env: Env, s: Db, step: Step, now: int)
    requires CoreInv(env, s) && SettledInv(env, s) && AllCurated(s)
    ensures AllCurated(Perform(env, s, step, now).0)
  {
    hide Perform;
    var r := Perform(env, s, step, now);
    if r.1.Applied? {
      AppliedKeepsCurated(env, s, step, now);
    } else {
      CoreOpensLogs(env, s);
      StepShape(env, s, step, now);
      OtherKeepsCurated(env, s, r.0, r.1, step);
    }
  }

  lemma OtherKeepsCurated(env: Env, s: Db, s': Db, o: Outcome, step: Step)
    requires AllCurated(s) && Shape(env, s, s', o, step) && !o.Applied?
    ensures AllCurated(s')
  {
    if o.Changed? && step.SBackfill? { BackfillKeepsCurated(s, s', step.uuid); } else { QuietKeepsCurated(s, s'); }
  }

  /** After every run each asset's annotations and its current icon are the fold of its own log. */
  lemma {:induction false} CuratedAlways(env: Env, events: seq<Event>)
    ensures AllCurated(Run(env, events))
  {
    hide Perform;
    if |events| > 0 {
      var prefix, last := events[..|events| - 1], events[|events| - 1];
      CuratedAlways(env, prefix);
      RunKeepsCore(env, prefix);
      RunSettles(env, prefix);
      StepKeepsCurated(env, Run(env, prefix), last.step, last.now);
    }
  }

  /** The icon an asset shows is the one its log last set, and none after its deregistration. */
  lemma ShownIconIsLogged(env: Env, events: seq<Event>, u: Uuid)
    requires u < |Run(env, events).assets|
    ensures var s := Run(env, events);
            var shown := CurrentIcon(s.assets[u], s.proposals);
            Curate(LogOf(s.log, u)).icon == if shown.Some? then Some(shown.value.hash) else None
  {
    hide Run;
    CuratedAlways(env, events);
    RunSettles(env, events);
    IconShown(env, Run(env, events), u);
  }

  lemma IconShown(env: Env, s: Db, u: Uuid)
    requires u < |s.assets| && AllCurated(s) && IconInv(env, s)
    ensures var shown := CurrentIcon(s.assets[u], s.proposals);
            Curate(LogOf(s.log, u)).icon == if shown.Some? then Some(shown.value.hash) else None
  {
    assert CuratedAt(s, u) && IconOk(s.assets[u], u, s.proposals);
  }

  /** An applied annotation action changes an annotation, sets exactly the fields it names and leaves the rest;
      asking for the same again, by whoever and whenever, is refused as a no-op. */
  lemma AnnotationsAsAsked(n: Annotations, op: AdminOp, lastAction: Option<nat>, updatedBy: Option<Pubkey>)
    requires IsAnnotation(op) && NewAnnotations(n, op).Success?
    ensures var r := NewAnnotations(n, op).value;
            && r != n && r.lastAction == n.lastAction && r.updatedBy == n.updatedBy
            && NewAnnotations(r.(lastAction := lastAction, updatedBy := updatedBy), op) == Failure(NoOpAction)
            && match op
               case UpdateAnnotations(c) =>
                 && r.assetType == (if c.assetType.Some? then c.assetType.value else n.assetType)
                 && (if c.featured.Some? then c.featured.value == Some(r.featured) else r.featured == n.featured)
                 && (if c.malicious.Some? then c.malicious.value == Some(r.malicious) else r.malicious == n.malicious)
                 && (if c.delisted.Some? then c.delisted.value == Some(r.delisted) else r.delisted == n.delisted)
                 && r.notes == (if c.notes.Some? then c.notes.value else n.notes)
               case ForceDelist(reason) => !n.delisted && r.delisted && r == n.(delisted := true, notes := r.notes)
                                           && r.notes == if reason.Some? then reason else n.notes
               case ForceRelist(reason) => n.delisted && !r.delisted && r == n.(delisted := false, notes := r.notes)
                                           && r.notes == if reason.Some? then reason else n.notes
               case _ => false
  {
  }

  // ---- Published annotations ----

  lemma AppliedAnnotation(env: Env, s: Db, step: Step, now: int)
    requires step.SAnnotate? && Perform(env, s, step, now).1.Applied?
    ensures var r := Perform(env, s, step, now);
            var u, op := r.1.entry.asset, step.adminAction.op;
            && u < |s.assets| && u < |r.0.assets| && IsAnnotation(op) && r.0.assets[u].status == Active
            && var asked := NewAnnotations(s.assets[u].annotations, op);
               && asked.Success?
               && r.0.assets[u].annotations
                  == asked.value.(lastAction := Some(s.nextSequence), updatedBy := Some(step.adminAction.actor))
  {
    hide LogOf;
  }

  /** After a run, an annotation action that is applied is published at once: the asset's cached fragment shows
      what was asked, and the same request under any nonce would change nothing. */
  lemma AppliedAnnotationIsPublished(env: Env, events: seq<Event>, step: Step, now: int)
    requires step.SAnnotate? && Perform(env, Run(env, events), step, now).1.Applied?
    ensures var s, s' := Run(env, events), Run(env, events + [Event(step, now)]);
            var u, op := Perform(env, s, step, now).1.entry.asset, step.adminAction.op;
            && u < |s.assets| && u < |s'.assets| && IsAnnotation(op) && u in s'.fragments
            && NewAnnotations(s.assets[u].annotations, op).Success?
            && s'.fragments[u].v2.annotations
               == NewAnnotations(s.assets[u].annotations, op).value.(
                    lastAction := Some(s.nextSequence), updatedBy := Some(step.adminAction.actor))
            && NewAnnotations(s'.fragments[u].v2.annotations, op) == Failure(NoOpAction)
  {
    hide Perform, NewAnnotations;
    var s := Run(env, events);
    var u := Perform(env, s, step, now).1.entry.asset;
    RunSnoc(env, events, Event(step, now));
    AppliedAnnotation(env, s, step, now);
    FragmentsAlwaysFresh(env, events + [Event(step, now)], u);
    AnnotationsAsAsked(s.assets[u].annotations, step.adminAction.op, Some(s.nextSequence), Some(step.adminAction.actor));
  }
}
