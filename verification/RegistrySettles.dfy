/** Every transaction settles: it keeps the icon invariant and leaves every cached fragment fresh. */
module RegistrySettles {
  import opened Basics
  import opened RegistryModel
  import opened RegistrySteps
  import opened RegistryIcons
  import Admin = AdminGovernance

  ghost predicate LogsExcept(s: Db, s': Db, u: Uuid) {
    forall v: nat | v != u :: LogOf(s'.log, v) == LogOf(s.log, v)
  }

  ghost predicate SettledInv(env: Env, s: Db) {
    IconInv(env, s) && FragmentInv(s)
  }

  /** A change confined to one asset that leaves its icon and its fragment in order. */
  ghost predicate Settles(env: Env, s: Db, s': Db, u: Uuid) {
    && RowsExcept(s, s', u) && LogsExcept(s, s', u) && FragmentsExcept(s, s', u)
    && Touches(s.proposals, s'.proposals, u)
    && ProposalsOk(env, s'.proposals, |s'.assets|) && OneWaiting(s'.proposals)
    && IconOk(s'.assets[u], u, s'.proposals)
    && FragmentOk(s', u)
  }

  /** A deregistered asset is left without a fragment. */
  predicate Tidy(s: Db, u: Uuid)
    requires u < |s.assets|
  {
    s.assets[u].status == Deregistered ==> u !in s.fragments
  }

  lemma SettlesKeeps(env: Env, s: Db, s': Db, u: Uuid)
    requires SettledInv(env, s) && Settles(env, s, s', u)
    ensures SettledInv(env, s')
  {
    IconsKept(env, s, s', u);
    FragmentsKept(env, s, s', u);
  }

  // ---- The two ways a transaction ends ----

  lemma RefreshSettles(env: Env, s: Db, u: Uuid, a: Asset, e: Entry, ps: seq<Proposal>)
    requires u < |s.assets| && e.asset == u
    requires Touches(s.proposals, ps, u) && ProposalsOk(env, ps, |s.assets|) && OneWaiting(ps) && IconOk(a, u, ps)
    ensures Settles(env, s, Refreshed(Committed(s, u, a, e, ps), u), u)
    ensures a.status == Active ==> Tidy(Refreshed(Committed(s, u, a, e, ps), u), u)
  {
  }

  lemma DropSettles(env: Env, s: Db, u: Uuid, a: Asset, e: Entry, ps: seq<Proposal>)
    requires u < |s.assets| && e.asset == u && a.status == Deregistered
    requires Touches(s.proposals, ps, u) && ProposalsOk(env, ps, |s.assets|) && OneWaiting(ps) && IconOk(a, u, ps)
    ensures Settles(env, s, FragmentDropped(Committed(s, u, a, e, ps), u), u)
    ensures Tidy(FragmentDropped(Committed(s, u, a, e, ps), u), u)
  {
  }

  lemma NothingMoves(env: Env, ps: seq<Proposal>, u: Uuid)
    ensures Touches(ps, ps, u)
  {
  }

  // ---- Each commit ----

  lemma IssuerSettles(env: Env, s: Db, u: Uuid, action: IssuerAction, signature: Signature, now: int)
    requires SettledInv(env, s) && Proceeds(s, Go(u))
    ensures Settles(env, s, CommitIssuerAction(env, s, u, action, signature, now), u)
    ensures Tidy(CommitIssuerAction(env, s, u, action, signature, now), u)
  {
    var a := s.assets[u];
    var e := IssuerEntry(env, s.nextSequence, u, a.currentKey, action, signature);
    var a' := ApplyOp(a, action.op, e.sequence).(updatedAt := now);
    if action.op.Deregister? {
      ObsoleteMoves(env, s.proposals, u, e.sequence, |s.assets|);
      DeregisteredIconOk(a', u, s.proposals, e.sequence);
      DropSettles(env, s, u, a', e, ObsoleteAll(s.proposals, u, e.sequence));
    } else {
      NothingMoves(env, s.proposals, u);
      assert IconOk(a, u, s.proposals);
      RefreshSettles(env, s, u, a', e, s.proposals);
    }
  }

  lemma ProposalSettles(
    env: Env, s: Db, u: Uuid, action: IssuerAction, image: Option<Bytes>, signature: Signature, now: int)
    requires SettledInv(env, s) && Proceeds(s, Go(u)) && action.op.ProposeIcon?
    requires SlotError(s, u, action.op.iconHash).None?
    requires image.Some? && env.imageHash(image.value) == action.op.iconHash
    ensures Settles(env, s, CommitProposal(env, s, u, action, image, signature, now).0, u)
    ensures Tidy(CommitProposal(env, s, u, action, image, signature, now).0, u)
  {
    var a := s.assets[u];
    var e := IssuerEntry(env, s.nextSequence, u, a.currentKey, action, signature);
    var p := Proposal(u, action.op.iconHash, image, Pending, e.sequence, None, None);
    AppendMoves(env, s.proposals, p, |s.assets|);
    assert IconOk(a, u, s.proposals);
    SameIconOk(a, a.(updatedAt := now), u, s.proposals, s.proposals + [p]);
    RefreshSettles(env, s, u, a.(updatedAt := now), e, s.proposals + [p]);
  }

  lemma AdminSettles(
    env: Env, s: Db, u: Uuid, a: Asset, action: AdminAction, signature: Signature, ps: seq<Proposal>, now: int)
    requires u < |s.assets|
    requires Touches(s.proposals, ps, u) && ProposalsOk(env, ps, |s.assets|) && OneWaiting(ps) && IconOk(a, u, ps)
    ensures Settles(env, s, CommitAdmin(s, u, a, action, signature, ps, now).0, u)
    ensures a.status == Active ==> Tidy(CommitAdmin(s, u, a, action, signature, ps, now).0, u)
  {
  }

  lemma DecisionSettles(env: Env, s: Db, u: Uuid, i: nat, action: AdminAction, signature: Signature, now: int)
    requires SettledInv(env, s) && Proceeds(s, Go(u)) && IsDecision(action.op)
    requires i < |s.proposals| && Waiting(s.proposals[i], u)
    ensures Settles(env, s, CommitDecision(s, u, i, action, signature, now).0, u)
    ensures Tidy(CommitDecision(s, u, i, action, signature, now).0, u)
  {
    var a := s.assets[u];
    var approve := action.op.ApproveIcon?;
    var ps := s.proposals[i := Decided(s.proposals[i], approve, s.nextSequence)];
    DecideMoves(env, s.proposals, i, approve, s.nextSequence, |s.assets|);
    assert IconOk(a, u, s.proposals);
    var a' := if approve then a.(icon := Some(i)) else a;
    if approve { assert ProposalOk(env, s.proposals[i], |s.assets|); }
    else { SameIconOk(a, a', u, s.proposals, ps); }
    AdminSettles(env, s, u, a', action, signature, ps, now);
  }

  lemma AssignSettles(
    env: Env, s: Db, u: Uuid, action: AdminAction, image: Option<Bytes>, signature: Signature, now: int)
    requires SettledInv(env, s) && Proceeds(s, Go(u)) && action.op.SetIcon?
    requires image.Some? && env.imageHash(image.value) == action.op.hash
    ensures Settles(env, s, AssignIcon(s, u, ReusableProposal(s, u, action.op.hash), action, image, signature, now).0, u)
    ensures Tidy(AssignIcon(s, u, ReusableProposal(s, u, action.op.hash), action, image, signature, now).0, u)
  {
    var a, n := s.assets[u], s.nextSequence;
    assert IconOk(a, u, s.proposals);
    match ReusableProposal(s, u, action.op.hash)
    case Some(i) =>
      var p := s.proposals[i];
      if p.status == Pending {
        DecideMoves(env, s.proposals, i, true, n, |s.assets|);
        AdminSettles(env, s, u, a.(icon := Some(i)), action, signature, s.proposals[i := Decided(p, true, n)], now);
      } else {
        NothingMoves(env, s.proposals, u);
        AdminSettles(env, s, u, a.(icon := Some(i)), action, signature, s.proposals, now);
      }
    case None =>
      var p := Proposal(u, action.op.hash, image, Approved, n, Some(n), None);
      AppendMoves(env, s.proposals, p, |s.assets|);
      AdminSettles(env, s, u, a.(icon := Some(|s.proposals|)), action, signature, s.proposals + [p], now);
  }

  lemma MigrationSettles(env: Env, s: Db, u: Uuid, now: int)
    requires SettledInv(env, s) && Proceeds(s, Go(u))
    ensures Settles(env, s, CommitMigration(env, s, u, now).0, u)
    ensures Tidy(CommitMigration(env, s, u, now).0, u)
  {
  }

  lemma DeletionSettles(env: Env, s: Db, u: Uuid, signature: Signature, now: int)
    requires SettledInv(env, s) && Proceeds(s, Go(u))
    ensures Settles(env, s, CommitDeletion(s, u, signature, now).0, u)
    ensures Tidy(CommitDeletion(s, u, signature, now).0, u)
  {
  }

  lemma ImportSettles(env: Env, s: Db, u: Uuid, image: Bytes, now: int)
    requires SettledInv(env, s) && Proceeds(s, Go(u))
    ensures Settles(env, s, CommitImport(env, s, u, image, now).0, u)
    ensures Tidy(CommitImport(env, s, u, image, now).0, u)
  {
    var a, hash, n := s.assets[u], env.imageHash(image), s.nextSequence;
    var p := Proposal(u, hash, Some(image), Approved, n, Some(n), None);
    AppendMoves(env, s.proposals, p, |s.assets|);
    RefreshSettles(env, s, u, a.(icon := Some(|s.proposals|), updatedAt := now),
                   SystemEntry(n, u, PImportIcon(a.assetId, hash), None), s.proposals + [p]);
  }

  lemma RegistrationSettles(env: Env, s: Db, a: Asset, payload: Payload, hash: Option<Hash>)
    requires SettledInv(env, s) && a.icon.None? && a.status == Active
    ensures Settles(env, s, CommitRegistration(s, a, payload, hash), |s.assets|)
    ensures Tidy(CommitRegistration(s, a, payload, hash), |s.assets|)
  {
  }

  lemma BackfillSettles(env: Env, s: Db, u: Uuid, txin: Reference, prevout: Reference)
    requires SettledInv(env, s) && BackfillIssuance(s, u, txin, prevout).1.Changed?
    ensures Settles(env, s, BackfillIssuance(s, u, txin, prevout).0, u)
  {
  }

  // ---- Every step ----

  predicate Quiet(s: Db, s': Db) {
    s'.assets == s.assets && s'.log == s.log && s'.proposals == s.proposals && s'.fragments == s.fragments
  }

  /** The one asset a step worked on: active before, or new, unless the step is a backfill. */
  ghost predicate SettlesOn(env: Env, s: Db, s': Db, step: Step, u: Uuid) {
    && Settles(env, s, s', u)
    && (u < |s.assets| ==> s.assets[u].status == Active || (step.SBackfill? && step.uuid == u))
    && (Tidy(s', u) || step.SBackfill?)
    && (step.SBackfill? ==> u == step.uuid && u < |s.assets| && s'.assets[u].status == s.assets[u].status && u in s'.fragments)
  }

  ghost predicate StepSettled(env: Env, s: Db, s': Db, step: Step) {
    Quiet(s, s') || exists u :: SettlesOn(env, s, s', step, u)
  }

  lemma IssuerStepSettles(env: Env, s: Db, step: Step, now: int)
    requires SettledInv(env, s) && step.SIssuer?
    ensures StepSettled(env, s, Perform(env, s, step, now).0, step)
  {
    hide IssuerGate, CommitIssuerAction, Settles;
    var g := IssuerGate(env, s, step.urlAssetId, step.action, step.signature, now, step.window);
    if g.Go? {
      IssuerSettles(env, s, g.uuid, step.action, step.signature, now);
      if !Quiet(s, Perform(env, s, step, now).0) {
        assert SettlesOn(env, s, CommitIssuerAction(env, s, g.uuid, step.action, step.signature, now), step, g.uuid);
      }
    }
  }

  lemma ProposeStepSettles(env: Env, s: Db, step: Step, now: int)
    requires SettledInv(env, s) && step.SPropose?
    ensures StepSettled(env, s, Perform(env, s, step, now).0, step)
  {
    hide ProposalGate, CommitProposal, Settles;
    var g := ProposalGate(env, s, step.urlAssetId, step.action, step.image, step.signature, now, step.window);
    if g.Go? {
      ProposalSettles(env, s, g.uuid, step.action, step.image, step.signature, now);
      assert SettlesOn(env, s, Perform(env, s, step, now).0, step, g.uuid);
    }
  }

  lemma DecideStepSettles(env: Env, s: Db, step: Step, now: int)
    requires SettledInv(env, s) && step.SDecide?
    ensures StepSettled(env, s, Perform(env, s, step, now).0, step)
  {
    hide DecisionGate, CommitDecision, Settles;
    var g := DecisionGate(env, s, step.urlAssetId, step.adminAction, step.signature, now, step.window);
    if g.Go? {
      var i := LastProposal(s.proposals, WaitingWithHash(g.uuid, step.adminAction.op.hash)).value;
      DecisionSettles(env, s, g.uuid, i, step.adminAction, step.signature, now);
      assert SettlesOn(env, s, Perform(env, s, step, now).0, step, g.uuid);
    }
  }

  lemma SetIconStepSettles(env: Env, s: Db, step: Step, now: int)
    requires SettledInv(env, s) && step.SSetIcon?
    ensures StepSettled(env, s, Perform(env, s, step, now).0, step)
  {
    hide SetIconGate, AssignIcon, Settles;
    var g := SetIconGate(env, s, step.urlAssetId, step.adminAction, step.image, step.signature, now, step.window);
    if g.Go? {
      AssignSettles(env, s, g.uuid, step.adminAction, step.image, step.signature, now);
      assert SettlesOn(env, s, Perform(env, s, step, now).0, step, g.uuid);
    }
  }

  lemma AnnotateStepSettles(env: Env, s: Db, step: Step, now: int)
    requires SettledInv(env, s) && step.SAnnotate?
    ensures StepSettled(env, s, Perform(env, s, step, now).0, step)
  {
    hide AnnotationGate, CommitAdmin, Settles;
    var g := AnnotationGate(env, s, step.urlAssetId, step.adminAction, step.signature, now, step.window);
    if g.Go? {
      var a := s.assets[g.uuid];
      var n := NewAnnotations(a.annotations, step.adminAction.op);
      if n.Success? {
        NothingMoves(env, s.proposals, g.uuid);
        assert IconOk(a, g.uuid, s.proposals);
        AdminSettles(env, s, g.uuid, a.(annotations := n.value), step.adminAction, step.signature, s.proposals, now);
        assert SettlesOn(env, s, Perform(env, s, step, now).0, step, g.uuid);
      }
    }
  }

  lemma MigrateStepSettles(env: Env, s: Db, step: Step, now: int)
    requires SettledInv(env, s) && step.SMigrate?
    ensures StepSettled(env, s, Perform(env, s, step, now).0, step)
  {
    hide MigrationTarget, CommitMigration, Settles;
    var g := MigrationTarget(env, s, step.assetId, step.approval, now, step.window);
    if g.Go? {
      MigrationSettles(env, s, g.uuid, now);
      assert SettlesOn(env, s, Perform(env, s, step, now).0, step, g.uuid);
    }
  }

  lemma DeleteStepSettles(env: Env, s: Db, step: Step, now: int)
    requires SettledInv(env, s) && step.SDeregisterLegacy?
    ensures StepSettled(env, s, Perform(env, s, step, now).0, step)
  {
    hide CommitDeletion, Settles;
    var g := FindTarget(s, step.assetId);
    if g.Go? && env.verifyDeletion(s.assets[g.uuid].currentKey, step.signature, step.assetId) {
      DeletionSettles(env, s, g.uuid, step.signature, now);
      assert SettlesOn(env, s, Perform(env, s, step, now).0, step, g.uuid);
    }
  }

  lemma ImportStepSettles(env: Env, s: Db, step: Step, now: int)
    requires SettledInv(env, s) && step.SImportIcon?
    ensures StepSettled(env, s, Perform(env, s, step, now).0, step)
  {
    hide CommitImport, Settles;
    var g := FindTarget(s, step.assetId);
    if env.validLegacyIcon(step.icon) && g.Go? && CurrentIcon(s.assets[g.uuid], s.proposals).None? {
      ImportSettles(env, s, g.uuid, step.icon, now);
      assert SettlesOn(env, s, Perform(env, s, step, now).0, step, g.uuid);
    }
  }

  lemma RegistrationCommits(env: Env, s: Db, step: Step, now: int)
    requires (step.SRegisterV2? || step.SRegisterLegacy?) && Perform(env, s, step, now).1.Applied?
    ensures var r := Perform(env, s, step, now);
            && |r.0.assets| == |s.assets| + 1
            && var a := r.0.assets[|s.assets|];
               a.icon.None? && a.status == Active && r.0 == CommitRegistration(s, a, r.1.entry.payload, r.1.entry.hash)
  {
  }

  lemma RegistrationRefused(env: Env, s: Db, step: Step, now: int)
    requires (step.SRegisterV2? || step.SRegisterLegacy?) && !Perform(env, s, step, now).1.Applied?
    ensures Quiet(s, Perform(env, s, step, now).0)
  {
  }

  lemma RegisterStepSettles(env: Env, s: Db, step: Step, now: int)
    requires SettledInv(env, s) && (step.SRegisterV2? || step.SRegisterLegacy?)
    ensures StepSettled(env, s, Perform(env, s, step, now).0, step)
  {
    hide Perform, Settles;
    var r := Perform(env, s, step, now);
    if r.1.Applied? {
      RegistrationCommits(env, s, step, now);
      RegistrationSettles(env, s, r.0.assets[|s.assets|], r.1.entry.payload, r.1.entry.hash);
      assert SettlesOn(env, s, r.0, step, |s.assets|);
    } else {
      RegistrationRefused(env, s, step, now);
    }
  }

  lemma BackfillStepSettles(env: Env, s: Db, step: Step, now: int)
    requires SettledInv(env, s) && step.SBackfill?
    ensures StepSettled(env, s, Perform(env, s, step, now).0, step)
  {
    hide Settles;
    var r := BackfillIssuance(s, step.uuid, step.txin, step.prevout);
    if r.1.Changed? {
      BackfillSettles(env, s, step.uuid, step.txin, step.prevout);
      assert SettlesOn(env, s, r.0, step, step.uuid);
    }
  }

  lemma AdminStepQuiet(env: Env, s: Db, step: Step, now: int)
    requires step.SLifecycle? || step.SBootstrap?
    ensures Quiet(s, Perform(env, s, step, now).0)
  {
  }

  lemma StepSettles(env: Env, s: Db, step: Step, now: int)
    requires SettledInv(env, s)
    ensures StepSettled(env, s, Perform(env, s, step, now).0, step)
  {
    hide Perform;
    match step
    case SIssuer(_, _, _, _) => IssuerStepSettles(env, s, step, now);
    case SPropose(_, _, _, _, _) => ProposeStepSettles(env, s, step, now);
    case SDecide(_, _, _, _) => DecideStepSettles(env, s, step, now);
    case SSetIcon(_, _, _, _, _) => SetIconStepSettles(env, s, step, now);
    case SAnnotate(_, _, _, _) => AnnotateStepSettles(env, s, step, now);
    case SMigrate(_, _, _) => MigrateStepSettles(env, s, step, now);
    case SDeregisterLegacy(_, _) => DeleteStepSettles(env, s, step, now);
    case SImportIcon(_, _) => ImportStepSettles(env, s, step, now);
    case SRegisterV2(_, _, _, _, _) => RegisterStepSettles(env, s, step, now);
    case SRegisterLegacy(_, _) => RegisterStepSettles(env, s, step, now);
    case SBackfill(_, _, _) => BackfillStepSettles(env, s, step, now);
    case SLifecycle(_, _, _) => AdminStepQuiet(env, s, step, now);
    case SBootstrap(_) => AdminStepQuiet(env, s, step, now);
  }

  lemma QuietKeeps(env: Env, s: Db, s': Db)
    requires SettledInv(env, s) && Quiet(s, s')
    ensures SettledInv(env, s')
  {
    forall u | 0 <= u < |s'.assets| ensures FragmentOk(s', u) { assert FragmentOk(s, u); }
  }

  lemma SettledKeeps(env: Env, s: Db, s': Db, step: Step)
    requires SettledInv(env, s) && StepSettled(env, s, s', step)
    ensures SettledInv(env, s')
  {
    if Quiet(s, s') {
      QuietKeeps(env, s, s');
    } else {
      var u :| SettlesOn(env, s, s', step, u);
      SettlesKeeps(env, s, s', u);
    }
  }

  /** Icons and cached fragments are in order after every run. */
  lemma {:induction false} RunSettles(env: Env, events: seq<Event>)
    ensures SettledInv(env, Run(env, events))
  {
    if |events| > 0 {
      var before, last := Run(env, events[..|events| - 1]), events[|events| - 1];
      RunSettles(env, events[..|events| - 1]);
      StepSettles(env, before, last.step, last.now);
      SettledKeeps(env, before, Perform(env, before, last.step, last.now).0, last.step);
    }
  }
}
