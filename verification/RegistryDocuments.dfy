/** What the published documents say, field by field, read from the asset's log. */
module RegistryDocuments {
  import opened Basics
  import opened RegistryModel
  import opened RegistrySteps
  import opened AssetHistory
  import opened RegistryInvariants
  import opened RegistryIcons
  import opened RegistrySettles
  import opened RegistryRows
  import opened RegistryTheorems
  import opened RegistryPublishing
  import opened RegistryFolds
  import opened RegistryAuthority
  import Admin = AdminGovernance

  // ---- Reading a log ----

  function NewestAdmin(l: seq<Entry>): Option<Entry> {
    if |l| == 0 then None else if l[|l| - 1].payload.PAdmin? then Some(l[|l| - 1]) else NewestAdmin(l[..|l| - 1])
  }

  /** Where the issuer's first key was taken from: a migration, if there was one, or the kind of registration. */
  function SourceOf(l: seq<Entry>): Source
    requires |l| > 0
  {
    if exists e | e in l :: e.payload.PMigrate? then MigratedLegacyRecord
    else if l[0].payload.PLegacyRegister? then RegistryRegistration else FromContract
  }

  // ---- The two documents ----

  /** What the registration said is still shown, in the v2 document and in the legacy one: a legacy registration as it
      was requested, any other from its columns. */
  predicate ShowsRegistration(f: Fragment, issuance: Issuance, l: seq<Entry>)
    requires |l| > 0
  {
    match l[0].payload
    case PRegister(assetId, contract, key, _) =>
      && f.v2.assetId == assetId && f.v2.contract == contract && f.v2.initialKey == key
      && f.legacy == FromColumns(assetId, contract, key, SourceOf(l), issuance)
    case PLegacyRegister(request) =>
      && f.v2.assetId == request.assetId && f.v2.contract == request.contract && f.v2.initialKey == request.issuerKey
      && f.legacy == AsRegistered(request.assetId, request, issuance)
    case _ => false
  }

  /** Tags, venues, custom values, key and status are those the log leaves. */
  predicate ShowsState(v: V2View, l: seq<Entry>) {
    var folded := Fold(l);
    && v.tags == folded.tags && v.venues == folded.venues && v.custom == folded.custom
    && v.currentKey == folded.key && v.status == folded.status
  }

  /** The key history is a gapless chain from the key registered to the current one. */
  ghost predicate ShowsKeys(v: V2View) {
    KeyChain(v.keys) && v.keys[0].key == v.initialKey && v.keys[|v.keys| - 1].key == v.currentKey
  }

  /** Annotations and icon are those the log leaves, and the last admin action is the newest in it. */
  predicate ShowsCuration(v: V2View, l: seq<Entry>) {
    v.annotations == Curate(l).annotations && v.icon == Curate(l).icon && v.lastAdminAction == NewestAdmin(l)
  }

  ghost predicate Documents(f: Fragment, issuance: Issuance, updatedAt: int, l: seq<Entry>) {
    && |l| > 0 && ShowsRegistration(f, issuance, l) && ShowsState(f.v2, l) && ShowsKeys(f.v2) && ShowsCuration(f.v2, l)
    && f.v2.source == SourceOf(l) && f.v2.issuance == issuance && f.v2.updatedAt == updatedAt
  }

  /** A log that starts with its one registration has as its last action the newest admin entry. */
  lemma {:induction false} LastActionAfterRegistration(l: seq<Entry>)
    requires OneRegistration(l)
    ensures Curate(l).annotations.lastAction == if NewestAdmin(l).Some? then Some(NewestAdmin(l).value.sequence) else None
    ensures NewestAdmin(l).Some? ==> NewestAdmin(l).value in l
  {
    var rest, last := l[..|l| - 1], l[|l| - 1];
    if |l| == 1 {
      assert rest == [] && NewestAdmin(rest) == None;
    } else {
      LastActionAfterRegistration(rest);
    }
  }

  lemma {:induction false} SequenceFinds(l: seq<Entry>, e: Entry)
    requires Ascending(l) && e in l
    ensures FindSequence(l, e.sequence) == Some(e)
  {
    var rest, last := l[..|l| - 1], l[|l| - 1];
    if e != last {
      assert e in rest;
      SequenceFinds(rest, e);
      var i :| 0 <= i < |rest| && rest[i] == e;
      assert l[i].sequence < l[|l| - 1].sequence;
    }
  }

  lemma {:induction false} RequestIsFirst(l: seq<Entry>)
    requires OneRegistration(l)
    ensures LegacyRequestOf(l) == if l[0].payload.PLegacyRegister? then Some(l[0].payload.request) else None
  {
    if |l| > 1 { RequestIsFirst(l[..|l| - 1]); }
    else { assert LegacyRequestOf(l[..0]) == None; }
  }

  lemma RegistrationShown(env: Env, a: Asset, l: seq<Entry>, proposals: seq<Proposal>)
    requires AssetInv(env, a, l)
    ensures ShowsRegistration(FreshFragment(a, l, proposals), a.issuance, l)
    ensures FreshFragment(a, l, proposals).v2.source == SourceOf(l)
  {
    RequestIsFirst(l);
    assert Identified(a, l) && SourceAgrees(a, l);
  }

  lemma StateShown(env: Env, a: Asset, l: seq<Entry>, proposals: seq<Proposal>)
    requires AssetInv(env, a, l)
    ensures ShowsState(FreshFragment(a, l, proposals).v2, l) && ShowsKeys(FreshFragment(a, l, proposals).v2)
  {
    assert Project(a) == Fold(l) && KeysAgree(a, l) && Identified(a, l);
  }

  lemma CurationShown(env: Env, s: Db, u: Uuid)
    requires u < |s.assets| && AllCurated(s) && IconInv(env, s) && AssetInv(env, s.assets[u], LogOf(s.log, u))
    ensures ShowsCuration(FreshFragment(s.assets[u], LogOf(s.log, u), s.proposals).v2, LogOf(s.log, u))
  {
    hide LogOf, Curate, NewestAdmin;
    var l := LogOf(s.log, u);
    assert CuratedAt(s, u) && OneRegistration(l) && Ascending(l);
    IconShown(env, s, u);
    LastActionAfterRegistration(l);
    if NewestAdmin(l).Some? { SequenceFinds(l, NewestAdmin(l).value); }
  }

  lemma DocumentsAt(env: Env, s: Db, u: Uuid)
    requires u < |s.assets| && CoreInv(env, s) && SettledInv(env, s) && AllCurated(s)
    ensures Documents(ListedFragment(s, u), s.assets[u].issuance, s.assets[u].updatedAt, LogOf(s.log, u))
  {
    hide LogOf, ShowsRegistration, ShowsState, ShowsKeys, ShowsCuration, AllCurated, IconInv, AssetInv;
    var a, l := s.assets[u], LogOf(s.log, u);
    assert AssetInv(env, a, l) && FragmentOk(s, u);
    LogStarted(env, a, l);
    RegistrationShown(env, a, l, s.proposals);
    StateShown(env, a, l, s.proposals);
    CurationShown(env, s, u);
  }

  lemma LogStarted(env: Env, a: Asset, l: seq<Entry>)
    requires AssetInv(env, a, l)
    ensures |l| > 0
  {
  }

  /** After every run, for each asset, cached or not, both documents show what its log says: registration, state, keys,
      annotations, icon and last admin action; and the issuance and the time of its row. */
  lemma DocumentsAlways(env: Env, events: seq<Event>, u: Uuid)
    requires u < |Run(env, events).assets|
    ensures var s := Run(env, events);
            && Documents(ListedFragment(s, u), s.assets[u].issuance, s.assets[u].updatedAt, LogOf(s.log, u))
            && (u in s.fragments ==> s.fragments[u] == ListedFragment(s, u))
  {
    hide Run;
    RunKeepsCore(env, events);
    RunSettles(env, events);
    CuratedAlways(env, events);
    DocumentsAt(env, Run(env, events), u);
  }

  // ---- The row's own columns ----

  /** The time of the last event of a run that applied an action to an asset. */
  ghost function LastTouch(env: Env, events: seq<Event>, u: Uuid): Option<int> {
    if |events| == 0 then None
    else
      var before, last := Run(env, events[..|events| - 1]), events[|events| - 1];
      var o := Perform(env, before, last.step, last.now).1;
      if o.Applied? && o.entry.asset == u then Some(last.now) else LastTouch(env, events[..|events| - 1], u)
  }

  /** An applied action sets its asset's time to its own, and nothing else moves a time; only a backfill moves the
      references of a row that is there. */
  predicate Timed(s: Db, s': Db, step: Step, o: Outcome, now: int) {
    && |s.assets| <= |s'.assets|
    && (forall u | 0 <= u < |s.assets| ::
          && (!(o.Applied? && o.entry.asset == u) ==> s'.assets[u].updatedAt == s.assets[u].updatedAt)
          && (!(step.SBackfill? && step.uuid == u) ==> s'.assets[u].issuance == s.assets[u].issuance))
    && (o.Applied? ==> o.entry.asset < |s'.assets| && s'.assets[o.entry.asset].updatedAt == now)
    && (|s'.assets| > |s.assets| ==> o.Applied? && o.entry.asset == |s.assets| && |s'.assets| == |s.assets| + 1)
  }

  lemma IssuerTimed(env: Env, s: Db, step: Step, now: int)
    requires step.SIssuer? || step.SPropose?
    ensures var r := Perform(env, s, step, now); Timed(s, r.0, step, r.1, now)
  {
    hide IssuerGate, ProposalGate, FreshFragment, LogOf;
  }

  lemma DecideTimed(env: Env, s: Db, step: Step, now: int)
    requires step.SDecide?
    ensures var r := Perform(env, s, step, now); Timed(s, r.0, step, r.1, now)
  {
    hide DecisionGate, FreshFragment, LogOf;
  }

  lemma SetIconTimed(env: Env, s: Db, step: Step, now: int)
    requires step.SSetIcon?
    ensures var r := Perform(env, s, step, now); Timed(s, r.0, step, r.1, now)
  {
    hide SetIconGate, ReusableProposal, FreshFragment, LogOf;
  }

  lemma AnnotateTimed(env: Env, s: Db, step: Step, now: int)
    requires step.SAnnotate?
    ensures var r := Perform(env, s, step, now); Timed(s, r.0, step, r.1, now)
  {
    hide AnnotationGate, NewAnnotations, FreshFragment, LogOf;
  }

  lemma RegisterTimed(env: Env, s: Db, step: Step, now: int)
    requires step.SRegisterV2? || step.SRegisterLegacy?
    ensures var r := Perform(env, s, step, now); Timed(s, r.0, step, r.1, now)
  {
    hide FreshFragment, LogOf;
  }

  lemma MaintenanceTimed(env: Env, s: Db, step: Step, now: int)
    requires step.SMigrate? || step.SDeregisterLegacy? || step.SImportIcon?
    ensures var r := Perform(env, s, step, now); Timed(s, r.0, step, r.1, now)
  {
    hide MigrationTarget, FindTarget, FreshFragment, LogOf;
  }

  lemma TableTimed(env: Env, s: Db, step: Step, now: int)
    requires step.SBackfill? || step.SLifecycle? || step.SBootstrap?
    ensures var r := Perform(env, s, step, now); Timed(s, r.0, step, r.1, now)
  {
    hide FreshFragment, LogOf;
  }

  lemma StepTimed(env: Env, s: Db, step: Step, now: int)
    ensures var r := Perform(env, s, step, now); Timed(s, r.0, step, r.1, now)
  {
    hide Perform, Timed;
    if step.SIssuer? || step.SPropose? { IssuerTimed(env, s, step, now); }
    else if step.SDecide? { DecideTimed(env, s, step, now); }
    else if step.SSetIcon? { SetIconTimed(env, s, step, now); }
    else if step.SAnnotate? { AnnotateTimed(env, s, step, now); }
    else if step.SRegisterV2? || step.SRegisterLegacy? { RegisterTimed(env, s, step, now); }
    else if step.SMigrate? || step.SDeregisterLegacy? || step.SImportIcon? { MaintenanceTimed(env, s, step, now); }
    else { TableTimed(env, s, step, now); }
  }

  /** The time an asset shows is that of the last event that applied an action to it. */
  lemma {:induction false} UpdatedAtIsLastTouch(env: Env, events: seq<Event>, u: Uuid)
    requires u < |Run(env, events).assets|
    ensures LastTouch(env, events, u) == Some(Run(env, events).assets[u].updatedAt)
  {
    hide Perform;
    var prefix, last := events[..|events| - 1], events[|events| - 1];
    var before := Run(env, prefix);
    StepTimed(env, before, last.step, last.now);
    if u < |before.assets| { UpdatedAtIsLastTouch(env, prefix, u); }
  }

  /** The references an asset was registered with, or those of the last backfill since that found one missing and none
      that differed. */
  ghost function LastReferences(env: Env, events: seq<Event>, u: Uuid): Issuance {
    if |events| == 0 then Issuance(None, None)
    else
      var before, step := Run(env, events[..|events| - 1]), events[|events| - 1].step;
      if PassesGuards(before, step) && u == |before.assets| then step.issuance
      else if step.SBackfill? && step.uuid == u && u < |before.assets|
              && MissesReference(before.assets[u].issuance) && AgreesWith(before.assets[u].issuance, step.txin, step.prevout) then
        Issuance(Some(step.txin), Some(step.prevout))
      else LastReferences(env, events[..|events| - 1], u)
  }

  lemma BackfillReferences(env: Env, s: Db, step: Step, now: int)
    requires step.SBackfill? && step.uuid < |s.assets|
    ensures var s', u := Perform(env, s, step, now).0, step.uuid;
            |s'.assets| == |s.assets| && s'.assets[u].issuance
            == if MissesReference(s.assets[u].issuance) && AgreesWith(s.assets[u].issuance, step.txin, step.prevout)
               then Issuance(Some(step.txin), Some(step.prevout)) else s.assets[u].issuance
  {
    hide FreshFragment, LogOf;
  }

  lemma RegisteredReferences(env: Env, s: Db, step: Step, now: int)
    requires PassesGuards(s, step)
    ensures var s' := Perform(env, s, step, now).0; |s'.assets| == |s.assets| + 1 && s'.assets[|s.assets|].issuance == step.issuance
  {
    hide FreshFragment, LogOf;
  }

  lemma AddedMeansPassed(env: Env, s: Db, step: Step, now: int)
    requires |Perform(env, s, step, now).0.assets| > |s.assets|
    ensures PassesGuards(s, step)
  {
    hide Perform;
    OnlyRegistrationAddsRows(env, s, step, now);
    RegistrationAppends(env, s, step, now);
  }

  /** The issuance an asset shows is what registered it or the backfill that last filled it. */
  lemma {:induction false} IssuanceIsLastReferences(env: Env, events: seq<Event>, u: Uuid)
    requires u < |Run(env, events).assets|
    ensures Run(env, events).assets[u].issuance == LastReferences(env, events, u)
  {
    hide Perform, PassesGuards;
    var prefix, last := events[..|events| - 1], events[|events| - 1];
    var before := Run(env, prefix);
    StepTimed(env, before, last.step, last.now);
    if PassesGuards(before, last.step) { RegisteredReferences(env, before, last.step, last.now); }
    if u < |before.assets| {
      IssuanceIsLastReferences(env, prefix, u);
      if last.step.SBackfill? && last.step.uuid == u { BackfillReferences(env, before, last.step, last.now); }
    } else {
      AddedMeansPassed(env, before, last.step, last.now);
    }
  }
}
