/** What the registry publishes: icons by content hash, cached fragments and listings, and retries. */
module RegistryPublishing {
  import opened Basics
  import opened RegistryModel
  import opened RegistrySteps
  import opened AssetHistory
  import opened RegistryInvariants
  import opened RegistryIcons
  import opened RegistrySettles
  import opened RegistryRows
  import opened RegistryTheorems
  import opened RegistrySamples
  import Admin = AdminGovernance

  // ---- Proposals only move forward ----

  ghost predicate Evolved(ps: seq<Proposal>, ps': seq<Proposal>) {
    |ps| <= |ps'| && forall i | 0 <= i < |ps| :: Evolves(ps[i], ps'[i])
  }

  /** What no transaction undoes: rows keep their identity, logged actions stay, proposals only move forward. */
  ghost predicate Persists(s: Db, s': Db) {
    IdentitiesKept(s.assets, s'.assets) && Evolved(s.proposals, s'.proposals) && s.log <= s'.log
  }

  lemma StepEvolves(env: Env, s: Db, s': Db, step: Step)
    requires StepSettled(env, s, s', step)
    ensures Evolved(s.proposals, s'.proposals)
  {
  }

  lemma ShapeKeepsLog(env: Env, s: Db, s': Db, o: Outcome, step: Step)
    requires Shape(env, s, s', o, step)
    ensures s.log <= s'.log
  {
  }

  lemma StepPersists(env: Env, s: Db, step: Step, now: int)
    requires LogsOpen(s) && SettledInv(env, s)
    ensures Persists(s, Perform(env, s, step, now).0)
  {
    hide Perform;
    var r := Perform(env, s, step, now);
    StepShape(env, s, step, now);
    ShapeKeepsIdentities(env, s, r.0, r.1, step);
    ShapeKeepsLog(env, s, r.0, r.1, step);
    StepSettles(env, s, step, now);
    StepEvolves(env, s, r.0, step);
  }

  lemma {:induction false} RunPersists(env: Env, events: seq<Event>, n: nat)
    requires n <= |events|
    ensures Persists(Run(env, events[..n]), Run(env, events))
  {
    hide Perform;
    if n == |events| {
      assert events[..n] == events;
    } else {
      var prefix, last := events[..|events| - 1], events[|events| - 1];
      RunPersists(env, prefix, n);
      assert prefix[..n] == events[..n];
      RunKeepsCore(env, prefix);
      CoreOpensLogs(env, Run(env, prefix));
      RunSettles(env, prefix);
      StepPersists(env, Run(env, prefix), last.step, last.now);
      PersistsTwice(Run(env, events[..n]), Run(env, prefix), Run(env, events));
    }
  }

  lemma PersistsTwice(s: Db, t: Db, r: Db)
    requires Persists(s, t) && Persists(t, r)
    ensures Persists(s, r)
  {
  }

  // ---- Content-addressed icons ----

  predicate Publishes(assets: seq<Asset>, p: Proposal, assetId: string, hash: Hash) {
    && p.asset < |assets| && assets[p.asset].assetId == assetId
    && p.hash == hash && p.status == Approved && p.image.Some?
  }

  /** `published_icon_for_asset_by_hash`: the newest approved upload with this hash under this asset id. */
  function IconByHash(assets: seq<Asset>, proposals: seq<Proposal>, assetId: string, hash: Hash): (image: Option<Bytes>)
    ensures image.Some? ==> exists p | p in proposals :: Publishes(assets, p, assetId, hash) && p.image == image
    ensures image.None? ==> forall p | p in proposals :: !Publishes(assets, p, assetId, hash)
  {
    if |proposals| == 0 then None
    else
      var last := proposals[|proposals| - 1];
      if Publishes(assets, last, assetId, hash) then last.image
      else IconByHash(assets, proposals[..|proposals| - 1], assetId, hash)
  }

  lemma PublishedStays(s: Db, s': Db, p: Proposal, assetId: string, hash: Hash)
    requires Persists(s, s') && p in s.proposals && Publishes(s.assets, p, assetId, hash)
    ensures IconByHash(s'.assets, s'.proposals, assetId, hash).Some?
  {
    var i :| 0 <= i < |s.proposals| && s.proposals[i] == p;
    var p' := s'.proposals[i];
    assert Evolves(p, p') && SameIdentity(s.assets[p.asset], s'.assets[p.asset]);
    assert p' in s'.proposals && Publishes(s'.assets, p', assetId, hash);
  }

  lemma ServedBytesMatch(env: Env, s: Db, assetId: string, hash: Hash)
    requires ProposalsOk(env, s.proposals, |s.assets|)
    ensures var image := IconByHash(s.assets, s.proposals, assetId, hash);
            image.Some? ==> env.imageHash(image.value) == hash
  {
  }

  /** Once a content-addressed icon URL has been served it is served after every later run, with bytes
      of that hash, whatever replaces the icon and whether or not the asset is still registered. */
  lemma IconUrlStaysServed(env: Env, events: seq<Event>, n: nat, assetId: string, hash: Hash)
    requires n <= |events|
    requires var s := Run(env, events[..n]); IconByHash(s.assets, s.proposals, assetId, hash).Some?
    ensures var s := Run(env, events);
            var image := IconByHash(s.assets, s.proposals, assetId, hash);
            image.Some? && env.imageHash(image.value) == hash
  {
    hide Perform;
    var s := Run(env, events[..n]);
    RunPersists(env, events, n);
    RunSettles(env, events);
    var p :| p in s.proposals && Publishes(s.assets, p, assetId, hash);
    PublishedStays(s, Run(env, events), p, assetId, hash);
    ServedBytesMatch(env, Run(env, events), assetId, hash);
  }

  /** Icon states after every run: one waiting proposal at most, an active icon that is the asset's own
      approved upload, nothing current on a deregistered asset, bytes that match their hash. */
  lemma IconsAlways(env: Env, events: seq<Event>)
    ensures IconInv(env, Run(env, events))
  {
    RunSettles(env, events);
  }

  /** A decision is final and only rejection drops bytes, over any stretch of any run. */
  lemma DecisionsAreFinal(env: Env, events: seq<Event>, n: nat, i: nat)
    requires n <= |events| && i < |Run(env, events[..n]).proposals|
    ensures var p := Run(env, events[..n]).proposals[i];
            var ps := Run(env, events).proposals;
            i < |ps| && Evolves(p, ps[i])
  {
    RunPersists(env, events, n);
  }

  // ---- Fragments of deregistered assets ----

  predicate MissesReference(i: Issuance) { i.txin.None? || i.prevout.None? }

  predicate AgreesWith(i: Issuance, txin: Reference, prevout: Reference) {
    (i.txin.Some? ==> i.txin.value == txin) && (i.prevout.Some? ==> i.prevout.value == prevout)
  }

  /** A backfill of a row that is already deregistered, misses a reference, and stores none but the verified ones. */
  predicate FillsDeregistered(s: Db, event: Event, u: Uuid) {
    && event.step.SBackfill? && event.step.uuid == u
    && u < |s.assets| && s.assets[u].status == Deregistered
    && MissesReference(s.assets[u].issuance) && AgreesWith(s.assets[u].issuance, event.step.txin, event.step.prevout)
  }

  /** Some backfill changed the row of `u` after its deregistration. */
  ghost predicate FilledLate(env: Env, events: seq<Event>, u: Uuid) {
    |events| > 0 &&
      (FilledLate(env, events[..|events| - 1], u)
       || FillsDeregistered(Run(env, events[..|events| - 1]), events[|events| - 1], u))
  }

  /** The cache holds exactly the active assets and those filled after deregistration. */
  ghost predicate CacheExact(s: Db, u: Uuid, late: bool) {
    if u < |s.assets| && s.assets[u].status == Deregistered then u in s.fragments <==> late else !late
  }

  lemma QuietStepFillsNothing(env: Env, s: Db, event: Event, u: Uuid)
    requires Quiet(s, Perform(env, s, event.step, event.now).0)
    ensures !FillsDeregistered(s, event, u)
  {
  }

  lemma BackfillFills(env: Env, s: Db, event: Event, u: Uuid)
    requires event.step.SBackfill? && u == event.step.uuid && u < |s.assets| && s.assets[u].status == Deregistered
    requires !Quiet(s, Perform(env, s, event.step, event.now).0)
    ensures FillsDeregistered(s, event, u)
  {
  }

  lemma StepKeepsCacheExact(env: Env, s: Db, event: Event, u: Uuid, v: Uuid, late: bool)
    requires var s' := Perform(env, s, event.step, event.now).0;
             !Quiet(s, s') && SettlesOn(env, s, s', event.step, v)
    requires CacheExact(s, u, late)
    ensures CacheExact(Perform(env, s, event.step, event.now).0, u, late || FillsDeregistered(s, event, u))
  {
    var s' := Perform(env, s, event.step, event.now).0;
    if u == v && u < |s.assets| && s.assets[u].status == Deregistered {
      BackfillFills(env, s, event, u);
    }
  }

  /** A deregistered asset has a cached fragment exactly when a backfill filled in its references after
      it was deregistered: deregistration deletes the fragment, and nothing but a backfill, which does
      not look at the status, puts one back. */
  lemma {:induction false} DeregisteredFragmentIff(env: Env, events: seq<Event>, u: Uuid)
    ensures CacheExact(Run(env, events), u, FilledLate(env, events, u))
  {
    hide Perform;
    if |events| > 0 {
      var prefix, last := events[..|events| - 1], events[|events| - 1];
      var before := Run(env, prefix);
      DeregisteredFragmentIff(env, prefix, u);
      RunSettles(env, prefix);
      StepSettles(env, before, last.step, last.now);
      var s' := Perform(env, before, last.step, last.now).0;
      if Quiet(before, s') {
        QuietStepFillsNothing(env, before, last, u);
      } else {
        var v :| SettlesOn(env, before, s', last.step, v);
        StepKeepsCacheExact(env, before, last, u, v, FilledLate(env, prefix, u));
      }
    }
  }

  /** Every active asset is cached, and whatever is cached is what serialising the asset now would give. */
  lemma FragmentsAlwaysFresh(env: Env, events: seq<Event>, u: Uuid)
    requires u < |Run(env, events).assets|
    ensures var s := Run(env, events);
            && (s.assets[u].status == Active ==> u in s.fragments)
            && (u in s.fragments ==> s.fragments[u] == FreshFragment(s.assets[u], LogOf(s.log, u), s.proposals))
  {
    RunSettles(env, events);
    assert FragmentOk(Run(env, events), u);
  }

  // ---- Listings ----

  predicate Selected(a: Asset, includeDeregistered: bool) { includeDeregistered || a.status == Active }

  /** One row of a listing: its cached fragment, or a fresh one if there is none. */
  function ListedFragment(s: Db, u: Uuid): Fragment
    requires u < |s.assets|
  {
    if u in s.fragments then s.fragments[u] else FreshFragment(s.assets[u], LogOf(s.log, u), s.proposals)
  }

  ghost predicate RowsOf(s: Db, rows: seq<Uuid>) {
    forall i | 0 <= i < |rows| :: rows[i] < |s.assets|
  }

  /** The members of a listing over `rows`, the selected rows in any order. */
  ghost function Listing(s: Db, rows: seq<Uuid>): seq<(string, Fragment)>
    requires RowsOf(s, rows)
  {
    seq(|rows|, i requires 0 <= i < |rows| => (s.assets[rows[i]].assetId, ListedFragment(s, rows[i])))
  }

  ghost function UncachedListing(s: Db, rows: seq<Uuid>): seq<(string, Fragment)>
    requires RowsOf(s, rows)
  {
    Listing(s.(fragments := map[]), rows)
  }

  /** The fast listing is the listing computed without a cache, deregistered rows included or not. */
  lemma ListingNeedsNoCache(env: Env, events: seq<Event>, rows: seq<Uuid>)
    requires RowsOf(Run(env, events), rows)
    ensures Listing(Run(env, events), rows) == UncachedListing(Run(env, events), rows)
  {
    var s := Run(env, events);
    RunSettles(env, events);
    forall i | 0 <= i < |rows|
      ensures Listing(s, rows)[i] == UncachedListing(s, rows)[i]
    {
      assert FragmentOk(s, rows[i]);
    }
  }

  ghost predicate RepeatsKey(s: Db, rows: seq<Uuid>)
    requires RowsOf(s, rows)
  {
    exists i, j | 0 <= i < j < |rows| :: s.assets[rows[i]].assetId == s.assets[rows[j]].assetId
  }

  /** A listing of active rows is an object with distinct keys. */
  lemma ActiveListingKeysDiffer(env: Env, events: seq<Event>, rows: seq<Uuid>)
    requires RowsOf(Run(env, events), rows)
    requires forall i | 0 <= i < |rows| :: Selected(Run(env, events).assets[rows[i]], false)
    requires forall i, j | 0 <= i < j < |rows| :: rows[i] != rows[j]
    ensures !RepeatsKey(Run(env, events), rows)
  {
    var s := Run(env, events);
    RunKeepsRowsDifferent(env, events);
    forall i, j | 0 <= i < j < |rows|
      ensures s.assets[rows[i]].assetId != s.assets[rows[j]].assetId
    {
      assert Selected(s.assets[rows[i]], false) && Selected(s.assets[rows[j]], false);
      if rows[i] < rows[j] { assert !Collide(s.assets[rows[i]], s.assets[rows[j]]); }
      else { assert !Collide(s.assets[rows[j]], s.assets[rows[i]]); }
    }
  }

  /** A deregistered asset does get a fragment back. */
  lemma DeregisteredFragmentHappens(env: Env, signature: Signature, txin: Reference, prevout: Reference)
    requires env.verifyDeletion("key", signature, "id")
    ensures var s := Run(env, DeletedRun(signature) + [Event(SBackfill(0, txin, prevout), 2)]);
            |s.assets| == 1 && s.assets[0].status == Deregistered && 0 in s.fragments
  {
    hide Run;
    DeletedOnce(env, signature);
    RunSnoc(env, DeletedRun(signature), Event(SBackfill(0, txin, prevout), 2));
  }

  // ---- The full listing ----

  function RegisteredId(step: Step): string
    requires step.SRegisterV2? || step.SRegisterLegacy?
  {
    if step.SRegisterV2? then step.assetId else step.request.assetId
  }

  /** A registration that its endpoint accepts. */
  predicate PassesGuards(s: Db, step: Step) {
    match step
    case SRegisterV2(assetId, contract, _, mutable, _) =>
      && contract.version == 2 && contract.ticker.Some? && !Admin.HasDuplicates(mutable.tags)
      && FindActive(s.assets, assetId).None? && !NamespaceTaken(s.assets, contract) && !RepeatsUrl(mutable.venues)
    case SRegisterLegacy(request, _) =>
      request.contract.version == 0 && FindActive(s.assets, request.assetId).None? && !NamespaceTaken(s.assets, request.contract)
    case _ => false
  }

  predicate HasDeregistered(assets: seq<Asset>, assetId: string) {
    exists a | a in assets :: a.assetId == assetId && a.status == Deregistered
  }

  /** A registration that passes its guards while a deregistered row of its asset id is in the table. */
  predicate RegistersAgain(s: Db, step: Step, assetId: string) {
    PassesGuards(s, step) && RegisteredId(step) == assetId && HasDeregistered(s.assets, assetId)
  }

  ghost predicate RegisteredAgain(env: Env, events: seq<Event>, assetId: string) {
    |events| > 0 &&
      (RegisteredAgain(env, events[..|events| - 1], assetId)
       || RegistersAgain(Run(env, events[..|events| - 1]), events[|events| - 1].step, assetId))
  }

  ghost predicate SharedBy(assets: seq<Asset>, assetId: string) {
    exists i, j | 0 <= i < j < |assets| :: assets[i].assetId == assetId && assets[j].assetId == assetId
  }

  lemma RegistrationAppends(env: Env, s: Db, step: Step, now: int)
    requires step.SRegisterV2? || step.SRegisterLegacy?
    ensures var assets := Perform(env, s, step, now).0.assets;
            if PassesGuards(s, step) then |assets| == |s.assets| + 1 && assets[..|s.assets|] == s.assets
                                          && assets[|s.assets|].assetId == RegisteredId(step)
            else assets == s.assets
  {
  }

  lemma AppendedShares(assets: seq<Asset>, a: Asset, assetId: string)
    requires FindActive(assets, a.assetId).None?
    ensures SharedBy(assets + [a], assetId)
       <==> SharedBy(assets, assetId) || (a.assetId == assetId && HasDeregistered(assets, assetId))
  {
    var all := assets + [a];
    if SharedBy(assets, assetId) {
      var i, j :| 0 <= i < j < |assets| && assets[i].assetId == assetId && assets[j].assetId == assetId;
      assert all[i].assetId == assetId && all[j].assetId == assetId;
    }
    if a.assetId == assetId && HasDeregistered(assets, assetId) {
      var i :| 0 <= i < |assets| && assets[i].assetId == assetId;
      assert all[i].assetId == assetId && all[|assets|].assetId == assetId;
    }
    if SharedBy(all, assetId) {
      var i, j :| 0 <= i < j < |all| && all[i].assetId == assetId && all[j].assetId == assetId;
      if j < |assets| { assert assets[i].assetId == assetId && assets[j].assetId == assetId; }
      else { assert assets[i] in assets; }
    }
  }

  lemma KeptShares(assets: seq<Asset>, assets': seq<Asset>, assetId: string)
    requires IdentitiesKept(assets, assets') && |assets'| == |assets|
    ensures SharedBy(assets', assetId) <==> SharedBy(assets, assetId)
  {
    assert forall u | 0 <= u < |assets| :: SameIdentity(assets[u], assets'[u]);
  }

  lemma StepShares(env: Env, s: Db, step: Step, now: int, assetId: string)
    requires LogsOpen(s) && ActiveRowsDiffer(s.assets)
    ensures SharedBy(Perform(env, s, step, now).0.assets, assetId)
       <==> SharedBy(s.assets, assetId) || RegistersAgain(s, step, assetId)
  {
    hide Perform;
    var assets := Perform(env, s, step, now).0.assets;
    if step.SRegisterV2? || step.SRegisterLegacy? {
      RegistrationAppends(env, s, step, now);
      if PassesGuards(s, step) {
        assert assets == s.assets + [assets[|s.assets|]];
        AppendedShares(s.assets, assets[|s.assets|], assetId);
      }
    } else {
      StepKeepsRowsDifferent(env, s, step, now);
      if |assets| > |s.assets| { OnlyRegistrationAddsRows(env, s, step, now); }
      KeptShares(s.assets, assets, assetId);
    }
  }

  /** Two rows share an asset id exactly when some registration of the run passed its guards while a deregistered
      row of that id was already in the table. */
  lemma {:induction false} SharedIdIff(env: Env, events: seq<Event>, assetId: string)
    ensures SharedBy(Run(env, events).assets, assetId) <==> RegisteredAgain(env, events, assetId)
  {
    hide Perform;
    if |events| > 0 {
      var prefix, last := events[..|events| - 1], events[|events| - 1];
      SharedIdIff(env, prefix, assetId);
      RunKeepsCore(env, prefix);
      CoreOpensLogs(env, Run(env, prefix));
      RunKeepsRowsDifferent(env, prefix);
      StepShares(env, Run(env, prefix), last.step, last.now, assetId);
    }
  }

  /** Every row of the table once, in any order. */
  ghost predicate FullListing(s: Db, rows: seq<Uuid>) {
    && RowsOf(s, rows)
    && (forall u: Uuid | u < |s.assets| :: u in rows)
    && forall i, j | 0 <= i < j < |rows| :: rows[i] != rows[j]
  }

  lemma RepeatsMeansShared(s: Db, rows: seq<Uuid>) returns (assetId: string)
    requires FullListing(s, rows) && RepeatsKey(s, rows)
    ensures SharedBy(s.assets, assetId)
  {
    var i, j :| 0 <= i < j < |rows| && s.assets[rows[i]].assetId == s.assets[rows[j]].assetId;
    assetId := s.assets[rows[i]].assetId;
    if rows[i] < rows[j] { assert s.assets[rows[i]].assetId == assetId && s.assets[rows[j]].assetId == assetId; }
    else { assert s.assets[rows[j]].assetId == assetId && s.assets[rows[i]].assetId == assetId; }
  }

  lemma SharedMeansRepeats(s: Db, rows: seq<Uuid>, assetId: string)
    requires FullListing(s, rows) && SharedBy(s.assets, assetId)
    ensures RepeatsKey(s, rows)
  {
    var u: nat, v: nat :| u < v < |s.assets| && s.assets[u].assetId == assetId && s.assets[v].assetId == assetId;
    assert u in rows && v in rows;
    var i :| 0 <= i < |rows| && rows[i] == u;
    var j :| 0 <= j < |rows| && rows[j] == v;
    if i < j { assert s.assets[rows[i]].assetId == s.assets[rows[j]].assetId; }
    else { assert s.assets[rows[j]].assetId == s.assets[rows[i]].assetId; }
  }

  /** With deregistered rows included, a listing repeats a key exactly when some asset id was registered again
      after its deregistration. */
  lemma FullListingRepeatsIff(env: Env, events: seq<Event>, rows: seq<Uuid>)
    requires FullListing(Run(env, events), rows)
    ensures RepeatsKey(Run(env, events), rows) <==> exists assetId :: RegisteredAgain(env, events, assetId)
  {
    hide Run;
    var s := Run(env, events);
    if RepeatsKey(s, rows) {
      var assetId := RepeatsMeansShared(s, rows);
      SharedIdIff(env, events, assetId);
    }
    if assetId :| RegisteredAgain(env, events, assetId) {
      SharedIdIff(env, events, assetId);
      SharedMeansRepeats(s, rows, assetId);
    }
  }

  /** It happens: register, delete, and register the same id again. */
  lemma FullListingMayRepeat(env: Env, signature: Signature)
    requires env.verifyDeletion("key", signature, "id")
    ensures var s := Run(env, DeletedRun(signature) + [Event(SAMPLE_STEP, 2)]);
            |s.assets| == 2 && s.assets[0].assetId == s.assets[1].assetId
  {
    hide Perform;
    DeletedOnce(env, signature);
    RunSnoc(env, DeletedRun(signature), Event(SAMPLE_STEP, 2));
    SampleAgain(env, Run(env, DeletedRun(signature)));
  }

  lemma SampleAgain(env: Env, s: Db)
    requires |s.assets| == 1 && s.assets[0].assetId == "id" && s.assets[0].status == Deregistered
    ensures var s' := Perform(env, s, SAMPLE_STEP, 2).0;
            |s'.assets| == 2 && s'.assets[0].assetId == "id" && s'.assets[1].assetId == "id"
  {
    hide Perform;
    RegistrationAppends(env, s, SAMPLE_STEP, 2);
    var assets := Perform(env, s, SAMPLE_STEP, 2).0.assets;
    assert assets[0] == assets[..1][0];
  }

  // ---- Retries ----

  /** A logged icon proposal has its proposal row. */
  ghost predicate Backed(proposals: seq<Proposal>, e: Entry) {
    e.payload.PIssuer? && e.payload.action.op.ProposeIcon? ==> exists p | p in proposals :: p.proposedBy == e.sequence
  }

  ghost predicate LogOk(s: Db) {
    forall e | e in s.log :: IssuerEntryOk(s.assets, e) && Backed(s.proposals, e)
  }

  lemma NewEntryBacked(env: Env, s: Db, step: Step, now: int)
    ensures var r := Perform(env, s, step, now); r.1.Applied? ==> Backed(r.0.proposals, r.1.entry)
  {
    hide FreshFragment, LogOf;
  }

  lemma LogOkStays(s: Db, s': Db, o: Outcome)
    requires LogOk(s) && Persists(s, s') && EntryOk(s, o)
    requires forall e | e in s'.log :: e in s.log || (o.Applied? && e == o.entry && Backed(s'.proposals, e))
    ensures LogOk(s')
  {
  }

  lemma ShapeLogsItsEntry(env: Env, s: Db, s': Db, o: Outcome, step: Step)
    requires Shape(env, s, s', o, step)
    ensures forall e | e in s'.log :: e in s.log || (o.Applied? && e == o.entry)
  {
  }

  lemma {:induction false} LogOkAlways(env: Env, events: seq<Event>)
    ensures LogOk(Run(env, events))
  {
    hide Perform;
    if |events| > 0 {
      var prefix, last := events[..|events| - 1], events[|events| - 1];
      var before := Run(env, prefix);
      LogOkAlways(env, prefix);
      RunKeepsCore(env, prefix);
      CoreOpensLogs(env, before);
      RunSettles(env, prefix);
      StepKeepsLogOk(env, before, last.step, last.now);
    }
  }

  lemma StepKeepsLogOk(env: Env, s: Db, step: Step, now: int)
    requires LogsOpen(s) && SettledInv(env, s) && LogOk(s)
    ensures LogOk(Perform(env, s, step, now).0)
  {
    hide Perform;
    var r := Perform(env, s, step, now);
    StepPersists(env, s, step, now);
    StepShape(env, s, step, now);
    ShapeLogsItsEntry(env, s, r.0, r.1, step);
    StepEntryOk(env, s, step, now);
    NewEntryBacked(env, s, step, now);
    LogOkStays(s, r.0, r.1);
  }

  lemma ProposalRetryPasses(
    env: Env, s: Db, u: Uuid, e: Entry, action: IssuerAction, image: Option<Bytes>, signature: Signature, now: int, window: int)
    requires FindActive(s.assets, action.assetId) == Some(u) && Eligible(s.assets[u])
    requires action.op.ProposeIcon? && e.payload == PIssuer(action) && Backed(s.proposals, e)
    requires CheckImage(env, image, action.op.iconHash, action.assetId, action.assetId).None?
    requires FindIssuerNonce(LogOf(s.log, u), action.nonce) == Some(e)
    ensures ProposalGate(env, s, action.assetId, action, image, signature, now, window) == Stop(Retry(e))
  {
  }

  /** In every reachable state, resubmitting any logged issuer action or icon proposal while its asset is
      active returns the original entry and changes nothing, whatever the clock and the signature; the
      missing-proposal error is never the answer. */
  lemma RetriesAlwaysReplay(
    env: Env, events: seq<Event>, e: Entry, image: Option<Bytes>, signature: Signature, now: int, window: int)
    requires var s := Run(env, events);
             e in s.log && e.payload.PIssuer? && e.asset < |s.assets| && s.assets[e.asset].status == Active
    ensures var s, action := Run(env, events), e.payload.action;
            if action.op.ProposeIcon? then
              CheckImage(env, image, action.op.iconHash, action.assetId, action.assetId).None? ==>
                SubmitIconProposal(env, s, action.assetId, action, image, signature, now, window) == (s, Retry(e))
            else SubmitIssuerAction(env, s, action.assetId, action, signature, now, window) == (s, Retry(e))
  {
    hide Perform;
    var s, action := Run(env, events), e.payload.action;
    RunKeepsCore(env, events);
    LogOkAlways(env, events);
    RunKeepsRowsDifferent(env, events);
    ActiveIsFound(s.assets, e.asset);
    assert FindActive(s.assets, action.assetId) == Some(e.asset);
    RetryAt(env, s, e, image, signature, now, window);
  }

  lemma UsedProposalNonceAtTheGate(
    env: Env, s: Db, u: Uuid, e: Entry, action: IssuerAction, image: Option<Bytes>, signature: Signature, now: int, window: int)
    requires FindActive(s.assets, action.assetId) == Some(u) && Eligible(s.assets[u])
    requires action.op.ProposeIcon? && e.payload.PIssuer? && (e.payload.action == action ==> Backed(s.proposals, e))
    requires image.Some? && env.validNewIcon(image.value) && env.imageHash(image.value) == action.op.iconHash
    requires FindIssuerNonce(LogOf(s.log, u), action.nonce) == Some(e)
    ensures ProposalGate(env, s, action.assetId, action, image, signature, now, window)
         == Stop(if e.payload.action == action then Retry(e) else Rejected(NonceConflict))
  {
  }

  /** In every reachable state, a proposal with valid bytes whose nonce its active asset has used answers with the entry
      that used it exactly when the two actions are equal, and with a conflict otherwise; nothing changes. */
  lemma UsedProposalNonceIff(
    env: Env, events: seq<Event>, e: Entry, action: IssuerAction, image: Option<Bytes>, signature: Signature, now: int, window: int)
    requires var s := Run(env, events);
             && e in s.log && e.payload.PIssuer? && e.asset < |s.assets| && FindActive(s.assets, action.assetId) == Some(e.asset)
    requires action.op.ProposeIcon? && action.nonce == e.payload.action.nonce
    requires image.Some? && env.validNewIcon(image.value) && env.imageHash(image.value) == action.op.iconHash
    ensures var s := Run(env, events);
            SubmitIconProposal(env, s, action.assetId, action, image, signature, now, window)
            == (s, if e.payload.action == action then Retry(e) else Rejected(NonceConflict))
  {
    hide Perform, ProposalGate, Run;
    var s := Run(env, events);
    RunKeepsCore(env, events);
    LogOkAlways(env, events);
    assert Backed(s.proposals, e);
    LoggedNonceFinds(env, s, e);
    UsedProposalNonceAtTheGate(env, s, e.asset, e, action, image, signature, now, window);
  }

  lemma RetryAt(env: Env, s: Db, e: Entry, image: Option<Bytes>, signature: Signature, now: int, window: int)
    requires CoreInv(env, s) && e in s.log && e.payload.PIssuer? && e.asset < |s.assets|
    requires IssuerEntryOk(s.assets, e) && Backed(s.proposals, e)
    requires FindActive(s.assets, e.payload.action.assetId) == Some(e.asset)
    ensures var action := e.payload.action;
            if action.op.ProposeIcon? then
              CheckImage(env, image, action.op.iconHash, action.assetId, action.assetId).None? ==>
                SubmitIconProposal(env, s, action.assetId, action, image, signature, now, window) == (s, Retry(e))
            else SubmitIssuerAction(env, s, action.assetId, action, signature, now, window) == (s, Retry(e))
  {
    var action := e.payload.action;
    LoggedNonceFinds(env, s, e);
    if !action.op.ProposeIcon? {
      RetryPassesTheGate(env, s, e.asset, e, action, signature, now, window);
    } else if CheckImage(env, image, action.op.iconHash, action.assetId, action.assetId).None? {
      ProposalRetryPasses(env, s, e.asset, e, action, image, signature, now, window);
    }
  }
}
