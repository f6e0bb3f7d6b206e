/** What each signed request is answered, read from the log and the request alone: every refusal in its order, and
    exactly when the request is applied. */
module RegistryAnswers {
  import opened Basics
  import opened JsonValue
  import opened RegistryModel
  import opened RegistrySteps
  import opened AssetHistory
  import opened RegistryInvariants
  import opened RegistryIcons
  import opened RegistrySettles
  import opened RegistryRows
  import opened RegistryTheorems
  import opened RegistryFolds
  import Admin = AdminGovernance

  // ---- Chain, time and signature ----

  predicate InWindow(timestamp: int, now: int, window: int) { now - window <= timestamp <= now + window }

  /** The newest hashed entry has this hash. */
  predicate ChainEndsIn(l: seq<Entry>, hash: Hash) {
    |Chained(l)| > 0 && Chained(l)[|Chained(l)| - 1].hash == Some(hash)
  }

  predicate NotOlder(l: seq<Entry>, timestamp: int) {
    forall e | e in l && e.actor == Issuer && e.timestamp.Some? :: e.timestamp.value <= timestamp
  }

  /** None when nothing stands against the action. */
  function ChainAnswer(env: Env, l: seq<Entry>, action: IssuerAction, signature: Signature, now: int, window: int): Option<Error> {
    if !ChainEndsIn(l, action.prevHash) then Some(PrevActionHashMismatch)
    else if !InWindow(action.timestamp, now, window) || !NotOlder(l, action.timestamp) then Some(StaleTimestamp)
    else if !env.verifyIssuer(Fold(l).key, signature, action) then Some(InvalidSignature)
    else None
  }

  lemma {:induction false} NewestAttained(l: seq<Entry>)
    requires NewestIssuerTime(l).Some?
    ensures exists e :: e in l && e.actor == Issuer && e.timestamp == NewestIssuerTime(l)
  {
    var rest, last := NewestIssuerTime(l[..|l| - 1]), l[|l| - 1];
    assert last in l;
    if NewestIssuerTime(l) == rest {
      NewestAttained(l[..|l| - 1]);
      var e :| e in l[..|l| - 1] && e.actor == Issuer && e.timestamp == rest;
      assert e in l;
    }
  }

  lemma FreshMeansNotOlder(l: seq<Entry>, timestamp: int, now: int, window: int)
    requires !Untimed(l)
    ensures FreshIssuerTime(l, timestamp, now, window) <==> InWindow(timestamp, now, window) && NotOlder(l, timestamp)
  {
    var newest := NewestIssuerTime(l);
    forall e | e in l && e.actor == Issuer && e.timestamp.Some? ensures newest.Some? && e.timestamp.value <= newest.value {
      NewestBoundsAll(l, e);
    }
    if newest.Some? { NewestAttained(l); }
  }

  lemma ChecksAnswer(env: Env, a: Asset, l: seq<Entry>, action: IssuerAction, signature: Signature, now: int, window: int)
    requires AssetInv(env, a, l) && a.status == Active
    ensures IssuerChecks(env, a, l, action, signature, now, window) == ChainAnswer(env, l, action, signature, now, window)
  {
    hide Chained, LatestChainEntry, Fold, FreshIssuerTime, NotOlder, InWindow;
    LatestIsLastChained(l);
    assert !Untimed(l);
    FreshMeansNotOlder(l, action.timestamp, now, window);
    assert Project(a) == Fold(l);
  }

  // ---- The change itself ----

  /** A change that Python's `==` can tell from the state it is made in. */
  predicate Tells(f: Folded, op: IssuerOp) {
    match op
    case ReplaceCategoryTags(_, tags) => tags != f.tags
    case ReplaceTradingVenues(_, venues) => venues != f.venues
    case ReplaceCustom(_, custom) => !PyEq(Obj(f.custom), Obj(custom))
    case SetCustomField(_, key, value) => key in f.custom ==> !PyEq(f.custom[key], value)
    case DeleteCustomField(_, key) => key in f.custom
    case Deregister => f.status == Active
    case RotateIssuerPubkey(newKey) => newKey != f.key
    case ProposeIcon(_) => true
  }

  predicate ForSchema(op: IssuerOp, schema: nat) {
    match op
    case ReplaceCategoryTags(named, _) => named == schema
    case ReplaceTradingVenues(named, _) => named == schema
    case ReplaceCustom(named, _) => named == schema
    case SetCustomField(named, _, _) => named == schema
    case DeleteCustomField(named, _) => named == schema
    case _ => true
  }

  predicate Repeats<T(==)>(items: seq<T>) { exists i, j | 0 <= i < j < |items| :: items[i] == items[j] }

  lemma NoOpAnswer(a: Asset, op: IssuerOp)
    requires a.status == Active
    ensures RejectNoOp(a, op) == if !ForSchema(op, a.schema) then Some(SchemaVersionMismatch)
                                 else if !Tells(Project(a), op) then Some(NoOpAction) else None
  {
  }

  /** The active row of an asset id, and whether it takes v2 actions: a legacy registration does once migrated. */
  predicate TakesActions(l: seq<Entry>) {
    |l| > 0 && (l[0].payload.PLegacyRegister? ==> exists e | e in l :: e.payload.PMigrate?)
  }

  lemma EligibleTakes(env: Env, a: Asset, l: seq<Entry>)
    requires AssetInv(env, a, l)
    ensures Eligible(a) <==> TakesActions(l)
  {
    assert SourceAgrees(a, l);
  }

  // ---- Issuer actions ----

  /** The answer to an issuer action whose nonce its asset has not used; None when it is applied. */
  function IssuerAnswer(
    env: Env, s: Db, url: string, action: IssuerAction, signature: Signature, now: int, window: int): Option<Error>
  {
    var found := FindActive(s.assets, action.assetId);
    if action.op.ProposeIcon? || (action.op.ReplaceCategoryTags? && Repeats(action.op.tags)) then Some(ValidationError)
    else if action.assetId != url then Some(AssetIdMismatch)
    else if found.None? || !TakesActions(LogOf(s.log, found.value)) then Some(AssetNotFound)
    else
      var l, op := LogOf(s.log, found.value), action.op;
      var refused := ChainAnswer(env, l, action, signature, now, window);
      if refused.Some? then refused
      else if !ForSchema(op, s.assets[found.value].schema) then Some(SchemaVersionMismatch)
      else if !Tells(Fold(l), op) then Some(NoOpAction)
      else if op.ReplaceTradingVenues? && RepeatsUrl(op.venues) then Some(NonceConflict)
      else None
  }

  predicate UnusedNonce(s: Db, assetId: string, nonce: string) {
    var found := FindActive(s.assets, assetId);
    found.Some? ==> forall e | e in s.log && e.asset == found.value && e.actor == Issuer :: e.nonce != Some(nonce)
  }

  lemma UnusedFindsNone(s: Db, assetId: string, nonce: string)
    requires UnusedNonce(s, assetId, nonce) && FindActive(s.assets, assetId).Some?
    ensures FindIssuerNonce(LogOf(s.log, FindActive(s.assets, assetId).value), nonce).None?
  {
  }

  /** The row an applied issuer action adds to the log. */
  function IssuerRow(env: Env, s: Db, u: Uuid, action: IssuerAction, signature: Signature): Entry {
    Entry(s.nextSequence, u, Issuer, PIssuer(action), Some(env.actionHash(PIssuer(action))), Some(action.nonce),
          Some(action.timestamp), Some(Fold(LogOf(s.log, u)).key), Some(signature))
  }

  lemma IssuerGateAnswer(
    env: Env, s: Db, url: string, action: IssuerAction, signature: Signature, now: int, window: int, u: Uuid)
    requires CoreInv(env, s) && UnusedNonce(s, action.assetId, action.nonce)
    requires FindActive(s.assets, action.assetId) == Some(u)
    requires ParsesAsIssuerAction(action.op) && action.assetId == url
    ensures var l, a := LogOf(s.log, u), s.assets[u];
            var refused, noOp := ChainAnswer(env, l, action, signature, now, window), RejectNoOp(a, action.op);
            && Project(a) == Fold(l)
            && IssuerGate(env, s, url, action, signature, now, window)
               == if !TakesActions(l) then Stop(Rejected(AssetNotFound))
                  else if refused.Some? then Stop(Rejected(refused.value))
                  else if noOp.Some? then Stop(Rejected(noOp.value))
                  else Go(u)
  {
    hide AssetInv, LogOf, FindActive, Chained, Fold, TakesActions, Eligible, IssuerChecks, ChainAnswer, RejectNoOp, UnusedNonce;
    var l, a := LogOf(s.log, u), s.assets[u];
    assert AssetInv(env, a, l);
    CoreFolds(env, s, u);
    EligibleTakes(env, a, l);
    ChecksAnswer(env, a, l, action, signature, now, window);
    UnusedFindsNone(s, action.assetId, action.nonce);
  }

  lemma NoTargetAnswer(env: Env, s: Db, url: string, action: IssuerAction, signature: Signature, now: int, window: int)
    requires !ParsesAsIssuerAction(action.op) || action.assetId != url || FindActive(s.assets, action.assetId).None?
    ensures IssuerGate(env, s, url, action, signature, now, window)
         == Stop(Rejected(if !ParsesAsIssuerAction(action.op) then ValidationError
                          else if action.assetId != url then AssetIdMismatch else AssetNotFound))
  {
  }

  /** After any run, an issuer action with a nonce its asset has not used is answered as the log says, refusals in
      their order, and applied with its own row exactly when nothing stands against it: the asset is active and takes
      actions, the previous hash ends the chain, the timestamp is in the window and not older than any issuer entry,
      the signature verifies under the key the log leaves current, the schema is current and the change is told. */
  lemma IssuerAnswerExact(
    env: Env, s: Db, url: string, action: IssuerAction, signature: Signature, now: int, window: int)
    requires CoreInv(env, s) && UnusedNonce(s, action.assetId, action.nonce)
    ensures var r, answer := SubmitIssuerAction(env, s, url, action, signature, now, window),
                             IssuerAnswer(env, s, url, action, signature, now, window);
            if answer.Some? then
              r.1 == Rejected(answer.value) && r.0 == if answer.value == NonceConflict then RolledBack(s) else s
            else r.1 == Applied(IssuerRow(env, s, FindActive(s.assets, action.assetId).value, action, signature))
  {
    hide IssuerGate, LogOf, FindActive, Chained, Fold, TakesActions, ChainAnswer, UnusedNonce, CoreInv, RepeatsUrl,
         CommitIssuerAction;
    var found := FindActive(s.assets, action.assetId);
    if !ParsesAsIssuerAction(action.op) || action.assetId != url || found.None? {
      NoTargetAnswer(env, s, url, action, signature, now, window);
    } else {
      IssuerGateAnswer(env, s, url, action, signature, now, window, found.value);
      NoOpAnswer(s.assets[found.value], action.op);
      AnswerIsNoConflict(env, LogOf(s.log, found.value), action, signature, now, window);
    }
  }

  lemma AnswerIsNoConflict(env: Env, l: seq<Entry>, action: IssuerAction, signature: Signature, now: int, window: int)
    ensures ChainAnswer(env, l, action, signature, now, window) != Some(NonceConflict)
  {
  }

  // ---- Icon proposals ----

  predicate SomeWaits(proposals: seq<Proposal>, u: Uuid) {
    exists p | p in proposals :: p.asset == u && p.status == Pending && p.obsoletedBy.None?
  }

  /** What the bytes sent with a request are answered before anything is looked up. */
  function ImageAnswer(env: Env, image: Option<Bytes>, hash: Hash): Option<Error> {
    if image.None? || !env.validNewIcon(image.value) then Some(InvalidIcon)
    else if env.imageHash(image.value) != hash then Some(IconHashMismatch)
    else None
  }

  /** The answer to a proposal whose nonce its asset has not used; None when it is applied. The icon shown is the one
      the log last set. */
  function ProposalAnswer(
    env: Env, s: Db, url: string, action: IssuerAction, image: Option<Bytes>, signature: Signature, now: int, window: int)
    : Option<Error>
  {
    var found := FindActive(s.assets, action.assetId);
    if !action.op.ProposeIcon? then Some(ValidationError)
    else if ImageAnswer(env, image, action.op.iconHash).Some? then ImageAnswer(env, image, action.op.iconHash)
    else if action.assetId != url then Some(AssetIdMismatch)
    else if found.None? || !TakesActions(LogOf(s.log, found.value)) then Some(AssetNotFound)
    else
      var l := LogOf(s.log, found.value);
      var refused := ChainAnswer(env, l, action, signature, now, window);
      if refused.Some? then refused
      else if SomeWaits(s.proposals, found.value) then Some(IconPendingConflict)
      else if Curate(l).icon == Some(action.op.iconHash) then Some(NoOpAction)
      else None
  }

  lemma SlotAnswer(env: Env, s: Db, u: Uuid, hash: Hash)
    requires u < |s.assets| && AllCurated(s) && IconInv(env, s)
    ensures SlotError(s, u, hash)
         == if SomeWaits(s.proposals, u) then Some(IconPendingConflict)
            else if Curate(LogOf(s.log, u)).icon == Some(hash) then Some(NoOpAction) else None
  {
    hide LogOf, Curate;
    IconShown(env, s, u);
    var found := LastProposal(s.proposals, AnyWaiting(u));
    if found.Some? { assert s.proposals[found.value] in s.proposals; }
  }

  lemma CheckImageAnswer(env: Env, image: Option<Bytes>, hash: Hash, assetId: string, url: string)
    ensures CheckImage(env, image, hash, assetId, url)
         == if ImageAnswer(env, image, hash).Some? then ImageAnswer(env, image, hash)
            else if assetId != url then Some(AssetIdMismatch) else None
  {
  }

  lemma ProposalGateAnswer(
    env: Env, s: Db, url: string, action: IssuerAction, image: Option<Bytes>, signature: Signature, now: int, window: int,
    u: Uuid)
    requires CoreInv(env, s) && UnusedNonce(s, action.assetId, action.nonce) && action.op.ProposeIcon?
    requires FindActive(s.assets, action.assetId) == Some(u)
    requires CheckImage(env, image, action.op.iconHash, action.assetId, url).None?
    ensures var l := LogOf(s.log, u);
            var refused, slot := ChainAnswer(env, l, action, signature, now, window), SlotError(s, u, action.op.iconHash);
            && Project(s.assets[u]) == Fold(l)
            && ProposalGate(env, s, url, action, image, signature, now, window)
               == if !TakesActions(l) then Stop(Rejected(AssetNotFound))
                  else if refused.Some? then Stop(Rejected(refused.value))
                  else if slot.Some? then Stop(Rejected(slot.value))
                  else Go(u)
  {
    hide AssetInv, LogOf, FindActive, Chained, Fold, TakesActions, Eligible, IssuerChecks, ChainAnswer, UnusedNonce,
         CheckImage, SlotError;
    var l, a := LogOf(s.log, u), s.assets[u];
    assert AssetInv(env, a, l);
    CoreFolds(env, s, u);
    EligibleTakes(env, a, l);
    ChecksAnswer(env, a, l, action, signature, now, window);
    UnusedFindsNone(s, action.assetId, action.nonce);
  }

  lemma ProposalWithoutTarget(
    env: Env, s: Db, url: string, action: IssuerAction, image: Option<Bytes>, signature: Signature, now: int, window: int)
    requires action.op.ProposeIcon? ==>
      || CheckImage(env, image, action.op.iconHash, action.assetId, url).Some? || FindActive(s.assets, action.assetId).None?
    ensures ProposalGate(env, s, url, action, image, signature, now, window)
         == Stop(Rejected(
              if !action.op.ProposeIcon? then ValidationError
              else
                var bad := CheckImage(env, image, action.op.iconHash, action.assetId, url);
                if bad.Some? then bad.value else AssetNotFound))
  {
    hide CheckImage;
  }

  /** What an applied proposal stores: the log row, the pending proposal with the bytes sent, nothing decided. */
  lemma ProposalStores(
    env: Env, s: Db, u: Uuid, action: IssuerAction, image: Option<Bytes>, signature: Signature, now: int)
    requires u < |s.assets| && action.op.ProposeIcon? && Project(s.assets[u]) == Fold(LogOf(s.log, u))
    ensures var r := CommitProposal(env, s, u, action, image, signature, now);
            && r.1 == Applied(IssuerRow(env, s, u, action, signature))
            && r.0.proposals == s.proposals + [Proposal(u, action.op.iconHash, image, Pending, s.nextSequence, None, None)]
  {
    hide FreshFragment, LogOf, Fold;
  }

  /** After any run, a proposal with a nonce its asset has not used is answered as the log says, and applied, with the
      bytes it came with, exactly when they are valid and hash as signed, the asset takes actions, the chain, the time
      and the signature are right, no proposal waits and the icon is not the one shown. */
  lemma ProposalAnswerExact(
    env: Env, s: Db, url: string, action: IssuerAction, image: Option<Bytes>, signature: Signature, now: int, window: int)
    requires CoreInv(env, s) && AllCurated(s) && IconInv(env, s) && UnusedNonce(s, action.assetId, action.nonce)
    ensures var r, answer := SubmitIconProposal(env, s, url, action, image, signature, now, window),
                             ProposalAnswer(env, s, url, action, image, signature, now, window);
            if answer.Some? then r == (s, Rejected(answer.value))
            else
              var u := FindActive(s.assets, action.assetId).value;
              && r.1 == Applied(IssuerRow(env, s, u, action, signature))
              && r.0.proposals == s.proposals + [Proposal(u, action.op.iconHash, image, Pending, s.nextSequence, None, None)]
  {
    hide ProposalGate, LogOf, FindActive, Fold, TakesActions, ChainAnswer, UnusedNonce, CoreInv, SlotError, CheckImage,
         CommitProposal, Curate, AllCurated, IconInv, ImageAnswer, SomeWaits;
    var found := FindActive(s.assets, action.assetId);
    if action.op.ProposeIcon? { CheckImageAnswer(env, image, action.op.iconHash, action.assetId, url); }
    if !action.op.ProposeIcon? || CheckImage(env, image, action.op.iconHash, action.assetId, url).Some? || found.None? {
      ProposalWithoutTarget(env, s, url, action, image, signature, now, window);
    } else {
      ProposalGateAnswer(env, s, url, action, image, signature, now, window, found.value);
      SlotAnswer(env, s, found.value, action.op.iconHash);
      ProposalStores(env, s, found.value, action, image, signature, now);
    }
  }

  // ---- The hash to name next ----

  /** The hash served is the last of the chain, and it is served exactly for an active asset that takes actions. */
  lemma LatestHashExact(env: Env, s: Db, assetId: string)
    requires CoreInv(env, s)
    ensures var r, found := GetLatestActionHash(s, assetId), FindActive(s.assets, assetId);
            if found.None? || !TakesActions(LogOf(s.log, found.value)) then r == Failure(AssetNotFound)
            else r.Success? && ChainEndsIn(LogOf(s.log, found.value), r.value)
  {
    hide LogOf, FindActive, Chained, TakesActions, Eligible, LatestChainEntry, AssetInv;
    var found := FindActive(s.assets, assetId);
    if found.Some? {
      assert AssetInv(env, s.assets[found.value], LogOf(s.log, found.value));
      EligibleTakes(env, s.assets[found.value], LogOf(s.log, found.value));
      if Eligible(s.assets[found.value]) { EligibleHasChainEnd(env, s.assets[found.value], LogOf(s.log, found.value)); }
    }
  }
}
