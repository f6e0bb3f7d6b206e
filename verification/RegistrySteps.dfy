/** Every transaction of the registry as one function from the database to the database. */
module RegistrySteps {
  import opened Basics
  import opened JsonValue
  import opened RegistryModel
  import Admin = AdminGovernance

  // ---- Signed issuer actions (`registry_api/issuer_actions.py`) ----

  predicate RepeatsUrl(venues: seq<Venue>) {
    exists i, j | 0 <= i < j < |venues| :: venues[i].url == venues[j].url
  }

  /** Icon proposals have their own endpoint; tags are checked for repeats before anything else. */
  predicate ParsesAsIssuerAction(op: IssuerOp) {
    !op.ProposeIcon? && (op.ReplaceCategoryTags? ==> !Admin.HasDuplicates(op.tags))
  }

  /** Python equality of two stored operations. */
  predicate SameOp(a: IssuerOp, b: IssuerOp) {
    match (a, b)
    case (ReplaceCustom(s, c), ReplaceCustom(s', c')) => s == s' && PyEq(Obj(c), Obj(c'))
    case (SetCustomField(s, k, v), SetCustomField(s', k', v')) => s == s' && k == k' && PyEq(v, v')
    case _ => a == b
  }

  predicate SameAction(stored: Payload, submitted: IssuerAction) {
    stored.PIssuer?
    && stored.action.(op := submitted.op) == submitted
    && SameOp(stored.action.op, submitted.op)
  }

  predicate FreshIssuerTime(l: seq<Entry>, timestamp: int, now: int, window: int) {
    && Admin.WithinWindow(timestamp, now, window)
    && var previous := TopIssuerTime(l);
       previous.None? || previous.value <= timestamp
  }

  function SchemaOf(op: IssuerOp): Option<nat> {
    match op
    case ReplaceCategoryTags(schema, _) => Some(schema)
    case ReplaceTradingVenues(schema, _) => Some(schema)
    case ReplaceCustom(schema, _) => Some(schema)
    case SetCustomField(schema, _, _) => Some(schema)
    case DeleteCustomField(schema, _) => Some(schema)
    case _ => None
  }

  /** The no-op comparison, which uses Python equality on custom values. */
  predicate LooksUnchanged(a: Asset, op: IssuerOp) {
    match op
    case ReplaceCategoryTags(_, tags) => a.tags == tags
    case ReplaceTradingVenues(_, venues) => a.venues == venues
    case ReplaceCustom(_, custom) => PyEq(Obj(a.custom), Obj(custom))
    case SetCustomField(_, key, value) => key in a.custom && PyEq(a.custom[key], value)
    case DeleteCustomField(_, key) => key !in a.custom
    case Deregister => a.status == Deregistered
    case RotateIssuerPubkey(newKey) => a.currentKey == newKey
    case ProposeIcon(_) => false
  }

  function RejectNoOp(a: Asset, op: IssuerOp): Option<Error> {
    if SchemaOf(op).Some? && SchemaOf(op).value != a.schema then Some(SchemaVersionMismatch)
    else if LooksUnchanged(a, op) then Some(NoOpAction)
    else None
  }

  /** The chain, freshness and signature checks, in order. */
  function IssuerChecks(
    env: Env, a: Asset, l: seq<Entry>, action: IssuerAction, signature: Signature, now: int, window: int): Option<Error>
  {
    var latest := LatestChainEntry(l);
    if latest.None? || latest.value.hash != Some(action.prevHash) then Some(PrevActionHashMismatch)
    else if !FreshIssuerTime(l, action.timestamp, now, window) then Some(StaleTimestamp)
    else if !env.verifyIssuer(a.currentKey, signature, action) then Some(InvalidSignature)
    else None
  }

  function IssuerEntry(env: Env, sequence: nat, u: Uuid, key: Pubkey, action: IssuerAction, signature: Signature): Entry {
    Entry(sequence, u, Issuer, PIssuer(action), Some(env.actionHash(PIssuer(action))), Some(action.nonce),
          Some(action.timestamp), Some(key), Some(signature))
  }

  /** Close the open interval and open the next one at this action. */
  function Rotated(keys: seq<KeyInterval>, newKey: Pubkey, sequence: nat): seq<KeyInterval> {
    if |keys| == 0 then [KeyInterval(newKey, sequence, None)]
    else keys[|keys| - 1 := keys[|keys| - 1].(until := Some(sequence))] + [KeyInterval(newKey, sequence, None)]
  }

  function ApplyOp(a: Asset, op: IssuerOp, sequence: nat): Asset {
    match op
    case ReplaceCategoryTags(_, tags) => a.(tags := tags)
    case ReplaceTradingVenues(_, venues) => a.(venues := venues)
    case ReplaceCustom(_, custom) => a.(custom := custom)
    case SetCustomField(_, key, value) => a.(custom := a.custom[key := value])
    case DeleteCustomField(_, key) => a.(custom := a.custom - {key})
    case Deregister => a.(status := Deregistered, icon := None)
    case RotateIssuerPubkey(newKey) => a.(currentKey := newKey, keys := Rotated(a.keys, newKey, sequence))
    case ProposeIcon(_) => a
  }

  function CommitIssuerAction(env: Env, s: Db, u: Uuid, action: IssuerAction, signature: Signature, now: int): Db
    requires u < |s.assets|
  {
    var a := s.assets[u];
    var e := IssuerEntry(env, s.nextSequence, u, a.currentKey, action, signature);
    var a' := ApplyOp(a, action.op, e.sequence).(updatedAt := now);
    if action.op.Deregister? then
      FragmentDropped(Committed(s, u, a', e, ObsoleteAll(s.proposals, u, e.sequence)), u)
    else Refreshed(Committed(s, u, a', e, s.proposals), u)
  }

  /** A request either stops with an outcome or goes on to change one active asset. */
  datatype Gate = Stop(outcome: Outcome) | Go(uuid: Uuid)

  predicate Proceeds(s: Db, g: Gate) {
    g.Go? ==> g.uuid < |s.assets| && s.assets[g.uuid].status == Active
  }

  function FindTarget(s: Db, assetId: string): (g: Gate)
    ensures Proceeds(s, g) && (g.Stop? ==> g.outcome == Rejected(AssetNotFound))
    ensures g.Go? ==> s.assets[g.uuid].assetId == assetId
  {
    match FindActive(s.assets, assetId)
    case None => Stop(Rejected(AssetNotFound))
    case Some(u) => Go(u)
  }

  function FindEligible(s: Db, assetId: string): (g: Gate)
    ensures Proceeds(s, g) && (g.Stop? ==> g.outcome == Rejected(AssetNotFound))
    ensures g.Go? ==> Eligible(s.assets[g.uuid]) && s.assets[g.uuid].assetId == assetId
  {
    match FindTarget(s, assetId)
    case Stop(outcome) => Stop(outcome)
    case Go(u) => if Eligible(s.assets[u]) then Go(u) else Stop(Rejected(AssetNotFound))
  }

  /** What has been checked once an issuer request may commit. */
  predicate IssuerCleared(
    env: Env, s: Db, g: Gate, action: IssuerAction, signature: Signature, now: int, window: int)
    requires Proceeds(s, g)
  {
    g.Go? ==>
      var l := LogOf(s.log, g.uuid);
      && FindIssuerNonce(l, action.nonce).None?
      && IssuerChecks(env, s.assets[g.uuid], l, action, signature, now, window).None?
      && Eligible(s.assets[g.uuid])
  }

  function ReplayIssuer(e: Entry, action: IssuerAction): (o: Outcome)
    ensures !o.Applied? && !o.Changed?
  {
    if SameAction(e.payload, action) then Retry(e) else Rejected(NonceConflict)
  }

  function IssuerGate(
    env: Env, s: Db, urlAssetId: string, action: IssuerAction, signature: Signature, now: int, window: int): (g: Gate)
    ensures Proceeds(s, g) && IssuerCleared(env, s, g, action, signature, now, window)
    ensures g.Stop? ==> !g.outcome.Applied? && !g.outcome.Changed?
    ensures g.Go? ==> RejectNoOp(s.assets[g.uuid], action.op).None? && ParsesAsIssuerAction(action.op)
    ensures g.Go? ==> s.assets[g.uuid].assetId == action.assetId
  {
    if !ParsesAsIssuerAction(action.op) then Stop(Rejected(ValidationError))
    else if action.assetId != urlAssetId then Stop(Rejected(AssetIdMismatch))
    else
      match FindEligible(s, action.assetId)
      case Stop(outcome) => Stop(outcome)
      case Go(u) =>
        var a, l := s.assets[u], LogOf(s.log, u);
        var existing := FindIssuerNonce(l, action.nonce);
        if existing.Some? then Stop(ReplayIssuer(existing.value, action))
        else
          var refused := IssuerChecks(env, a, l, action, signature, now, window);
          if refused.Some? then Stop(Rejected(refused.value))
          else
            var noOp := RejectNoOp(a, action.op);
            if noOp.Some? then Stop(Rejected(noOp.value)) else Go(u)
  }

  function SubmitIssuerAction(
    env: Env, s: Db, urlAssetId: string, action: IssuerAction, signature: Signature, now: int, window: int): (Db, Outcome)
  {
    match IssuerGate(env, s, urlAssetId, action, signature, now, window)
    case Stop(outcome) => (s, outcome)
    case Go(u) =>
      if action.op.ReplaceTradingVenues? && RepeatsUrl(action.op.venues) then
        // The unique index on (asset, url) fails the flush; the handler blames the nonce.
        (RolledBack(s), Rejected(NonceConflict))
      else
        (CommitIssuerAction(env, s, u, action, signature, now),
         Applied(IssuerEntry(env, s.nextSequence, u, s.assets[u].currentKey, action, signature)))
  }

  /** `get_latest_action_hash`. */
  function GetLatestActionHash(s: Db, assetId: string): Result<Hash, Error> {
    match FindActive(s.assets, assetId)
    case None => Failure(AssetNotFound)
    case Some(u) =>
      if !Eligible(s.assets[u]) then Failure(AssetNotFound)
      else
        match LatestChainEntry(LogOf(s.log, u))
        case Some(e) => Success(e.hash.value)
        case None => Failure(InternalError)
  }

  // ---- Registration and migration ----

  predicate NamespaceTaken(assets: seq<Asset>, contract: Contract) {
    contract.ticker.Some? && contract.ticker.value != "" &&
    exists a | a in assets ::
      a.status == Active && a.contract.domain == contract.domain && a.contract.ticker == contract.ticker
  }

  const NO_ANNOTATIONS := Annotations(None, false, false, false, None, None, None)

  function NewAsset(
    assetId: string, contract: Contract, issuance: Issuance, key: Pubkey, source: Source, mutable: Mutable,
    sequence: nat, now: int): Asset
  {
    Asset(assetId, contract, issuance, key, source, key, 1, Active, None, mutable.venues, mutable.tags,
          mutable.custom, NO_ANNOTATIONS, [KeyInterval(key, sequence, None)], now)
  }

  function SystemEntry(sequence: nat, u: Uuid, payload: Payload, hash: Option<Hash>): Entry {
    Entry(sequence, u, System, payload, hash, None, None, None, None)
  }

  function CommitRegistration(s: Db, a: Asset, payload: Payload, hash: Option<Hash>): Db {
    var u := |s.assets|;
    Refreshed(
      s.(assets := s.assets + [a], log := s.log + [SystemEntry(s.nextSequence, u, payload, hash)],
         nextSequence := s.nextSequence + 1), u)
  }

  /** Contract versions are fixed by the two endpoints: 2 here, 0 for legacy registration. */
  function RegisterV2(
    env: Env, s: Db, assetId: string, contract: Contract, issuerKey: Pubkey, mutable: Mutable, issuance: Issuance,
    now: int): (Db, Outcome)
  {
    if contract.version != 2 || contract.ticker.None? || Admin.HasDuplicates(mutable.tags) then
      (s, Rejected(ValidationError))
    else if FindActive(s.assets, assetId).Some? || NamespaceTaken(s.assets, contract) then
      (s, Rejected(AssetConflict))
    else if RepeatsUrl(mutable.venues) then (RolledBack(s), Rejected(AssetConflict))
    else
      var payload := PRegister(assetId, contract, issuerKey, mutable);
      var hash := Some(env.actionHash(payload));
      (CommitRegistration(s, NewAsset(assetId, contract, issuance, issuerKey, FromContract, mutable, s.nextSequence, now), payload, hash),
       Applied(SystemEntry(s.nextSequence, |s.assets|, payload, hash)))
  }

  function RegisterLegacy(s: Db, request: LegacyRequest, issuance: Issuance, now: int): (Db, Outcome) {
    if request.contract.version != 0 then (s, Rejected(ValidationError))
    else if FindActive(s.assets, request.assetId).Some? || NamespaceTaken(s.assets, request.contract) then
      (s, Rejected(AssetConflict))
    else
      var payload := PLegacyRegister(request);
      (CommitRegistration(s, NewAsset(request.assetId, request.contract, issuance, request.issuerKey, RegistryRegistration,
                              Mutable([], [], map[]), s.nextSequence, now), payload, None),
       Applied(SystemEntry(s.nextSequence, |s.assets|, payload, None)))
  }

  /** The signature, key, and freshness checks every asset-scoped admin action passes through. */
  function VerifyAdmin(env: Env, s: Db, action: AdminAction, signature: Signature, now: int, window: int): Option<Error> {
    if !env.verifyAdmin(action.actor, signature, action) then Some(InvalidSignature)
    else if !Admin.IsActive(s.admin.keys, action.actor) then Some(Forbidden)
    else if FindAdminNonce(s.log, action.actor, action.nonce).Some? then None
    else if Admin.AdminFresh(s.admin.log, action.actor, action.timestamp,
                             LatestAdminAssetTime(s.log, action.actor), now, window) then None
    else Some(StaleTimestamp)
  }

  predicate Permitted(s: Db, actor: Pubkey, permission: Admin.Permission) {
    actor in s.admin.keys && Admin.MayUse(s.admin.keys[actor], permission)
  }

  function MigrationGate(
    env: Env, s: Db, assetId: string, approval: Option<(AdminAction, Signature)>, now: int, window: int): Option<Error>
  {
    if approval.None? then None
    else
      var (action, signature) := approval.value;
      var refused := VerifyAdmin(env, s, action, signature, now, window);
      if refused.Some? then refused
      else if !action.op.MigrateAsset? then Some(ValidationError)
      else if action.assetId != assetId then Some(AssetIdMismatch)
      else if !Permitted(s, action.actor, Admin.MigrateAssets) then Some(Forbidden)
      else None
  }

  function CommitMigration(env: Env, s: Db, u: Uuid, now: int): (Db, Outcome)
    requires u < |s.assets|
  {
    var a := s.assets[u];
    var payload := PMigrate(a.assetId, a.contract.version, a.source);
    var e := SystemEntry(s.nextSequence, u, payload, Some(env.actionHash(payload)));
    (Refreshed(Committed(s, u, a.(source := MigratedLegacyRecord, updatedAt := now), e, s.proposals), u), Applied(e))
  }

  function MigrationTarget(
    env: Env, s: Db, assetId: string, approval: Option<(AdminAction, Signature)>, now: int, window: int): (g: Gate)
    ensures Proceeds(s, g) && (g.Go? ==> FindMigration(LogOf(s.log, g.uuid)).None?)
    ensures g.Stop? ==> !g.outcome.Applied? && !g.outcome.Changed?
  {
    var refused := MigrationGate(env, s, assetId, approval, now, window);
    if refused.Some? then Stop(Rejected(refused.value))
    else
      var target := FindTarget(s, assetId);
      if target.Stop? then target
      else
        var ticker := s.assets[target.uuid].contract.ticker;
        var done := FindMigration(LogOf(s.log, target.uuid));
        if ticker.None? || ticker.value == "" then Stop(Rejected(ValidationError))
        else if done.Some? then Stop(Retry(done.value))
        else target
  }

  function MigrateAssetToV2(
    env: Env, s: Db, assetId: string, approval: Option<(AdminAction, Signature)>, now: int, window: int): (Db, Outcome)
  {
    match MigrationTarget(env, s, assetId, approval, now, window)
    case Stop(outcome) => (s, outcome)
    case Go(u) => CommitMigration(env, s, u, now)
  }

  function DeletionEntry(sequence: nat, u: Uuid, a: Asset, signature: Signature): Entry {
    Entry(sequence, u, Issuer, PLegacyDeregister(a.assetId), None, None, None, Some(a.currentKey), Some(signature))
  }

  function CommitDeletion(s: Db, u: Uuid, signature: Signature, now: int): (Db, Outcome)
    requires u < |s.assets|
  {
    var a := s.assets[u];
    var e := DeletionEntry(s.nextSequence, u, a, signature);
    (FragmentDropped(
       Committed(s, u, a.(status := Deregistered, icon := None, updatedAt := now), e,
                 ObsoleteAll(s.proposals, u, e.sequence)), u),
     Applied(e))
  }

  function DeregisterLegacy(env: Env, s: Db, assetId: string, signature: Signature, now: int): (Db, Outcome) {
    match FindTarget(s, assetId)
    case Stop(outcome) => (s, outcome)
    case Go(u) =>
      if !env.verifyDeletion(s.assets[u].currentKey, signature, assetId) then (s, Rejected(InvalidSignature))
      else CommitDeletion(s, u, signature, now)
  }

  /** One asset of the issuance backfill. It looks at deregistered rows too. */
  function BackfillIssuance(s: Db, u: Uuid, txin: Reference, prevout: Reference): (Db, Outcome) {
    if u >= |s.assets| || (s.assets[u].issuance.txin.Some? && s.assets[u].issuance.prevout.Some?) then
      (s, Rejected(AssetNotFound))
    else
      var a := s.assets[u];
      if (a.issuance.txin.Some? && a.issuance.txin.value != txin)
         || (a.issuance.prevout.Some? && a.issuance.prevout.value != prevout) then
        (s, Rejected(ReferenceConflict))
      else
        (Refreshed(s.(assets := s.assets[u := a.(issuance := Issuance(Some(txin), Some(prevout)))]), u), Changed)
  }

  // ---- Admin annotations (`registry_api/admin.py`) ----

  function AdminEntryOf(sequence: nat, u: Uuid, action: AdminAction, signature: Signature): Entry {
    Entry(sequence, u, AdminActor, PAdmin(action), None, Some(action.nonce), Some(action.timestamp),
          Some(action.actor), Some(signature))
  }

  function AdminTouched(a: Asset, action: AdminAction, sequence: nat, now: int): Asset {
    a.(annotations := a.annotations.(lastAction := Some(sequence), updatedBy := Some(action.actor)), updatedAt := now)
  }

  function CommitAdmin(
    s: Db, u: Uuid, a: Asset, action: AdminAction, signature: Signature, proposals: seq<Proposal>, now: int): (Db, Outcome)
    requires u < |s.assets|
  {
    var e := AdminEntryOf(s.nextSequence, u, action, signature);
    (Refreshed(Committed(s, u, AdminTouched(a, action, e.sequence, now), e, proposals), u), Applied(e))
  }

  function Set<T>(current: T, change: Option<T>): T { if change.Some? then change.value else current }

  /** A change to JSON null on a column that forbids it fails the flush. */
  predicate SetsNull(c: Changes) {
    c.featured == Some(None) || c.malicious == Some(None) || c.delisted == Some(None)
  }

  predicate ChangesNothing(n: Annotations, c: Changes) {
    && (c.assetType.None? || c.assetType.value == n.assetType)
    && (c.featured.None? || c.featured.value == Some(n.featured))
    && (c.malicious.None? || c.malicious.value == Some(n.malicious))
    && (c.delisted.None? || c.delisted.value == Some(n.delisted))
    && (c.notes.None? || c.notes.value == n.notes)
  }

  function Annotated(n: Annotations, c: Changes): Annotations
    requires !SetsNull(c)
  {
    n.(assetType := Set(n.assetType, c.assetType),
       featured := if c.featured.Some? then c.featured.value.value else n.featured,
       malicious := if c.malicious.Some? then c.malicious.value.value else n.malicious,
       delisted := if c.delisted.Some? then c.delisted.value.value else n.delisted,
       notes := Set(n.notes, c.notes))
  }

  function AdminGate(
    env: Env, s: Db, urlAssetId: string, action: AdminAction, signature: Signature, permission: Admin.Permission,
    now: int, window: int): Option<Error>
  {
    var refused := VerifyAdmin(env, s, action, signature, now, window);
    if refused.Some? then refused
    else if action.assetId != urlAssetId then Some(AssetIdMismatch)
    else if !Permitted(s, action.actor, permission) then Some(Forbidden)
    else None
  }

  function ReplayAdmin(s: Db, action: AdminAction): (o: Option<Outcome>)
    ensures o.None? <==> FindAdminNonce(s.log, action.actor, action.nonce).None?
    ensures o.Some? ==> !o.value.Applied? && !o.value.Changed?
  {
    match FindAdminNonce(s.log, action.actor, action.nonce)
    case None => None
    case Some(e) => Some(if e.payload == PAdmin(action) then Retry(e) else Rejected(NonceConflict))
  }

  /** What has been checked once an admin request may commit. */
  predicate AdminCleared(s: Db, g: Gate, action: AdminAction, now: int, window: int) {
    g.Go? ==>
      && FindAdminNonce(s.log, action.actor, action.nonce).None?
      && Admin.AdminFresh(s.admin.log, action.actor, action.timestamp, LatestAdminAssetTime(s.log, action.actor), now, window)
  }

  predicate IsAnnotation(op: AdminOp) { op.UpdateAnnotations? || op.ForceDelist? || op.ForceRelist? }

  /** The annotations an action asks for, if it changes any. */
  function NewAnnotations(n: Annotations, op: AdminOp): Result<Annotations, Error>
    requires IsAnnotation(op)
  {
    match op
    case UpdateAnnotations(changes) =>
      if ChangesNothing(n, changes) then Failure(NoOpAction)
      else if SetsNull(changes) then Failure(InternalError)
      else Success(Annotated(n, changes))
    case ForceDelist(reason) =>
      if n.delisted then Failure(NoOpAction)
      else Success(n.(delisted := true, notes := if reason.Some? then reason else n.notes))
    case ForceRelist(reason) =>
      if !n.delisted then Failure(NoOpAction)
      else Success(n.(delisted := false, notes := if reason.Some? then reason else n.notes))
  }

  function AnnotationGate(
    env: Env, s: Db, urlAssetId: string, action: AdminAction, signature: Signature, now: int, window: int): (g: Gate)
    ensures Proceeds(s, g) && AdminCleared(s, g, action, now, window)
    ensures g.Stop? ==> !g.outcome.Applied? && !g.outcome.Changed?
    ensures g.Go? ==> IsAnnotation(action.op)
  {
    if !IsAnnotation(action.op) then Stop(Rejected(ValidationError))
    else
      var permission := if action.op.UpdateAnnotations? then Admin.AnnotateAssets else Admin.DelistAssets;
      var refused := AdminGate(env, s, urlAssetId, action, signature, permission, now, window);
      if refused.Some? then Stop(Rejected(refused.value))
      else
        var target := FindTarget(s, urlAssetId);
        if target.Stop? then target
        else
          var replay := ReplayAdmin(s, action);
          if replay.Some? then Stop(replay.value) else target
  }

  function AnnotateAsset(
    env: Env, s: Db, urlAssetId: string, action: AdminAction, signature: Signature, now: int, window: int): (Db, Outcome)
  {
    match AnnotationGate(env, s, urlAssetId, action, signature, now, window)
    case Stop(outcome) => (s, outcome)
    case Go(u) =>
      var a := s.assets[u];
      match NewAnnotations(a.annotations, action.op)
      case Failure(error) => (if error == InternalError then RolledBack(s) else s, Rejected(error))
      case Success(annotations) =>
        CommitAdmin(s, u, a.(annotations := annotations), action, signature, s.proposals, now)
  }

  // ---- Icons (`registry_api/icons.py`) ----

  /** `image` is the decoded upload, if it decodes. */
  function CheckImage(env: Env, image: Option<Bytes>, hash: Hash, assetId: string, urlAssetId: string): Option<Error> {
    if image.None? || !env.validNewIcon(image.value) then Some(InvalidIcon)
    else if env.imageHash(image.value) != hash then Some(IconHashMismatch)
    else if assetId != urlAssetId then Some(AssetIdMismatch)
    else None
  }

  function SlotError(s: Db, u: Uuid, hash: Hash): Option<Error>
    requires u < |s.assets|
  {
    if LastProposal(s.proposals, AnyWaiting(u)).Some? then Some(IconPendingConflict)
    else
      var current := CurrentIcon(s.assets[u], s.proposals);
      if current.Some? && current.value.hash == hash then Some(NoOpAction) else None
  }

  function ReplayProposal(s: Db, e: Entry, action: IssuerAction): (o: Outcome)
    ensures !o.Applied? && !o.Changed?
  {
    if !SameAction(e.payload, action) then Rejected(NonceConflict)
    else if LastProposal(s.proposals, ProposedBy(e.sequence)).None? then Rejected(IconStateMissing)
    else Retry(e)
  }

  function ProposalGate(
    env: Env, s: Db, urlAssetId: string, action: IssuerAction, image: Option<Bytes>, signature: Signature,
    now: int, window: int): (g: Gate)
    ensures Proceeds(s, g) && IssuerCleared(env, s, g, action, signature, now, window)
    ensures g.Stop? ==> !g.outcome.Applied? && !g.outcome.Changed?
    ensures g.Go? ==>
      && action.op.ProposeIcon? && SlotError(s, g.uuid, action.op.iconHash).None?
      && s.assets[g.uuid].assetId == action.assetId
      && CheckImage(env, image, action.op.iconHash, action.assetId, urlAssetId).None?
  {
    if !action.op.ProposeIcon? then Stop(Rejected(ValidationError))
    else
      var badImage := CheckImage(env, image, action.op.iconHash, action.assetId, urlAssetId);
      if badImage.Some? then Stop(Rejected(badImage.value))
      else
        match FindEligible(s, action.assetId)
        case Stop(outcome) => Stop(outcome)
        case Go(u) =>
          var a, l := s.assets[u], LogOf(s.log, u);
          var existing := FindIssuerNonce(l, action.nonce);
          if existing.Some? then Stop(ReplayProposal(s, existing.value, action))
          else
            var refused := IssuerChecks(env, a, l, action, signature, now, window);
            if refused.Some? then Stop(Rejected(refused.value))
            else
              var slot := SlotError(s, u, action.op.iconHash);
              if slot.Some? then Stop(Rejected(slot.value)) else Go(u)
  }

  function CommitProposal(
    env: Env, s: Db, u: Uuid, action: IssuerAction, image: Option<Bytes>, signature: Signature, now: int): (Db, Outcome)
    requires u < |s.assets| && action.op.ProposeIcon?
  {
    var a := s.assets[u];
    var e := IssuerEntry(env, s.nextSequence, u, a.currentKey, action, signature);
    var p := Proposal(u, action.op.iconHash, image, Pending, e.sequence, None, None);
    (Refreshed(Committed(s, u, a.(updatedAt := now), e, s.proposals + [p]), u), Applied(e))
  }

  function SubmitIconProposal(
    env: Env, s: Db, urlAssetId: string, action: IssuerAction, image: Option<Bytes>, signature: Signature,
    now: int, window: int): (Db, Outcome)
  {
    match ProposalGate(env, s, urlAssetId, action, image, signature, now, window)
    case Stop(outcome) => (s, outcome)
    case Go(u) => CommitProposal(env, s, u, action, image, signature, now)
  }

  function Decided(p: Proposal, approve: bool, sequence: nat): Proposal {
    if approve then p.(status := Approved, decidedBy := Some(sequence))
    else p.(status := IconRejected, image := None, decidedBy := Some(sequence))
  }

  function DecisionOutcome(s: Db, u: Uuid, hash: Hash, replay: Option<Outcome>): Option<Outcome> {
    if replay.Some? && replay.value.Rejected? then replay
    else if LastProposal(s.proposals, WaitingWithHash(u, hash)).Some? then
      if replay.Some? then Some(Rejected(IconAlreadyDecided)) else None
    else
      var decided := LastProposal(s.proposals, WithHash(u, hash));
      Some(Rejected(if decided.Some? && s.proposals[decided.value].status != Pending
                    then IconAlreadyDecided else IconProposalNotFound))
  }

  predicate IsDecision(op: AdminOp) { op.ApproveIcon? || op.RejectIcon? }

  function DecisionGate(
    env: Env, s: Db, urlAssetId: string, action: AdminAction, signature: Signature, now: int, window: int): (g: Gate)
    ensures Proceeds(s, g) && AdminCleared(s, g, action, now, window)
    ensures g.Stop? ==> !g.outcome.Applied? && !g.outcome.Changed?
    ensures g.Go? ==> IsDecision(action.op) && LastProposal(s.proposals, WaitingWithHash(g.uuid, action.op.hash)).Some?
  {
    if !IsDecision(action.op) then Stop(Rejected(ValidationError))
    else
      var refused := AdminGate(env, s, urlAssetId, action, signature, Admin.ReviewIcons, now, window);
      if refused.Some? then Stop(Rejected(refused.value))
      else
        var target := FindTarget(s, urlAssetId);
        if target.Stop? then target
        else
          var stop := DecisionOutcome(s, target.uuid, action.op.hash, ReplayAdmin(s, action));
          if stop.Some? then Stop(stop.value) else target
  }

  function CommitDecision(s: Db, u: Uuid, i: nat, action: AdminAction, signature: Signature, now: int): (Db, Outcome)
    requires u < |s.assets| && i < |s.proposals| && IsDecision(action.op)
  {
    var a := s.assets[u];
    CommitAdmin(s, u, if action.op.ApproveIcon? then a.(icon := Some(i)) else a, action, signature,
                s.proposals[i := Decided(s.proposals[i], action.op.ApproveIcon?, s.nextSequence)], now)
  }

  function DecideIconProposal(
    env: Env, s: Db, urlAssetId: string, action: AdminAction, signature: Signature, now: int, window: int): (Db, Outcome)
  {
    match DecisionGate(env, s, urlAssetId, action, signature, now, window)
    case Stop(outcome) => (s, outcome)
    case Go(u) =>
      CommitDecision(s, u, LastProposal(s.proposals, WaitingWithHash(u, action.op.hash)).value, action, signature, now)
  }

  /** An undecided or approved upload of the same bytes; an undecided one is preferred. */
  function ReusableProposal(s: Db, u: Uuid, hash: Hash): (found: Option<nat>)
    ensures found.Some? ==>
      && found.value < |s.proposals|
      && (Selects(Usable(u, hash, Pending), s.proposals[found.value])
          || Selects(Usable(u, hash, Approved), s.proposals[found.value]))
  {
    var pending := LastProposal(s.proposals, Usable(u, hash, Pending));
    if pending.Some? then pending else LastProposal(s.proposals, Usable(u, hash, Approved))
  }

  function AssignIcon(
    s: Db, u: Uuid, reuse: Option<nat>, action: AdminAction, image: Option<Bytes>, signature: Signature, now: int): (Db, Outcome)
    requires u < |s.assets| && action.op.SetIcon? && (reuse.Some? ==> reuse.value < |s.proposals|)
  {
    var n := s.nextSequence;
    match reuse
    case Some(i) =>
      var p := s.proposals[i];
      CommitAdmin(s, u, s.assets[u].(icon := Some(i)), action, signature,
                  if p.status == Pending then s.proposals[i := Decided(p, true, n)] else s.proposals, now)
    case None =>
      var p := Proposal(u, action.op.hash, image, Approved, n, Some(n), None);
      CommitAdmin(s, u, s.assets[u].(icon := Some(|s.proposals|)), action, signature, s.proposals + [p], now)
  }

  function SetIconGate(
    env: Env, s: Db, urlAssetId: string, action: AdminAction, image: Option<Bytes>, signature: Signature,
    now: int, window: int): (g: Gate)
    ensures Proceeds(s, g) && AdminCleared(s, g, action, now, window)
    ensures g.Stop? ==> !g.outcome.Applied? && !g.outcome.Changed?
    ensures g.Go? ==>
      && action.op.SetIcon? && CheckImage(env, image, action.op.hash, action.assetId, urlAssetId).None?
      && var reuse := ReusableProposal(s, g.uuid, action.op.hash);
         reuse.Some? ==> s.proposals[reuse.value].image == image
  {
    if !action.op.SetIcon? then Stop(Rejected(ValidationError))
    else
      var badImage := CheckImage(env, image, action.op.hash, action.assetId, urlAssetId);
      if badImage.Some? then Stop(Rejected(badImage.value))
      else
        var refused := AdminGate(env, s, urlAssetId, action, signature, Admin.ManageIcons, now, window);
        if refused.Some? then Stop(Rejected(refused.value))
        else
          var target := FindTarget(s, action.assetId);
          if target.Stop? then target
          else
            var replay := ReplayAdmin(s, action);
            var a := s.assets[target.uuid];
            var reuse := ReusableProposal(s, target.uuid, action.op.hash);
            if replay.Some? then Stop(replay.value)
            else if a.icon.Some? && a.icon.value < |s.proposals| && s.proposals[a.icon.value].hash == action.op.hash then
              Stop(Rejected(NoOpAction))
            else if reuse.Some? && s.proposals[reuse.value].image != image then Stop(Rejected(IconHashMismatch))
            else target
  }

  function SetAdminIcon(
    env: Env, s: Db, urlAssetId: string, action: AdminAction, image: Option<Bytes>, signature: Signature,
    now: int, window: int): (Db, Outcome)
  {
    match SetIconGate(env, s, urlAssetId, action, image, signature, now, window)
    case Stop(outcome) => (s, outcome)
    case Go(u) => AssignIcon(s, u, ReusableProposal(s, u, action.op.hash), action, image, signature, now)
  }

  function CommitImport(env: Env, s: Db, u: Uuid, image: Bytes, now: int): (Db, Outcome)
    requires u < |s.assets|
  {
    var a, hash := s.assets[u], env.imageHash(image);
    var e := SystemEntry(s.nextSequence, u, PImportIcon(a.assetId, hash), None);
    var p := Proposal(u, hash, Some(image), Approved, e.sequence, Some(e.sequence), None);
    (Refreshed(Committed(s, u, a.(icon := Some(|s.proposals|), updatedAt := now), e, s.proposals + [p]), u), Applied(e))
  }

  /** One icon of the legacy import. */
  function ImportLegacyIcon(env: Env, s: Db, assetId: string, image: Bytes, now: int): (Db, Outcome) {
    if !env.validLegacyIcon(image) then (s, Rejected(InvalidIcon))
    else
      match FindTarget(s, assetId)
      case Stop(outcome) => (s, outcome)
      case Go(u) =>
        var current := CurrentIcon(s.assets[u], s.proposals);
        if current.Some? then
          (s, Rejected(if current.value.hash == env.imageHash(image) then NoOpAction else AssetConflict))
        else CommitImport(env, s, u, image, now)
  }

  // ---- Admin lifecycle ----

  function SubmitAdminLifecycle(
    env: Env, s: Db, action: Admin.LifecycleAction, signature: Signature, now: int, window: int): (Db, Outcome)
  {
    var (admin, outcome) := Admin.SubmitLifecycle(
      s.admin, s.nextSequence, action, env.verifyLifecycle(signature, action),
      LatestAdminAssetTime(s.log, action.actor), now, window);
    match outcome
    case Applied(_) => (s.(admin := admin, nextSequence := s.nextSequence + 1), Changed)
    case Retry(_) => (s, Changed)
    case Rejected(error) => (s, Rejected(Lifecycle(error)))
    case RolledBack(error) => (RolledBack(s), Rejected(Lifecycle(error)))
  }

  // ---- Runs ----

  datatype Step =
    | SRegisterV2(assetId: string, contract: Contract, issuerKey: Pubkey, mutable: Mutable, issuance: Issuance)
    | SRegisterLegacy(request: LegacyRequest, issuance: Issuance)
    | SMigrate(assetId: string, approval: Option<(AdminAction, Signature)>, window: int)
    | SIssuer(urlAssetId: string, action: IssuerAction, signature: Signature, window: int)
    | SDeregisterLegacy(assetId: string, signature: Signature)
    | SPropose(urlAssetId: string, action: IssuerAction, image: Option<Bytes>, signature: Signature, window: int)
    | SDecide(urlAssetId: string, adminAction: AdminAction, signature: Signature, window: int)
    | SSetIcon(urlAssetId: string, adminAction: AdminAction, image: Option<Bytes>, signature: Signature, window: int)
    | SAnnotate(urlAssetId: string, adminAction: AdminAction, signature: Signature, window: int)
    | SImportIcon(assetId: string, icon: Bytes)
    | SBackfill(uuid: Uuid, txin: Reference, prevout: Reference)
    | SLifecycle(lifecycle: Admin.LifecycleAction, signature: Signature, window: int)
    | SBootstrap(genesis: Option<Pubkey>)

  /** One transaction at server time `now`. */
  function Perform(env: Env, s: Db, step: Step, now: int): (Db, Outcome) {
    match step
    case SRegisterV2(assetId, contract, issuerKey, mutable, issuance) =>
      RegisterV2(env, s, assetId, contract, issuerKey, mutable, issuance, now)
    case SRegisterLegacy(request, issuance) => RegisterLegacy(s, request, issuance, now)
    case SMigrate(assetId, approval, window) => MigrateAssetToV2(env, s, assetId, approval, now, window)
    case SIssuer(url, action, signature, window) => SubmitIssuerAction(env, s, url, action, signature, now, window)
    case SDeregisterLegacy(assetId, signature) => DeregisterLegacy(env, s, assetId, signature, now)
    case SPropose(url, action, image, signature, window) =>
      SubmitIconProposal(env, s, url, action, image, signature, now, window)
    case SDecide(url, action, signature, window) => DecideIconProposal(env, s, url, action, signature, now, window)
    case SSetIcon(url, action, image, signature, window) => SetAdminIcon(env, s, url, action, image, signature, now, window)
    case SAnnotate(url, action, signature, window) => AnnotateAsset(env, s, url, action, signature, now, window)
    case SImportIcon(assetId, icon) => ImportLegacyIcon(env, s, assetId, icon, now)
    case SBackfill(u, txin, prevout) => BackfillIssuance(s, u, txin, prevout)
    case SLifecycle(action, signature, window) => SubmitAdminLifecycle(env, s, action, signature, now, window)
    case SBootstrap(genesis) => (s.(admin := Admin.Bootstrap(s.admin, genesis)), Changed)
  }

  datatype Event = Event(step: Step, now: int)

  const EMPTY_REGISTRY := Db([], [], [], map[], Admin.AdminDb(map[], []), 1)

  /** The database after a run of transactions on an empty registry; clock values are arbitrary. */
  function Run(env: Env, events: seq<Event>): Db {
    if |events| == 0 then EMPTY_REGISTRY
    else
      var last := events[|events| - 1];
      Perform(env, Run(env, events[..|events| - 1]), last.step, last.now).0
  }
}
