/** The registry's tables as values, and the queries its steps ask of them. Rows are numbered by
    position; an action is named by its number in the one global audit sequence. */
module RegistryModel {
  import opened Basics
  import opened JsonValue
  import Admin = AdminGovernance

  type Uuid = nat
  type Pubkey = string
  type Hash = string
  type Signature = string
  type Bytes = seq<bv8>
  type Custom = map<string, Value>

  // ---- Signed and system payloads ----

  datatype Venue = Venue(name: string, url: string)

  datatype Mutable = Mutable(venues: seq<Venue>, tags: seq<string>, custom: Custom)

  datatype Contract = Contract(version: nat, domain: string, name: string, precision: nat, ticker: Option<string>)

  datatype IssuerOp =
    | ReplaceCategoryTags(schema: nat, tags: seq<string>)
    | ReplaceTradingVenues(schema: nat, venues: seq<Venue>)
    | ReplaceCustom(schema: nat, custom: Custom)
    | SetCustomField(schema: nat, key: string, value: Value)
    | DeleteCustomField(schema: nat, key: string)
    | Deregister
    | RotateIssuerPubkey(newKey: Pubkey)
    | ProposeIcon(iconHash: Hash)

  datatype IssuerAction = IssuerAction(assetId: string, prevHash: Hash, timestamp: int, nonce: string, op: IssuerOp)

  /** The fields an annotation update sets; the inner option is JSON null. */
  datatype Changes = Changes(
    assetType: Option<Option<string>>, featured: Option<Option<bool>>, malicious: Option<Option<bool>>,
    delisted: Option<Option<bool>>, notes: Option<Option<string>>)

  datatype AdminOp =
    | UpdateAnnotations(changes: Changes)
    | ForceDelist(reason: Option<string>)
    | ForceRelist(reason: Option<string>)
    | ApproveIcon(hash: Hash)
    | RejectIcon(hash: Hash, reason: Option<string>)
    | SetIcon(hash: Hash)
    | MigrateAsset

  datatype AdminAction = AdminAction(actor: Pubkey, assetId: string, timestamp: int, nonce: string, op: AdminOp)

  datatype Payload =
    | PRegister(assetId: string, contract: Contract, issuerKey: Pubkey, mutable: Mutable)
    | PLegacyRegister(request: LegacyRequest)
    | PMigrate(assetId: string, version: nat, previousSource: Source)
    | PIssuer(action: IssuerAction)
    | PLegacyDeregister(assetId: string)
    | PAdmin(adminAction: AdminAction)
    | PImportIcon(assetId: string, iconHash: Hash)

  datatype LegacyRequest = LegacyRequest(assetId: string, contract: Contract, issuerKey: Pubkey, extras: Custom)

  // ---- Rows ----

  datatype Actor = Issuer | AdminActor | System

  datatype Source = FromContract | RegistryRegistration | MigratedLegacyRecord

  datatype Status = Active | Deregistered

  /** A row of the action log. */
  datatype Entry = Entry(
    sequence: nat, asset: Uuid, actor: Actor, payload: Payload, hash: Option<Hash>, nonce: Option<string>,
    timestamp: Option<int>, key: Option<Pubkey>, signature: Option<Signature>)

  datatype KeyInterval = KeyInterval(key: Pubkey, from: nat, until: Option<nat>)

  datatype Annotations = Annotations(
    assetType: Option<string>, featured: bool, malicious: bool, delisted: bool, notes: Option<string>,
    lastAction: Option<nat>, updatedBy: Option<Pubkey>)

  datatype Reference = Reference(txid: string, index: nat)

  datatype Issuance = Issuance(txin: Option<Reference>, prevout: Option<Reference>)

  /** An asset row with its child rows; a child's position is its index. */
  datatype Asset = Asset(
    assetId: string, contract: Contract, issuance: Issuance, initialKey: Pubkey, source: Source,
    currentKey: Pubkey, schema: nat, status: Status, icon: Option<nat>, venues: seq<Venue>, tags: seq<string>,
    custom: Custom, annotations: Annotations, keys: seq<KeyInterval>, updatedAt: int)

  datatype ProposalStatus = Pending | Approved | IconRejected

  datatype Proposal = Proposal(
    asset: Uuid, hash: Hash, image: Option<Bytes>, status: ProposalStatus, proposedBy: nat,
    decidedBy: Option<nat>, obsoletedBy: Option<nat>)

  // ---- Serialised views ----

  datatype LegacyView =
    | AsRegistered(assetId: string, request: LegacyRequest, issuance: Issuance)
    | FromColumns(assetId: string, contract: Contract, initialKey: Pubkey, source: Source, issuance: Issuance)

  datatype V2View = V2View(
    assetId: string, contract: Contract, issuance: Issuance, initialKey: Pubkey, source: Source,
    currentKey: Pubkey, keys: seq<KeyInterval>, venues: seq<Venue>, tags: seq<string>, custom: Custom,
    annotations: Annotations, lastAdminAction: Option<Entry>, icon: Option<Hash>, status: Status, updatedAt: int)

  datatype Fragment = Fragment(legacy: LegacyView, v2: V2View)

  // ---- The database ----

  datatype Db = Db(
    assets: seq<Asset>, log: seq<Entry>, proposals: seq<Proposal>, fragments: map<Uuid, Fragment>,
    admin: Admin.AdminDb, nextSequence: nat)

  /** What the registry asks of cryptography and image decoding. */
  datatype Env = Env(
    actionHash: Payload -> Hash,
    imageHash: Bytes -> Hash,
    validNewIcon: Bytes -> bool,
    validLegacyIcon: Bytes -> bool,
    verifyIssuer: (Pubkey, Signature, IssuerAction) -> bool,
    verifyAdmin: (Pubkey, Signature, AdminAction) -> bool,
    verifyLifecycle: (Signature, Admin.LifecycleAction) -> bool,
    verifyDeletion: (Pubkey, Signature, string) -> bool)

  // ---- Queries on the log ----

  /** The action rows of one asset, oldest first. */
  function LogOf(log: seq<Entry>, u: Uuid): (l: seq<Entry>)
    ensures forall e | e in l :: e in log && e.asset == u
    ensures forall e | e in log && e.asset == u :: e in l
  {
    if |log| == 0 then []
    else
      var rest := LogOf(log[..|log| - 1], u);
      if log[|log| - 1].asset == u then rest + [log[|log| - 1]] else rest
  }

  lemma LogOfAppend(log: seq<Entry>, e: Entry, u: Uuid)
    ensures LogOf(log + [e], u) == if e.asset == u then LogOf(log, u) + [e] else LogOf(log, u)
  {
  }

  function FindIssuerNonce(l: seq<Entry>, nonce: string): (found: Option<Entry>)
    ensures found.Some? ==> found.value in l && found.value.actor == Issuer && found.value.nonce == Some(nonce)
    ensures found.None? ==> forall e | e in l :: !(e.actor == Issuer && e.nonce == Some(nonce))
  {
    if |l| == 0 then None
    else if l[|l| - 1].actor == Issuer && l[|l| - 1].nonce == Some(nonce) then Some(l[|l| - 1])
    else FindIssuerNonce(l[..|l| - 1], nonce)
  }

  function FindAdminNonce(log: seq<Entry>, actor: Pubkey, nonce: string): (found: Option<Entry>)
    ensures found.Some? ==>
      found.value in log && found.value.actor == AdminActor && found.value.key == Some(actor) && found.value.nonce == Some(nonce)
    ensures found.None? ==>
      forall e | e in log :: !(e.actor == AdminActor && e.key == Some(actor) && e.nonce == Some(nonce))
  {
    if |log| == 0 then None
    else
      var last := log[|log| - 1];
      if last.actor == AdminActor && last.key == Some(actor) && last.nonce == Some(nonce) then Some(last)
      else FindAdminNonce(log[..|log| - 1], actor, nonce)
  }

  function FindMigration(l: seq<Entry>): (found: Option<Entry>)
    ensures found.Some? ==> found.value in l && found.value.payload.PMigrate?
    ensures found.None? ==> forall e | e in l :: !e.payload.PMigrate?
  {
    if |l| == 0 then None
    else
      var earlier := FindMigration(l[..|l| - 1]);
      if earlier.Some? then earlier
      else if l[|l| - 1].payload.PMigrate? then Some(l[|l| - 1]) else None
  }

  function FindSequence(l: seq<Entry>, sequence: nat): Option<Entry> {
    if |l| == 0 then None
    else if l[|l| - 1].sequence == sequence then Some(l[|l| - 1])
    else FindSequence(l[..|l| - 1], sequence)
  }

  /** The newest row that carries a hash. */
  function LatestChainEntry(l: seq<Entry>): (found: Option<Entry>)
    ensures found.Some? ==> found.value in l && found.value.hash.Some?
    ensures found.None? ==> forall e | e in l :: e.hash.None?
  {
    if |l| == 0 then None
    else if l[|l| - 1].hash.Some? then Some(l[|l| - 1])
    else LatestChainEntry(l[..|l| - 1])
  }

  predicate Untimed(l: seq<Entry>) {
    exists e | e in l :: e.actor == Issuer && e.timestamp.None?
  }

  function NewestIssuerTime(l: seq<Entry>): Option<int> {
    if |l| == 0 then None
    else
      var rest := NewestIssuerTime(l[..|l| - 1]);
      if l[|l| - 1].actor == Issuer then Admin.Later(rest, l[|l| - 1].timestamp) else rest
  }

  /** The first value of the issuer timestamps in descending order, where nulls come first. */
  function TopIssuerTime(l: seq<Entry>): Option<int> {
    if Untimed(l) then None else NewestIssuerTime(l)
  }

  /** The newest timestamp an admin key has used on an asset-scoped action. */
  function LatestAdminAssetTime(log: seq<Entry>, actor: Pubkey): (t: Option<int>)
    ensures forall e | e in log && e.actor == AdminActor && e.key == Some(actor) && e.timestamp.Some? ::
              t.Some? && e.timestamp.value <= t.value
  {
    if |log| == 0 then None
    else
      var rest := LatestAdminAssetTime(log[..|log| - 1], actor);
      var last := log[|log| - 1];
      if last.actor == AdminActor && last.key == Some(actor) then Admin.Later(rest, last.timestamp) else rest
  }

  // ---- Queries on assets and proposals ----

  /** The active row with this asset id. */
  function FindActive(assets: seq<Asset>, assetId: string): (found: Option<Uuid>)
    ensures found.Some? ==>
      found.value < |assets| && assets[found.value].assetId == assetId && assets[found.value].status == Active
    ensures found.None? ==> forall a | a in assets :: !(a.assetId == assetId && a.status == Active)
  {
    if |assets| == 0 then None
    else if assets[|assets| - 1].assetId == assetId && assets[|assets| - 1].status == Active then Some(|assets| - 1)
    else FindActive(assets[..|assets| - 1], assetId)
  }

  /** Legacy rows take v2 issuer actions only once migrated. */
  predicate Eligible(a: Asset) {
    !(a.contract.version == 0 && a.source != MigratedLegacyRecord)
  }

  predicate Visible(p: Proposal) {
    p.status == Approved && p.obsoletedBy.None? && p.image.Some?
  }

  predicate Waiting(p: Proposal, u: Uuid) {
    p.asset == u && p.status == Pending && p.obsoletedBy.None?
  }

  function CurrentIcon(a: Asset, proposals: seq<Proposal>): Option<Proposal> {
    if a.icon.Some? && a.icon.value < |proposals| && Visible(proposals[a.icon.value])
    then Some(proposals[a.icon.value]) else None
  }

  /** The conditions icon queries select proposals by. */
  datatype IconQuery =
    | AnyWaiting(u: Uuid)
    | WaitingWithHash(u: Uuid, hash: Hash)
    | WithHash(u: Uuid, hash: Hash)
    | Usable(u: Uuid, hash: Hash, status: ProposalStatus)
    | ProposedBy(sequence: nat)

  predicate Selects(q: IconQuery, p: Proposal) {
    match q
    case AnyWaiting(u) => Waiting(p, u)
    case WaitingWithHash(u, hash) => Waiting(p, u) && p.hash == hash
    case WithHash(u, hash) => p.asset == u && p.hash == hash
    case Usable(u, hash, status) =>
      p.asset == u && p.hash == hash && p.obsoletedBy.None? && p.image.Some? && p.status == status
    case ProposedBy(sequence) => p.proposedBy == sequence
  }

  /** The last proposal, in order of proposing, that a query selects. */
  function LastProposal(proposals: seq<Proposal>, q: IconQuery): (found: Option<nat>)
    ensures found.Some? ==> found.value < |proposals| && Selects(q, proposals[found.value])
    ensures found.None? ==> forall p | p in proposals :: !Selects(q, p)
  {
    if |proposals| == 0 then None
    else if Selects(q, proposals[|proposals| - 1]) then Some(|proposals| - 1)
    else LastProposal(proposals[..|proposals| - 1], q)
  }

  function ObsoleteOne(p: Proposal, u: Uuid, sequence: nat): Proposal {
    if p.asset == u && p.obsoletedBy.None? then p.(obsoletedBy := Some(sequence)) else p
  }

  function ObsoleteAll(proposals: seq<Proposal>, u: Uuid, sequence: nat): (r: seq<Proposal>)
    ensures |r| == |proposals|
    ensures forall i | 0 <= i < |r| :: r[i] == ObsoleteOne(proposals[i], u, sequence)
  {
    seq(|proposals|, i requires 0 <= i < |proposals| => ObsoleteOne(proposals[i], u, sequence))
  }

  // ---- Fresh serialisation ----

  /** The first legacy registration request of an asset. */
  function LegacyRequestOf(l: seq<Entry>): (r: Option<LegacyRequest>)
  {
    if |l| == 0 then None
    else
      var earlier := LegacyRequestOf(l[..|l| - 1]);
      if earlier.Some? then earlier
      else if l[|l| - 1].payload.PLegacyRegister? then Some(l[|l| - 1].payload.request) else None
  }

  function FreshLegacy(a: Asset, l: seq<Entry>): LegacyView {
    match LegacyRequestOf(l)
    case Some(request) => AsRegistered(a.assetId, request, a.issuance)
    case None => FromColumns(a.assetId, a.contract, a.initialKey, a.source, a.issuance)
  }

  function FreshV2(a: Asset, l: seq<Entry>, icon: Option<Proposal>): V2View {
    V2View(
      a.assetId, a.contract, a.issuance, a.initialKey, a.source, a.currentKey, a.keys, a.venues, a.tags, a.custom,
      a.annotations,
      if a.annotations.lastAction.Some? then FindSequence(l, a.annotations.lastAction.value) else None,
      if icon.Some? then Some(icon.value.hash) else None,
      a.status, a.updatedAt)
  }

  function FreshFragment(a: Asset, l: seq<Entry>, proposals: seq<Proposal>): Fragment {
    Fragment(FreshLegacy(a, l), FreshV2(a, l, CurrentIcon(a, proposals)))
  }

  // ---- Committing ----

  datatype Error =
    | ValidationError | AssetIdMismatch | AssetNotFound | NonceConflict | PrevActionHashMismatch | StaleTimestamp
    | InvalidSignature | SchemaVersionMismatch | NoOpAction | InvalidIcon | IconHashMismatch | IconPendingConflict
    | IconStateMissing | Forbidden | IconAlreadyDecided | IconProposalNotFound | AssetConflict | InternalError
    | ReferenceConflict | Lifecycle(adminError: Admin.AdminError)

  datatype Outcome =
    | Applied(entry: Entry)
    | Retry(entry: Entry)
    | Changed  // a committed change that writes no action row
    | Rejected(error: Error)

  /** Replace one asset row and append one action row, taking the next audit number. */
  function Committed(s: Db, u: Uuid, a: Asset, e: Entry, proposals: seq<Proposal>): Db
    requires u < |s.assets|
  {
    s.(assets := s.assets[u := a], log := s.log + [e], proposals := proposals, nextSequence := s.nextSequence + 1)
  }

  function Refreshed(s: Db, u: Uuid): Db
    requires u < |s.assets|
  {
    s.(fragments := s.fragments[u := FreshFragment(s.assets[u], LogOf(s.log, u), s.proposals)])
  }

  function FragmentDropped(s: Db, u: Uuid): Db {
    s.(fragments := s.fragments - {u})
  }

  /** A flushed row that was rolled back: only its audit number is gone. */
  function RolledBack(s: Db): Db {
    s.(nextSequence := s.nextSequence + 1)
  }
}
