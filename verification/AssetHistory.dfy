/** One asset: its row against its own action rows. The invariant here speaks of a single asset,
    and one lemma shows that every legal next action keeps it. */
module AssetHistory {
  import opened Basics
  import opened JsonValue
  import opened RegistryModel
  import opened RegistrySteps
  import Admin = AdminGovernance

  // ---- Event sourcing ----

  datatype Folded = Folded(tags: seq<string>, venues: seq<Venue>, custom: Custom, key: Pubkey, status: Status)

  function Project(a: Asset): Folded {
    Folded(a.tags, a.venues, a.custom, a.currentKey, a.status)
  }

  /** What one action row does to the public state, read from the row alone. */
  function FoldEntry(f: Folded, e: Entry): Folded {
    match e.payload
    case PRegister(_, _, key, mutable) => Folded(mutable.tags, mutable.venues, mutable.custom, key, Active)
    case PLegacyRegister(request) => Folded([], [], map[], request.issuerKey, Active)
    case PIssuer(action) =>
      (match action.op
       case ReplaceCategoryTags(_, tags) => f.(tags := tags)
       case ReplaceTradingVenues(_, venues) => f.(venues := venues)
       case ReplaceCustom(_, custom) => f.(custom := custom)
       case SetCustomField(_, key, value) => f.(custom := f.custom[key := value])
       case DeleteCustomField(_, key) => f.(custom := f.custom - {key})
       case Deregister => f.(status := Deregistered)
       case RotateIssuerPubkey(newKey) => f.(key := newKey)
       case ProposeIcon(_) => f)
    case PLegacyDeregister(_) => f.(status := Deregistered)
    case _ => f
  }

  function Fold(l: seq<Entry>): Folded {
    if |l| == 0 then Folded([], [], map[], "", Deregistered)
    else FoldEntry(Fold(l[..|l| - 1]), l[|l| - 1])
  }

  lemma FoldAppend(l: seq<Entry>, e: Entry)
    ensures Fold(l + [e]) == FoldEntry(Fold(l), e)
  {
  }

  // ---- Entries ----

  /** Which columns each kind of row carries. */
  predicate WellFormed(env: Env, e: Entry) {
    match e.payload
    case PRegister(_, _, _, _) => e.actor == System && e.hash == Some(env.actionHash(e.payload)) && e.nonce.None? && e.timestamp.None?
    case PLegacyRegister(_) => e.actor == System && e.hash.None? && e.nonce.None? && e.timestamp.None?
    case PMigrate(_, _, _) => e.actor == System && e.hash == Some(env.actionHash(e.payload)) && e.nonce.None? && e.timestamp.None?
    case PIssuer(action) =>
      && e.actor == Issuer && e.hash == Some(env.actionHash(e.payload)) && e.nonce == Some(action.nonce)
      && e.timestamp == Some(action.timestamp) && e.key.Some?
    case PLegacyDeregister(_) => e.actor == Issuer && e.hash.None? && e.nonce.None? && e.timestamp.None? && e.key.Some?
    case PAdmin(action) =>
      && e.actor == AdminActor && e.hash.None? && e.nonce == Some(action.nonce)
      && e.timestamp == Some(action.timestamp) && e.key == Some(action.actor)
    case PImportIcon(_, _) => e.actor == System && e.hash.None? && e.nonce.None? && e.timestamp.None?
  }

  predicate IsRegistration(e: Entry) { e.payload.PRegister? || e.payload.PLegacyRegister? }

  ghost predicate Ascending(l: seq<Entry>) {
    forall i, j | 0 <= i < j < |l| :: l[i].sequence < l[j].sequence
  }

  ghost predicate AllWellFormed(env: Env, l: seq<Entry>) {
    forall i | 0 <= i < |l| :: WellFormed(env, l[i])
  }

  ghost predicate OneRegistration(l: seq<Entry>) {
    |l| > 0 && IsRegistration(l[0]) && forall i | 0 < i < |l| :: !IsRegistration(l[i])
  }

  ghost predicate OneMigration(l: seq<Entry>) {
    forall i, j | 0 <= i < j < |l| :: !(l[i].payload.PMigrate? && l[j].payload.PMigrate?)
  }

  /** One registration, first; at most one migration; audit numbers ascending. */
  ghost predicate LogShape(env: Env, l: seq<Entry>) {
    OneRegistration(l) && OneMigration(l) && Ascending(l) && AllWellFormed(env, l)
  }

  // ---- Keys in force ----

  /** An interval covers the actions after it opened, up to and including the one that closed it. */
  predicate InForce(k: KeyInterval, sequence: nat) {
    k.from < sequence && (k.until.Some? ==> sequence <= k.until.value)
  }

  ghost predicate KeyChain(keys: seq<KeyInterval>) {
    && |keys| > 0
    && keys[|keys| - 1].until.None?
    && forall i | 0 <= i < |keys| - 1 :: keys[i].until == Some(keys[i + 1].from) && keys[i].from < keys[i + 1].from
  }

  ghost predicate SignedBy(keys: seq<KeyInterval>, e: Entry) {
    exists i :: 0 <= i < |keys| && InForce(keys[i], e.sequence) && e.key == Some(keys[i].key)
  }

  ghost predicate KeysAgree(a: Asset, l: seq<Entry>) {
    && KeyChain(a.keys)
    && a.keys[|a.keys| - 1].key == a.currentKey
    && |l| > 0 && a.keys[0].from == l[0].sequence
    && a.keys[|a.keys| - 1].from <= l[|l| - 1].sequence
    && forall i | 0 <= i < |l| && l[i].actor == Issuer :: SignedBy(a.keys, l[i])
  }

  lemma {:induction false} KeyChainAscends(keys: seq<KeyInterval>, i: nat, j: nat)
    requires KeyChain(keys) && i < j < |keys|
    ensures keys[i].from < keys[j].from && keys[i].until.Some? && keys[i].until.value <= keys[j].from
    decreases j - i
  {
    if i + 1 < j { KeyChainAscends(keys, i + 1, j); }
  }

  /** No action falls in two intervals, so the key that signed it is determined by the history. */
  lemma KeyInForceIsUnique(keys: seq<KeyInterval>, i: nat, j: nat, sequence: nat)
    requires KeyChain(keys) && i < |keys| && j < |keys| && InForce(keys[i], sequence) && InForce(keys[j], sequence)
    ensures i == j
  {
    if i < j { KeyChainAscends(keys, i, j); }
    if j < i { KeyChainAscends(keys, j, i); }
  }

  lemma RotationKeepsKeys(a: Asset, l: seq<Entry>, e: Entry, newKey: Pubkey)
    requires KeysAgree(a, l) && l[|l| - 1].sequence < e.sequence
    requires Ascending(l) && e.actor == Issuer && e.key == Some(a.currentKey)
    ensures KeysAgree(a.(keys := Rotated(a.keys, newKey, e.sequence), currentKey := newKey), l + [e])
  {
    var keys' := Rotated(a.keys, newKey, e.sequence);
    var n := |a.keys|;
    assert forall i | 0 <= i < n - 1 :: keys'[i] == a.keys[i];
    forall i | 0 <= i < |l| && l[i].actor == Issuer
      ensures SignedBy(keys', l[i])
    {
      var k :| 0 <= k < n && InForce(a.keys[k], l[i].sequence) && l[i].key == Some(a.keys[k].key);
      assert InForce(keys'[k], l[i].sequence) && l[i].key == Some(keys'[k].key);
    }
    assert InForce(keys'[n - 1], e.sequence) && e.key == Some(keys'[n - 1].key);
  }

  // ---- The hash chain ----

  function Chained(l: seq<Entry>): (c: seq<Entry>)
    ensures forall e | e in c :: e in l && e.hash.Some?
  {
    if |l| == 0 then []
    else
      var rest := Chained(l[..|l| - 1]);
      if l[|l| - 1].hash.Some? then rest + [l[|l| - 1]] else rest
  }

  /** The lookup by descending audit number finds the end of the chain. */
  lemma {:induction false} LatestIsLastChained(l: seq<Entry>)
    ensures LatestChainEntry(l).None? <==> |Chained(l)| == 0
    ensures LatestChainEntry(l).Some? ==> LatestChainEntry(l).value == Chained(l)[|Chained(l)| - 1]
  {
    if |l| > 0 && l[|l| - 1].hash.None? { LatestIsLastChained(l[..|l| - 1]); }
  }

  /** Each issuer entry names the hash of the entry just before it in the chain. */
  ghost predicate Linked(c: seq<Entry>) {
    forall i | 0 <= i < |c| && c[i].payload.PIssuer? ::
      0 < i && c[i - 1].hash == Some(c[i].payload.action.prevHash)
  }

  // ---- Order and nonces ----

  ghost predicate TimesAscend(l: seq<Entry>) {
    forall i, j | 0 <= i < j < |l| ::
      l[i].actor == Issuer && l[j].actor == Issuer && l[i].timestamp.Some? && l[j].timestamp.Some?
      ==> l[i].timestamp.value <= l[j].timestamp.value
  }

  ghost predicate NoncesDiffer(l: seq<Entry>) {
    forall i, j | 0 <= i < j < |l| ::
      l[i].actor == Issuer && l[j].actor == Issuer && l[i].nonce.Some? ==> l[i].nonce != l[j].nonce
  }

  lemma {:induction false} NewestBoundsAll(l: seq<Entry>, e: Entry)
    requires e in l && e.actor == Issuer && e.timestamp.Some?
    ensures NewestIssuerTime(l).Some? && e.timestamp.value <= NewestIssuerTime(l).value
  {
    if e != l[|l| - 1] {
      assert e in l[..|l| - 1];
      NewestBoundsAll(l[..|l| - 1], e);
    }
  }

  // ---- The invariant of one asset ----

  ghost predicate SourceAgrees(a: Asset, l: seq<Entry>) {
    && |l| > 0
    && (a.contract.version == 0 <==> l[0].payload.PLegacyRegister?)
    && (a.source == MigratedLegacyRecord <==> exists e :: e in l && e.payload.PMigrate?)
    && (a.source == MigratedLegacyRecord
        || a.source == if l[0].payload.PLegacyRegister? then RegistryRegistration else FromContract)
  }

  /** The row says of the asset what its registration says, and its key history starts with the key registered. */
  predicate Identified(a: Asset, l: seq<Entry>) {
    && |l| > 0 && |a.keys| > 0 && a.keys[0].key == a.initialKey
    && match l[0].payload
       case PRegister(assetId, contract, key, _) => a.assetId == assetId && a.contract == contract && a.initialKey == key
       case PLegacyRegister(request) =>
         a.assetId == request.assetId && a.contract == request.contract && a.initialKey == request.issuerKey
       case _ => false
  }

  ghost predicate AssetInv(env: Env, a: Asset, l: seq<Entry>) {
    && LogShape(env, l)
    && Project(a) == Fold(l)
    && KeysAgree(a, l)
    && Linked(Chained(l))
    && TimesAscend(l)
    && NoncesDiffer(l)
    && SourceAgrees(a, l)
    && Identified(a, l)
    && (a.status == Active ==> !Untimed(l))
  }

  /** `e` may follow `l`, turning row `a` into `a'`. */
  ghost predicate LegalNext(env: Env, a: Asset, l: seq<Entry>, e: Entry, a': Asset) {
    && a.status == Active
    && |l| > 0 && l[|l| - 1].sequence < e.sequence
    && WellFormed(env, e) && !IsRegistration(e)
    && Project(a') == FoldEntry(Project(a), e)
    && a'.contract == a.contract && a'.assetId == a.assetId && a'.initialKey == a.initialKey
    && a'.source == (if e.payload.PMigrate? then MigratedLegacyRecord else a.source)
    && (e.payload.PMigrate? ==> FindMigration(l).None?)
    && (e.actor == Issuer ==> e.key == Some(a.currentKey))
    && a'.keys == (if e.payload.PIssuer? && e.payload.action.op.RotateIssuerPubkey?
                   then Rotated(a.keys, e.payload.action.op.newKey, e.sequence) else a.keys)
    && (e.payload.PIssuer? ==>
          && LatestChainEntry(l).Some? && LatestChainEntry(l).value.hash == Some(e.payload.action.prevHash)
          && FindIssuerNonce(l, e.payload.action.nonce).None?
          && (TopIssuerTime(l).Some? ==> TopIssuerTime(l).value <= e.payload.action.timestamp))
  }

  lemma KeysKept(a: Asset, l: seq<Entry>, e: Entry, a': Asset)
    requires KeysAgree(a, l) && l[|l| - 1].sequence < e.sequence
    requires e.actor == Issuer ==> e.key == Some(a.currentKey)
    requires a'.keys == a.keys && a'.currentKey == a.currentKey
    ensures KeysAgree(a', l + [e])
  {
  }

  lemma KeysAfterNext(env: Env, a: Asset, l: seq<Entry>, e: Entry, a': Asset)
    requires KeysAgree(a, l) && LogShape(env, l) && LegalNext(env, a, l, e, a')
    ensures KeysAgree(a', l + [e])
  {
    if e.payload.PIssuer? && e.payload.action.op.RotateIssuerPubkey? {
      RotationKeepsKeys(a, l, e, e.payload.action.op.newKey);
    } else {
      KeysKept(a, l, e, a');
    }
  }

  lemma ChainKept(l: seq<Entry>, e: Entry)
    requires Linked(Chained(l))
    requires e.payload.PIssuer? ==>
      LatestChainEntry(l).Some? && LatestChainEntry(l).value.hash == Some(e.payload.action.prevHash)
    ensures Linked(Chained(l + [e]))
  {
  }

  lemma TimesKept(l: seq<Entry>, e: Entry)
    requires TimesAscend(l)
    requires e.actor == Issuer && e.timestamp.Some? ==>
      !Untimed(l) && (TopIssuerTime(l).Some? ==> TopIssuerTime(l).value <= e.timestamp.value)
    ensures TimesAscend(l + [e])
  {
    if e.actor == Issuer && e.timestamp.Some? {
      forall i | 0 <= i < |l| && l[i].actor == Issuer && l[i].timestamp.Some?
        ensures l[i].timestamp.value <= e.timestamp.value
      {
        NewestBoundsAll(l, l[i]);
      }
    }
  }

  lemma NoncesKept(l: seq<Entry>, e: Entry)
    requires NoncesDiffer(l)
    requires e.actor == Issuer && e.nonce.Some? ==> FindIssuerNonce(l, e.nonce.value).None?
    ensures NoncesDiffer(l + [e])
  {
  }

  lemma ShapeKept(env: Env, l: seq<Entry>, e: Entry)
    requires LogShape(env, l) && l[|l| - 1].sequence < e.sequence && WellFormed(env, e) && !IsRegistration(e)
    requires e.payload.PMigrate? ==> FindMigration(l).None?
    ensures LogShape(env, l + [e])
  {
  }

  lemma SourceKept(a: Asset, l: seq<Entry>, e: Entry, a': Asset)
    requires SourceAgrees(a, l) && a'.contract == a.contract
    requires a'.source == (if e.payload.PMigrate? then MigratedLegacyRecord else a.source)
    ensures SourceAgrees(a', l + [e])
  {
  }

  lemma IdentityKept(env: Env, a: Asset, l: seq<Entry>, e: Entry, a': Asset)
    requires Identified(a, l) && LegalNext(env, a, l, e, a')
    ensures Identified(a', l + [e])
  {
  }

  lemma TimedKept(l: seq<Entry>, e: Entry)
    requires !Untimed(l) && (e.actor == Issuer ==> e.timestamp.Some?)
    ensures !Untimed(l + [e])
  {
  }

  /** Every legal next action keeps the asset's invariant. */
  lemma NextKeepsAsset(env: Env, a: Asset, l: seq<Entry>, e: Entry, a': Asset)
    requires AssetInv(env, a, l) && LegalNext(env, a, l, e, a')
    ensures AssetInv(env, a', l + [e])
  {
    assert Project(a') == Fold(l + [e]) by { FoldAppend(l, e); }
    assert KeysAgree(a', l + [e]) by { KeysAfterNext(env, a, l, e, a'); }
    assert Linked(Chained(l + [e])) by { ChainKept(l, e); }
    assert TimesAscend(l + [e]) by { TimesKept(l, e); }
    assert NoncesDiffer(l + [e]) by { NoncesKept(l, e); }
    assert LogShape(env, l + [e]) by { ShapeKept(env, l, e); }
    assert SourceAgrees(a', l + [e]) by { SourceKept(a, l, e, a'); }
    assert Identified(a', l + [e]) by { IdentityKept(env, a, l, e, a'); }
    assert a'.status == Active ==> !Untimed(l + [e]) by {
      if a'.status == Active { TimedKept(l, e); }
    }
  }

  lemma RegistrationStartsAsset(env: Env, a: Asset, e: Entry)
    requires WellFormed(env, e) && IsRegistration(e)
    requires Project(a) == FoldEntry(Fold([]), e) && a.status == Active
    requires a.keys == [KeyInterval(a.currentKey, e.sequence, None)]
    requires Identified(a, [e]) && a.source == if e.payload.PLegacyRegister? then RegistryRegistration else FromContract
    requires a.contract.version == 0 <==> e.payload.PLegacyRegister?
    ensures AssetInv(env, a, [e])
  {
  }

  // ---- Consequences ----

  /** An asset that takes issuer actions always has a chain head. */
  lemma ChainHeadExists(env: Env, a: Asset, l: seq<Entry>)
    requires AssetInv(env, a, l) && Eligible(a)
    ensures LatestChainEntry(l).Some?
  {
  }

  /** The payloads from the nearest system entry to the end of a chain. */
  function SinceSystem(c: seq<Entry>): seq<Payload> {
    if |c| == 0 then []
    else if !c[|c| - 1].payload.PIssuer? then [c[|c| - 1].payload]
    else SinceSystem(c[..|c| - 1]) + [c[|c| - 1].payload]
  }

  ghost predicate CollisionFree(c: seq<Entry>, d: seq<Entry>) {
    forall x, y | x in c && y in d :: x.hash == y.hash ==> x.payload == y.payload
  }

  /** With no hash collision between them, two chains with the same head hash carry the same
      payloads back to and including the nearest system entry. */
  lemma {:induction false} SameHeadSameChain(c: seq<Entry>, d: seq<Entry>)
    requires Linked(c) && Linked(d) && CollisionFree(c, d) && |c| > 0 && |d| > 0
    requires c[|c| - 1].hash == d[|d| - 1].hash
    ensures SinceSystem(c) == SinceSystem(d) && !SinceSystem(c)[0].PIssuer?
    decreases |c|
  {
    var x, y := c[|c| - 1], d[|d| - 1];
    assert x in c && y in d;
    assert x.payload == y.payload;
    if x.payload.PIssuer? {
      var c', d' := c[..|c| - 1], d[..|d| - 1];
      assert c'[|c'| - 1].hash == Some(x.payload.action.prevHash) == d'[|d'| - 1].hash;
      assert Linked(c') && Linked(d');
      assert CollisionFree(c', d');
      SameHeadSameChain(c', d');
    }
  }
}
