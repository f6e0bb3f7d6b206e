/** The promises of the action log, over every run. */
module RegistryTheorems {
  import opened Basics
  import opened JsonValue
  import opened RegistryModel
  import opened RegistrySteps
  import opened AssetHistory
  import opened RegistryInvariants
  import Admin = AdminGovernance

  // ---- Keys ----

  /** Each issuer entry carries the key of the one interval that covers it. */
  ghost predicate KeyInForce(a: Asset, l: seq<Entry>) {
    && KeyChain(a.keys) && a.keys[|a.keys| - 1].key == a.currentKey
    && (forall e | e in l && e.actor == Issuer :: SignedBy(a.keys, e))
    && (forall e, i: nat, j: nat |
          e in l && i < |a.keys| && j < |a.keys| && InForce(a.keys[i], e.sequence) && InForce(a.keys[j], e.sequence) :: i == j)
  }

  lemma AssetKeyInForce(env: Env, a: Asset, l: seq<Entry>)
    requires KeysAgree(a, l)
    ensures KeyInForce(a, l)
  {
    forall e, i: nat, j: nat |
        e in l && i < |a.keys| && j < |a.keys| && InForce(a.keys[i], e.sequence) && InForce(a.keys[j], e.sequence)
      ensures i == j
    {
      KeyInForceIsUnique(a.keys, i, j, e.sequence);
    }
  }

  lemma AssetAfterRun(env: Env, events: seq<Event>, u: Uuid)
    requires u < |Run(env, events).assets|
    ensures AssetInv(env, Run(env, events).assets[u], LogOf(Run(env, events).log, u))
  {
    hide Run;
    RunKeepsCore(env, events);
  }

  /** In every reachable state the history is a gapless chain whose one open interval holds the
      current key, and each issuer entry carries the key of the only interval that covers it. */
  lemma KeyInForceAlways(env: Env, events: seq<Event>, u: Uuid)
    requires u < |Run(env, events).assets|
    ensures KeyInForce(Run(env, events).assets[u], LogOf(Run(env, events).log, u))
  {
    hide Run;
    AssetAfterRun(env, events, u);
    AssetKeyInForce(env, Run(env, events).assets[u], LogOf(Run(env, events).log, u));
  }

  /** A rotation entry belongs to the key it retires: the interval it closes covers it, the one it opens does not. */
  lemma RotationBelongsToTheOldKey(keys: seq<KeyInterval>, newKey: Pubkey, sequence: nat, later: nat)
    requires KeyChain(keys) && keys[|keys| - 1].from < sequence < later
    ensures var r := Rotated(keys, newKey, sequence);
            && KeyChain(r) && |r| == |keys| + 1
            && InForce(r[|r| - 2], sequence) && r[|r| - 2].key == keys[|keys| - 1].key
            && !InForce(r[|r| - 1], sequence)
            && InForce(r[|r| - 1], later) && !InForce(r[|r| - 2], later) && r[|r| - 1].key == newKey
  {
  }

  // ---- Event sourcing ----

  /** The public state of an asset is always the fold of its own action rows. */
  lemma StateIsTheFoldOfTheLog(env: Env, events: seq<Event>, u: Uuid)
    requires u < |Run(env, events).assets|
    ensures var s := Run(env, events); Project(s.assets[u]) == Fold(LogOf(s.log, u))
  {
    hide Run, Fold;
    AssetAfterRun(env, events, u);
  }

  /** A refused or replayed request leaves every table as it was; a rollback spends one audit number. */
  lemma RefusalChangesNothing(env: Env, events: seq<Event>, step: Step, now: int)
    requires var o := Perform(env, Run(env, events), step, now).1; o.Rejected? || o.Retry?
    ensures var s, s' := Run(env, events), Perform(env, Run(env, events), step, now).0;
            s' == s.(nextSequence := s'.nextSequence) && s.nextSequence <= s'.nextSequence <= s.nextSequence + 1
  {
    hide Perform;
    RunKeepsCore(env, events);
    CoreOpensLogs(env, Run(env, events));
    StepShape(env, Run(env, events), step, now);
  }

  /** The no-op guard never lets through an action that changes nothing. */
  lemma ClearedActionChangesState(a: Asset, op: IssuerOp, sequence: nat)
    requires !op.ProposeIcon? && !LooksUnchanged(a, op) && a.status == Active
    ensures Project(ApplyOp(a, op, sequence)) != Project(a)
  {
    match op
    case ReplaceCustom(_, custom) =>
      if a.custom == custom { PyEqReflexive(Obj(custom)); }
    case SetCustomField(_, key, value) =>
      if a.custom[key := value] == a.custom {
        assert key in a.custom && a.custom[key] == value;
        PyEqReflexive(value);
      }
    case DeleteCustomField(_, key) =>
      assert key in a.custom && key !in a.custom - {key};
    case _ =>
  }

  /** An applied issuer action is a commit on an active row that passed the no-op guard. */
  lemma AppliedMeansCommitted(
    env: Env, s: Db, url: string, action: IssuerAction, signature: Signature, now: int, window: int)
    requires SubmitIssuerAction(env, s, url, action, signature, now, window).1.Applied?
    ensures var r := SubmitIssuerAction(env, s, url, action, signature, now, window);
            var u := r.1.entry.asset;
            && u < |s.assets| && u < |r.0.assets| && s.assets[u].status == Active
            && !action.op.ProposeIcon? && !LooksUnchanged(s.assets[u], action.op)
            && Project(r.0.assets[u]) == Project(ApplyOp(s.assets[u], action.op, s.nextSequence))
  {
  }

  /** Every applied issuer action changes the fold. */
  lemma AppliedActionChangesTheFold(
    env: Env, s: Db, url: string, action: IssuerAction, signature: Signature, now: int, window: int)
    requires CoreInv(env, s)
    requires SubmitIssuerAction(env, s, url, action, signature, now, window).1.Applied?
    ensures var r := SubmitIssuerAction(env, s, url, action, signature, now, window);
            var u := r.1.entry.asset;
            Fold(LogOf(r.0.log, u)) != Fold(LogOf(s.log, u))
  {
    AppliedMeansCommitted(env, s, url, action, signature, now, window);
    var r := SubmitIssuerAction(env, s, url, action, signature, now, window);
    var u := r.1.entry.asset;
    IssuerStepKeepsCore(env, s, url, action, signature, now, window);
    CoreFolds(env, s, u);
    CoreFolds(env, r.0, u);
    ClearedActionChangesState(s.assets[u], action.op, s.nextSequence);
  }

  lemma CoreFolds(env: Env, s: Db, u: Uuid)
    requires CoreInv(env, s) && u < |s.assets|
    ensures Project(s.assets[u]) == Fold(LogOf(s.log, u))
  {
  }

  lemma IssuerStepKeepsCore(
    env: Env, s: Db, url: string, action: IssuerAction, signature: Signature, now: int, window: int)
    requires CoreInv(env, s)
    ensures CoreInv(env, SubmitIssuerAction(env, s, url, action, signature, now, window).0)
  {
    var r := SubmitIssuerAction(env, s, url, action, signature, now, window);
    var step := SIssuer(url, action, signature, window);
    CoreOpensLogs(env, s);
    IssuerStepShape(env, s, url, action, signature, now, window, step);
    ShapeKeepsCore(env, s, r.0, r.1, step);
  }

  /** The guard compares custom values with Python's `==`, so it also refuses real changes: exactly
      those where an old and a new value differ as JSON but compare equal. */
  lemma FalseNoOpIff(a: Asset, op: IssuerOp, sequence: nat)
    requires a.status == Active && !op.ProposeIcon?
    ensures LooksUnchanged(a, op) && Project(ApplyOp(a, op, sequence)) != Project(a) <==>
              match op
              case ReplaceCustom(_, custom) => PyEq(Obj(a.custom), Obj(custom)) && a.custom != custom
              case SetCustomField(_, key, value) =>
                key in a.custom && PyEq(a.custom[key], value) && a.custom[key] != value
              case _ => false
  {
  }

  // ---- The hash chain ----

  ghost predicate ChainSound(env: Env, l: seq<Entry>) {
    && Linked(Chained(l)) && OneMigration(l) && OneRegistration(l)
    && forall e | e in Chained(l) ::
         e.hash == Some(env.actionHash(e.payload)) && (e.payload.PIssuer? || e.payload.PRegister? || e.payload.PMigrate?)
  }

  lemma AssetChainSound(env: Env, l: seq<Entry>)
    requires LogShape(env, l) && Linked(Chained(l))
    ensures ChainSound(env, l)
  {
  }

  /** Every issuer entry names the hash of the chained entry before it, every recorded hash is that of
      its own payload, and only a registration or a single migration can start a chain segment. */
  lemma ChainAlwaysLinked(env: Env, events: seq<Event>, u: Uuid)
    requires u < |Run(env, events).assets|
    ensures ChainSound(env, LogOf(Run(env, events).log, u))
  {
    hide Run;
    AssetAfterRun(env, events, u);
    AssetChainSound(env, LogOf(Run(env, events).log, u));
  }

  ghost predicate SameHead(c: seq<Entry>, d: seq<Entry>) {
    |c| > 0 && |d| > 0 && CollisionFree(c, d) && c[|c| - 1].hash == d[|d| - 1].hash
  }

  /** Two registries whose chains for some assets end in the same hash agree on everything chained
      since the nearest system entry, unless their entries exhibit a hash collision. */
  lemma LatestHashCommitsToTheChain(env: Env, run1: seq<Event>, run2: seq<Event>, u1: Uuid, u2: Uuid)
    requires u1 < |Run(env, run1).assets| && u2 < |Run(env, run2).assets|
    requires SameHead(Chained(LogOf(Run(env, run1).log, u1)), Chained(LogOf(Run(env, run2).log, u2)))
    ensures SinceSystem(Chained(LogOf(Run(env, run1).log, u1))) == SinceSystem(Chained(LogOf(Run(env, run2).log, u2)))
  {
    hide Run;
    AssetAfterRun(env, run1, u1);
    AssetAfterRun(env, run2, u2);
    SameHeadSameChain(Chained(LogOf(Run(env, run1).log, u1)), Chained(LogOf(Run(env, run2).log, u2)));
  }

  /** The hash served for an asset id is the last of its active row's chain. */
  ghost predicate ServesChainEnd(s: Db, assetId: string) {
    var r := GetLatestActionHash(s, assetId);
    && r != Failure(InternalError)
    && (r.Success? ==>
          var found := FindActive(s.assets, assetId);
          && found.Some?
          && var c := Chained(LogOf(s.log, found.value));
             |c| > 0 && c[|c| - 1].hash == Some(r.value))
  }

  lemma EligibleHasChainEnd(env: Env, a: Asset, l: seq<Entry>)
    requires AssetInv(env, a, l) && Eligible(a)
    ensures |Chained(l)| > 0 && LatestChainEntry(l) == Some(Chained(l)[|Chained(l)| - 1])
    ensures Chained(l)[|Chained(l)| - 1].hash.Some?
  {
    ChainHeadExists(env, a, l);
    LatestIsLastChained(l);
  }

  lemma CoreServesChainEnd(env: Env, s: Db, assetId: string)
    requires AllAssets(env, s)
    ensures ServesChainEnd(s, assetId)
  {
    hide AssetInv, Eligible, LatestChainEntry, Chained;
    var found := FindActive(s.assets, assetId);
    if found.Some? && Eligible(s.assets[found.value]) {
      EligibleHasChainEnd(env, s.assets[found.value], LogOf(s.log, found.value));
    }
  }

  /** "Asset has no latest action hash" is unreachable, and the hash served is the chain's last. */
  lemma LatestHashAlwaysServed(env: Env, events: seq<Event>, assetId: string)
    ensures ServesChainEnd(Run(env, events), assetId)
  {
    hide Run;
    RunKeepsCore(env, events);
    CoreServesChainEnd(env, Run(env, events), assetId);
  }

  // ---- Order, nonces and retries ----

  /** The descending lookup sees the newest of all issuer timestamps. */
  predicate LookupSeesAll(l: seq<Entry>) {
    forall e | e in l && e.actor == Issuer ::
      e.timestamp.Some? && TopIssuerTime(l).Some? && e.timestamp.value <= TopIssuerTime(l).value
  }

  lemma TimedLookupSeesAll(l: seq<Entry>)
    requires !Untimed(l)
    ensures LookupSeesAll(l)
  {
    forall e | e in l && e.actor == Issuer
      ensures e.timestamp.Some? && TopIssuerTime(l).Some? && e.timestamp.value <= TopIssuerTime(l).value
    {
      NewestBoundsAll(l, e);
    }
  }

  /** Issuer timestamps ascend, issuer nonces are never reused, and an active asset has no
      untimestamped issuer entry, so the descending lookup sees its true newest timestamp. */
  lemma IssuerOrderAlways(env: Env, events: seq<Event>, u: Uuid)
    requires u < |Run(env, events).assets|
    ensures var s := Run(env, events);
            var l := LogOf(s.log, u);
            TimesAscend(l) && NoncesDiffer(l) && (s.assets[u].status == Active ==> LookupSeesAll(l))
  {
    hide Run;
    AssetAfterRun(env, events, u);
    var s := Run(env, events);
    if s.assets[u].status == Active { TimedLookupSeesAll(LogOf(s.log, u)); }
  }

  /** With a fresh nonce, "nonce conflict" is the answer exactly when a fully valid venue
      replacement repeats a URL. */
  lemma NonceConflictWithoutANonce(
    env: Env, s: Db, url: string, action: IssuerAction, signature: Signature, now: int, window: int)
    requires FindActive(s.assets, action.assetId).Some?
    requires FindIssuerNonce(LogOf(s.log, FindActive(s.assets, action.assetId).value), action.nonce).None?
    ensures SubmitIssuerAction(env, s, url, action, signature, now, window).1 == Rejected(NonceConflict) <==>
              && IssuerGate(env, s, url, action, signature, now, window).Go?
              && action.op.ReplaceTradingVenues? && RepeatsUrl(action.op.venues)
  {
  }

  lemma SameOpReflexive(op: IssuerOp)
    ensures SameOp(op, op)
  {
    match op
    case ReplaceCustom(_, custom) => PyEqReflexive(Obj(custom));
    case SetCustomField(_, _, value) => PyEqReflexive(value);
    case _ =>
  }

  lemma NonceFindsItsEntry(l: seq<Entry>, e: Entry)
    requires NoncesDiffer(l) && e in l && e.actor == Issuer && e.nonce.Some?
    ensures FindIssuerNonce(l, e.nonce.value) == Some(e)
  {
  }

  /** An asset that has taken an issuer action can still take them. */
  lemma IssuerEntryMeansEligible(env: Env, a: Asset, l: seq<Entry>, e: Entry)
    requires AssetInv(env, a, l) && e in l && e.payload.PIssuer?
    ensures Eligible(a)
  {
    assert WellFormed(env, e);
    ChainedHasAll(l, e);
    var c := Chained(l);
    assert c[0] in c && c[0] in l && WellFormed(env, c[0]) && !c[0].payload.PIssuer?;
    if c[0].payload.PRegister? {
      var i :| 0 <= i < |l| && l[i] == c[0];
      assert i == 0;
    }
  }

  lemma {:induction false} ChainedHasAll(l: seq<Entry>, e: Entry)
    requires e in l && e.hash.Some?
    ensures e in Chained(l)
  {
    if e != l[|l| - 1] {
      assert e in l[..|l| - 1];
      ChainedHasAll(l[..|l| - 1], e);
    }
  }

  lemma RetryPassesTheGate(
    env: Env, s: Db, u: Uuid, e: Entry, action: IssuerAction, signature: Signature, now: int, window: int)
    requires FindActive(s.assets, action.assetId) == Some(u) && Eligible(s.assets[u])
    requires ParsesAsIssuerAction(action.op) && e.payload == PIssuer(action)
    requires FindIssuerNonce(LogOf(s.log, u), action.nonce) == Some(e)
    ensures IssuerGate(env, s, action.assetId, action, signature, now, window) == Stop(Retry(e))
  {
    SameOpReflexive(action.op);
  }

  lemma LoggedNonceFinds(env: Env, s: Db, e: Entry)
    requires CoreInv(env, s) && e in s.log && e.payload.PIssuer? && e.asset < |s.assets|
    ensures FindIssuerNonce(LogOf(s.log, e.asset), e.payload.action.nonce) == Some(e)
    ensures Eligible(s.assets[e.asset])
  {
    var l := LogOf(s.log, e.asset);
    assert e in l;
    assert AssetInv(env, s.assets[e.asset], l);
    assert WellFormed(env, e);
    NonceFindsItsEntry(l, e);
    IssuerEntryMeansEligible(env, s.assets[e.asset], l, e);
  }

  /** Equal in every field, but that two custom values need only compare equal in Python. */
  predicate EqualButForValues(a: IssuerAction, b: IssuerAction) {
    if a.op.SetCustomField? && b.op.SetCustomField? then
      PyEq(a.op.value, b.op.value) && a.(op := a.op.(value := b.op.value)) == b
    else if a.op.ReplaceCustom? && b.op.ReplaceCustom? then
      PyEq(Obj(a.op.custom), Obj(b.op.custom)) && a.(op := a.op.(custom := b.op.custom)) == b
    else a == b
  }

  lemma SameIsEqual(stored: IssuerAction, submitted: IssuerAction)
    ensures SameAction(PIssuer(stored), submitted) <==> EqualButForValues(stored, submitted)
  {
  }

  lemma UsedNonceAtTheGate(
    env: Env, s: Db, u: Uuid, e: Entry, action: IssuerAction, signature: Signature, now: int, window: int)
    requires FindActive(s.assets, action.assetId) == Some(u) && Eligible(s.assets[u]) && ParsesAsIssuerAction(action.op)
    requires FindIssuerNonce(LogOf(s.log, u), action.nonce) == Some(e)
    ensures IssuerGate(env, s, action.assetId, action, signature, now, window)
         == Stop(if SameAction(e.payload, action) then Retry(e) else Rejected(NonceConflict))
  {
  }

  /** A used nonce answers with the entry that used it exactly when the two actions are equal, custom values as Python
      compares them, and with a conflict otherwise; either way nothing changes. */
  lemma UsedNonceIff(env: Env, s: Db, e: Entry, action: IssuerAction, signature: Signature, now: int, window: int)
    requires CoreInv(env, s) && e in s.log && e.payload.PIssuer? && e.asset < |s.assets|
    requires FindActive(s.assets, action.assetId) == Some(e.asset) && ParsesAsIssuerAction(action.op)
    requires action.nonce == e.payload.action.nonce
    ensures SubmitIssuerAction(env, s, action.assetId, action, signature, now, window)
         == (s, if EqualButForValues(e.payload.action, action) then Retry(e) else Rejected(NonceConflict))
  {
    hide SameAction, EqualButForValues, IssuerGate;
    LoggedNonceFinds(env, s, e);
    UsedNonceAtTheGate(env, s, e.asset, e, action, signature, now, window);
    SameIsEqual(e.payload.action, action);
  }

  /** So a different action can pass for a retry: one that sets true where the first set 1. */
  lemma DifferentActionMayReplay(assetId: string, hash: Hash, timestamp: int, nonce: string)
    ensures var first := IssuerAction(assetId, hash, timestamp, nonce, SetCustomField(1, "grade", Int(1)));
            var second := IssuerAction(assetId, hash, timestamp, nonce, SetCustomField(1, "grade", Bool(true)));
            first != second && SameAction(PIssuer(first), second)
  {
  }
}
