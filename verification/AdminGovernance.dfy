/** Admin keys, their permissions and the signed lifecycle log (`registry_api/admin_actions.py`).
    A key's public key is unique and never changes, so it stands for the admin's row id too. */
module AdminGovernance {
  import opened Basics

  type Pubkey = string

  datatype Permission =
    | Root | AnnotateAssets | DelistAssets | ReviewIcons | ManageIcons | ManageAdmins | MigrateAssets

  datatype AdminKey = AdminKey(name: string, active: bool, permissions: set<Permission>)

  datatype LifecycleOp =
    | AddAdmin(target: Pubkey, name: string, permissions: seq<Permission>)
    | UpdatePermissions(target: Pubkey, permissions: seq<Permission>)
    | UpdateName(target: Pubkey, name: string)
    | RemoveAdmin(target: Pubkey)

  datatype LifecycleAction = LifecycleAction(actor: Pubkey, timestamp: int, nonce: string, op: LifecycleOp)

  datatype AdminEntry = AdminEntry(sequence: nat, action: LifecycleAction)

  type Keys = map<Pubkey, AdminKey>

  datatype AdminDb = AdminDb(keys: Keys, log: seq<AdminEntry>)

  datatype AdminError =
    | ValidationError | InvalidSignature | Forbidden | StaleTimestamp | NonceConflict
    | NoOpAction | AdminConflict | AdminNotFound | LastRootAdmin

  /** `RolledBack` is a refusal after the row was flushed: its audit number is spent. */
  datatype AdminOutcome =
    | Applied(entry: AdminEntry)
    | Retry(entry: AdminEntry)
    | Rejected(error: AdminError)
    | RolledBack(error: AdminError)

  function Elements<T>(s: seq<T>): set<T> { set x | x in s }

  predicate HasDuplicates<T(==)>(s: seq<T>) {
    exists i, j | 0 <= i < j < |s| :: s[i] == s[j]
  }

  predicate IsActive(keys: Keys, k: Pubkey) { k in keys && keys[k].active }

  /** An active key holding `root`. */
  predicate IsActiveRoot(keys: Keys, k: Pubkey) {
    IsActive(keys, k) && Root in keys[k].permissions
  }

  predicate MayUse(key: AdminKey, permission: Permission) {
    Root in key.permissions || permission in key.permissions
  }

  /** Touching `root` on either side of a change takes `root`; anything else takes `manage_admins`. */
  predicate MayManage(key: AdminKey, affected: set<Permission>) {
    MayUse(key, if Root in affected then Root else ManageAdmins)
  }

  predicate AnotherActiveRoot(keys: Keys, target: Pubkey) {
    exists k | k in keys :: k != target && IsActiveRoot(keys, k)
  }

  function WithPermissions(key: AdminKey, permissions: seq<Permission>): AdminKey {
    key.(permissions := Elements(permissions))
  }

  // ---- Genesis ----

  function Bootstrap(db: AdminDb, genesis: Option<Pubkey>): AdminDb {
    if genesis.None? || |db.keys| != 0 then db
    else db.(keys := map[genesis.value := AdminKey("Genesis Admin", true, {Root})])
  }

  // ---- One signed lifecycle action ----

  function FindByNonce(log: seq<AdminEntry>, actor: Pubkey, nonce: string): (found: Option<AdminEntry>)
    ensures found.Some? ==> found.value in log && found.value.action.actor == actor && found.value.action.nonce == nonce
    ensures found.None? ==> forall e | e in log :: !(e.action.actor == actor && e.action.nonce == nonce)
  {
    if |log| == 0 then None
    else if log[|log| - 1].action.actor == actor && log[|log| - 1].action.nonce == nonce then Some(log[|log| - 1])
    else FindByNonce(log[..|log| - 1], actor, nonce)
  }

  function Later(a: Option<int>, b: Option<int>): Option<int> {
    if a.None? then b else if b.None? || b.value <= a.value then a else b
  }

  /** The newest lifecycle timestamp an actor has used. */
  function LatestLifecycleTime(log: seq<AdminEntry>, actor: Pubkey): (t: Option<int>)
    ensures forall e | e in log && e.action.actor == actor :: t.Some? && e.action.timestamp <= t.value
  {
    if |log| == 0 then None
    else
      var rest := LatestLifecycleTime(log[..|log| - 1], actor);
      var last := log[|log| - 1];
      if last.action.actor == actor then Later(rest, Some(last.action.timestamp)) else rest
  }

  predicate WithinWindow(timestamp: int, now: int, window: int) {
    -window <= now - timestamp <= window
  }

  /** `previousAsset` is the newest timestamp this key used on an asset-scoped admin action. */
  predicate AdminFresh(log: seq<AdminEntry>, actor: Pubkey, timestamp: int, previousAsset: Option<int>, now: int, window: int) {
    && WithinWindow(timestamp, now, window)
    && var previous := Later(LatestLifecycleTime(log, actor), previousAsset);
       previous.None? || previous.value <= timestamp
  }

  function RejectNoOp(keys: Keys, op: LifecycleOp): Option<AdminError> {
    match op
    case AddAdmin(target, _, _) =>
      if IsActive(keys, target) then Some(AdminConflict) else None
    case UpdatePermissions(target, permissions) =>
      if target !in keys then Some(AdminNotFound)
      else if keys[target].active && keys[target].permissions == Elements(permissions) then Some(NoOpAction)
      else None
    case UpdateName(target, name) =>
      if target !in keys then Some(AdminNotFound)
      else if keys[target].active && keys[target].name == name then Some(NoOpAction)
      else None
    case RemoveAdmin(target) =>
      if !IsActive(keys, target) then Some(NoOpAction) else None
  }

  function ApplyLifecycle(keys: Keys, actor: Pubkey, op: LifecycleOp): Result<Keys, AdminError>
    requires actor in keys
  {
    match op
    case AddAdmin(target, name, permissions) =>
      if !MayManage(keys[actor], Elements(permissions)) then Failure(Forbidden)
      else if IsActive(keys, target) then Failure(AdminConflict)
      else Success(keys[target := AdminKey(name, true, Elements(permissions))])
    case UpdatePermissions(target, permissions) =>
      if target !in keys then Failure(AdminNotFound)
      else if !MayManage(keys[actor], keys[target].permissions + Elements(permissions)) then Failure(Forbidden)
      else if Root in keys[target].permissions && Root !in permissions && !AnotherActiveRoot(keys, target) then
        Failure(LastRootAdmin)
      else Success(keys[target := WithPermissions(keys[target], permissions)])
    case UpdateName(target, name) =>
      if !MayUse(keys[actor], ManageAdmins) then Failure(Forbidden)
      else if target !in keys then Failure(AdminNotFound)
      else Success(keys[target := keys[target].(name := name)])
    case RemoveAdmin(target) =>
      if target !in keys then Failure(AdminNotFound)
      else if !MayManage(keys[actor], keys[target].permissions) then Failure(Forbidden)
      else if Root in keys[target].permissions && !AnotherActiveRoot(keys, target) then Failure(LastRootAdmin)
      else Success(keys[target := keys[target].(active := false)])
  }

  predicate ValidLifecycleOp(op: LifecycleOp) {
    match op
    case AddAdmin(_, _, permissions) => !HasDuplicates(permissions)
    case UpdatePermissions(_, permissions) => !HasDuplicates(permissions)
    case _ => true
  }

  function SubmitLifecycle(
    db: AdminDb, sequence: nat, action: LifecycleAction, signed: bool,
    previousAsset: Option<int>, now: int, window: int): (r: (AdminDb, AdminOutcome))
  {
    if !ValidLifecycleOp(action.op) then (db, Rejected(ValidationError))
    else if !signed then (db, Rejected(InvalidSignature))
    else if !IsActive(db.keys, action.actor) then (db, Rejected(Forbidden))
    else
      var existing := FindByNonce(db.log, action.actor, action.nonce);
      if existing.Some? then
        if existing.value.action == action then (db, Retry(existing.value)) else (db, Rejected(NonceConflict))
      else if !AdminFresh(db.log, action.actor, action.timestamp, previousAsset, now, window) then
        (db, Rejected(StaleTimestamp))
      else
        var noOp := RejectNoOp(db.keys, action.op);
        if noOp.Some? then (db, Rejected(noOp.value))
        else
          match ApplyLifecycle(db.keys, action.actor, action.op)
          case Failure(error) => (db, RolledBack(error))
          case Success(keys) =>
            var entry := AdminEntry(sequence, action);
            (AdminDb(keys, db.log + [entry]), Applied(entry))
  }

  // ---- Whole runs ----

  /** The key table rebuilt from the genesis key and the log alone. */
  ghost function Replay(genesis: Pubkey, log: seq<AdminEntry>): (keys: Keys)
  {
    if |log| == 0 then map[genesis := AdminKey("Genesis Admin", true, {Root})]
    else
      var before := Replay(genesis, log[..|log| - 1]);
      var action := log[|log| - 1].action;
      if action.actor !in before then before
      else
        match ApplyLifecycle(before, action.actor, action.op)
        case Success(keys) => keys
        case Failure(_) => before
  }

  predicate GrantsRoot(op: LifecycleOp, k: Pubkey) {
    (op.AddAdmin? || op.UpdatePermissions?) && op.target == k && Root in op.permissions
  }

  /** `k`'s root authority traces back to the genesis key through the first `n` log entries:
      each link is a grant made by a key that was an active root when it was logged. */
  ghost predicate Authorized(genesis: Pubkey, log: seq<AdminEntry>, k: Pubkey, n: nat)
    requires n <= |log|
    decreases n
  {
    k == genesis ||
    exists i | 0 <= i < n ::
      && GrantsRoot(log[i].action.op, k)
      && IsActiveRoot(Replay(genesis, log[..i]), log[i].action.actor)
      && Authorized(genesis, log, log[i].action.actor, i)
  }

  ghost predicate SomeActiveRoot(keys: Keys) {
    exists k :: IsActiveRoot(keys, k)
  }

  /** What every state after genesis satisfies. */
  ghost predicate Governed(db: AdminDb, genesis: Pubkey) {
    && db.keys == Replay(genesis, db.log)
    && SomeActiveRoot(db.keys)
    && forall k | k in db.keys && Root in db.keys[k].permissions :: Authorized(genesis, db.log, k, |db.log|)
  }

  lemma BootstrapGoverns(genesis: Pubkey)
    ensures var db := Bootstrap(AdminDb(map[], []), Some(genesis)); Governed(db, genesis) && db.log == []
  {
    assert IsActiveRoot(Bootstrap(AdminDb(map[], []), Some(genesis)).keys, genesis);
  }

  /** A governed registry never has a second genesis. */
  lemma BootstrapIsOnce(db: AdminDb, genesis: Pubkey, other: Option<Pubkey>)
    requires Governed(db, genesis)
    ensures Bootstrap(db, other) == db
  {
  }

  lemma {:induction false} AuthorizedExtends(genesis: Pubkey, log: seq<AdminEntry>, more: seq<AdminEntry>, k: Pubkey, n: nat)
    requires n <= |log| && Authorized(genesis, log, k, n)
    ensures Authorized(genesis, log + more, k, n)
    decreases n
  {
    if k != genesis {
      var i :| 0 <= i < n
        && GrantsRoot(log[i].action.op, k)
        && IsActiveRoot(Replay(genesis, log[..i]), log[i].action.actor)
        && Authorized(genesis, log, log[i].action.actor, i);
      AuthorizedExtends(genesis, log, more, log[i].action.actor, i);
      assert (log + more)[..i] == log[..i];
      assert (log + more)[i] == log[i];
    }
  }

  lemma AuthorizedLater(genesis: Pubkey, log: seq<AdminEntry>, k: Pubkey, m: nat, n: nat)
    requires m <= n <= |log| && Authorized(genesis, log, k, m)
    ensures Authorized(genesis, log, k, n)
  {
  }

  /** An applied change keeps at least one active root. */
  lemma ApplyKeepsARoot(keys: Keys, actor: Pubkey, op: LifecycleOp)
    requires IsActive(keys, actor) && SomeActiveRoot(keys) && ApplyLifecycle(keys, actor, op).Success?
    requires RejectNoOp(keys, op).None?
    ensures SomeActiveRoot(ApplyLifecycle(keys, actor, op).value)
  {
    var after := ApplyLifecycle(keys, actor, op).value;
    if AnotherActiveRoot(keys, op.target) {
      var k :| k in keys && k != op.target && IsActiveRoot(keys, k);
      assert IsActiveRoot(after, k);
    } else {
      var k :| IsActiveRoot(keys, k);
      assert k == op.target;
      assert IsActiveRoot(after, k);
    }
  }

  /** Whoever holds root afterwards held it before, or was granted it by an active root. */
  lemma RootComesFromARoot(keys: Keys, actor: Pubkey, op: LifecycleOp, k: Pubkey)
    requires IsActive(keys, actor) && ApplyLifecycle(keys, actor, op).Success?
    requires k in ApplyLifecycle(keys, actor, op).value && Root in ApplyLifecycle(keys, actor, op).value[k].permissions
    ensures (k in keys && Root in keys[k].permissions) || (GrantsRoot(op, k) && IsActiveRoot(keys, actor))
  {
  }

  lemma SubmitKeepsGoverned(
    db: AdminDb, genesis: Pubkey, sequence: nat, action: LifecycleAction, signed: bool,
    previousAsset: Option<int>, now: int, window: int)
    requires Governed(db, genesis)
    ensures Governed(SubmitLifecycle(db, sequence, action, signed, previousAsset, now, window).0, genesis)
  {
    var r := SubmitLifecycle(db, sequence, action, signed, previousAsset, now, window);
    if r.1.Applied? {
      ApplyKeepsARoot(db.keys, action.actor, action.op);
      var log' := r.0.log;
      assert log'[..|log'| - 1] == db.log;
      forall k | k in r.0.keys && Root in r.0.keys[k].permissions
        ensures Authorized(genesis, log', k, |log'|)
      {
        RootComesFromARoot(db.keys, action.actor, action.op, k);
        if k in db.keys && Root in db.keys[k].permissions {
          AuthorizedExtends(genesis, db.log, [r.1.entry], k, |db.log|);
          AuthorizedLater(genesis, log', k, |db.log|, |log'|);
        } else {
          AuthorizedExtends(genesis, db.log, [r.1.entry], action.actor, |db.log|);
          assert log'[|db.log|].action == action;
        }
      }
    }
  }

  // ---- Who can change what ----

  ghost function ActiveRoots(keys: Keys): set<Pubkey> {
    set k | k in keys && IsActiveRoot(keys, k)
  }

  /** Only an active root can change who the active roots are. */
  lemma OnlyRootsChangeTheRoots(
    db: AdminDb, sequence: nat, action: LifecycleAction, signed: bool,
    previousAsset: Option<int>, now: int, window: int)
    ensures var r := SubmitLifecycle(db, sequence, action, signed, previousAsset, now, window);
            ActiveRoots(r.0.keys) != ActiveRoots(db.keys) ==> IsActiveRoot(db.keys, action.actor)
  {
  }

  /** An applied action always logs, but the no-op guard looks at active targets only: the key
      table is left as it was exactly when a removed key is given the value it already has. */
  lemma AppliedWithoutEffectIff(
    db: AdminDb, sequence: nat, action: LifecycleAction, signed: bool,
    previousAsset: Option<int>, now: int, window: int)
    requires SubmitLifecycle(db, sequence, action, signed, previousAsset, now, window).1.Applied?
    ensures var r := SubmitLifecycle(db, sequence, action, signed, previousAsset, now, window);
            var target := action.op.target;
            r.0.keys == db.keys <==>
              && target in db.keys && !db.keys[target].active
              && match action.op
                 case UpdatePermissions(_, permissions) => Elements(permissions) == db.keys[target].permissions
                 case UpdateName(_, name) => name == db.keys[target].name
                 case _ => false
  {
  }

  // ---- A run that shows it ----

  function ByGenesis(timestamp: int, nonce: string, op: LifecycleOp): LifecycleAction {
    LifecycleAction("root", timestamp, nonce, op)
  }

  const ADDS := ByGenesis(0, "nonce-01", AddAdmin("old", "Old", [AnnotateAssets]))
  const REMOVES := ByGenesis(1, "nonce-02", RemoveAdmin("old"))
  const RENAMES := ByGenesis(2, "nonce-03", UpdateName("old", "Old"))

  const AFTER_GENESIS := Bootstrap(AdminDb(map[], []), Some("root"))

  function SubmittedBy(db: AdminDb, action: LifecycleAction): (AdminDb, AdminOutcome) {
    SubmitLifecycle(db, |db.log| + 1, action, true, None, action.timestamp, 300)
  }

  lemma AddsAndRemoves()
    ensures
      var db := SubmittedBy(SubmittedBy(AFTER_GENESIS, ADDS).0, REMOVES).0;
      && db.log == [AdminEntry(1, ADDS), AdminEntry(2, REMOVES)]
      && db.keys == map["root" := AdminKey("Genesis Admin", true, {Root}), "old" := AdminKey("Old", false, {AnnotateAssets})]
  {
    var added := SubmittedBy(AFTER_GENESIS, ADDS);
    assert Elements([AnnotateAssets]) == {AnnotateAssets};
    assert added.1 == Applied(AdminEntry(1, ADDS));
    assert FindByNonce(added.0.log, "root", "nonce-02").None?;
    assert LatestLifecycleTime(added.0.log, "root") == Some(0);
  }

  /** Such an action exists: after the genesis key has added an admin and removed it, renaming it to the name it
      has is applied and logged. */
  lemma AppliedWithoutEffectHappens()
    ensures
      var db := SubmittedBy(SubmittedBy(AFTER_GENESIS, ADDS).0, REMOVES).0;
      var r := SubmittedBy(db, RENAMES);
      r.1.Applied? && r.0.keys == db.keys && r.0.log == db.log + [AdminEntry(3, RENAMES)]
  {
    AddsAndRemoves();
    var db := SubmittedBy(SubmittedBy(AFTER_GENESIS, ADDS).0, REMOVES).0;
    assert FindByNonce(db.log, "root", "nonce-03").None?;
    assert db.log[..1] == [AdminEntry(1, ADDS)];
    assert LatestLifecycleTime(db.log[..1], "root") == Some(0);
    assert LatestLifecycleTime(db.log, "root") == Some(1);
    assert db.keys["old" := db.keys["old"].(name := "Old")] == db.keys;
  }
}
