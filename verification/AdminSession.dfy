/** Admin keys as one session changes them (`registry_api/admin_actions.py`): key rows and permission rows
    edited in place, the guards asked one after another, a rollback when a change is refused late. */
module AdminSession {
  import opened Basics
  import opened AdminGovernance

  datatype KeyRow = KeyRow(name: string, active: bool)

  type PermissionRows = set<(Pubkey, Permission)>

  function PermissionsOf(rows: PermissionRows, k: Pubkey): set<Permission> { set r | r in rows && r.0 == k :: r.1 }

  function KeysOf(keys: map<Pubkey, KeyRow>, rows: PermissionRows): Keys {
    map k | k in keys :: AdminKey(keys[k].name, keys[k].active, PermissionsOf(rows, k))
  }

  /** `k` now has exactly these permissions; every other key has what it had. */
  ghost predicate Grants(before: PermissionRows, after: PermissionRows, k: Pubkey, permissions: set<Permission>) {
    forall j, p :: (j, p) in after <==> if j == k then p in permissions else (j, p) in before
  }

  lemma GrantsMeans(before: PermissionRows, after: PermissionRows, k: Pubkey, permissions: set<Permission>)
    requires Grants(before, after, k, permissions)
    ensures PermissionsOf(after, k) == permissions
    ensures forall j | j != k :: PermissionsOf(after, j) == PermissionsOf(before, j)
  {
    forall p ensures p in PermissionsOf(after, k) <==> p in permissions {
      assert p in PermissionsOf(after, k) <==> (k, p) in after;
    }
    forall j | j != k ensures PermissionsOf(after, j) == PermissionsOf(before, j) {
      forall p ensures p in PermissionsOf(after, j) <==> p in PermissionsOf(before, j) {
        assert p in PermissionsOf(after, j) <==> (j, p) in after;
        assert p in PermissionsOf(before, j) <==> (j, p) in before;
      }
    }
  }

  lemma KeysAfter(
    keys: map<Pubkey, KeyRow>, before: PermissionRows, after: PermissionRows, k: Pubkey, row: KeyRow, permissions: set<Permission>)
    requires Grants(before, after, k, permissions)
    ensures KeysOf(keys[k := row], after) == KeysOf(keys, before)[k := AdminKey(row.name, row.active, permissions)]
  {
    GrantsMeans(before, after, k, permissions);
  }

  lemma OwnGrants(rows: PermissionRows, k: Pubkey)
    ensures Grants(rows, rows, k, PermissionsOf(rows, k))
  {
  }

  class AdminStore {
    var keys: map<Pubkey, KeyRow>
    var permissions: PermissionRows
    var log: seq<AdminEntry>

    function Snapshot(): AdminDb reads this { AdminDb(KeysOf(keys, permissions), log) }

    /** No permission row is left behind by a key that does not exist. */
    ghost predicate Valid() reads this { forall r | r in permissions :: r.0 in keys }

    constructor ()
      ensures Valid() && Snapshot() == AdminDb(map[], [])
    {
      keys, permissions, log := map[], {}, [];
    }

    /** `_replace_permissions`. */
    method ReplacePermissions(k: Pubkey, wanted: seq<Permission>)
      modifies `permissions
      ensures Grants(old(permissions), permissions, k, Elements(wanted))
    {
      permissions := set r | r in permissions && r.0 != k;
      var i := 0;
      while i < |wanted|
        invariant i <= |wanted| && Grants(old(permissions), permissions, k, Elements(wanted[..i]))
      {
        permissions := permissions + {(k, wanted[i])};
        assert wanted[..i + 1] == wanted[..i] + [wanted[i]];
        i := i + 1;
      }
      assert wanted[..i] == wanted;
    }

    /** Insert or assign a key row, its permissions staying as they are. */
    method SetKey(k: Pubkey, row: KeyRow)
      requires Valid()
      modifies `keys
      ensures Valid() && keys == old(keys)[k := row]
      ensures Snapshot().keys
           == old(Snapshot()).keys[k := AdminKey(row.name, row.active, PermissionsOf(permissions, k))]
    {
      OwnGrants(permissions, k);
      KeysAfter(keys, permissions, permissions, k, row, PermissionsOf(permissions, k));
      keys := keys[k := row];
    }

    method SetPermissions(k: Pubkey, wanted: seq<Permission>)
      requires Valid() && k in keys
      modifies `permissions
      ensures Valid()
      ensures Snapshot().keys == old(Snapshot()).keys[k := WithPermissions(old(Snapshot()).keys[k], wanted)]
    {
      ghost var before := permissions;
      ReplacePermissions(k, wanted);
      forall r | r in permissions ensures r.0 in keys { assert (r.0, r.1) == r; assert r.0 != k ==> (r.0, r.1) in before; }
      KeysAfter(keys, before, permissions, k, keys[k], Elements(wanted));
      assert keys[k := keys[k]] == keys;
    }

    /** `bootstrap_genesis_admin`. */
    method BootstrapGenesis(genesis: Option<Pubkey>)
      requires Valid()
      modifies this
      ensures Valid() && Snapshot() == Bootstrap(old(Snapshot()), genesis)
    {
      assert keys.Keys == Snapshot().keys.Keys;
      if genesis.None? || |keys| != 0 {
        assert |Snapshot().keys| == |Snapshot().keys.Keys| && |keys| == |keys.Keys|;
        return;
      }
      assert keys == map[];
      assert Snapshot().keys == map[];
      SetKey(genesis.value, KeyRow("Genesis Admin", true));
      SetPermissions(genesis.value, [Root]);
      assert Elements([Root]) == {Root};
      assert Snapshot().keys == map[genesis.value := AdminKey("Genesis Admin", true, {Root})];
    }

    /** `_ensure_another_active_root`. */
    method HasAnotherActiveRoot(target: Pubkey) returns (found: bool)
      ensures found <==> AnotherActiveRoot(Snapshot().keys, target)
    {
      found := false;
      var todo := keys.Keys;
      while todo != {} && !found
        invariant todo <= keys.Keys
        invariant found ==> AnotherActiveRoot(Snapshot().keys, target)
        invariant !found ==> forall k | k in keys && k !in todo :: !(k != target && IsActiveRoot(Snapshot().keys, k))
        decreases |todo|, found
      {
        var k :| k in todo;
        if k != target && keys[k].active && Root in PermissionsOf(permissions, k) {
          assert IsActiveRoot(Snapshot().keys, k);
          found := true;
        }
        todo := todo - {k};
      }
    }

    /** `_apply_add_admin`. */
    method ApplyAdd(actor: AdminKey, target: Pubkey, name: string, wanted: seq<Permission>) returns (error: Option<AdminError>)
      requires Valid()
      modifies `keys, `permissions
      ensures Valid()
      ensures error == if !MayManage(actor, Elements(wanted)) then Some(Forbidden)
                       else if IsActive(old(Snapshot()).keys, target) then Some(AdminConflict) else None
      ensures Snapshot().keys == if error.Some? then old(Snapshot()).keys
                                 else old(Snapshot()).keys[target := AdminKey(name, true, Elements(wanted))]
    {
      if !MayManage(actor, Elements(wanted)) { return Some(Forbidden); }
      if target in keys && keys[target].active { return Some(AdminConflict); }
      ghost var before := Snapshot().keys;
      if target !in keys {
        SetKey(target, KeyRow(name, true));
      } else {
        SetKey(target, keys[target].(active := true, name := name));
      }
      SetPermissions(target, wanted);
      assert Snapshot().keys == before[target := AdminKey(name, true, Elements(wanted))];
      error := None;
    }

    /** `_apply_update_permissions`. */
    method ApplyUpdate(actor: AdminKey, target: Pubkey, wanted: seq<Permission>) returns (error: Option<AdminError>)
      requires Valid()
      modifies `keys, `permissions
      ensures Valid()
      ensures var before := old(Snapshot()).keys;
              && error == (if target !in before then Some(AdminNotFound)
                           else if !MayManage(actor, before[target].permissions + Elements(wanted)) then Some(Forbidden)
                           else if Root in before[target].permissions && Root !in wanted && !AnotherActiveRoot(before, target)
                           then Some(LastRootAdmin) else None)
              && Snapshot().keys == if error.Some? then before else before[target := WithPermissions(before[target], wanted)]
    {
      if target !in keys { return Some(AdminNotFound); }
      var current := PermissionsOf(permissions, target);
      if !MayManage(actor, current + Elements(wanted)) { return Some(Forbidden); }
      if Root in current && Root !in wanted {
        var another := HasAnotherActiveRoot(target);
        if !another { return Some(LastRootAdmin); }
      }
      SetPermissions(target, wanted);
      error := None;
    }

    /** `_apply_remove_admin`. */
    method ApplyRemove(actor: AdminKey, target: Pubkey) returns (error: Option<AdminError>)
      requires Valid()
      modifies `keys
      ensures Valid()
      ensures var before := old(Snapshot()).keys;
              && error == (if target !in before then Some(AdminNotFound)
                           else if !MayManage(actor, before[target].permissions) then Some(Forbidden)
                           else if Root in before[target].permissions && !AnotherActiveRoot(before, target) then Some(LastRootAdmin)
                           else None)
              && Snapshot().keys == if error.Some? then before else before[target := before[target].(active := false)]
    {
      if target !in keys { return Some(AdminNotFound); }
      var held := PermissionsOf(permissions, target);
      if !MayManage(actor, held) { return Some(Forbidden); }
      if Root in held {
        var another := HasAnotherActiveRoot(target);
        if !another { return Some(LastRootAdmin); }
      }
      SetKey(target, keys[target].(active := false));
      error := None;
    }

    /** `_apply_lifecycle_action`. */
    method Apply(actor: Pubkey, op: LifecycleOp) returns (error: Option<AdminError>)
      requires Valid() && actor in keys
      modifies `keys, `permissions
      ensures Valid()
      ensures match ApplyLifecycle(old(Snapshot()).keys, actor, op)
              case Success(after) => error == None && Snapshot().keys == after
              case Failure(e) => error == Some(e)
    {
      var me := AdminKey(keys[actor].name, keys[actor].active, PermissionsOf(permissions, actor));
      assert me == Snapshot().keys[actor];
      match op {
        case AddAdmin(target, name, wanted) => error := ApplyAdd(me, target, name, wanted);
        case UpdatePermissions(target, wanted) => error := ApplyUpdate(me, target, wanted);
        case UpdateName(target, name) =>
          if !MayUse(me, ManageAdmins) { return Some(Forbidden); }
          if target !in keys { return Some(AdminNotFound); }
          SetKey(target, keys[target].(name := name));
          error := None;
        case RemoveAdmin(target) => error := ApplyRemove(me, target);
      }
    }

    /** `submit_admin_lifecycle_action`; `signed` is the verdict on the signature. */
    method Submit(
      sequence: nat, action: LifecycleAction, signed: bool, previousAsset: Option<int>, now: int, window: int)
      returns (o: AdminOutcome)
      requires Valid()
      modifies this
      ensures Valid()
      ensures (Snapshot(), o) == SubmitLifecycle(old(Snapshot()), sequence, action, signed, previousAsset, now, window)
    {
      if !ValidLifecycleOp(action.op) { return Rejected(ValidationError); }
      if !signed { return Rejected(InvalidSignature); }
      if action.actor !in keys || !keys[action.actor].active { return Rejected(Forbidden); }
      var existing := FindByNonce(log, action.actor, action.nonce);
      if existing.Some? {
        return if existing.value.action == action then Retry(existing.value) else Rejected(NonceConflict);
      }
      if !AdminFresh(log, action.actor, action.timestamp, previousAsset, now, window) { return Rejected(StaleTimestamp); }
      var noOp := RejectNoOp(Snapshot().keys, action.op);
      if noOp.Some? { return Rejected(noOp.value); }
      o := Persist(sequence, action);
    }

    /** Log the action, apply it, and roll both back if it is refused. */
    method Persist(sequence: nat, action: LifecycleAction) returns (o: AdminOutcome)
      requires Valid() && action.actor in keys
      modifies this
      ensures Valid()
      ensures match ApplyLifecycle(old(Snapshot()).keys, action.actor, action.op)
              case Success(after) =>
                o == Applied(AdminEntry(sequence, action)) && Snapshot() == AdminDb(after, old(log) + [AdminEntry(sequence, action)])
              case Failure(e) => o == RolledBack(e) && Snapshot() == old(Snapshot())
    {
      var keysBefore, permissionsBefore, logBefore := keys, permissions, log;
      log := log + [AdminEntry(sequence, action)];
      var error := Apply(action.actor, action.op);
      if error.Some? {
        keys, permissions, log := keysBefore, permissionsBefore, logBefore;
        return RolledBack(error.value);
      }
      o := Applied(AdminEntry(sequence, action));
    }
  }
}
