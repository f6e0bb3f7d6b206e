/** The registry as one session changes it: rows added, given and deleted in place, one statement at a
    time, with a rollback when a flush fails. Every method is proved to be the transaction it implements. */
module RegistrySession {
  import opened Basics
  import opened JsonValue
  import opened RegistryModel
  import opened RegistrySteps
  import opened RegistryTables
  import opened AssetHistory
  import opened RegistryInvariants
  import Admin = AdminGovernance

  // ---- Assembling assets ----

  datatype AssetRow = AssetRow(
    assetId: string, contract: Contract, issuance: Issuance, initialKey: Pubkey, source: Source,
    currentKey: Pubkey, schema: nat, status: Status, icon: Option<nat>, annotations: Annotations, updatedAt: int)

  datatype Tables = TableSet(
    assets: seq<AssetRow>, tags: seq<ChildRow<string>>, venues: seq<ChildRow<Venue>>,
    customs: seq<ChildRow<Attribute>>, history: seq<ChildRow<KeyInterval>>)

  function Assembled(r: AssetRow, tags: seq<string>, venues: seq<Venue>, custom: Custom, keys: seq<KeyInterval>): Asset {
    Asset(r.assetId, r.contract, r.issuance, r.initialKey, r.source, r.currentKey, r.schema, r.status, r.icon,
          venues, tags, custom, r.annotations, keys, r.updatedAt)
  }

  function AssetOf(t: Tables, u: Uuid): Asset
    requires u < |t.assets|
  {
    Assembled(t.assets[u], ItemsOf(t.tags, u), ItemsOf(t.venues, u), AsCustom(ItemsOf(t.customs, u)), ItemsOf(t.history, u))
  }

  function AssetsOf(t: Tables): (r: seq<Asset>)
    ensures |r| == |t.assets| && forall u | 0 <= u < |r| :: r[u] == AssetOf(t, u)
  {
    seq(|t.assets|, u requires 0 <= u < |t.assets| => AssetOf(t, u))
  }

  /** Only asset `u` changed, and it is now `a`. */
  ghost predicate Becomes(t: Tables, t': Tables, u: Uuid, a: Asset) {
    && |t'.assets| == |t.assets| && u < |t.assets| && AssetOf(t', u) == a
    && forall v | 0 <= v < |t.assets| && v != u :: AssetOf(t', v) == AssetOf(t, v)
  }

  lemma BecomesUpdates(t: Tables, t': Tables, u: Uuid, a: Asset)
    requires Becomes(t, t', u, a)
    ensures AssetsOf(t') == AssetsOf(t)[u := a]
  {
  }

  lemma TagsBecome(t: Tables, tags: seq<ChildRow<string>>, u: Uuid, items: seq<string>)
    requires u < |t.assets| && Holds(t.tags, tags, u, items)
    ensures Becomes(t, t.(tags := tags), u, AssetOf(t, u).(tags := items))
  {
  }

  lemma VenuesBecome(t: Tables, venues: seq<ChildRow<Venue>>, u: Uuid, items: seq<Venue>)
    requires u < |t.assets| && Holds(t.venues, venues, u, items)
    ensures Becomes(t, t.(venues := venues), u, AssetOf(t, u).(venues := items))
  {
  }

  lemma CustomBecomes(t: Tables, customs: seq<ChildRow<Attribute>>, u: Uuid, items: seq<Attribute>)
    requires u < |t.assets| && Holds(t.customs, customs, u, items)
    ensures Becomes(t, t.(customs := customs), u, AssetOf(t, u).(custom := AsCustom(items)))
  {
  }

  lemma KeysBecome(t: Tables, history: seq<ChildRow<KeyInterval>>, u: Uuid, keys: seq<KeyInterval>)
    requires u < |t.assets| && Holds(t.history, history, u, keys)
    ensures Becomes(t, t.(history := history), u, AssetOf(t, u).(keys := keys))
  {
  }

  lemma RowBecomes(t: Tables, u: Uuid, r: AssetRow)
    requires u < |t.assets|
    ensures var a := AssetOf(t, u);
            Becomes(t, t.(assets := t.assets[u := r]), u, Assembled(r, a.tags, a.venues, a.custom, a.keys))
  {
  }

  lemma BecomesTwice(t: Tables, t': Tables, t'': Tables, u: Uuid, a: Asset, b: Asset)
    requires Becomes(t, t', u, a) && Becomes(t', t'', u, b)
    ensures Becomes(t, t'', u, b)
  {
  }

  /** No child row is waiting for an asset that does not exist yet. */
  ghost predicate NoOrphans(t: Tables) {
    forall v: Uuid | v >= |t.assets| ::
      ItemsOf(t.tags, v) == [] && ItemsOf(t.venues, v) == [] && ItemsOf(t.customs, v) == [] && ItemsOf(t.history, v) == []
  }

  ghost predicate KeysChained(assets: seq<Asset>) {
    forall u | 0 <= u < |assets| :: KeyChain(assets[u].keys)
  }

  lemma CoreChainsKeys(env: Env, s: Db)
    requires AllAssets(env, s)
    ensures KeysChained(s.assets)
  {
  }

  /** A commit sets the proposals it is given, whatever was there. */
  lemma CommitReplacesProposals(
    s: Db, ps: seq<Proposal>, u: Uuid, a: Asset, action: AdminAction, signature: Signature, now: int)
    requires u < |s.assets|
    ensures CommitAdmin(s.(proposals := ps), u, a, action, signature, ps, now) == CommitAdmin(s, u, a, action, signature, ps, now)
  {
  }

  class Registry {
    var assets: seq<AssetRow>
    var tags: seq<ChildRow<string>>
    var venues: seq<ChildRow<Venue>>
    var customs: seq<ChildRow<Attribute>>
    var history: seq<ChildRow<KeyInterval>>
    var actions: seq<Entry>
    var proposals: seq<Proposal>
    var fragments: map<Uuid, Fragment>
    var admin: Admin.AdminDb
    var nextSequence: nat

    function Rows(): Tables reads this { TableSet(assets, tags, venues, customs, history) }

    function Snapshot(): Db reads this { Db(AssetsOf(Rows()), actions, proposals, fragments, admin, nextSequence) }

    ghost predicate Valid() reads this { NoOrphans(Rows()) && KeysChained(Snapshot().assets) }

    constructor ()
      ensures Valid() && Snapshot() == EMPTY_REGISTRY
    {
      assets, tags, venues, customs, history := [], [], [], [], [];
      actions, proposals, fragments, admin, nextSequence := [], [], map[], Admin.AdminDb(map[], []), 1;
    }

    // ---- The effects of issuer actions ----

    method ReplaceCategoryTags(u: Uuid, items: seq<string>)
      requires u < |assets| && NoOrphans(Rows())
      modifies `tags
      ensures NoOrphans(Rows()) && Becomes(old(Rows()), Rows(), u, AssetOf(old(Rows()), u).(tags := items))
    {
      ghost var t := Rows();
      tags := ReplaceChildren(tags, u, items);
      TagsBecome(t, tags, u, items);
    }

    /** False when the unique index on (asset, url) refuses the flush. */
    method ReplaceTradingVenues(u: Uuid, items: seq<Venue>) returns (ok: bool)
      requires u < |assets| && NoOrphans(Rows())
      modifies `venues
      ensures NoOrphans(Rows()) && Becomes(old(Rows()), Rows(), u, AssetOf(old(Rows()), u).(venues := items))
      ensures ok <==> !RepeatsUrl(items)
    {
      ghost var t := Rows();
      venues := ReplaceChildren(venues, u, items);
      VenuesBecome(t, venues, u, items);
      ok := FlushVenues(items);
    }

    method ReplaceCustom(u: Uuid, custom: Custom)
      requires u < |assets| && NoOrphans(Rows())
      modifies `customs
      ensures NoOrphans(Rows()) && Becomes(old(Rows()), Rows(), u, AssetOf(old(Rows()), u).(custom := custom))
    {
      ghost var t := Rows();
      var items := Attributes(custom);
      customs := ReplaceChildren(customs, u, items);
      CustomBecomes(t, customs, u, items);
    }

    method DeleteCustomField(u: Uuid, key: string)
      requires u < |assets| && NoOrphans(Rows())
      modifies `customs
      ensures NoOrphans(Rows())
      ensures var a := AssetOf(old(Rows()), u); Becomes(old(Rows()), Rows(), u, a.(custom := a.custom - {key}))
    {
      ghost var t := Rows();
      ghost var items := ItemsOf(customs, u);
      customs := DeleteAttribute(customs, u, key);
      UnnamedDropsKey(items, key);
      CustomBecomes(t, customs, u, Unnamed(items, key));
    }

    method SetCustomField(u: Uuid, key: string, value: Value)
      requires u < |assets| && NoOrphans(Rows())
      modifies `customs
      ensures NoOrphans(Rows())
      ensures var a := AssetOf(old(Rows()), u); Becomes(old(Rows()), Rows(), u, a.(custom := a.custom[key := value]))
    {
      ghost var t := Rows();
      ghost var items := ItemsOf(customs, u);
      customs := DeleteAttribute(customs, u, key);
      ghost var rest := Unnamed(items, key);
      UnnamedDropsKey(items, key);
      customs := InsertChildren(customs, u, [Attribute(key, value)]);
      AsCustomAppend(rest, Attribute(key, value));
      assert (AsCustom(items) - {key})[key := value] == AsCustom(items)[key := value];
      CustomBecomes(t, customs, u, rest + [Attribute(key, value)]);
    }

    method RotateIssuerKey(u: Uuid, newKey: Pubkey, sequence: nat)
      requires u < |assets| && NoOrphans(Rows()) && KeyChain(ItemsOf(history, u))
      modifies `history, `assets
      ensures NoOrphans(Rows())
      ensures var a := AssetOf(old(Rows()), u);
              Becomes(old(Rows()), Rows(), u, a.(currentKey := newKey, keys := Rotated(a.keys, newKey, sequence)))
    {
      ghost var t := Rows();
      ghost var keys := Rotated(ItemsOf(history, u), newKey, sequence);
      history := RotateHistory(history, u, newKey, sequence);
      KeysBecome(t, history, u, keys);
      ghost var t' := Rows();
      assets := assets[u := assets[u].(currentKey := newKey)];
      RowBecomes(t', u, assets[u]);
      BecomesTwice(t, t', Rows(), u, AssetOf(t', u), AssetOf(Rows(), u));
    }

    /** Assign columns of the asset's own row. */
    method SetRow(u: Uuid, r: AssetRow)
      requires u < |assets| && NoOrphans(Rows())
      modifies `assets
      ensures NoOrphans(Rows()) && assets == old(assets)[u := r]
      ensures var a := AssetOf(old(Rows()), u);
              Becomes(old(Rows()), Rows(), u, Assembled(r, a.tags, a.venues, a.custom, a.keys))
    {
      RowBecomes(Rows(), u, r);
      assets := assets[u := r];
    }

    /** `_apply_action`. */
    method ApplyAction(u: Uuid, op: IssuerOp, sequence: nat, now: int) returns (ok: bool)
      requires u < |assets| && NoOrphans(Rows()) && KeyChain(ItemsOf(history, u)) && !op.ProposeIcon?
      modifies `assets, `tags, `venues, `customs, `history, `proposals
      ensures NoOrphans(Rows())
      ensures Becomes(old(Rows()), Rows(), u, ApplyOp(AssetOf(old(Rows()), u), op, sequence).(updatedAt := now))
      ensures proposals == if op.Deregister? then ObsoleteAll(old(proposals), u, sequence) else old(proposals)
      ensures ok <==> !(op.ReplaceTradingVenues? && RepeatsUrl(op.venues))
    {
      hide Rotated, AsCustom, ItemsOf;
      ghost var t := Rows();
      ok := true;
      SetRow(u, assets[u].(updatedAt := now));
      ghost var touched := Rows();
      match op {
        case ReplaceCategoryTags(_, items) => ReplaceCategoryTags(u, items);
        case ReplaceTradingVenues(_, items) => ok := ReplaceTradingVenues(u, items);
        case ReplaceCustom(_, custom) => ReplaceCustom(u, custom);
        case SetCustomField(_, key, value) => SetCustomField(u, key, value);
        case DeleteCustomField(_, key) => DeleteCustomField(u, key);
        case RotateIssuerPubkey(newKey) => RotateIssuerKey(u, newKey, sequence);
        case Deregister =>
          SetRow(u, assets[u].(status := Deregistered, icon := None));
          proposals := ObsoleteProposals(proposals, u, sequence);
      }
      BecomesTwice(t, touched, Rows(), u, AssetOf(touched, u), AssetOf(Rows(), u));
    }

    // ---- Log and cache ----

    method AddAction(e: Entry)
      requires e.sequence == nextSequence
      modifies `actions, `nextSequence
      ensures actions == old(actions) + [e] && nextSequence == old(nextSequence) + 1
    {
      actions := actions + [e];
      nextSequence := nextSequence + 1;
    }

    method RefreshFragments(u: Uuid)
      requires u < |assets|
      modifies `fragments
      ensures Snapshot() == Refreshed(old(Snapshot()), u)
    {
      fragments := fragments[u := FreshFragment(AssetOf(Rows(), u), LogOf(actions, u), proposals)];
    }

    method DeleteFragments(u: Uuid)
      modifies `fragments
      ensures Snapshot() == FragmentDropped(old(Snapshot()), u)
    {
      fragments := fragments - {u};
    }

    /** Store the asset's own row and the action that changed it. */
    method StoreRow(u: Uuid, r: AssetRow, e: Entry)
      requires u < |assets| && NoOrphans(Rows()) && e.sequence == nextSequence
      modifies `assets, `actions, `nextSequence
      ensures NoOrphans(Rows()) && |assets| == |old(assets)|
      ensures var a := AssetOf(old(Rows()), u);
              Snapshot() == Committed(old(Snapshot()), u, Assembled(r, a.tags, a.venues, a.custom, a.keys), e, proposals)
    {
      ghost var before := Rows();
      SetRow(u, r);
      BecomesUpdates(before, Rows(), u, AssetOf(Rows(), u));
      AddAction(e);
    }

    /** Put back what the transaction changed; the audit number stays spent. */
    method Rollback(t: Tables, actions: seq<Entry>, proposals: seq<Proposal>)
      modifies `assets, `tags, `venues, `customs, `history, `actions, `proposals
      ensures Rows() == t && this.actions == actions && this.proposals == proposals
    {
      assets, tags, venues, customs, history := t.assets, t.tags, t.venues, t.customs, t.history;
      this.actions, this.proposals := actions, proposals;
    }

    // ---- Transactions ----

    /** Log an issuer action and apply it. */
    method LogAndApply(u: Uuid, op: IssuerOp, row: Entry, now: int) returns (ok: bool)
      requires Valid() && u < |assets| && !op.ProposeIcon? && row.sequence == nextSequence
      modifies this
      ensures NoOrphans(Rows()) && |assets| == |old(assets)|
      ensures var s := old(Snapshot());
              Snapshot() == Committed(s, u, ApplyOp(s.assets[u], op, row.sequence).(updatedAt := now), row,
                                      if op.Deregister? then ObsoleteAll(s.proposals, u, row.sequence) else s.proposals)
      ensures ok <==> !(op.ReplaceTradingVenues? && RepeatsUrl(op.venues))
    {
      ghost var before := Rows();
      assert KeyChain(AssetOf(before, u).keys) by { assert KeyChain(AssetsOf(before)[u].keys); }
      AddAction(row);
      ok := ApplyAction(u, op, row.sequence, now);
      BecomesUpdates(before, Rows(), u, AssetOf(Rows(), u));
    }

    /** The database part of `submit_issuer_action`: false when the flush fails, and then only the audit
        number is gone. */
    method PersistIssuerAction(env: Env, u: Uuid, action: IssuerAction, signature: Signature, now: int) returns (ok: bool)
      requires Valid() && u < |assets| && !action.op.ProposeIcon?
      modifies this
      ensures NoOrphans(Rows())
      ensures ok <==> !(action.op.ReplaceTradingVenues? && RepeatsUrl(action.op.venues))
      ensures Snapshot() == if ok then CommitIssuerAction(env, old(Snapshot()), u, action, signature, now) else RolledBack(old(Snapshot()))
    {
      var before, actionsBefore, proposalsBefore := Rows(), actions, proposals;
      var row := IssuerEntry(env, nextSequence, u, assets[u].currentKey, action, signature);
      ok := LogAndApply(u, action.op, row, now);
      if !ok { Rollback(before, actionsBefore, proposalsBefore); }
      else if action.op.Deregister? { DeleteFragments(u); }
      else { RefreshFragments(u); }
    }

    /** `submit_issuer_action`. */
    method SubmitIssuerAction(env: Env, url: string, action: IssuerAction, signature: Signature, now: int, window: int)
      returns (o: Outcome)
      requires Valid()
      modifies this
      ensures NoOrphans(Rows())
      ensures (Snapshot(), o) == RegistrySteps.SubmitIssuerAction(env, old(Snapshot()), url, action, signature, now, window)
    {
      var g := IssuerGate(env, Snapshot(), url, action, signature, now, window);
      if g.Stop? { return g.outcome; }
      var row := IssuerEntry(env, nextSequence, g.uuid, assets[g.uuid].currentKey, action, signature);
      var ok := PersistIssuerAction(env, g.uuid, action, signature, now);
      o := if ok then Applied(row) else Rejected(NonceConflict);
    }

    method PersistDeletion(u: Uuid, signature: Signature, now: int) returns (row: Entry)
      requires Valid() && u < |assets|
      modifies this
      ensures NoOrphans(Rows()) && (Snapshot(), Applied(row)) == CommitDeletion(old(Snapshot()), u, signature, now)
    {
      row := DeletionEntry(nextSequence, u, AssetOf(Rows(), u), signature);
      StoreRow(u, assets[u].(status := Deregistered, icon := None, updatedAt := now), row);
      DeleteFragments(u);
      proposals := ObsoleteProposals(proposals, u, row.sequence);
    }

    /** `deregister_legacy_asset`. */
    method DeregisterLegacy(env: Env, assetId: string, signature: Signature, now: int) returns (o: Outcome)
      requires Valid()
      modifies this
      ensures NoOrphans(Rows())
      ensures (Snapshot(), o) == RegistrySteps.DeregisterLegacy(env, old(Snapshot()), assetId, signature, now)
    {
      var g := FindTarget(Snapshot(), assetId);
      if g.Stop? { return g.outcome; }
      if !env.verifyDeletion(assets[g.uuid].currentKey, signature, assetId) { return Rejected(InvalidSignature); }
      var row := PersistDeletion(g.uuid, signature, now);
      o := Applied(row);
    }

    method PersistMigration(env: Env, u: Uuid, now: int) returns (row: Entry)
      requires Valid() && u < |assets|
      modifies this
      ensures NoOrphans(Rows()) && (Snapshot(), Applied(row)) == CommitMigration(env, old(Snapshot()), u, now)
    {
      var payload := PMigrate(assets[u].assetId, assets[u].contract.version, assets[u].source);
      row := SystemEntry(nextSequence, u, payload, Some(env.actionHash(payload)));
      StoreRow(u, assets[u].(source := MigratedLegacyRecord, updatedAt := now), row);
      RefreshFragments(u);
    }

    /** `migrate_legacy_asset_to_v2`. */
    method MigrateAssetToV2(env: Env, assetId: string, approval: Option<(AdminAction, Signature)>, now: int, window: int)
      returns (o: Outcome)
      requires Valid()
      modifies this
      ensures NoOrphans(Rows())
      ensures (Snapshot(), o) == RegistrySteps.MigrateAssetToV2(env, old(Snapshot()), assetId, approval, now, window)
    {
      var g := MigrationTarget(env, Snapshot(), assetId, approval, now, window);
      if g.Stop? { return g.outcome; }
      var row := PersistMigration(env, g.uuid, now);
      o := Applied(row);
    }

    /** `_commit_icon_proposal`. */
    method PersistProposal(env: Env, u: Uuid, action: IssuerAction, image: Option<Bytes>, signature: Signature, now: int)
      returns (row: Entry)
      requires Valid() && u < |assets| && action.op.ProposeIcon?
      modifies this
      ensures NoOrphans(Rows())
      ensures (Snapshot(), Applied(row)) == CommitProposal(env, old(Snapshot()), u, action, image, signature, now)
    {
      row := IssuerEntry(env, nextSequence, u, assets[u].currentKey, action, signature);
      StoreRow(u, assets[u].(updatedAt := now), row);
      proposals := proposals + [Proposal(u, action.op.iconHash, image, Pending, row.sequence, None, None)];
      RefreshFragments(u);
    }

    /** `submit_icon_proposal`. */
    method SubmitIconProposal(
      env: Env, url: string, action: IssuerAction, image: Option<Bytes>, signature: Signature, now: int, window: int)
      returns (o: Outcome)
      requires Valid()
      modifies this
      ensures NoOrphans(Rows())
      ensures (Snapshot(), o) == RegistrySteps.SubmitIconProposal(env, old(Snapshot()), url, action, image, signature, now, window)
    {
      var g := ProposalGate(env, Snapshot(), url, action, image, signature, now, window);
      if g.Stop? { return g.outcome; }
      var row := PersistProposal(env, g.uuid, action, image, signature, now);
      o := Applied(row);
    }

    /** Log an admin action and mark the asset changed by it, its row otherwise becoming `r`. */
    method PersistAdmin(u: Uuid, r: AssetRow, action: AdminAction, signature: Signature, now: int) returns (row: Entry)
      requires u < |assets| && NoOrphans(Rows())
      modifies `assets, `actions, `nextSequence, `fragments
      ensures NoOrphans(Rows())
      ensures var a := AssetOf(old(Rows()), u);
              (Snapshot(), Applied(row))
              == CommitAdmin(old(Snapshot()), u, Assembled(r, a.tags, a.venues, a.custom, a.keys), action, signature, proposals, now)
    {
      row := AdminEntryOf(nextSequence, u, action, signature);
      var n := r.annotations.(lastAction := Some(row.sequence), updatedBy := Some(action.actor));
      StoreRow(u, r.(annotations := n, updatedAt := now), row);
      RefreshFragments(u);
    }

    /** `_apply_icon_decision`: the proposal is decided in place; the row it leaves is returned. */
    method ApplyIconDecision(u: Uuid, i: nat, approve: bool, sequence: nat) returns (r: AssetRow)
      requires u < |assets| && i < |proposals|
      modifies `proposals
      ensures proposals == old(proposals)[i := Decided(old(proposals)[i], approve, sequence)]
      ensures r == if approve then assets[u].(icon := Some(i)) else assets[u]
    {
      r := assets[u];
      var p := proposals[i];
      if approve {
        p := p.(status := Approved);
        r := r.(icon := Some(i));
      } else {
        p := p.(status := IconRejected);
        p := p.(image := None);
      }
      proposals := proposals[i := p.(decidedBy := Some(sequence))];
    }

    /** `_persist_icon_decision`. */
    method PersistDecision(u: Uuid, i: nat, action: AdminAction, signature: Signature, now: int) returns (row: Entry)
      requires Valid() && u < |assets| && i < |proposals| && IsDecision(action.op)
      modifies this
      ensures NoOrphans(Rows())
      ensures (Snapshot(), Applied(row)) == CommitDecision(old(Snapshot()), u, i, action, signature, now)
    {
      ghost var s := Snapshot();
      var r := ApplyIconDecision(u, i, action.op.ApproveIcon?, nextSequence);
      row := PersistAdmin(u, r, action, signature, now);
      CommitReplacesProposals(s, proposals, u, Assembled(r, s.assets[u].tags, s.assets[u].venues, s.assets[u].custom, s.assets[u].keys),
                              action, signature, now);
    }

    /** `decide_icon_proposal`. */
    method DecideIconProposal(env: Env, url: string, action: AdminAction, signature: Signature, now: int, window: int)
      returns (o: Outcome)
      requires Valid()
      modifies this
      ensures NoOrphans(Rows())
      ensures (Snapshot(), o) == RegistrySteps.DecideIconProposal(env, old(Snapshot()), url, action, signature, now, window)
    {
      var g := DecisionGate(env, Snapshot(), url, action, signature, now, window);
      if g.Stop? { return g.outcome; }
      var i := LastProposal(proposals, WaitingWithHash(g.uuid, action.op.hash)).value;
      var row := PersistDecision(g.uuid, i, action, signature, now);
      o := Applied(row);
    }

    /** Approve the reused proposal if it is undecided, or add an approved one. */
    method StoreUpload(u: Uuid, reuse: Option<nat>, hash: Hash, image: Option<Bytes>, sequence: nat) returns (i: nat)
      requires reuse.Some? ==> reuse.value < |proposals|
      modifies `proposals
      ensures match reuse
              case Some(k) =>
                i == k && proposals == if old(proposals)[k].status == Pending
                                       then old(proposals)[k := Decided(old(proposals)[k], true, sequence)] else old(proposals)
              case None =>
                i == |old(proposals)|
                && proposals == old(proposals) + [Proposal(u, hash, image, Approved, sequence, Some(sequence), None)]
    {
      i := |proposals|;
      if reuse.Some? {
        i := reuse.value;
        if proposals[i].status == Pending {
          proposals := proposals[i := proposals[i].(status := Approved, decidedBy := Some(sequence))];
        }
      } else {
        proposals := proposals + [Proposal(u, hash, image, Approved, sequence, Some(sequence), None)];
      }
    }

    /** `_persist_admin_icon_assignment`. */
    method PersistAssignment(
      u: Uuid, reuse: Option<nat>, action: AdminAction, image: Option<Bytes>, signature: Signature, now: int)
      returns (row: Entry)
      requires Valid() && u < |assets| && action.op.SetIcon? && (reuse.Some? ==> reuse.value < |proposals|)
      modifies this
      ensures NoOrphans(Rows())
      ensures (Snapshot(), Applied(row)) == AssignIcon(old(Snapshot()), u, reuse, action, image, signature, now)
    {
      ghost var s := Snapshot();
      var i := StoreUpload(u, reuse, action.op.hash, image, nextSequence);
      row := PersistAdmin(u, assets[u].(icon := Some(i)), action, signature, now);
      CommitReplacesProposals(s, proposals, u, s.assets[u].(icon := Some(i)), action, signature, now);
    }

    /** `set_admin_asset_icon`. */
    method SetAdminIcon(
      env: Env, url: string, action: AdminAction, image: Option<Bytes>, signature: Signature, now: int, window: int)
      returns (o: Outcome)
      requires Valid()
      modifies this
      ensures NoOrphans(Rows())
      ensures (Snapshot(), o) == RegistrySteps.SetAdminIcon(env, old(Snapshot()), url, action, image, signature, now, window)
    {
      var g := SetIconGate(env, Snapshot(), url, action, image, signature, now, window);
      if g.Stop? { return g.outcome; }
      var reuse := ReusableProposal(Snapshot(), g.uuid, action.op.hash);
      var row := PersistAssignment(g.uuid, reuse, action, image, signature, now);
      o := Applied(row);
    }

    /** Assign the annotation fields an update names. */
    method SetFields(n: Annotations, c: Changes) returns (after: Annotations)
      requires !SetsNull(c)
      ensures after == Annotated(n, c)
    {
      after := n;
      if c.assetType.Some? { after := after.(assetType := c.assetType.value); }
      if c.featured.Some? { after := after.(featured := c.featured.value.value); }
      if c.malicious.Some? { after := after.(malicious := c.malicious.value.value); }
      if c.delisted.Some? { after := after.(delisted := c.delisted.value.value); }
      if c.notes.Some? { after := after.(notes := c.notes.value); }
    }

    /** The annotation row an action leaves, or why it is refused. */
    method EditAnnotations(n: Annotations, op: AdminOp) returns (r: Result<Annotations, Error>)
      requires IsAnnotation(op)
      ensures r == NewAnnotations(n, op)
    {
      match op {
        case UpdateAnnotations(changes) =>
          if ChangesNothing(n, changes) { return Failure(NoOpAction); }
          if SetsNull(changes) { return Failure(InternalError); }
          var after := SetFields(n, changes);
          return Success(after);
        case ForceDelist(reason) =>
          if n.delisted { return Failure(NoOpAction); }
          var after := n.(delisted := true);
          if reason.Some? { after := after.(notes := reason); }
          return Success(after);
        case ForceRelist(reason) =>
          if !n.delisted { return Failure(NoOpAction); }
          var after := n.(delisted := false);
          if reason.Some? { after := after.(notes := reason); }
          return Success(after);
      }
    }

    /** Annotation updates and forced delisting (`registry_api/admin.py`). */
    method AnnotateAsset(env: Env, url: string, action: AdminAction, signature: Signature, now: int, window: int)
      returns (o: Outcome)
      requires Valid()
      modifies this
      ensures NoOrphans(Rows())
      ensures (Snapshot(), o) == RegistrySteps.AnnotateAsset(env, old(Snapshot()), url, action, signature, now, window)
    {
      hide AnnotationGate, CommitAdmin;
      var g := AnnotationGate(env, Snapshot(), url, action, signature, now, window);
      if g.Stop? { return g.outcome; }
      var edited := EditAnnotations(assets[g.uuid].annotations, action.op);
      if edited.Failure? {
        if edited.error == InternalError { nextSequence := nextSequence + 1; }
        return Rejected(edited.error);
      }
      var row := PersistAdmin(g.uuid, assets[g.uuid].(annotations := edited.value), action, signature, now);
      o := Applied(row);
    }

    /** One icon of the legacy import. */
    method ImportLegacyIcon(env: Env, assetId: string, image: Bytes, now: int) returns (o: Outcome)
      requires Valid()
      modifies this
      ensures NoOrphans(Rows())
      ensures (Snapshot(), o) == RegistrySteps.ImportLegacyIcon(env, old(Snapshot()), assetId, image, now)
    {
      if !env.validLegacyIcon(image) { return Rejected(InvalidIcon); }
      var g := FindTarget(Snapshot(), assetId);
      if g.Stop? { return g.outcome; }
      var current := CurrentIcon(AssetOf(Rows(), g.uuid), proposals);
      if current.Some? {
        return Rejected(if current.value.hash == env.imageHash(image) then NoOpAction else AssetConflict);
      }
      var row := PersistImport(env, g.uuid, image, now);
      o := Applied(row);
    }

    method PersistImport(env: Env, u: Uuid, image: Bytes, now: int) returns (row: Entry)
      requires Valid() && u < |assets|
      modifies this
      ensures NoOrphans(Rows()) && (Snapshot(), Applied(row)) == CommitImport(env, old(Snapshot()), u, image, now)
    {
      var hash := env.imageHash(image);
      row := SystemEntry(nextSequence, u, PImportIcon(assets[u].assetId, hash), None);
      var i := |proposals|;
      StoreRow(u, assets[u].(icon := Some(i), updatedAt := now), row);
      proposals := proposals + [Proposal(u, hash, Some(image), Approved, row.sequence, Some(row.sequence), None)];
      RefreshFragments(u);
    }

    /** One asset of `backfill_issuance`, once the chain has been asked. */
    method BackfillIssuance(u: Uuid, txin: Reference, prevout: Reference) returns (o: Outcome)
      requires Valid()
      modifies this
      ensures NoOrphans(Rows())
      ensures (Snapshot(), o) == RegistrySteps.BackfillIssuance(old(Snapshot()), u, txin, prevout)
    {
      if u >= |assets| || (assets[u].issuance.txin.Some? && assets[u].issuance.prevout.Some?) { return Rejected(AssetNotFound); }
      var known := assets[u].issuance;
      if (known.txin.Some? && known.txin.value != txin) || (known.prevout.Some? && known.prevout.value != prevout) {
        return Rejected(ReferenceConflict);
      }
      ghost var before := Rows();
      SetRow(u, assets[u].(issuance := Issuance(Some(txin), Some(prevout))));
      BecomesUpdates(before, Rows(), u, AssetOf(Rows(), u));
      RefreshFragments(u);
      o := Changed;
    }

    // ---- Registration ----

    /** `_insert_mutable_rows`; false when the unique index on (asset, url) refuses the flush. */
    method InsertMutableRows(u: Uuid, mutable: Mutable) returns (ok: bool, ghost attributes: seq<Attribute>)
      modifies `venues, `tags, `customs
      ensures Holds(old(venues), venues, u, ItemsOf(old(venues), u) + mutable.venues)
      ensures Holds(old(tags), tags, u, ItemsOf(old(tags), u) + mutable.tags)
      ensures AsCustom(attributes) == mutable.custom && Holds(old(customs), customs, u, ItemsOf(old(customs), u) + attributes)
      ensures ok <==> !RepeatsUrl(mutable.venues)
    {
      venues := InsertChildren(venues, u, mutable.venues);
      tags := InsertChildren(tags, u, mutable.tags);
      var items := Attributes(mutable.custom);
      customs := InsertChildren(customs, u, items);
      attributes := items;
      ok := FlushVenues(mutable.venues);
    }

    /** Add an asset row with its first action, key and child rows. */
    method InsertAsset(r: AssetRow, e: Entry, mutable: Mutable) returns (ok: bool)
      requires Valid() && e.sequence == nextSequence
      modifies this
      ensures NoOrphans(Rows()) && (ok <==> !RepeatsUrl(mutable.venues))
      ensures var key := KeyInterval(r.currentKey, e.sequence, None);
              AssetsOf(Rows()) == AssetsOf(old(Rows())) + [Assembled(r, mutable.tags, mutable.venues, mutable.custom, [key])]
      ensures actions == old(actions) + [e] && nextSequence == old(nextSequence) + 1
      ensures proposals == old(proposals) && fragments == old(fragments) && admin == old(admin)
    {
      hide AsCustom, ItemsOf;
      ghost var before := Rows();
      var u := |assets|;
      assets := assets + [r];
      AddAction(e);
      history := InsertChildren(history, u, [KeyInterval(r.currentKey, e.sequence, None)]);
      ghost var attributes;
      ok, attributes := InsertMutableRows(u, mutable);
      RegisteredAssembles(before, Rows(), mutable, attributes, KeyInterval(r.currentKey, e.sequence, None));
    }

    /** The database part of `register_v2_asset`: false when a flush fails, and then only the audit number is gone. */
    method PersistRegistration(
      env: Env, assetId: string, contract: Contract, issuerKey: Pubkey, mutable: Mutable, issuance: Issuance, now: int)
      returns (ok: bool)
      requires Valid()
      modifies this
      ensures NoOrphans(Rows()) && (ok <==> !RepeatsUrl(mutable.venues))
      ensures var payload, s := PRegister(assetId, contract, issuerKey, mutable), old(Snapshot());
              Snapshot() ==
                if ok then
                  CommitRegistration(s, NewAsset(assetId, contract, issuance, issuerKey, FromContract, mutable, s.nextSequence, now),
                                     payload, Some(env.actionHash(payload)))
                else RolledBack(s)
    {
      var before, actionsBefore := Rows(), actions;
      var payload := PRegister(assetId, contract, issuerKey, mutable);
      var row := SystemEntry(nextSequence, |assets|, payload, Some(env.actionHash(payload)));
      ok := InsertAsset(
        AssetRow(assetId, contract, issuance, issuerKey, FromContract, issuerKey, 1, Active, None, NO_ANNOTATIONS, now), row, mutable);
      if !ok { Rollback(before, actionsBefore, proposals); } else { RefreshFragments(|assets| - 1); }
    }

    /** `register_legacy_asset`, once the proofs of control have been checked. */
    method RegisterLegacy(request: LegacyRequest, issuance: Issuance, now: int) returns (o: Outcome)
      requires Valid()
      modifies this
      ensures NoOrphans(Rows())
      ensures (Snapshot(), o) == RegistrySteps.RegisterLegacy(old(Snapshot()), request, issuance, now)
    {
      hide FreshFragment, LogOf;
      if request.contract.version != 0 { return Rejected(ValidationError); }
      if FindActive(Snapshot().assets, request.assetId).Some? || NamespaceTaken(Snapshot().assets, request.contract) {
        return Rejected(AssetConflict);
      }
      var row := SystemEntry(nextSequence, |assets|, PLegacyRegister(request), None);
      var ok := InsertAsset(
        AssetRow(request.assetId, request.contract, issuance, request.issuerKey, RegistryRegistration, request.issuerKey, 1, Active,
                 None, NO_ANNOTATIONS, now), row, Mutable([], [], map[]));
      RefreshFragments(|assets| - 1);
      o := Applied(row);
    }

    /** `register_v2_asset`, once the proofs of control have been checked. */
    method RegisterV2(
      env: Env, assetId: string, contract: Contract, issuerKey: Pubkey, mutable: Mutable, issuance: Issuance, now: int)
      returns (o: Outcome)
      requires Valid()
      modifies this
      ensures NoOrphans(Rows())
      ensures (Snapshot(), o)
           == RegistrySteps.RegisterV2(env, old(Snapshot()), assetId, contract, issuerKey, mutable, issuance, now)
    {
      if contract.version != 2 || contract.ticker.None? || Admin.HasDuplicates(mutable.tags) { return Rejected(ValidationError); }
      // The unique indexes on active rows refuse the first flush.
      if FindActive(Snapshot().assets, assetId).Some? || NamespaceTaken(Snapshot().assets, contract) { return Rejected(AssetConflict); }
      var payload := PRegister(assetId, contract, issuerKey, mutable);
      var row := SystemEntry(nextSequence, |assets|, payload, Some(env.actionHash(payload)));
      var ok := PersistRegistration(env, assetId, contract, issuerKey, mutable, issuance, now);
      o := if ok then Applied(row) else Rejected(AssetConflict);
    }

    // ---- Whole sessions ----

    /** One signed request. */
    method Request(env: Env, step: Step, now: int) returns (o: Outcome)
      requires Valid() && (step.SIssuer? || step.SPropose? || step.SDecide? || step.SSetIcon? || step.SAnnotate?)
      modifies this
      ensures NoOrphans(Rows()) && (Snapshot(), o) == Perform(env, old(Snapshot()), step, now)
    {
      hide RegistrySteps.SubmitIssuerAction, RegistrySteps.SubmitIconProposal, RegistrySteps.DecideIconProposal,
           RegistrySteps.SetAdminIcon, RegistrySteps.AnnotateAsset;
      match step {
        case SIssuer(url, action, signature, window) => o := SubmitIssuerAction(env, url, action, signature, now, window);
        case SPropose(url, action, image, signature, window) =>
          o := SubmitIconProposal(env, url, action, image, signature, now, window);
        case SDecide(url, action, signature, window) => o := DecideIconProposal(env, url, action, signature, now, window);
        case SSetIcon(url, action, image, signature, window) =>
          o := SetAdminIcon(env, url, action, image, signature, now, window);
        case SAnnotate(url, action, signature, window) => o := AnnotateAsset(env, url, action, signature, now, window);
      }
    }

    /** Any other transaction. */
    method Maintain(env: Env, step: Step, now: int) returns (o: Outcome)
      requires Valid() && !(step.SIssuer? || step.SPropose? || step.SDecide? || step.SSetIcon? || step.SAnnotate?)
      modifies this
      ensures NoOrphans(Rows()) && (Snapshot(), o) == Perform(env, old(Snapshot()), step, now)
    {
      hide RegistrySteps.RegisterV2, RegistrySteps.RegisterLegacy, RegistrySteps.MigrateAssetToV2,
           RegistrySteps.DeregisterLegacy, RegistrySteps.ImportLegacyIcon, RegistrySteps.BackfillIssuance, SubmitAdminLifecycle;
      match step {
        case SRegisterV2(assetId, contract, issuerKey, mutable, issuance) =>
          o := RegisterV2(env, assetId, contract, issuerKey, mutable, issuance, now);
        case SRegisterLegacy(request, issuance) => o := RegisterLegacy(request, issuance, now);
        case SMigrate(assetId, approval, window) => o := MigrateAssetToV2(env, assetId, approval, now, window);
        case SDeregisterLegacy(assetId, signature) => o := DeregisterLegacy(env, assetId, signature, now);
        case SImportIcon(assetId, icon) => o := ImportLegacyIcon(env, assetId, icon, now);
        case SBackfill(u, txin, prevout) => o := BackfillIssuance(u, txin, prevout);
        case SLifecycle(action, signature, window) => o := ChangeAdmins(env, action, signature, now, window);
        case SBootstrap(genesis) =>
          admin := Admin.Bootstrap(admin, genesis);
          o := Changed;
      }
    }

    /** An admin lifecycle submission; the key and permission rows are edited as in `AdminSession`. */
    method ChangeAdmins(env: Env, action: Admin.LifecycleAction, signature: Signature, now: int, window: int) returns (o: Outcome)
      modifies `admin, `nextSequence
      ensures (Snapshot(), o) == SubmitAdminLifecycle(env, old(Snapshot()), action, signature, now, window)
    {
      var (after, outcome) := Admin.SubmitLifecycle(
        admin, nextSequence, action, env.verifyLifecycle(signature, action), LatestAdminAssetTime(actions, action.actor), now, window);
      match outcome {
        case Applied(_) => admin, nextSequence, o := after, nextSequence + 1, Changed;
        case Retry(_) => o := Changed;
        case Rejected(error) => o := RegistryModel.Rejected(Lifecycle(error));
        case RolledBack(error) => nextSequence, o := nextSequence + 1, RegistryModel.Rejected(Lifecycle(error));
      }
    }

    /** A session that has followed a run follows it through the next event. */
    method Follow(env: Env, event: Event, ghost events: seq<Event>) returns (o: Outcome)
      requires NoOrphans(Rows()) && Snapshot() == Run(env, events)
      modifies this
      ensures NoOrphans(Rows()) && Snapshot() == Run(env, events + [event])
      ensures o == Perform(env, Run(env, events), event.step, event.now).1
    {
      hide Perform;
      ReachableIsChained(env, events);
      assert (events + [event])[..|events|] == events;
      var step := event.step;
      if step.SIssuer? || step.SPropose? || step.SDecide? || step.SSetIcon? || step.SAnnotate? {
        o := Request(env, step, event.now);
      } else {
        o := Maintain(env, step, event.now);
      }
    }
  }

  /** The first rows of a new asset assemble to it, and leave the others alone. */
  lemma {:induction false} RegisteredAssembles(t: Tables, t': Tables, mutable: Mutable, attributes: seq<Attribute>, key: KeyInterval)
    requires NoOrphans(t) && |t'.assets| == |t.assets| + 1 && t'.assets[..|t.assets|] == t.assets
    requires Holds(t.venues, t'.venues, |t.assets|, ItemsOf(t.venues, |t.assets|) + mutable.venues)
    requires Holds(t.tags, t'.tags, |t.assets|, ItemsOf(t.tags, |t.assets|) + mutable.tags)
    requires AsCustom(attributes) == mutable.custom
    requires Holds(t.customs, t'.customs, |t.assets|, ItemsOf(t.customs, |t.assets|) + attributes)
    requires Holds(t.history, t'.history, |t.assets|, ItemsOf(t.history, |t.assets|) + [key])
    ensures NoOrphans(t')
    ensures AssetsOf(t') == AssetsOf(t) + [Assembled(t'.assets[|t.assets|], mutable.tags, mutable.venues, mutable.custom, [key])]
  {
    var u := |t.assets|;
    assert [] + mutable.venues == mutable.venues && [] + mutable.tags == mutable.tags && [] + [key] == [key];
    assert [] + attributes == attributes;
    forall v | 0 <= v < u ensures AssetOf(t', v) == AssetOf(t, v) { assert t'.assets[v] == t'.assets[..u][v]; }
  }

  /** Every state a run reaches satisfies what the methods ask for: its key histories are chains. */
  lemma ReachableIsChained(env: Env, events: seq<Event>)
    ensures KeysChained(Run(env, events).assets)
  {
    RunKeepsCore(env, events);
    CoreChainsKeys(env, Run(env, events));
  }

  /** From the empty registry, a session serving any sequence of requests is in the state of that run. */
  method Serve(env: Env, events: seq<Event>) returns (registry: Registry)
    ensures fresh(registry) && NoOrphans(registry.Rows()) && registry.Snapshot() == Run(env, events)
  {
    hide Perform;
    registry := new Registry();
    var i := 0;
    while i < |events|
      invariant i <= |events| && fresh(registry)
      invariant NoOrphans(registry.Rows()) && registry.Snapshot() == Run(env, events[..i])
    {
      assert events[..i + 1] == events[..i] + [events[i]];
      var _ := registry.Follow(env, events[i], events[..i]);
      i := i + 1;
    }
    assert events[..i] == events;
  }
}
