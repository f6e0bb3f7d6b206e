/** The registry's own tables as the audit search and the icon stream read them: what those two ask of their
    input holds after every run. */
module RegistryViews {
  import opened Basics
  import opened RegistryModel
  import opened RegistrySteps
  import opened RegistryInvariants
  import opened RegistryIcons
  import opened RegistrySettles
  import opened RegistryRows
  import Admin = AdminGovernance
  import Audit
  import IconMap

  // ---- Audit rows ----

  /** Operation names and receipt times, which the model does not record, are given from outside. */
  datatype Labels = Labels(action: Entry -> string, lifecycle: Admin.AdminEntry -> string, received: nat -> int)

  function ActorOf(a: Actor): Audit.Actor {
    match a
    case Issuer => Audit.Issuer
    case AdminActor => Audit.AdminActor
    case System => Audit.System
  }

  function ActionRow(s: Db, names: Labels, e: Entry): Audit.Row {
    Audit.Row(e.sequence, Some(if e.asset < |s.assets| then s.assets[e.asset].assetId else ""), names.action(e),
              ActorOf(e.actor), names.received(e.sequence))
  }

  function LifecycleRow(names: Labels, f: Admin.AdminEntry): Audit.Row {
    Audit.Row(f.sequence, None, names.lifecycle(f), Audit.AdminActor, names.received(f.sequence))
  }

  ghost function ActionRows(s: Db, names: Labels): (rows: seq<Audit.Row>)
    ensures |rows| == |s.log| && forall i | 0 <= i < |rows| :: rows[i] == ActionRow(s, names, s.log[i])
  {
    seq(|s.log|, i requires 0 <= i < |s.log| => ActionRow(s, names, s.log[i]))
  }

  ghost function LifecycleRows(log: seq<Admin.AdminEntry>, names: Labels): (rows: seq<Audit.Row>)
    ensures |rows| == |log| && forall i | 0 <= i < |rows| :: rows[i] == LifecycleRow(names, log[i])
  {
    seq(|log|, i requires 0 <= i < |log| => LifecycleRow(names, log[i]))
  }

  ghost function AuditTables(s: Db, names: Labels): Audit.Tables {
    Audit.Tables(ActionRows(s, names), LifecycleRows(s.admin.log, names))
  }

  lemma ActionRowsFit(s: Db, names: Labels)
    requires LogNumbered(s.log, |s.assets|, s.nextSequence)
    ensures Audit.Ascending(ActionRows(s, names))
    ensures forall r | r in ActionRows(s, names) :: r.assetId.Some? && exists e | e in s.log :: e.sequence == r.id
  {
  }

  lemma LifecycleRowsFit(log: seq<Admin.AdminEntry>, next: nat, names: Labels)
    requires AdminNumbered(log, next)
    ensures Audit.Ascending(LifecycleRows(log, names))
    ensures forall r | r in LifecycleRows(log, names) ::
              r.assetId.None? && r.actor == Audit.AdminActor && exists f | f in log :: f.sequence == r.id
  {
  }

  lemma NumberedTablesAreValid(s: Db, names: Labels)
    requires Numbered(s)
    ensures Audit.ValidTables(AuditTables(s, names))
  {
    hide ActionRows, LifecycleRows;
    ActionRowsFit(s, names);
    LifecycleRowsFit(s.admin.log, s.nextSequence, names);
  }

  /** After every run, a search of the two logs returns the first `limit` matches in order. */
  lemma AuditSearchIsExact(env: Env, events: seq<Event>, names: Labels, q: Audit.Query, all: seq<Audit.Row>)
    requires Audit.ValidQuery(q) && Audit.ListsMatches(AuditTables(Run(env, events), names), q, all)
    ensures var page := Audit.Search(AuditTables(Run(env, events), names), q);
            page.Some? && page.value.items == Audit.Take(q.limit, all) && Audit.NewestOf(page.value)
  {
    hide Run;
    RunKeepsCore(env, events);
    NumberedTablesAreValid(Run(env, events), names);
    Audit.SearchIsPrefix(AuditTables(Run(env, events), names), q, all);
  }

  // ---- Icon rows ----

  predicate HasIcon(s: Db, u: Uuid) {
    u < |s.assets| && s.assets[u].status == Active && CurrentIcon(s.assets[u], s.proposals).Some?
  }

  /** The rows of the icon query, in non-descending order of asset id. */
  ghost predicate IconRows(s: Db, rows: seq<Uuid>) {
    && (forall i | 0 <= i < |rows| :: HasIcon(s, rows[i]))
    && (forall i, j | 0 <= i < j < |rows| ::
          rows[i] != rows[j] && !IconMap.Less(s.assets[rows[j]].assetId, s.assets[rows[i]].assetId))
  }

  ghost function IconItems(s: Db, rows: seq<Uuid>, encode: Bytes -> string): (items: seq<IconMap.Item>)
    requires IconRows(s, rows)
    ensures |items| == |rows|
    ensures forall i | 0 <= i < |rows| ::
      HasIcon(s, rows[i]) && items[i] == (s.assets[rows[i]].assetId, encode(CurrentIcon(s.assets[rows[i]], s.proposals).value.image.value))
  {
    seq(|rows|, i requires 0 <= i < |rows| =>
      assert HasIcon(s, rows[i]);
      (s.assets[rows[i]].assetId, encode(CurrentIcon(s.assets[rows[i]], s.proposals).value.image.value)))
  }

  lemma IconKeysAscendAt(s: Db, rows: seq<Uuid>, encode: Bytes -> string)
    requires ActiveRowsDiffer(s.assets) && IconRows(s, rows)
    ensures IconMap.KeysAscend(IconItems(s, rows, encode))
  {
    forall i, j | 0 <= i < j < |rows|
      ensures IconMap.Less(s.assets[rows[i]].assetId, s.assets[rows[j]].assetId)
    {
      assert HasIcon(s, rows[i]) && HasIcon(s, rows[j]);
      IconMap.LessTotal(s.assets[rows[i]].assetId, s.assets[rows[j]].assetId);
      if rows[i] < rows[j] { assert !Collide(s.assets[rows[i]], s.assets[rows[j]]); }
      else { assert !Collide(s.assets[rows[j]], s.assets[rows[i]]); }
    }
  }

  /** After every run the icon query's rows have strictly ascending asset ids, as the stream needs. */
  lemma IconKeysAscend(env: Env, events: seq<Event>, rows: seq<Uuid>, encode: Bytes -> string)
    requires IconRows(Run(env, events), rows)
    ensures IconMap.KeysAscend(IconItems(Run(env, events), rows, encode))
  {
    hide Run;
    RunKeepsRowsDifferent(env, events);
    IconKeysAscendAt(Run(env, events), rows, encode);
  }
}
