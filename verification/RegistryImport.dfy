/** The legacy icon import as one transaction (`registry_api/legacy_icon_import.py`): every entry is judged against
    the tables as they were, and either all that pass are written or none. */
module RegistryImport {
  import opened Basics
  import opened RegistryModel
  import opened RegistrySteps
  import opened AssetHistory
  import opened RegistryInvariants
  import opened RegistryIcons
  import opened RegistrySettles
  import opened RegistrySamples
  import opened RegistrySession

  datatype Listed = Listed(assetId: string, image: Bytes)

  datatype Item = Item(u: Uuid, image: Bytes)

  datatype Plan = Plan(items: seq<Item>, missing: nat, skipped: nat)

  datatype Summary = Summary(imported: nat, wouldImport: nat, skippedExisting: nat, skippedMissing: nat)

  // ---- The transaction ----

  /** What one more entry adds to a plan. */
  function Judge(env: Env, s: Db, plan: Plan, entry: Listed): Result<Plan, Error> {
    if !env.validLegacyIcon(entry.image) then Failure(InvalidIcon)
    else
      match FindActive(s.assets, entry.assetId)
      case None => Success(plan.(missing := plan.missing + 1))
      case Some(u) =>
        match CurrentIcon(s.assets[u], s.proposals)
        case None => Success(plan.(items := plan.items + [Item(u, entry.image)]))
        case Some(p) =>
          if p.hash == env.imageHash(entry.image) then Success(plan.(skipped := plan.skipped + 1)) else Failure(AssetConflict)
  }

  function Prepare(env: Env, s: Db, entries: seq<Listed>): (r: Result<Plan, Error>)
    ensures r.Success? ==> forall i | 0 <= i < |r.value.items| :: r.value.items[i].u < |s.assets|
  {
    if |entries| == 0 then Success(Plan([], 0, 0))
    else
      match Prepare(env, s, entries[..|entries| - 1])
      case Failure(error) => Failure(error)
      case Success(plan) => Judge(env, s, plan, entries[|entries| - 1])
  }

  lemma PrepareNone(env: Env, s: Db, entries: seq<Listed>)
    ensures Prepare(env, s, entries[..0]) == Success(Plan([], 0, 0))
  {
  }

  lemma {:induction false} FailureStays(env: Env, s: Db, entries: seq<Listed>, n: nat)
    requires n <= |entries| && Prepare(env, s, entries[..n]).Failure?
    ensures Prepare(env, s, entries) == Prepare(env, s, entries[..n])
  {
    hide Judge;
    if n == |entries| {
      assert entries[..n] == entries;
    } else {
      assert entries[..|entries| - 1][..n] == entries[..n];
      FailureStays(env, s, entries[..|entries| - 1], n);
    }
  }

  lemma PrepareSnoc(env: Env, s: Db, entries: seq<Listed>, i: nat)
    requires i < |entries| && Prepare(env, s, entries[..i]).Success?
    ensures Prepare(env, s, entries[..i + 1]) == Judge(env, s, Prepare(env, s, entries[..i]).value, entries[i])
    ensures Judge(env, s, Prepare(env, s, entries[..i]).value, entries[i]).Failure? ==>
              Prepare(env, s, entries) == Failure(Judge(env, s, Prepare(env, s, entries[..i]).value, entries[i]).error)
  {
    hide Judge;
    assert entries[..i + 1][..i] == entries[..i];
    if Judge(env, s, Prepare(env, s, entries[..i]).value, entries[i]).Failure? { FailureStays(env, s, entries, i + 1); }
  }

  function Summarised(plan: Plan, dryRun: bool): Summary {
    Summary(if dryRun then 0 else |plan.items|, |plan.items|, plan.skipped, plan.missing)
  }

  predicate InTable(s: Db, items: seq<Item>) { forall i | 0 <= i < |items| :: items[i].u < |s.assets| }

  function ImportAll(env: Env, s: Db, items: seq<Item>, now: int): (r: Db)
    requires InTable(s, items)
    ensures |r.assets| == |s.assets|
  {
    if |items| == 0 then s
    else
      var item := items[|items| - 1];
      CommitImport(env, ImportAll(env, s, items[..|items| - 1], now), item.u, item.image, now).0
  }

  lemma ImportAllSnoc(env: Env, s: Db, items: seq<Item>, i: nat, now: int)
    requires InTable(s, items) && i < |items|
    ensures var before := ImportAll(env, s, items[..i], now);
            ImportAll(env, s, items[..i + 1], now) == CommitImport(env, before, items[i].u, items[i].image, now).0
  {
    hide CommitImport;
    assert items[..i + 1][..i] == items[..i];
  }

  function ImportBatch(
    env: Env, s: Db, entries: seq<Listed>, skipMissing: bool, dryRun: bool, now: int): (Db, Result<Summary, Error>)
  {
    match Prepare(env, s, entries)
    case Failure(error) => (s, Failure(error))
    case Success(plan) =>
      if plan.missing > 0 && !skipMissing then (s, Failure(AssetNotFound))
      else if dryRun then (s, Success(Summarised(plan, true)))
      else (ImportAll(env, s, plan.items, now), Success(Summarised(plan, false)))
  }

  // ---- The same entries one at a time ----

  function Single(entry: Listed, now: int): Event { Event(SImportIcon(entry.assetId, entry.image), now) }

  function Singles(entries: seq<Listed>, now: int): seq<Event> {
    seq(|entries|, i requires 0 <= i < |entries| => Single(entries[i], now))
  }

  function OneByOne(env: Env, s: Db, entries: seq<Listed>, now: int): Db {
    if |entries| == 0 then s
    else
      var last := entries[|entries| - 1];
      ImportLegacyIcon(env, OneByOne(env, s, entries[..|entries| - 1], now), last.assetId, last.image, now).0
  }

  predicate Distinct(items: seq<Item>) { forall i, j | 0 <= i < j < |items| :: items[i].u != items[j].u }

  predicate Planned(items: seq<Item>, u: Uuid) { exists i | 0 <= i < |items| :: items[i].u == u }

  /** Imports rename nothing and change no status. */
  predicate SameNames(assets: seq<Asset>, assets': seq<Asset>) {
    && |assets'| == |assets|
    && forall u | 0 <= u < |assets| :: assets'[u].assetId == assets[u].assetId && assets'[u].status == assets[u].status
  }

  predicate ShowsIcon(s: Db, u: Uuid)
    requires u < |s.assets|
  {
    CurrentIcon(s.assets[u], s.proposals).Some?
  }

  /** An asset's icon, if it names one, is among the proposals. */
  predicate IconsInRange(s: Db) {
    forall a | a in s.assets :: a.icon.Some? ==> a.icon.value < |s.proposals|
  }

  /** How the tables compare once the same entries have been imported one at a time. */
  ghost predicate Compares(env: Env, s: Db, t: Db, items: seq<Item>, now: int) {
    && InTable(s, items) && SameNames(s.assets, t.assets) && IconsInRange(t)
    && (forall u | 0 <= u < |s.assets| :: ShowsIcon(t, u) <==> ShowsIcon(s, u) || Planned(items, u))
    && (if Distinct(items) then t == ImportAll(env, s, items, now) else |t.log| < |s.log| + |items|)
  }

  lemma {:induction false} SameActive(assets: seq<Asset>, assets': seq<Asset>, assetId: string)
    requires SameNames(assets, assets')
    ensures FindActive(assets', assetId) == FindActive(assets, assetId)
  {
    if |assets| > 0 { SameActive(assets[..|assets| - 1], assets'[..|assets| - 1], assetId); }
  }

  lemma ImportShows(env: Env, t: Db, u: Uuid, image: Bytes, now: int)
    requires u < |t.assets| && IconsInRange(t)
    ensures var t' := CommitImport(env, t, u, image, now).0;
            && SameNames(t.assets, t'.assets) && IconsInRange(t') && |t'.log| == |t.log| + 1
            && forall v | 0 <= v < |t.assets| :: ShowsIcon(t', v) <==> ShowsIcon(t, v) || v == u
  {
    hide FreshFragment, LogOf;
    var t' := CommitImport(env, t, u, image, now).0;
    forall v | 0 <= v < |t.assets| ensures ShowsIcon(t', v) <==> ShowsIcon(t, v) || v == u {
      assert t.assets[v] in t.assets;
      if v != u { assert t'.assets[v] == t.assets[v]; }
    }
  }

  lemma {:induction false} ImportAllLogs(env: Env, s: Db, items: seq<Item>, now: int)
    requires InTable(s, items)
    ensures |ImportAll(env, s, items, now).log| == |s.log| + |items|
  {
    if |items| > 0 { ImportAllLogs(env, s, items[..|items| - 1], now); }
  }

  /** What importing one entry by itself does. */
  lemma SingleImport(env: Env, t: Db, entry: Listed, now: int)
    ensures var t' := ImportLegacyIcon(env, t, entry.assetId, entry.image, now).0;
            var u := FindActive(t.assets, entry.assetId);
            t' == if env.validLegacyIcon(entry.image) && u.Some? && !ShowsIcon(t, u.value)
                  then CommitImport(env, t, u.value, entry.image, now).0 else t
  {
    hide CommitImport;
  }

  lemma PlannedMore(items: seq<Item>, item: Item, u: Uuid)
    ensures Planned(items + [item], u) <==> Planned(items, u) || u == item.u
    ensures Distinct(items + [item]) <==> Distinct(items) && !Planned(items, item.u)
  {
    var more := items + [item];
    assert more[|items|] == item;
    assert forall i | 0 <= i < |items| :: more[i] == items[i];
  }

  /** The entry's asset has its icon already by the one-at-a-time import: it is imported twice only by the batch. */
  lemma RepeatedItem(env: Env, s: Db, t: Db, items: seq<Item>, item: Item, now: int)
    requires Compares(env, s, t, items, now) && item.u < |s.assets| && Planned(items, item.u)
    ensures Compares(env, s, t, items + [item], now)
  {
    forall u | 0 <= u < |s.assets| ensures ShowsIcon(t, u) <==> ShowsIcon(s, u) || Planned(items + [item], u) {
      PlannedMore(items, item, u);
    }
    PlannedMore(items, item, item.u);
    if Distinct(items) { ImportAllLogs(env, s, items, now); }
  }

  lemma NewItem(env: Env, s: Db, t: Db, items: seq<Item>, item: Item, now: int)
    requires Compares(env, s, t, items, now) && item.u < |s.assets| && !Planned(items, item.u)
    ensures Compares(env, s, CommitImport(env, t, item.u, item.image, now).0, items + [item], now)
  {
    hide CommitImport;
    var t' := CommitImport(env, t, item.u, item.image, now).0;
    ImportShows(env, t, item.u, item.image, now);
    forall u | 0 <= u < |s.assets| ensures ShowsIcon(t', u) <==> ShowsIcon(s, u) || Planned(items + [item], u) {
      PlannedMore(items, item, u);
    }
    PlannedMore(items, item, item.u);
    assert (items + [item])[..|items|] == items;
  }

  lemma EntryCompares(env: Env, s: Db, t: Db, plan: Plan, entry: Listed, now: int)
    requires Compares(env, s, t, plan.items, now) && Judge(env, s, plan, entry).Success?
    ensures Compares(env, s, ImportLegacyIcon(env, t, entry.assetId, entry.image, now).0,
                     Judge(env, s, plan, entry).value.items, now)
  {
    hide ImportLegacyIcon, CommitImport, Compares;
    CompareFacts(env, s, t, plan.items, now);
    SameActive(s.assets, t.assets, entry.assetId);
    SingleImport(env, t, entry, now);
    var found := FindActive(s.assets, entry.assetId);
    if found.Some? && !ShowsIcon(s, found.value) {
      var item := Item(found.value, entry.image);
      if Planned(plan.items, item.u) { RepeatedItem(env, s, t, plan.items, item, now); }
      else { NewItem(env, s, t, plan.items, item, now); }
    }
  }

  lemma CompareFacts(env: Env, s: Db, t: Db, items: seq<Item>, now: int)
    requires Compares(env, s, t, items, now)
    ensures SameNames(s.assets, t.assets)
    ensures forall u | 0 <= u < |s.assets| :: ShowsIcon(t, u) <==> ShowsIcon(s, u) || Planned(items, u)
  {
  }

  lemma {:induction false} OneByOneCompares(env: Env, s: Db, entries: seq<Listed>, now: int)
    requires IconsInRange(s) && Prepare(env, s, entries).Success?
    ensures Compares(env, s, OneByOne(env, s, entries, now), Prepare(env, s, entries).value.items, now)
  {
    hide ImportLegacyIcon, Judge;
    if |entries| > 0 {
      var before, last := entries[..|entries| - 1], entries[|entries| - 1];
      OneByOneCompares(env, s, before, now);
      EntryCompares(env, s, OneByOne(env, s, before, now), Prepare(env, s, before).value, last, now);
    }
  }

  /** A committed batch leaves what importing its entries one at a time leaves exactly when no asset is planned
      twice; otherwise it logs an import that the one-at-a-time import refuses. */
  lemma BatchIsOneByOneIff(env: Env, s: Db, entries: seq<Listed>, skipMissing: bool, now: int)
    requires IconsInRange(s) && ImportBatch(env, s, entries, skipMissing, false, now).1.Success?
    ensures ImportBatch(env, s, entries, skipMissing, false, now).0 == OneByOne(env, s, entries, now)
       <==> Distinct(Prepare(env, s, entries).value.items)
  {
    hide Prepare, OneByOne;
    OneByOneCompares(env, s, entries, now);
    ImportAllLogs(env, s, Prepare(env, s, entries).value.items, now);
  }

  lemma SinglePerforms(env: Env, s: Db, entry: Listed, now: int)
    ensures Perform(env, s, Single(entry, now).step, now) == ImportLegacyIcon(env, s, entry.assetId, entry.image, now)
  {
    hide ImportLegacyIcon;
  }

  lemma {:induction false} OneByOneIsRun(env: Env, events: seq<Event>, entries: seq<Listed>, now: int)
    ensures OneByOne(env, Run(env, events), entries, now) == Run(env, events + Singles(entries, now))
  {
    hide Perform, ImportLegacyIcon;
    if |entries| == 0 {
      assert events + Singles(entries, now) == events;
    } else {
      var before, last := entries[..|entries| - 1], entries[|entries| - 1];
      OneByOneIsRun(env, events, before, now);
      assert events + Singles(entries, now) == (events + Singles(before, now)) + [Single(last, now)];
      RunSnoc(env, events + Singles(before, now), Single(last, now));
      SinglePerforms(env, Run(env, events + Singles(before, now)), last, now);
    }
  }

  lemma ReachableInRange(env: Env, events: seq<Event>)
    ensures IconsInRange(Run(env, events))
  {
    hide Run;
    var s := Run(env, events);
    RunSettles(env, events);
    forall a | a in s.assets ensures a.icon.Some? ==> a.icon.value < |s.proposals| {
      var u :| 0 <= u < |s.assets| && s.assets[u] == a;
      assert IconOk(s.assets[u], u, s.proposals);
    }
  }

  /** After any run, a batch that plans no asset twice leaves the state of the longer run of single imports, so
      what holds of runs holds after it. */
  lemma BatchIsRun(env: Env, events: seq<Event>, entries: seq<Listed>, skipMissing: bool, now: int)
    requires ImportBatch(env, Run(env, events), entries, skipMissing, false, now).1.Success?
    requires Distinct(Prepare(env, Run(env, events), entries).value.items)
    ensures ImportBatch(env, Run(env, events), entries, skipMissing, false, now).0 == Run(env, events + Singles(entries, now))
  {
    hide Run;
    ReachableInRange(env, events);
    BatchIsOneByOneIff(env, Run(env, events), entries, skipMissing, now);
    OneByOneIsRun(env, events, entries, now);
  }

  lemma PrepareOne(env: Env, s: Db, entry: Listed)
    ensures Prepare(env, s, [entry]) == Judge(env, s, Plan([], 0, 0), entry)
  {
    hide Judge;
    PrepareNone(env, s, [entry]);
    PrepareSnoc(env, s, [entry], 0);
    assert [entry][..1] == [entry];
  }

  lemma ImportOne(env: Env, s: Db, item: Item, now: int)
    requires item.u < |s.assets|
    ensures ImportAll(env, s, [] + [item], now) == CommitImport(env, s, item.u, item.image, now).0
  {
    hide CommitImport;
    assert [item][..1] == [] + [item] && [item][..0] == [];
    ImportAllSnoc(env, s, [item], 0, now);
  }

  /** A map of one entry is the single import. */
  lemma BatchOfOne(env: Env, s: Db, entry: Listed, skipMissing: bool, now: int)
    ensures ImportBatch(env, s, [entry], skipMissing, false, now).0 == ImportLegacyIcon(env, s, entry.assetId, entry.image, now).0
  {
    hide Prepare, ImportAll, ImportLegacyIcon, CommitImport;
    PrepareOne(env, s, entry);
    SingleImport(env, s, entry, now);
    var found := FindActive(s.assets, entry.assetId);
    if found.Some? { ImportOne(env, s, Item(found.value, entry.image), now); }
    ImportNone(env, s, now);
  }

  lemma ImportNone(env: Env, s: Db, now: int)
    ensures ImportAll(env, s, [], now) == s
  {
  }

  lemma SampleShowsNone(env: Env, s: Db)
    requires HoldsSample(env, s, map[])
    ensures FindActive(s.assets, "id") == Some(0) && !ShowsIcon(s, 0) && IconsInRange(s)
  {
    SampleLog(env, s, map[]);
  }

  lemma TwicePrepared(env: Env, s: Db, first: Bytes, second: Bytes)
    requires env.validLegacyIcon(first) && env.validLegacyIcon(second)
    requires FindActive(s.assets, "id") == Some(0) && |s.assets| > 0 && !ShowsIcon(s, 0)
    ensures Prepare(env, s, [Listed("id", first), Listed("id", second)]) == Success(Plan([Item(0, first), Item(0, second)], 0, 0))
  {
    var entries := [Listed("id", first), Listed("id", second)];
    assert entries[..0] == [] && entries[..2] == entries;
    PrepareSnoc(env, s, entries, 0);
    assert [] + [Item(0, first)] == [Item(0, first)];
    PrepareSnoc(env, s, entries, 1);
    assert [Item(0, first)] + [Item(0, second)] == [Item(0, first), Item(0, second)];
  }

  /** It happens: two keys of the map that name one asset, differing in letter case only, are both imported. */
  lemma RepeatedEntryHappens(env: Env, first: Bytes, second: Bytes)
    requires env.validLegacyIcon(first) && env.validLegacyIcon(second)
    ensures var s, entries := Run(env, [Event(SAMPLE_STEP, 0)]), [Listed("id", first), Listed("id", second)];
            var r := ImportBatch(env, s, entries, false, false, 1);
            r.1.Success? && |r.0.log| == |s.log| + 2 && r.0 != OneByOne(env, s, entries, 1)
  {
    hide Run, OneByOne, Prepare;
    var s, entries := Run(env, [Event(SAMPLE_STEP, 0)]), [Listed("id", first), Listed("id", second)];
    RegisteredOnce(env, map[]);
    SampleShowsNone(env, s);
    TwicePrepared(env, s, first, second);
    var items := [Item(0, first), Item(0, second)];
    assert items[0].u == items[1].u;
    BatchIsOneByOneIff(env, s, entries, false, 1);
    ImportAllLogs(env, s, items, 1);
  }

  // ---- Any batch ----

  ghost predicate Ordered(env: Env, s: Db) { CoreInv(env, s) && SettledInv(env, s) }

  predicate AllActive(s: Db, items: seq<Item>) {
    forall i | 0 <= i < |items| :: items[i].u < |s.assets| && s.assets[items[i].u].status == Active
  }

  lemma {:induction false} PreparedActive(env: Env, s: Db, entries: seq<Listed>)
    requires Prepare(env, s, entries).Success?
    ensures AllActive(s, Prepare(env, s, entries).value.items)
  {
    if |entries| > 0 { PreparedActive(env, s, entries[..|entries| - 1]); }
  }

  lemma ImportKeepsOrdered(env: Env, s: Db, u: Uuid, image: Bytes, now: int)
    requires Ordered(env, s) && u < |s.assets| && s.assets[u].status == Active
    ensures var s' := CommitImport(env, s, u, image, now).0;
            Ordered(env, s') && |s'.assets| == |s.assets| && forall v | 0 <= v < |s.assets| :: s'.assets[v].status == s.assets[v].status
  {
    hide Shape, AssetInv, Settles, FreshFragment, LogOf;
    var r, step := CommitImport(env, s, u, image, now), SImportIcon(s.assets[u].assetId, image);
    CoreOpensLogs(env, s);
    ImportShape(env, s, u, image, now, step);
    ShapeKeepsCore(env, s, r.0, r.1, step);
    ImportSettles(env, s, u, image, now);
    SettlesKeeps(env, s, r.0, u);
  }

  lemma {:induction false} ImportAllKeepsOrdered(env: Env, s: Db, items: seq<Item>, now: int)
    requires Ordered(env, s) && AllActive(s, items)
    ensures var t := ImportAll(env, s, items, now);
            Ordered(env, t) && forall v | 0 <= v < |s.assets| :: t.assets[v].status == s.assets[v].status
  {
    hide Ordered, CommitImport;
    if |items| > 0 {
      var before, item := items[..|items| - 1], items[|items| - 1];
      ImportAllKeepsOrdered(env, s, before, now);
      ImportKeepsOrdered(env, ImportAll(env, s, before, now), item.u, item.image, now);
    }
  }

  /** After any run, any batch, one that plans an asset twice included, keeps every asset's own invariant, the icon
      states and the freshness of every fragment. */
  lemma BatchKeepsInvariants(env: Env, events: seq<Event>, entries: seq<Listed>, skipMissing: bool, dryRun: bool, now: int)
    ensures var s' := ImportBatch(env, Run(env, events), entries, skipMissing, dryRun, now).0;
            CoreInv(env, s') && SettledInv(env, s')
  {
    hide Run, Prepare, CoreInv, SettledInv;
    var s := Run(env, events);
    RunKeepsCore(env, events);
    RunSettles(env, events);
    if Prepare(env, s, entries).Success? {
      PreparedActive(env, s, entries);
      ImportAllKeepsOrdered(env, s, Prepare(env, s, entries).value.items, now);
    }
  }

  // ---- Refusals ----

  /** An entry that stops the batch. */
  predicate Refuses(env: Env, s: Db, entry: Listed) {
    || !env.validLegacyIcon(entry.image)
    || (FindActive(s.assets, entry.assetId).Some?
        && var u := FindActive(s.assets, entry.assetId).value;
           ShowsIcon(s, u) && CurrentIcon(s.assets[u], s.proposals).value.hash != env.imageHash(entry.image))
  }

  lemma JudgeExact(env: Env, s: Db, plan: Plan, entry: Listed)
    ensures var r := Judge(env, s, plan, entry);
            && (r.Success? <==> !Refuses(env, s, entry))
            && (r.Success? ==>
                  var missing := if FindActive(s.assets, entry.assetId).None? then 1 else 0;
                  && r.value.missing == plan.missing + missing
                  && |r.value.items| + r.value.skipped + r.value.missing == |plan.items| + plan.skipped + plan.missing + 1)
  {
  }

  predicate AnyRefuses(env: Env, s: Db, entries: seq<Listed>) { exists e | e in entries :: Refuses(env, s, e) }

  predicate AnyMissing(s: Db, entries: seq<Listed>) { exists e | e in entries :: FindActive(s.assets, e.assetId).None? }

  lemma AnySnoc(env: Env, s: Db, before: seq<Listed>, last: Listed)
    ensures AnyRefuses(env, s, before + [last]) <==> AnyRefuses(env, s, before) || Refuses(env, s, last)
    ensures AnyMissing(s, before + [last]) <==> AnyMissing(s, before) || FindActive(s.assets, last.assetId).None?
  {
    hide Refuses;
    assert forall e :: e in before + [last] <==> e in before || e == last;
  }

  lemma {:induction false} PrepareExact(env: Env, s: Db, entries: seq<Listed>)
    ensures Prepare(env, s, entries).Success? <==> !AnyRefuses(env, s, entries)
    ensures Prepare(env, s, entries).Success? ==>
              var plan := Prepare(env, s, entries).value;
              && |plan.items| + plan.skipped + plan.missing == |entries|
              && (plan.missing > 0 <==> AnyMissing(s, entries))
  {
    if |entries| > 0 {
      hide Judge, Refuses, AnyRefuses, AnyMissing;
      var before, last := entries[..|entries| - 1], entries[|entries| - 1];
      PrepareExact(env, s, before);
      assert before + [last] == entries;
      AnySnoc(env, s, before, last);
      if Prepare(env, s, before).Success? { JudgeExact(env, s, Prepare(env, s, before).value, last); }
    }
  }

  /** A batch is refused exactly when an entry stops it or, unless they are to be skipped, an asset is missing; a
      refused batch or a rehearsal changes nothing, and every entry of a batch that is not refused is counted once. */
  lemma BatchRefusedIff(env: Env, s: Db, entries: seq<Listed>, skipMissing: bool, dryRun: bool, now: int)
    ensures var r := ImportBatch(env, s, entries, skipMissing, dryRun, now);
            && (r.1.Failure? <==> AnyRefuses(env, s, entries) || (!skipMissing && AnyMissing(s, entries)))
            && (r.1.Failure? || dryRun ==> r.0 == s)
            && (r.1.Success? ==>
                  && r.1.value.wouldImport + r.1.value.skippedExisting + r.1.value.skippedMissing == |entries|
                  && r.1.value.imported == if dryRun then 0 else r.1.value.wouldImport)
  {
    hide Prepare, AnyRefuses, AnyMissing;
    PrepareExact(env, s, entries);
  }

  // ---- In place ----

  lemma ImportKeepsKeys(env: Env, s: Db, u: Uuid, image: Bytes, now: int)
    requires u < |s.assets| && KeysChained(s.assets)
    ensures KeysChained(CommitImport(env, s, u, image, now).0.assets)
  {
    hide FreshFragment, LogOf;
    var assets := CommitImport(env, s, u, image, now).0.assets;
    forall v | 0 <= v < |assets| ensures KeyChain(assets[v].keys) { assert KeyChain(s.assets[v].keys); }
  }

  /** The first loop: nothing is written while the entries are judged. */
  method PrepareIcons(env: Env, registry: Registry, entries: seq<Listed>) returns (r: Result<Plan, Error>)
    ensures r == Prepare(env, registry.Snapshot(), entries)
  {
    hide Prepare;
    PrepareNone(env, registry.Snapshot(), entries);
    var items: seq<Item> := [];
    var missing, skipped := 0, 0;
    var i := 0;
    while i < |entries|
      invariant 0 <= i <= |entries|
      invariant Prepare(env, registry.Snapshot(), entries[..i]) == Success(Plan(items, missing, skipped))
    {
      var entry := entries[i];
      PrepareSnoc(env, registry.Snapshot(), entries, i);
      if !env.validLegacyIcon(entry.image) { return Failure(InvalidIcon); }
      var found := FindActive(registry.Snapshot().assets, entry.assetId);
      if found.None? {
        missing := missing + 1;
      } else {
        var current := CurrentIcon(registry.Snapshot().assets[found.value], registry.proposals);
        if current.Some? {
          if current.value.hash != env.imageHash(entry.image) { return Failure(AssetConflict); }
          skipped := skipped + 1;
        } else {
          items := items + [Item(found.value, entry.image)];
        }
      }
      i := i + 1;
    }
    assert entries[..i] == entries;
    r := Success(Plan(items, missing, skipped));
  }

  /** The second loop: every prepared icon is written, and the lot is committed. */
  method WriteIcons(env: Env, registry: Registry, items: seq<Item>, now: int)
    requires registry.Valid() && InTable(registry.Snapshot(), items)
    modifies registry
    ensures registry.Valid() && registry.Snapshot() == ImportAll(env, old(registry.Snapshot()), items, now)
  {
    hide CommitImport, KeysChained, NoOrphans;
    ghost var s := registry.Snapshot();
    var i := 0;
    while i < |items|
      invariant 0 <= i <= |items| && registry.Valid()
      invariant registry.Snapshot() == ImportAll(env, s, items[..i], now)
    {
      ImportAllSnoc(env, s, items, i, now);
      ImportKeepsKeys(env, registry.Snapshot(), items[i].u, items[i].image, now);
      var _ := registry.PersistImport(env, items[i].u, items[i].image, now);
      i := i + 1;
    }
    assert items[..i] == items;
  }

  /** `import_legacy_icons`, once the icons are decoded. */
  method ImportLegacyIcons(
    env: Env, registry: Registry, entries: seq<Listed>, skipMissing: bool, dryRun: bool, now: int)
    returns (r: Result<Summary, Error>)
    requires registry.Valid()
    modifies registry
    ensures registry.Valid()
    ensures (registry.Snapshot(), r) == ImportBatch(env, old(registry.Snapshot()), entries, skipMissing, dryRun, now)
  {
    var prepared := PrepareIcons(env, registry, entries);
    if prepared.Failure? { return Failure(prepared.error); }
    var plan := prepared.value;
    if plan.missing > 0 && !skipMissing { return Failure(AssetNotFound); }
    if dryRun { return Success(Summarised(plan, true)); }
    WriteIcons(env, registry, plan.items, now);
    r := Success(Summarised(plan, false));
  }
}
