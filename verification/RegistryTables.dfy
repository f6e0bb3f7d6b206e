/** The registry's relational tables: child rows carry their asset, and an asset as the other modules see it
    is assembled from them. */
module RegistryTables {
  import opened Basics
  import opened JsonValue
  import opened RegistryModel
  import opened RegistrySteps
  import opened AssetHistory
  import Admin = AdminGovernance

  // ---- Child tables ----

  datatype ChildRow<T> = ChildRow(asset: Uuid, item: T)

  /** One asset's rows, in position order. */
  function ItemsOf<T>(rows: seq<ChildRow<T>>, u: Uuid): seq<T> {
    if |rows| == 0 then []
    else if rows[|rows| - 1].asset == u then ItemsOf(rows[..|rows| - 1], u) + [rows[|rows| - 1].item]
    else ItemsOf(rows[..|rows| - 1], u)
  }

  lemma ItemsOfAppend<T>(rows: seq<ChildRow<T>>, row: ChildRow<T>, u: Uuid)
    ensures ItemsOf(rows + [row], u) == if row.asset == u then ItemsOf(rows, u) + [row.item] else ItemsOf(rows, u)
  {
  }

  /** `u` now has exactly `items`; every other asset has what it had. */
  ghost predicate Holds<T(!new)>(before: seq<ChildRow<T>>, after: seq<ChildRow<T>>, u: Uuid, items: seq<T>) {
    ItemsOf(after, u) == items && forall v: Uuid | v != u :: ItemsOf(after, v) == ItemsOf(before, v)
  }

  lemma StartHolds<T(!new)>(u: Uuid)
    ensures Holds<T>([], [], u, [])
  {
  }

  /** Copying a row of another asset. */
  lemma HoldsCopied<T(!new)>(before: seq<ChildRow<T>>, after: seq<ChildRow<T>>, u: Uuid, items: seq<T>, row: ChildRow<T>)
    requires Holds(before, after, u, items) && row.asset != u
    ensures Holds(before + [row], after + [row], u, items)
  {
  }

  /** Dropping a row of `u`. */
  lemma HoldsDropped<T(!new)>(before: seq<ChildRow<T>>, after: seq<ChildRow<T>>, u: Uuid, items: seq<T>, row: ChildRow<T>)
    requires Holds(before, after, u, items) && row.asset == u
    ensures Holds(before + [row], after, u, items)
  {
  }

  /** Adding a row for `u`. */
  lemma HoldsAdded<T(!new)>(before: seq<ChildRow<T>>, after: seq<ChildRow<T>>, u: Uuid, items: seq<T>, item: T)
    requires Holds(before, after, u, items)
    ensures Holds(before, after + [ChildRow(u, item)], u, items + [item])
  {
  }

  function Without<T>(rows: seq<ChildRow<T>>, u: Uuid): seq<ChildRow<T>> {
    if |rows| == 0 then []
    else if rows[|rows| - 1].asset == u then Without(rows[..|rows| - 1], u)
    else Without(rows[..|rows| - 1], u) + [rows[|rows| - 1]]
  }

  lemma {:induction false} WithoutHolds<T(!new)>(rows: seq<ChildRow<T>>, u: Uuid)
    ensures Holds(rows, Without(rows, u), u, [])
  {
    if |rows| == 0 {
      StartHolds<T>(u);
    } else {
      var rest, row := rows[..|rows| - 1], rows[|rows| - 1];
      WithoutHolds(rest, u);
      assert rest + [row] == rows;
      if row.asset == u { HoldsDropped(rest, Without(rest, u), u, [], row); }
      else { HoldsCopied(rest, Without(rest, u), u, [], row); }
    }
  }

  /** `delete ... where asset = u`. */
  method DeleteChildren<T(!new)>(rows: seq<ChildRow<T>>, u: Uuid) returns (rest: seq<ChildRow<T>>)
    ensures Holds(rows, rest, u, [])
  {
    rest := [];
    var i := 0;
    while i < |rows|
      invariant i <= |rows| && rest == Without(rows[..i], u)
    {
      assert rows[..i + 1][..i] == rows[..i];
      if rows[i].asset != u { rest := rest + [rows[i]]; }
      i := i + 1;
    }
    assert rows[..i] == rows;
    WithoutHolds(rows, u);
  }

  /** Add one row per item, in position order. */
  method InsertChildren<T(!new)>(rows: seq<ChildRow<T>>, u: Uuid, items: seq<T>) returns (more: seq<ChildRow<T>>)
    ensures Holds(rows, more, u, ItemsOf(rows, u) + items)
  {
    more := rows;
    var i := 0;
    ghost var had := ItemsOf(rows, u);
    assert had + items[..0] == had;
    while i < |items|
      invariant i <= |items| && Holds(rows, more, u, had + items[..i])
    {
      HoldsAdded(rows, more, u, had + items[..i], items[i]);
      assert had + items[..i + 1] == had + items[..i] + [items[i]];
      more := more + [ChildRow(u, items[i])];
      i := i + 1;
    }
    assert items[..i] == items;
  }

  method ReplaceChildren<T(!new)>(rows: seq<ChildRow<T>>, u: Uuid, items: seq<T>) returns (after: seq<ChildRow<T>>)
    ensures Holds(rows, after, u, items)
  {
    after := DeleteChildren(rows, u);
    after := InsertChildren(after, u, items);
    assert [] + items == items;
  }

  // ---- The unique index on (asset, url) ----

  predicate UrlTaken(venues: seq<Venue>, url: string) { exists v | v in venues :: v.url == url }

  lemma RepeatsUrlAppend(venues: seq<Venue>, v: Venue)
    ensures RepeatsUrl(venues + [v]) <==> RepeatsUrl(venues) || UrlTaken(venues, v.url)
  {
    var more := venues + [v];
    if RepeatsUrl(venues) {
      var i, j :| 0 <= i < j < |venues| && venues[i].url == venues[j].url;
      assert more[i].url == more[j].url;
    }
    if UrlTaken(venues, v.url) {
      var w :| w in venues && w.url == v.url;
      var i :| 0 <= i < |venues| && venues[i] == w;
      assert more[i].url == more[|venues|].url;
    }
    if RepeatsUrl(more) {
      var i, j :| 0 <= i < j < |more| && more[i].url == more[j].url;
      if j < |venues| { assert venues[i].url == venues[j].url; }
      else { assert venues[i] in venues && venues[i].url == v.url; }
    }
  }

  /** Insert venues one at a time; the first repeated URL fails the flush. */
  method FlushVenues(venues: seq<Venue>) returns (ok: bool)
    ensures ok <==> !RepeatsUrl(venues)
  {
    var i := 0;
    ok := true;
    while i < |venues|
      invariant i <= |venues| && (ok <==> !RepeatsUrl(venues[..i]))
    {
      RepeatsUrlAppend(venues[..i], venues[i]);
      assert venues[..i + 1] == venues[..i] + [venues[i]];
      if UrlTaken(venues[..i], venues[i].url) { ok := false; }
      i := i + 1;
    }
    assert venues[..i] == venues;
  }

  // ---- Custom attributes ----

  datatype Attribute = Attribute(name: string, value: Value)

  function AsCustom(items: seq<Attribute>): Custom {
    if |items| == 0 then map[] else AsCustom(items[..|items| - 1])[items[|items| - 1].name := items[|items| - 1].value]
  }

  lemma AsCustomAppend(items: seq<Attribute>, a: Attribute)
    ensures AsCustom(items + [a]) == AsCustom(items)[a.name := a.value]
  {
  }

  function Unnamed(items: seq<Attribute>, key: string): seq<Attribute> {
    if |items| == 0 then []
    else
      var rest := Unnamed(items[..|items| - 1], key);
      if items[|items| - 1].name == key then rest else rest + [items[|items| - 1]]
  }

  lemma DropThenSet(custom: Custom, key: string, name: string, value: Value)
    ensures name == key ==> custom[name := value] - {key} == custom - {key}
    ensures name != key ==> custom[name := value] - {key} == (custom - {key})[name := value]
  {
  }

  lemma {:induction false} UnnamedDropsKey(items: seq<Attribute>, key: string)
    ensures AsCustom(Unnamed(items, key)) == AsCustom(items) - {key}
  {
    if |items| > 0 {
      var rest, last := items[..|items| - 1], items[|items| - 1];
      UnnamedDropsKey(rest, key);
      AsCustomAppend(Unnamed(rest, key), last);
      DropThenSet(AsCustom(rest), key, last.name, last.value);
    }
  }

  lemma UnnamedAppend(items: seq<Attribute>, a: Attribute, key: string)
    ensures Unnamed(items + [a], key) == if a.name == key then Unnamed(items, key) else Unnamed(items, key) + [a]
  {
  }

  lemma HoldsFiltered(
    rows: seq<ChildRow<Attribute>>, rest: seq<ChildRow<Attribute>>, u: Uuid, key: string, row: ChildRow<Attribute>)
    requires Holds(rows, rest, u, Unnamed(ItemsOf(rows, u), key))
    ensures Holds(rows + [row], if row.asset == u && row.item.name == key then rest else rest + [row], u,
                  Unnamed(ItemsOf(rows + [row], u), key))
  {
    var kept := Unnamed(ItemsOf(rows, u), key);
    ItemsOfAppend(rows, row, u);
    if row.asset != u {
      HoldsCopied(rows, rest, u, kept, row);
    } else {
      UnnamedAppend(ItemsOf(rows, u), row.item, key);
      HoldsDropped(rows, rest, u, kept, row);
      HoldsAdded(rows + [row], rest, u, kept, row.item);
      assert ChildRow(u, row.item) == row;
    }
  }

  /** The rows such a delete leaves. */
  function Remaining(rows: seq<ChildRow<Attribute>>, u: Uuid, key: string): seq<ChildRow<Attribute>> {
    if |rows| == 0 then []
    else
      var rest, row := Remaining(rows[..|rows| - 1], u, key), rows[|rows| - 1];
      if row.asset == u && row.item.name == key then rest else rest + [row]
  }

  lemma {:induction false} RemainingHolds(rows: seq<ChildRow<Attribute>>, u: Uuid, key: string)
    ensures Holds(rows, Remaining(rows, u, key), u, Unnamed(ItemsOf(rows, u), key))
  {
    if |rows| == 0 {
      StartHolds<Attribute>(u);
    } else {
      var rest, row := rows[..|rows| - 1], rows[|rows| - 1];
      RemainingHolds(rest, u, key);
      HoldsFiltered(rest, Remaining(rest, u, key), u, key, row);
      assert rest + [row] == rows;
    }
  }

  /** `delete ... where asset = u and name = key`. */
  method DeleteAttribute(rows: seq<ChildRow<Attribute>>, u: Uuid, key: string) returns (rest: seq<ChildRow<Attribute>>)
    ensures Holds(rows, rest, u, Unnamed(ItemsOf(rows, u), key))
  {
    rest := [];
    var i := 0;
    while i < |rows|
      invariant i <= |rows| && rest == Remaining(rows[..i], u, key)
    {
      assert rows[..i + 1][..i] == rows[..i];
      if rows[i].asset != u || rows[i].item.name != key { rest := rest + [rows[i]]; }
      i := i + 1;
    }
    assert rows[..i] == rows;
    RemainingHolds(rows, u, key);
  }

  /** The items of a dictionary, in some order. */
  method Attributes(custom: Custom) returns (items: seq<Attribute>)
    ensures AsCustom(items) == custom
  {
    items := [];
    var todo := custom.Keys;
    while todo != {}
      invariant todo <= custom.Keys && AsCustom(items) == custom - todo
      decreases |todo|
    {
      var key :| key in todo;
      AsCustomAppend(items, Attribute(key, custom[key]));
      assert (custom - todo)[key := custom[key]] == custom - (todo - {key});
      items := items + [Attribute(key, custom[key])];
      todo := todo - {key};
    }
    assert custom - todo == custom;
  }

  // ---- Key history ----

  /** Close the open interval of `u` and open the next one. */
  method RotateHistory(rows: seq<ChildRow<KeyInterval>>, u: Uuid, newKey: Pubkey, sequence: nat)
    returns (after: seq<ChildRow<KeyInterval>>)
    requires KeyChain(ItemsOf(rows, u))
    ensures Holds(rows, after, u, Rotated(ItemsOf(rows, u), newKey, sequence))
  {
    ghost var keys := ItemsOf(rows, u);
    after := CloseOpen(rows, u, sequence);
    HoldsAdded(rows, after, u, keys[|keys| - 1 := keys[|keys| - 1].(until := Some(sequence))], KeyInterval(newKey, sequence, None));
    after := after + [ChildRow(u, KeyInterval(newKey, sequence, None))];
  }

  predicate HasOpen(keys: seq<KeyInterval>) { exists k | k in keys :: k.until.None? }

  function Closed(k: KeyInterval, sequence: nat): KeyInterval { if k.until.None? then k.(until := Some(sequence)) else k }

  /** Only the first open interval closed. */
  function ClosedFirst(keys: seq<KeyInterval>, sequence: nat): seq<KeyInterval> {
    if |keys| == 0 then []
    else
      var rest, last := keys[..|keys| - 1], keys[|keys| - 1];
      if HasOpen(rest) then ClosedFirst(rest, sequence) + [last] else ClosedFirst(rest, sequence) + [Closed(last, sequence)]
  }

  lemma ClosedFirstAppend(keys: seq<KeyInterval>, k: KeyInterval, sequence: nat)
    ensures ClosedFirst(keys + [k], sequence) == ClosedFirst(keys, sequence) + [if HasOpen(keys) then k else Closed(k, sequence)]
    ensures HasOpen(keys + [k]) <==> HasOpen(keys) || k.until.None?
  {
  }

  lemma {:induction false} NothingToClose(keys: seq<KeyInterval>, sequence: nat)
    requires !HasOpen(keys)
    ensures ClosedFirst(keys, sequence) == keys
  {
    if |keys| > 0 {
      assert keys[|keys| - 1] in keys;
      NothingToClose(keys[..|keys| - 1], sequence);
    }
  }

  /** A gapless chain has one open interval, its last. */
  lemma ChainClosesItsLast(keys: seq<KeyInterval>, sequence: nat)
    requires KeyChain(keys)
    ensures ClosedFirst(keys, sequence) == keys[|keys| - 1 := keys[|keys| - 1].(until := Some(sequence))]
  {
    var rest := keys[..|keys| - 1];
    forall k | k in rest ensures k.until.Some? {
      var i :| 0 <= i < |rest| && rest[i] == k;
      assert keys[i].until == Some(keys[i + 1].from);
    }
    NothingToClose(rest, sequence);
  }

  /** The rows once the first open interval of `u` is closed. */
  function ClosedRows(rows: seq<ChildRow<KeyInterval>>, u: Uuid, sequence: nat): seq<ChildRow<KeyInterval>> {
    if |rows| == 0 then []
    else
      var rest, row := rows[..|rows| - 1], rows[|rows| - 1];
      ClosedRows(rest, u, sequence)
      + [if row.asset == u && !HasOpen(ItemsOf(rest, u)) then ChildRow(u, Closed(row.item, sequence)) else row]
  }

  lemma {:induction false} ClosedRowsHold(rows: seq<ChildRow<KeyInterval>>, u: Uuid, sequence: nat)
    ensures Holds(rows, ClosedRows(rows, u, sequence), u, ClosedFirst(ItemsOf(rows, u), sequence))
  {
    if |rows| == 0 {
      StartHolds<KeyInterval>(u);
    } else {
      var rest, row := rows[..|rows| - 1], rows[|rows| - 1];
      ClosedRowsHold(rest, u, sequence);
      assert rest + [row] == rows;
      ClosedRowHolds(rest, ClosedRows(rest, u, sequence), u, sequence, row);
    }
  }

  lemma ClosedRowHolds(
    rows: seq<ChildRow<KeyInterval>>, after: seq<ChildRow<KeyInterval>>, u: Uuid, sequence: nat, row: ChildRow<KeyInterval>)
    requires Holds(rows, after, u, ClosedFirst(ItemsOf(rows, u), sequence))
    ensures var closes := row.asset == u && !HasOpen(ItemsOf(rows, u));
            Holds(rows + [row], after + [if closes then ChildRow(u, Closed(row.item, sequence)) else row], u,
                  ClosedFirst(ItemsOf(rows + [row], u), sequence))
  {
    var done := ClosedFirst(ItemsOf(rows, u), sequence);
    ItemsOfAppend(rows, row, u);
    if row.asset != u {
      HoldsCopied(rows, after, u, done, row);
    } else {
      ClosedFirstAppend(ItemsOf(rows, u), row.item, sequence);
      HoldsDropped(rows, after, u, done, row);
      var item := if HasOpen(ItemsOf(rows, u)) then row.item else Closed(row.item, sequence);
      HoldsAdded(rows + [row], after, u, done, item);
    }
  }

  lemma ClosedRowsEnds(rows: seq<ChildRow<KeyInterval>>, u: Uuid, sequence: nat)
    ensures ClosedRows(rows[..0], u, sequence) == [] && !HasOpen(ItemsOf(rows[..0], u))
    ensures rows[..|rows|] == rows
  {
  }

  lemma ClosedRowsMore(rows: seq<ChildRow<KeyInterval>>, i: nat, u: Uuid, sequence: nat)
    requires i < |rows|
    ensures var row, found := rows[i], HasOpen(ItemsOf(rows[..i], u));
            && (HasOpen(ItemsOf(rows[..i + 1], u)) <==> found || (row.asset == u && row.item.until.None?))
            && ClosedRows(rows[..i + 1], u, sequence)
               == ClosedRows(rows[..i], u, sequence) + [if row.asset == u && !found then ChildRow(u, Closed(row.item, sequence)) else row]
  {
    assert rows[..i + 1] == rows[..i] + [rows[i]];
    assert (rows[..i] + [rows[i]])[..i] == rows[..i];
    ItemsOfAppend(rows[..i], rows[i], u);
    ClosedFirstAppend(ItemsOf(rows[..i], u), rows[i].item, sequence);
  }

  /** Close the first open interval found, which in a gapless chain is the last one. */
  method CloseOpen(rows: seq<ChildRow<KeyInterval>>, u: Uuid, sequence: nat) returns (after: seq<ChildRow<KeyInterval>>)
    requires KeyChain(ItemsOf(rows, u))
    ensures var keys := ItemsOf(rows, u);
            Holds(rows, after, u, keys[|keys| - 1 := keys[|keys| - 1].(until := Some(sequence))])
  {
    hide ItemsOf, HasOpen, ClosedRows, Holds;
    ClosedRowsEnds(rows, u, sequence);
    after := [];
    var i := 0;
    var found := false;
    while i < |rows|
      invariant i <= |rows| && (found <==> HasOpen(ItemsOf(rows[..i], u))) && after == ClosedRows(rows[..i], u, sequence)
    {
      ClosedRowsMore(rows, i, u, sequence);
      var row := rows[i];
      if row.asset == u && row.item.until.None? && !found {
        row := row.(item := row.item.(until := Some(sequence)));
        found := true;
      }
      after := after + [row];
      i := i + 1;
    }
    ClosedRowsHold(rows, u, sequence);
    ChainClosesItsLast(ItemsOf(rows, u), sequence);
  }

  // ---- Icon proposals ----

  /** `update ... set obsoleted where asset = u and not obsoleted`. */
  method ObsoleteProposals(proposals: seq<Proposal>, u: Uuid, sequence: nat) returns (after: seq<Proposal>)
    ensures after == ObsoleteAll(proposals, u, sequence)
  {
    after := proposals;
    var i := 0;
    while i < |proposals|
      invariant i <= |proposals| == |after|
      invariant forall k | 0 <= k < |after| :: after[k] == if k < i then ObsoleteOne(proposals[k], u, sequence) else proposals[k]
    {
      var p := after[i];
      if p.asset == u && p.obsoletedBy.None? { after := after[i := p.(obsoletedBy := Some(sequence))]; }
      i := i + 1;
    }
  }
}
