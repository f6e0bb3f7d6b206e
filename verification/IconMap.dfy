/** Streamed JSON objects (`registry_api/serialized_fragments.py`) and the merged icon map
    (`registry_api/icons.py`). */
module IconMap {
  import opened Basics

  // ---- Order on keys ----

  predicate Less(a: string, b: string) {
    |b| > 0 && (|a| == 0 || a[0] < b[0] || (a[0] == b[0] && Less(a[1..], b[1..])))
  }

  lemma {:induction false} LessTransitive(a: string, b: string, c: string)
    requires Less(a, b) && Less(b, c)
    ensures Less(a, c)
  {
    if |a| > 0 && a[0] == b[0] && b[0] == c[0] { LessTransitive(a[1..], b[1..], c[1..]); }
  }

  lemma {:induction false} LessTotal(a: string, b: string)
    ensures !(Less(a, b) && Less(b, a)) && !Less(a, a) && (a != b ==> Less(a, b) || Less(b, a))
  {
    if |a| > 0 { LessTotal(a[1..], a[1..]); }
    if |a| > 0 && |b| > 0 {
      LessTotal(a[1..], b[1..]);
      if a[0] == b[0] && a[1..] == b[1..] { assert a == [a[0]] + a[1..] == b; }
    }
  }

  // ---- Objects as tokens ----

  datatype Token = OpenBrace | CloseBrace | Comma | Colon | Text(text: string)

  type Item = (string, string)

  /** The members of a well-formed JSON object of texts, read from the left. */
  function ParseObject(ts: seq<Token>): Option<seq<Item>> {
    if ts == [OpenBrace, CloseBrace] then Some([])
    else if |ts| > 0 && ts[0] == OpenBrace then ParseMembers(ts[1..])
    else None
  }

  function ParseMembers(ts: seq<Token>): Option<seq<Item>> {
    if |ts| < 4 || !ts[0].Text? || ts[1] != Colon || !ts[2].Text? then None
    else if ts[3] == CloseBrace && |ts| == 4 then Some([(ts[0].text, ts[2].text)])
    else if ts[3] == Comma then
      match ParseMembers(ts[4..])
      case Some(rest) => Some([(ts[0].text, ts[2].text)] + rest)
      case None => None
    else None
  }

  /** The object a parser builds: later members override earlier ones. */
  function ToMap(items: seq<Item>): map<string, string> {
    if |items| == 0 then map[]
    else ToMap(items[..|items| - 1])[items[|items| - 1].0 := items[|items| - 1].1]
  }

  lemma {:induction false} KeyIsAnItem(items: seq<Item>, key: string) returns (i: nat)
    requires key in ToMap(items)
    ensures i < |items| && items[i].0 == key
  {
    i := |items| - 1;
    if items[i].0 != key { i := KeyIsAnItem(items[..i], key); }
  }

  function EntryTokens(item: Item, first: bool): seq<Token> {
    (if first then [] else [Comma]) + [Text(item.0), Colon, Text(item.1)]
  }

  /** What has been emitted after the opening brace. */
  function Body(items: seq<Item>): seq<Token> {
    if |items| == 0 then []
    else Body(items[..|items| - 1]) + EntryTokens(items[|items| - 1], |items| == 1)
  }

  /** Members separated by commas, read from the left. */
  function Members(items: seq<Item>): seq<Token> {
    if |items| == 0 then []
    else EntryTokens(items[0], true) + (if |items| == 1 then [] else [Comma] + Members(items[1..]))
  }

  lemma {:induction false} MembersAppend(items: seq<Item>, item: Item)
    ensures Members(items + [item]) == Members(items) + EntryTokens(item, |items| == 0)
  {
    if |items| == 0 {
      assert items + [item] == [item];
    } else {
      assert (items + [item])[1..] == items[1..] + [item];
      MembersAppend(items[1..], item);
      if |items| == 1 { assert items[1..] == []; }
    }
  }

  lemma {:induction false} BodyIsMembers(items: seq<Item>)
    ensures Body(items) == Members(items)
  {
    if |items| > 0 {
      var n := |items| - 1;
      BodyIsMembers(items[..n]);
      MembersAppend(items[..n], items[n]);
      assert items[..n] + [items[n]] == items;
    }
  }

  lemma {:induction false} ParsesMembers(items: seq<Item>)
    requires |items| > 0
    ensures ParseMembers(Members(items) + [CloseBrace]) == Some(items)
  {
    var ts := Members(items) + [CloseBrace];
    assert ts[0] == Text(items[0].0) && ts[1] == Colon && ts[2] == Text(items[0].1);
    if |items| > 1 {
      ParsesMembers(items[1..]);
      assert ts[3] == Comma && ts[4..] == Members(items[1..]) + [CloseBrace];
      assert items == [items[0]] + items[1..];
    } else {
      assert ts[3] == CloseBrace && |ts| == 4;
      assert items == [items[0]];
    }
  }

  /** Whatever is emitted with commas placed by the `first` flag parses back to the members. */
  lemma ParsesBack(items: seq<Item>)
    ensures ParseObject([OpenBrace] + Body(items) + [CloseBrace]) == Some(items)
  {
    BodyIsMembers(items);
    var ts := [OpenBrace] + Body(items) + [CloseBrace];
    if |items| > 0 {
      ParsesMembers(items);
      assert ts[1..] == Members(items) + [CloseBrace];
    }
  }

  /** `_iter_json_object`. */
  method IterJsonObject(items: seq<Item>) returns (out: seq<Token>)
    ensures ParseObject(out) == Some(items)
  {
    out := [OpenBrace];
    var first := true;
    var i := 0;
    while i < |items|
      invariant i <= |items| && (first <==> i == 0)
      invariant out == [OpenBrace] + Body(items[..i])
    {
      if first { first := false; } else { out := out + [Comma]; }
      out := out + [Text(items[i].0), Colon, Text(items[i].1)];
      assert items[..i + 1][..i] == items[..i];
      i := i + 1;
    }
    assert items[..i] == items;
    ParsesBack(items);
    out := out + [CloseBrace];
  }

  // ---- The merged icon map ----

  ghost predicate KeysAscend(items: seq<Item>) {
    forall i, j | 0 <= i < j < |items| :: Less(items[i].0, items[j].0)
  }

  /** Every key emitted so far comes before the remaining items of a source. */
  ghost predicate AllBefore(done: seq<Item>, source: seq<Item>, from: nat) {
    forall i, j | 0 <= i < |done| && from <= j < |source| :: Less(done[i].0, source[j].0)
  }

  /** What has been put out stands for the members done. */
  predicate Written(out: seq<Token>, done: seq<Item>, first: bool) {
    out == [OpenBrace] + Body(done) && (first <==> done == [])
  }

  method StreamEntry(ghost done: seq<Item>, out: seq<Token>, item: Item, first: bool) returns (more: seq<Token>)
    requires Written(out, done, first)
    ensures Written(more, done + [item], false)
  {
    more := out;
    if !first { more := more + [Comma]; }
    more := more + [Text(item.0), Colon, Text(item.1)];
    assert (done + [item])[..|done|] == done;
  }

  lemma AscendAppend(done: seq<Item>, source: seq<Item>, j: nat)
    requires KeysAscend(done) && j < |source| && AllBefore(done, source, j)
    ensures KeysAscend(done + [source[j]])
  {
  }

  lemma BeforeAppend(done: seq<Item>, item: Item, source: seq<Item>, from: nat)
    requires AllBefore(done, source, from)
    requires forall j | from <= j < |source| :: Less(item.0, source[j].0)
    ensures AllBefore(done + [item], source, from)
  {
  }

  lemma ToMapAppend(items: seq<Item>, item: Item)
    ensures ToMap(items + [item]) == ToMap(items)[item.0 := item.1]
  {
  }

  /** What the emitted members must denote: the fallbacks read so far, overridden by the rows read so far. */
  ghost predicate Denotes(done: seq<Item>, rows: seq<Item>, i: nat, fallback: seq<Item>, j: nat)
    requires i <= |rows| && j <= |fallback|
  {
    ToMap(done) == ToMap(fallback[..j]) + ToMap(rows[..i])
  }

  lemma OverrideLeft(f: map<string, string>, r: map<string, string>, key: string, value: string)
    requires key !in r
    ensures (f + r)[key := value] == f[key := value] + r
  {
  }

  lemma OverrideRight(f: map<string, string>, r: map<string, string>, key: string, value: string, dropped: string)
    ensures (f + r)[key := value] == f + r[key := value] == f[key := dropped] + r[key := value]
  {
  }

  lemma TakeOne(items: seq<Item>, i: nat)
    requires i < |items|
    ensures ToMap(items[..i + 1]) == ToMap(items[..i])[items[i].0 := items[i].1]
  {
    ToMapAppend(items[..i], items[i]);
    assert items[..i + 1] == items[..i] + [items[i]];
  }

  lemma FallbackDenotes(done: seq<Item>, rows: seq<Item>, i: nat, fallback: seq<Item>, j: nat)
    requires i <= |rows| && j < |fallback| && Denotes(done, rows, i, fallback, j) && AllBefore(done, fallback, j)
    ensures Denotes(done + [fallback[j]], rows, i, fallback, j + 1)
  {
    var k := fallback[j].0;
    ToMapAppend(done, fallback[j]);
    TakeOne(fallback, j);
    NotYetEmitted(done, fallback, j);
    OverrideLeft(ToMap(fallback[..j]), ToMap(rows[..i]), k, fallback[j].1);
  }

  lemma NotYetEmitted(done: seq<Item>, source: seq<Item>, j: nat)
    requires j < |source| && AllBefore(done, source, j)
    ensures source[j].0 !in ToMap(done)
  {
    if source[j].0 in ToMap(done) {
      var a := KeyIsAnItem(done, source[j].0);
      assert Less(done[a].0, source[j].0);
      LessTotal(source[j].0, source[j].0);
      assert false;
    }
  }

  lemma RowDenotes(done: seq<Item>, rows: seq<Item>, i: nat, fallback: seq<Item>, j: nat)
    requires i < |rows| && j <= |fallback| && Denotes(done, rows, i, fallback, j)
    ensures Denotes(done + [rows[i]], rows, i + 1, fallback, j)
  {
    ToMapAppend(done, rows[i]);
    TakeOne(rows, i);
    OverrideRight(ToMap(fallback[..j]), ToMap(rows[..i]), rows[i].0, rows[i].1, "");
  }

  /** A skipped fallback is one the row about to be emitted overrides. */
  lemma SkipDenotes(done: seq<Item>, rows: seq<Item>, i: nat, fallback: seq<Item>, j: nat)
    requires i < |rows| && j < |fallback| && Denotes(done, rows, i, fallback, j) && fallback[j].0 == rows[i].0
    ensures Denotes(done + [rows[i]], rows, i + 1, fallback, j + 1)
  {
    ToMapAppend(done, rows[i]);
    TakeOne(rows, i);
    TakeOne(fallback, j);
    OverrideRight(ToMap(fallback[..j]), ToMap(rows[..i]), rows[i].0, rows[i].1, fallback[j].1);
  }

  lemma RowBefore(rows: seq<Item>, i: nat, fallback: seq<Item>, j: nat)
    requires i < |rows| && KeysAscend(fallback) && (j < |fallback| ==> Less(rows[i].0, fallback[j].0))
    ensures forall b | j <= b < |fallback| :: Less(rows[i].0, fallback[b].0)
  {
    forall b | j <= b < |fallback| ensures Less(rows[i].0, fallback[b].0) {
      if j < b { LessTransitive(rows[i].0, fallback[j].0, fallback[b].0); }
    }
  }

  ghost predicate Merging(done: seq<Item>, rows: seq<Item>, i: nat, fallback: seq<Item>, j: nat) {
    && i <= |rows| && j <= |fallback| && KeysAscend(done)
    && AllBefore(done, rows, i) && AllBefore(done, fallback, j)
    && Denotes(done, rows, i, fallback, j)
  }

  lemma EmitFallback(done: seq<Item>, rows: seq<Item>, i: nat, fallback: seq<Item>, j: nat)
    requires KeysAscend(rows) && KeysAscend(fallback) && Merging(done, rows, i, fallback, j) && j < |fallback|
    requires i < |rows| ==> Less(fallback[j].0, rows[i].0)
    ensures Merging(done + [fallback[j]], rows, i, fallback, j + 1)
  {
    AscendAppend(done, fallback, j);
    FallbackDenotes(done, rows, i, fallback, j);
    RowBefore(fallback, j, rows, i);
    BeforeAppend(done, fallback[j], rows, i);
    BeforeAppend(done, fallback[j], fallback, j + 1);
  }

  lemma EmitRow(done: seq<Item>, rows: seq<Item>, i: nat, fallback: seq<Item>, j: nat)
    requires KeysAscend(rows) && KeysAscend(fallback) && Merging(done, rows, i, fallback, j) && i < |rows|
    requires j < |fallback| ==> !Less(fallback[j].0, rows[i].0)
    ensures var skip := j < |fallback| && fallback[j].0 == rows[i].0;
            Merging(done + [rows[i]], rows, i + 1, fallback, if skip then j + 1 else j)
  {
    var skip := j < |fallback| && fallback[j].0 == rows[i].0;
    var next := if skip then j + 1 else j;
    AscendAppend(done, rows, i);
    if skip { SkipDenotes(done, rows, i, fallback, j); } else { RowDenotes(done, rows, i, fallback, j); }
    if j < |fallback| { LessTotal(fallback[j].0, rows[i].0); }
    RowBefore(rows, i, fallback, next);
    BeforeAppend(done, rows[i], rows, i + 1);
    BeforeAppend(done, rows[i], fallback, next);
  }

  /** Write the fallbacks that come before the next row, or all that are left. */
  method StreamFallbacks(
    rows: seq<Item>, i: nat, fallback: seq<Item>, from: nat, soFar: seq<Token>, wasFirst: bool, ghost before: seq<Item>)
    returns (out: seq<Token>, first: bool, j: nat, ghost done: seq<Item>)
    requires KeysAscend(rows) && KeysAscend(fallback)
    requires Merging(before, rows, i, fallback, from) && Written(soFar, before, wasFirst)
    ensures Merging(done, rows, i, fallback, j) && Written(out, done, first)
    ensures j < |fallback| ==> i < |rows| && !Less(fallback[j].0, rows[i].0)
  {
    out, first, j, done := soFar, wasFirst, from, before;
    while j < |fallback| && (i == |rows| || Less(fallback[j].0, rows[i].0))
      invariant Merging(done, rows, i, fallback, j) && Written(out, done, first)
    {
      out := StreamEntry(done, out, fallback[j], first);
      EmitFallback(done, rows, i, fallback, j);
      first, done, j := false, done + [fallback[j]], j + 1;
    }
  }

  /** A well-formed object with strictly ascending keys that denotes `m`. */
  ghost predicate StreamsAs(out: seq<Token>, m: map<string, string>) {
    && ParseObject(out).Some?
    && KeysAscend(ParseObject(out).value)
    && ToMap(ParseObject(out).value) == m
  }

  /** `stream_icon_map_bytes`: strictly ascending database rows over sorted fallbacks. */
  method StreamIconMap(rows: seq<Item>, fallback: seq<Item>) returns (out: seq<Token>)
    requires KeysAscend(rows) && KeysAscend(fallback)
    ensures StreamsAs(out, ToMap(fallback) + ToMap(rows))
  {
    ghost var done: seq<Item> := [];
    out := [OpenBrace];
    var first := true;
    var i: nat, j: nat := 0, 0;
    while i < |rows|
      invariant Merging(done, rows, i, fallback, j) && Written(out, done, first)
    {
      out, first, j, done := StreamFallbacks(rows, i, fallback, j, out, first, done);
      EmitRow(done, rows, i, fallback, j);
      if j < |fallback| && fallback[j].0 == rows[i].0 { j := j + 1; }
      out := StreamEntry(done, out, rows[i], first);
      first, done, i := false, done + [rows[i]], i + 1;
    }
    out, first, j, done := StreamFallbacks(rows, i, fallback, j, out, first, done);
    assert rows[..i] == rows && fallback[..j] == fallback;
    ParsesBack(done);
    out := out + [CloseBrace];
  }

  // ---- Sorting the fallbacks ----

  lemma {:induction false} FirstKeyExists(keys: set<string>) returns (first: string)
    requires keys != {}
    ensures first in keys && forall k | k in keys && k != first :: Less(first, k)
  {
    first :| first in keys;
    if keys != {first} {
      var other := FirstKeyExists(keys - {first});
      LessTotal(first, other);
      if Less(other, first) {
        forall k | k in keys && k != other ensures Less(other, k) { assert k == first || k in keys - {first}; }
        first := other;
      } else {
        forall k | k in keys && k != first ensures Less(first, k) {
          if k != other { LessTransitive(first, other, k); }
        }
      }
    }
  }

  lemma OneLess(m: map<string, string>, todo: set<string>, key: string)
    requires key in todo && key in m
    ensures m - (todo - {key}) == (m - todo)[key := m[key]]
  {
  }

  /** `sorted(fallback.items())`. */
  method SortedItems(fallback: map<string, string>) returns (items: seq<Item>)
    ensures KeysAscend(items) && ToMap(items) == fallback
  {
    items := [];
    var todo := fallback.Keys;
    while todo != {}
      invariant todo <= fallback.Keys && KeysAscend(items)
      invariant forall i, k | 0 <= i < |items| && k in todo :: Less(items[i].0, k)
      invariant ToMap(items) == fallback - todo
      decreases |todo|
    {
      ghost var first := FirstKeyExists(todo);
      assert forall k | k in todo && k != first :: Less(first, k);
      var key :| key in todo && forall k | k in todo && k != key :: Less(key, k);
      ToMapAppend(items, (key, fallback[key]));
      OneLess(fallback, todo, key);
      items := items + [(key, fallback[key])];
      todo := todo - {key};
    }
    assert fallback - todo == fallback;
  }

  /** The whole endpoint: the packaged fallbacks, sorted, under the database's own icons. */
  method StreamWithFallback(rows: seq<Item>, fallback: map<string, string>) returns (out: seq<Token>)
    requires KeysAscend(rows)
    ensures StreamsAs(out, fallback + ToMap(rows))
  {
    var items := SortedItems(fallback);
    out := StreamIconMap(rows, items);
  }
}
