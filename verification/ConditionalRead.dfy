/** Conditional reads of the registry (sections 8.8.2 and 13.1.3 of RFC 9110): writers assign a version at
    commit, readers take a validator and later a body, clients echo dates. Times are microseconds. The
    database clock may read anything at any time unless a lemma says otherwise. */
module ConditionalRead {
  import opened Basics

  const SECOND := 1_000_000

  predicate Whole(t: int) { t % SECOND == 0 }

  function Trunc(t: int): int { t - t % SECOND }

  // ---- The version trigger (`migrations/versions/0015_asset_registry_version.py`) ----

  function NextVersion(committed: Option<int>, clock: int): int {
    match committed
    case None => Trunc(clock)
    case Some(m) => if Trunc(clock) < m + SECOND then m + SECOND else Trunc(clock)
  }

  /** A whole second that is no earlier than the clock's own and a second past the last committed one. */
  predicate MovesOn(committed: Option<int>, clock: int, v: int) {
    Whole(v) && clock < v + SECOND && (committed.Some? ==> committed.value + SECOND <= v)
  }

  /** A version moves on, and is the earliest that does. */
  lemma NextVersionMovesOn(committed: Option<int>, clock: int)
    requires committed.Some? ==> Whole(committed.value)
    ensures var v := NextVersion(committed, clock);
            MovesOn(committed, clock, v) && forall w | MovesOn(committed, clock, w) :: v <= w
  {
  }

  /** The singleton row as one transaction sees it, with that transaction's flag. */
  class VersionRow {
    var modifiedAt: Option<int>
    var bumped: bool

    predicate Valid() reads this { modifiedAt.Some? ==> Whole(modifiedAt.value) }

    constructor (committed: Option<int>)
      requires committed.Some? ==> Whole(committed.value)
      ensures Valid() && modifiedAt == committed && !bumped
    {
      modifiedAt, bumped := committed, false;
    }

    /** Runs once per changed row; only the first run of a transaction counts. */
    method BumpAssetRegistryVersion(clock: int)
      requires Valid()
      modifies this
      ensures Valid() && bumped
      ensures modifiedAt == if old(bumped) then old(modifiedAt) else Some(NextVersion(old(modifiedAt), clock))
    {
      if bumped { return; }
      bumped := true;
      var second := clock - clock % SECOND;
      if modifiedAt.None? {
        modifiedAt := Some(second);
      } else {
        var next := modifiedAt.value + SECOND;
        modifiedAt := Some(if next < second then second else next);
      }
    }
  }

  /** However many rows a transaction changes, its version is the one its first trigger run computed. */
  method CommitTriggers(row: VersionRow, clocks: seq<int>)
    requires row.Valid() && !row.bumped && |clocks| > 0
    modifies row
    ensures row.Valid() && row.modifiedAt == Some(NextVersion(old(row.modifiedAt), clocks[0]))
  {
    var i := 0;
    while i < |clocks|
      invariant i <= |clocks| && row.Valid() && (row.bumped <==> i > 0)
      invariant row.modifiedAt == if i == 0 then old(row.modifiedAt) else Some(NextVersion(old(row.modifiedAt), clocks[0]))
    {
      row.BumpAssetRegistryVersion(clocks[i]);
      i := i + 1;
    }
  }

  // ---- The reader (`registry_api/api/asset_cache.py`) ----

  datatype Reply = Reply(lastModified: Option<int>, notModified: bool)

  /** `since` is the one usable If-Modified-Since date, if the request has one. */
  function Prepare(modified: Option<int>, second: int, since: Option<int>): Reply {
    match modified
    case None => Reply(None, false)
    case Some(m) =>
      if m >= second then Reply(Some(second - SECOND), false)
      else Reply(Some(m), since.Some? && m <= since.value < second)
  }

  class Response {
    var cacheControl: string
    var vary: string
    var lastModified: Option<int>

    constructor ()
      ensures lastModified == None
    {
      cacheControl, vary, lastModified := "", "", None;
    }
  }

  method PrepareAssetRead(
    response: Response, row: Option<(int, int)>, since: Option<int>, ifNoneMatch: bool, dates: nat)
    returns (notModified: bool)
    requires response.lastModified == None
    modifies response
    ensures response.cacheControl == "no-cache" && response.vary == "Accept-Encoding"
    ensures var usable := if ifNoneMatch || dates != 1 then None else since;
            Reply(response.lastModified, notModified)
            == if row.None? then Reply(None, false) else Prepare(Some(row.value.0), row.value.1, usable)
    ensures notModified <==> row.Some? && since.Some? && !ifNoneMatch && dates == 1 && row.value.0 <= since.value < row.value.1
    ensures row.None? ==> response.lastModified == None
    ensures row.Some? ==>
              response.lastModified == Some(if row.value.0 < row.value.1 then row.value.0 else row.value.1 - SECOND)
  {
    response.cacheControl := "no-cache";
    response.vary := "Accept-Encoding";
    if row.None? { return false; }
    var modifiedAt, currentSecond := row.value.0, row.value.1;
    var tooRecent := modifiedAt >= currentSecond;
    if tooRecent { modifiedAt := currentSecond - SECOND; }
    response.lastModified := Some(modifiedAt);
    if tooRecent || since.None? || ifNoneMatch || dates != 1 { return false; }
    return modifiedAt <= since.value < currentSecond;
  }

  // ---- The protocol ----

  /** What a request carries: nothing usable, an arbitrary date, or the Last-Modified of an earlier answer
      whose body the client has. */
  datatype Sent = Nothing | Date(date: int) | Echo(answer: nat)

  /** A validator query in flight: the commit it sees, whether its asset exists there, and how many
      answers had been given when it started. */
  datatype Reader = Reader(snapshot: nat, present: bool, sent: Sent, after: nat)

  datatype Answer = Answer(reader: Reader, clock: int, since: Option<int>, reply: Reply, body: Option<nat>)

  datatype Pending = Pending(txn: nat, version: int)

  /** `versions[c]` is the committed version once `c` transactions have changed assets. The pending
      writer holds the row lock. */
  datatype System = System(versions: seq<Option<int>>, pending: Option<Pending>, readers: map<nat, Reader>, answers: seq<Answer>)

  datatype Event =
    | Fire(txn: nat, clock: int)
    | Commit(txn: nat)
    | Abort(txn: nat)
    | Open(id: nat, present: bool, sent: Sent)
    | Respond(id: nat, clock: int)
    | ReadBody(answer: nat)

  function Commits(s: System): int { |s.versions| - 1 }

  predicate MaySend(s: System, sent: Sent) {
    sent.Echo? ==> sent.answer < |s.answers| && s.answers[sent.answer].body.Some?
  }

  function SentDate(answers: seq<Answer>, sent: Sent): Option<int> {
    match sent
    case Nothing => None
    case Date(d) => Some(d)
    case Echo(i) => if i < |answers| then answers[i].reply.lastModified else None
  }

  predicate LockedBy(s: System, txn: nat) { s.pending.Some? && s.pending.value.txn == txn }

  predicate VersionWhole(v: Option<int>) { v.Some? ==> Whole(v.value) }

  /** One event; an event that is not possible in a state (a blocked writer, say) leaves it as it is. */
  function Next(s: System, event: Event): System
    requires |s.versions| > 0
  {
    match event
    case Fire(txn, clock) =>
      if s.pending.Some? then s
      else s.(pending := Some(Pending(txn, NextVersion(s.versions[|s.versions| - 1], clock))))
    case Commit(txn) =>
      if LockedBy(s, txn) then s.(versions := s.versions + [Some(s.pending.value.version)], pending := None) else s
    case Abort(txn) => if LockedBy(s, txn) then s.(pending := None) else s
    case Open(id, present, sent) =>
      if MaySend(s, sent) then s.(readers := s.readers[id := Reader(Commits(s), present, sent, |s.answers|)]) else s
    case Respond(id, clock) =>
      if id !in s.readers then s
      else
        var r := s.readers[id];
        if r.snapshot >= |s.versions| then s
        else
          var since := SentDate(s.answers, r.sent);
          var reply := Prepare(if r.present then s.versions[r.snapshot] else None, Trunc(clock), since);
          s.(readers := s.readers - {id}, answers := s.answers + [Answer(r, clock, since, reply, None)])
    case ReadBody(i) =>
      if i < |s.answers| && s.answers[i].body.None? then
        s.(answers := s.answers[i := s.answers[i].(body := Some(Commits(s)))])
      else s
  }

  function Start(initial: Option<int>): System { System([initial], None, map[], []) }

  function Run(initial: Option<int>, events: seq<Event>): (s: System)
    requires VersionWhole(initial)
    ensures Sound(s)
  {
    if |events| == 0 then StartSound(initial); Start(initial)
    else
      var before := Run(initial, events[..|events| - 1]);
      NextSound(before, events[|events| - 1]);
      Next(before, events[|events| - 1])
  }

  // ---- The invariant ----

  /** `w` was committed after `v`, at least a second on. */
  predicate SecondOn(v: Option<int>, w: Option<int>) {
    w.Some? && (v.Some? ==> v.value + SECOND <= w.value)
  }

  /** Each commit moves the version on by a second at least. */
  ghost predicate Spaced(versions: seq<Option<int>>) {
    && |versions| > 0
    && (forall i | 0 <= i < |versions| :: VersionWhole(versions[i]))
    && (forall i, j | 0 <= i < j < |versions| :: SecondOn(versions[i], versions[j]))
  }

  predicate PendingOk(s: System) {
    s.pending.Some? ==>
      && Whole(s.pending.value.version)
      && |s.versions| > 0
      && var last := s.versions[|s.versions| - 1];
         last.Some? ==> last.value + SECOND <= s.pending.value.version
  }

  predicate ReaderOk(answers: seq<Answer>, n: nat, r: Reader) {
    && r.snapshot < n && r.after <= |answers|
    && (r.sent.Echo? ==>
          && r.sent.answer < r.after
          && answers[r.sent.answer].body.Some? && answers[r.sent.answer].body.value <= r.snapshot)
    && forall k | 0 <= k < r.after :: answers[k].reader.snapshot <= r.snapshot
  }

  predicate AnswerOk(versions: seq<Option<int>>, answers: seq<Answer>, i: nat)
    requires i < |answers|
  {
    var a := answers[i];
    && ReaderOk(answers, |versions|, a.reader) && a.reader.after <= i
    && a.since == SentDate(answers, a.reader.sent)
    && a.reply == Prepare(if a.reader.present then versions[a.reader.snapshot] else None, Trunc(a.clock), a.since)
    && (a.body.Some? ==> a.reader.snapshot <= a.body.value < |versions|)
  }

  ghost predicate ReadersOk(s: System) {
    forall id | id in s.readers :: ReaderOk(s.answers, |s.versions|, s.readers[id])
  }

  ghost predicate AnswersOk(versions: seq<Option<int>>, answers: seq<Answer>) {
    forall i | 0 <= i < |answers| :: AnswerOk(versions, answers, i)
  }

  ghost predicate Sound(s: System) {
    Spaced(s.versions) && PendingOk(s) && ReadersOk(s) && AnswersOk(s.versions, s.answers)
  }

  lemma StartSound(initial: Option<int>)
    requires VersionWhole(initial)
    ensures Sound(Start(initial))
  {
  }

  lemma SpacedAppend(versions: seq<Option<int>>, next: int)
    requires Spaced(versions) && Whole(next)
    requires var last := versions[|versions| - 1]; last.Some? ==> last.value + SECOND <= next
    ensures Spaced(versions + [Some(next)])
  {
    var n, after := |versions|, versions + [Some(next)];
    forall i, j | 0 <= i < j < |after|
      ensures SecondOn(after[i], after[j])
    {
      if j < n { assert SecondOn(versions[i], versions[j]); }
      else if i < n - 1 { assert SecondOn(versions[i], versions[n - 1]); }
    }
  }

  lemma CommitSound(s: System, txn: nat)
    requires Sound(s) && LockedBy(s, txn)
    ensures Sound(Next(s, Commit(txn)))
  {
    var s' := Next(s, Commit(txn));
    SpacedAppend(s.versions, s.pending.value.version);
    assert forall i | 0 <= i < |s.versions| :: s'.versions[i] == s.versions[i];
    forall i | 0 <= i < |s'.answers| ensures AnswerOk(s'.versions, s'.answers, i) {
      assert AnswerOk(s.versions, s.answers, i);
    }
  }

  lemma RespondSound(s: System, id: nat, clock: int)
    requires Sound(s) && id in s.readers
    ensures Sound(Next(s, Respond(id, clock)))
  {
    var s' := Next(s, Respond(id, clock));
    assert ReaderOk(s.answers, |s.versions|, s.readers[id]);
    forall i | 0 <= i < |s'.answers| ensures AnswerOk(s'.versions, s'.answers, i) {
      if i < |s.answers| { assert AnswerOk(s.versions, s.answers, i); }
    }
    forall k | k in s'.readers ensures ReaderOk(s'.answers, |s'.versions|, s'.readers[k]) {
      assert ReaderOk(s.answers, |s.versions|, s.readers[k]);
    }
  }

  lemma BodySound(s: System, i: nat)
    requires Sound(s) && i < |s.answers| && s.answers[i].body.None?
    ensures Sound(Next(s, ReadBody(i)))
  {
    var s' := Next(s, ReadBody(i));
    assert AnswerOk(s.versions, s.answers, i);
    forall k | 0 <= k < |s'.answers| ensures AnswerOk(s'.versions, s'.answers, k) {
      assert AnswerOk(s.versions, s.answers, k);
    }
    forall k | k in s'.readers ensures ReaderOk(s'.answers, |s'.versions|, s'.readers[k]) {
      assert ReaderOk(s.answers, |s.versions|, s.readers[k]);
    }
  }

  lemma OpenSound(s: System, id: nat, present: bool, sent: Sent)
    requires Sound(s) && MaySend(s, sent)
    ensures Sound(Next(s, Open(id, present, sent)))
  {
    forall k | 0 <= k < |s.answers| ensures s.answers[k].reader.snapshot <= Commits(s) {
      assert AnswerOk(s.versions, s.answers, k);
    }
    if sent.Echo? { assert AnswerOk(s.versions, s.answers, sent.answer); }
  }

  lemma NextSound(s: System, event: Event)
    requires Sound(s)
    ensures Sound(Next(s, event))
  {
    match event
    case Fire(_, _) =>
    case Commit(txn) => if LockedBy(s, txn) { CommitSound(s, txn); }
    case Abort(_) =>
    case Open(id, present, sent) => if MaySend(s, sent) { OpenSound(s, id, present, sent); }
    case Respond(id, clock) => if id in s.readers { RespondSound(s, id, clock); }
    case ReadBody(i) => if i < |s.answers| && s.answers[i].body.None? { BodySound(s, i); }
  }

  // ---- The promises ----

  /** A request that echoes the Last-Modified of an answer gets 304 exactly when no transaction has
      committed since that answer's validator was read, the date was the true version and not one pulled
      back, and the version is older than the current second; then the body held is the current one. */
  ghost predicate EchoExact(s: System, b: Answer) {
    b.reader.sent.Echo? && b.reader.present ==>
      && b.reader.sent.answer < |s.answers| && b.reader.snapshot < |s.versions|
      && var a, version := s.answers[b.reader.sent.answer], s.versions[b.reader.snapshot];
         && a.body.Some?
         && (b.reply.notModified <==>
               && a.reader.present && version.Some? && a.reader.snapshot == b.reader.snapshot
               && a.reply.lastModified == version && version.value < Trunc(b.clock))
         && (b.reply.notModified ==> a.body == Some(b.reader.snapshot))
  }

  lemma EchoIsExact(s: System, j: nat)
    requires Sound(s) && j < |s.answers|
    ensures EchoExact(s, s.answers[j])
  {
    assert AnswerOk(s.versions, s.answers, j);
    var b := s.answers[j];
    if b.reader.sent.Echo? && b.reader.present {
      var i := b.reader.sent.answer;
      assert AnswerOk(s.versions, s.answers, i);
      var a := s.answers[i];
      EchoDate(s.versions, a, b);
    }
  }

  lemma EchoDate(versions: seq<Option<int>>, a: Answer, b: Answer)
    requires Spaced(versions) && b.reader.snapshot < |versions| && a.reader.snapshot <= b.reader.snapshot
    requires b.reader.present && b.since == a.reply.lastModified
    requires a.reply == Prepare(if a.reader.present then versions[a.reader.snapshot] else None, Trunc(a.clock), a.since)
    requires b.reply == Prepare(versions[b.reader.snapshot], Trunc(b.clock), b.since)
    ensures b.reply.notModified <==>
              && a.reader.present && versions[b.reader.snapshot].Some? && a.reader.snapshot == b.reader.snapshot
              && a.reply.lastModified == versions[b.reader.snapshot] && versions[b.reader.snapshot].value < Trunc(b.clock)
  {
  }

  /** The version an answer's query saw, if its asset exists and a version does. */
  function Seen(versions: seq<Option<int>>, r: Reader): Option<int>
    requires r.snapshot < |versions|
  {
    if r.present then versions[r.snapshot] else None
  }

  /** Any request gets 304 exactly when its asset exists, its query saw a version from before the current second,
      and the date it sent lies from that version up to but not including the current second; such a date is a
      second or more after every earlier version. */
  ghost predicate DateExact(s: System, b: Answer) {
    && b.reader.snapshot < |s.versions|
    && var seen, sent := Seen(s.versions, b.reader), SentDate(s.answers, b.reader.sent);
       && (b.reply.notModified <==> seen.Some? && sent.Some? && seen.value <= sent.value < b.clock - b.clock % SECOND)
       && (b.reply.notModified ==>
             forall c | 0 <= c < b.reader.snapshot && s.versions[c].Some? :: s.versions[c].value + SECOND <= sent.value)
  }

  lemma DateIsExact(s: System, j: nat)
    requires Sound(s) && j < |s.answers|
    ensures DateExact(s, s.answers[j])
  {
    assert AnswerOk(s.versions, s.answers, j);
  }

  /** A Last-Modified is the version the query saw if that is from before the database second it is served in,
      and otherwise the second before that one; so it is a whole second, past, and never later than the version. */
  ghost predicate Past(s: System, a: Answer) {
    && a.reader.snapshot < |s.versions|
    && var seen, second, shown := Seen(s.versions, a.reader), a.clock - a.clock % SECOND, a.reply.lastModified;
       && shown == (if seen.None? then None else if seen.value < second then seen else Some(second - SECOND))
       && (shown.Some? ==> Whole(shown.value) && shown.value < second && shown.value <= seen.value)
  }

  lemma LastModifiedIsPast(s: System, i: nat)
    requires Sound(s) && i < |s.answers|
    ensures Past(s, s.answers[i])
  {
    assert AnswerOk(s.versions, s.answers, i);
  }

  /** While the clock does not go back, an answer never shows an older date than one given before its
      query started. */
  ghost predicate NoDecrease(s: System, i: nat, j: nat)
    requires i < j < |s.answers|
  {
    var a, b := s.answers[i], s.answers[j];
    (i < b.reader.after && a.clock <= b.clock && a.reply.lastModified.Some? && b.reply.lastModified.Some?) ==>
      a.reply.lastModified.value <= b.reply.lastModified.value
  }

  lemma PrepareAscends(m1: int, m2: int, second1: int, second2: int, since1: Option<int>, since2: Option<int>)
    requires Whole(m1) && Whole(m2) && Whole(second1) && Whole(second2) && m1 <= m2 && second1 <= second2
    ensures Prepare(Some(m1), second1, since1).lastModified.value <= Prepare(Some(m2), second2, since2).lastModified.value
  {
  }

  lemma TruncAscends(t: int, u: int)
    requires t <= u
    ensures Trunc(t) <= Trunc(u) && Whole(Trunc(t)) && Whole(Trunc(u))
  {
  }

  lemma LastModifiedNeverDecreases(s: System, i: nat, j: nat)
    requires Sound(s) && i < j < |s.answers|
    ensures NoDecrease(s, i, j)
  {
    hide SentDate, Whole, Trunc;
    var a, b := s.answers[i], s.answers[j];
    assert AnswerOk(s.versions, s.answers, i) && AnswerOk(s.versions, s.answers, j);
    if i < b.reader.after && a.clock <= b.clock && a.reply.lastModified.Some? && b.reply.lastModified.Some? {
      var m1, m2 := s.versions[a.reader.snapshot].value, s.versions[b.reader.snapshot].value;
      TruncAscends(a.clock, b.clock);
      PrepareAscends(m1, m2, Trunc(a.clock), Trunc(b.clock), a.since, b.since);
    }
  }

  /** A version names one state of the registry. */
  ghost predicate VersionsDiffer(s: System) {
    forall c, d | 0 <= c < d < |s.versions| :: s.versions[c] != s.versions[d]
  }

  /** The four promises hold in every interleaving of writers, aborts, clock readings, validator reads and
      body reads. */
  lemma ProtocolPromises(initial: Option<int>, events: seq<Event>)
    requires VersionWhole(initial)
    ensures var s := Run(initial, events);
            && VersionsDiffer(s)
            && (forall j | 0 <= j < |s.answers| :: EchoExact(s, s.answers[j]) && DateExact(s, s.answers[j]) && Past(s, s.answers[j]))
            && (forall i, j | 0 <= i < j < |s.answers| :: NoDecrease(s, i, j))
  {
    var s := Run(initial, events);
    forall j | 0 <= j < |s.answers| ensures EchoExact(s, s.answers[j]) && DateExact(s, s.answers[j]) && Past(s, s.answers[j]) {
      EchoIsExact(s, j);
      DateIsExact(s, j);
      LastModifiedIsPast(s, j);
    }
    forall i, j | 0 <= i < j < |s.answers| ensures NoDecrease(s, i, j) {
      LastModifiedNeverDecreases(s, i, j);
    }
  }

  /** The first writer to reach the row gets the earliest version that moves on from the last committed one. */
  lemma FireMovesOn(s: System, txn: nat, clock: int)
    requires Sound(s) && s.pending.None?
    ensures var last, pending := s.versions[|s.versions| - 1], Next(s, Fire(txn, clock)).pending;
            && pending.Some? && pending.value.txn == txn && MovesOn(last, clock, pending.value.version)
            && forall w | MovesOn(last, clock, w) :: pending.value.version <= w
  {
    NextVersionMovesOn(s.versions[|s.versions| - 1], clock);
  }

  /** One event commits at most one version, at the end, and only for the transaction that holds the row lock. */
  lemma VersionsOnlyGrow(s: System, event: Event)
    requires Sound(s)
    ensures s.versions <= Next(s, event).versions && |Next(s, event).versions| <= |s.versions| + 1
    ensures |Next(s, event).versions| > |s.versions| ==> event.Commit? && LockedBy(s, event.txn)
  {
  }

  /** No committed version is ever lost or renumbered: what a run has committed begins what it commits later. */
  lemma {:induction false} VersionsPersist(initial: Option<int>, events: seq<Event>, n: nat)
    requires VersionWhole(initial) && n <= |events|
    ensures Run(initial, events[..n]).versions <= Run(initial, events).versions
  {
    if n == |events| {
      assert events[..n] == events;
    } else {
      var prefix := events[..|events| - 1];
      VersionsPersist(initial, prefix, n);
      assert prefix[..n] == events[..n];
      VersionsOnlyGrow(Run(initial, prefix), events[|events| - 1]);
    }
  }
}
