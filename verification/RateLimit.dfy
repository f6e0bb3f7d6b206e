/** The registration rate limiter (`registry_api/rate_limit.py`): a sliding log of allowed times per client,
    pruned now and then, with a bound on the clients tracked. */
module RateLimit {
  import opened Basics

  const MAX_TRACKED_CLIENTS := 10_000
  const PRUNE_INTERVAL := 60.0

  type Events = map<string, seq<real>>

  // ---- What each operation computes ----

  /** Pop from the front while the front has expired. */
  function Expire(events: seq<real>, cutoff: real): (live: seq<real>)
    ensures |live| > 0 ==> live[0] > cutoff
  {
    if |events| > 0 && events[0] <= cutoff then Expire(events[1..], cutoff) else events
  }

  function PrunedEvents(events: Events, cutoff: real): Events {
    map k | k in events && Expire(events[k], cutoff) != [] :: Expire(events[k], cutoff)
  }

  /** Every queue expired but those still to do. */
  function ExpiredExcept(events: Events, todo: set<string>, cutoff: real): Events {
    map k | k in events :: if k in todo then events[k] else Expire(events[k], cutoff)
  }

  lemma ExpireOneMore(events: Events, todo: set<string>, key: string, cutoff: real)
    requires key in todo && todo <= events.Keys
    ensures ExpiredExcept(events, todo, cutoff)[key := Expire(events[key], cutoff)] == ExpiredExcept(events, todo - {key}, cutoff)
  {
  }

  /** Expiring everything and dropping what is empty is the prune. */
  lemma PrunedInTwo(events: Events, cutoff: real)
    ensures var expired := ExpiredExcept(events, {}, cutoff); expired - Emptied(expired, {}) == PrunedEvents(events, cutoff)
  {
  }

  function Emptied(events: Events, todo: set<string>): set<string> {
    set k | k in events && k !in todo && events[k] == []
  }

  lemma EmptiedOneMore(events: Events, todo: set<string>, key: string, queue: seq<real>)
    requires key in todo && key in events
    ensures Emptied(events[key := queue], todo - {key}) == Emptied(events, todo) + if queue == [] then {key} else {}
  {
  }

  datatype Limiter = Limiter(events: Events, lastPruned: real)

  function Prune(l: Limiter, now: real, window: real, force: bool): Limiter {
    if !force && now - l.lastPruned < PRUNE_INTERVAL then l else Limiter(PrunedEvents(l.events, now - window), now)
  }

  datatype Verdict = Allowed | OverLimit | AtCapacity

  function MakeRoom(l: Limiter, now: real, window: real): Limiter {
    var pruned := Prune(l, now, window, false);
    if |pruned.events| >= MAX_TRACKED_CLIENTS then Prune(pruned, now, window, true) else pruned
  }

  /** `allow` for a positive limit. */
  function Allow(l: Limiter, key: string, limit: int, window: real, now: real): (Limiter, Verdict) {
    if key !in l.events then
      var room := MakeRoom(l, now, window);
      if |room.events| >= MAX_TRACKED_CLIENTS then (room, AtCapacity)
      else (room.(events := room.events[key := [now]]), Allowed)
    else
      var live := Expire(l.events[key], now - window);
      var trimmed := l.(events := l.events[key := live]);
      if |live| >= limit then (trimmed, OverLimit)
      else (Prune(l.(events := l.events[key := live + [now]]), now, window, false), Allowed)
  }

  // ---- The limiter object ----

  class SlidingWindowLimiter {
    var events: Events
    var lastPruned: real

    ghost function Snapshot(): Limiter reads this { Limiter(events, lastPruned) }

    constructor ()
      ensures Snapshot() == Limiter(map[], 0.0)
    {
      events, lastPruned := map[], 0.0;
    }

    static method PopExpired(queue: seq<real>, cutoff: real) returns (live: seq<real>)
      ensures live == Expire(queue, cutoff)
    {
      live := queue;
      while |live| > 0 && live[0] <= cutoff
        invariant Expire(live, cutoff) == Expire(queue, cutoff)
        decreases |live|
      {
        live := live[1..];
      }
    }

    /** Expires every queue in place and lists the ones left empty. */
    method ExpireAll(cutoff: real) returns (stale: set<string>)
      modifies this`events
      ensures events == ExpiredExcept(old(events), {}, cutoff)
      ensures stale == Emptied(events, {})
    {
      stale := {};
      var todo := events.Keys;
      ghost var before := events;
      assert events == ExpiredExcept(before, todo, cutoff);
      while todo != {}
        invariant todo <= before.Keys && events == ExpiredExcept(before, todo, cutoff)
        invariant stale == Emptied(events, todo)
        decreases |todo|
      {
        var key :| key in todo;
        var queue := PopExpired(events[key], cutoff);
        ExpireOneMore(before, todo, key, cutoff);
        EmptiedOneMore(events, todo, key, queue);
        events := events[key := queue];
        if queue == [] { stale := stale + {key}; }
        todo := todo - {key};
      }
    }

    method DropAll(stale: set<string>)
      modifies this`events
      ensures events == old(events) - stale
    {
      var todo := stale;
      while todo != {}
        invariant todo <= stale && events == old(events) - (stale - todo)
        decreases |todo|
      {
        var key :| key in todo;
        events := events - {key};
        todo := todo - {key};
      }
    }

    method PruneEvents(cutoff: real)
      modifies this`events
      ensures events == PrunedEvents(old(events), cutoff)
    {
      PrunedInTwo(events, cutoff);
      var stale := ExpireAll(cutoff);
      DropAll(stale);
    }

    method PruneLocked(now: real, window: real, force: bool)
      modifies this
      ensures Snapshot() == Prune(old(Snapshot()), now, window, force)
    {
      if !force && now - lastPruned < PRUNE_INTERVAL { return; }
      lastPruned := now;
      PruneEvents(now - window);
    }

    method TryAllow(key: string, limit: int, window: real, now: real) returns (allowed: bool)
      modifies this
      ensures limit <= 0 ==> allowed && Snapshot() == old(Snapshot())
      ensures limit > 0 ==>
        var r := Allow(old(Snapshot()), key, limit, window, now); Snapshot() == r.0 && (allowed <==> r.1 == Allowed)
    {
      if limit <= 0 { return true; }
      if key !in events {
        PruneLocked(now, window, false);
        if |events| >= MAX_TRACKED_CLIENTS { PruneLocked(now, window, true); }
        if |events| >= MAX_TRACKED_CLIENTS { return false; }
        events := events[key := [now]];
        return true;
      }
      var queue := PopExpired(events[key], now - window);
      events := events[key := queue];
      if |queue| >= limit { return false; }
      events := events[key := events[key] + [now]];
      assert events == old(events)[key := queue + [now]];
      PruneLocked(now, window, false);
      return true;
    }

    method Reset()
      modifies this
      ensures Snapshot() == Limiter(map[], 0.0)
    {
      events := map[];
      lastPruned := 0.0;
    }
  }

  // ---- The limiter that keeps everything ----

  /** Every allowed time of every client, oldest first. */
  type History = map<string, seq<real>>

  function Times(h: History, key: string): seq<real> { if key in h then h[key] else [] }

  function CountAfter(times: seq<real>, cutoff: real): nat {
    if |times| == 0 then 0
    else CountAfter(times[..|times| - 1], cutoff) + if times[|times| - 1] > cutoff then 1 else 0
  }

  predicate NaiveAllows(h: History, key: string, limit: int, window: real, now: real) {
    CountAfter(Times(h, key), now - window) < limit
  }

  ghost predicate Ascending(times: seq<real>) {
    forall i, j | 0 <= i < j < |times| :: times[i] <= times[j]
  }

  /** The queue is what is left of the full history once some expired front part is dropped. */
  ghost predicate Suffix(times: seq<real>, queue: seq<real>, cutoff: real) {
    && |queue| <= |times|
    && queue == times[|times| - |queue|..]
    && forall i | 0 <= i < |times| - |queue| :: times[i] <= cutoff
  }

  function Queue(events: Events, key: string): seq<real> { if key in events then events[key] else [] }

  ghost predicate QueueAgrees(times: seq<real>, queue: seq<real>, window: real, clock: real) {
    && Ascending(times)
    && (forall i | 0 <= i < |times| :: times[i] <= clock)
    && Suffix(times, queue, clock - window)
  }

  ghost predicate KeyAgrees(events: Events, h: History, key: string, window: real, clock: real) {
    && QueueAgrees(Times(h, key), Queue(events, key), window, clock)
    && (key in events ==> events[key] != [])
  }

  ghost predicate Agree(l: Limiter, h: History, window: real, clock: real) {
    forall key :: KeyAgrees(l.events, h, key, window, clock)
  }

  lemma {:induction false} ExpireIsSuffix(queue: seq<real>, cutoff: real)
    ensures Suffix(queue, Expire(queue, cutoff), cutoff)
  {
    if |queue| > 0 && queue[0] <= cutoff {
      ExpireIsSuffix(queue[1..], cutoff);
      var live := Expire(queue, cutoff);
      var k := |queue| - |live|;
      forall i | 0 <= i < k ensures queue[i] <= cutoff { if i > 0 { assert queue[1..][i - 1] <= cutoff; } }
      assert queue[1..][k - 1..] == queue[k..];
    }
  }

  lemma SuffixOfSuffix(times: seq<real>, queue: seq<real>, live: seq<real>, earlier: real, cutoff: real)
    requires Suffix(times, queue, earlier) && Suffix(queue, live, cutoff) && earlier <= cutoff
    ensures Suffix(times, live, cutoff)
  {
  }

  lemma ExpiredAgrees(times: seq<real>, queue: seq<real>, earlier: real, cutoff: real)
    requires Suffix(times, queue, earlier) && earlier <= cutoff
    ensures Suffix(times, Expire(queue, cutoff), cutoff)
  {
    ExpireIsSuffix(queue, cutoff);
    SuffixOfSuffix(times, queue, Expire(queue, cutoff), earlier, cutoff);
  }

  lemma {:induction false} NoneAfter(times: seq<real>, cutoff: real)
    requires forall i | 0 <= i < |times| :: times[i] <= cutoff
    ensures CountAfter(times, cutoff) == 0
  {
    if |times| > 0 { NoneAfter(times[..|times| - 1], cutoff); }
  }

  /** After expiry the queue's length is the number of live events in the whole history. */
  lemma {:induction false} LiveCount(times: seq<real>, k: nat, cutoff: real)
    requires Ascending(times) && k <= |times| && (forall i | 0 <= i < k :: times[i] <= cutoff)
    requires k < |times| ==> times[k] > cutoff
    ensures CountAfter(times, cutoff) == |times| - k
  {
    if k == |times| {
      NoneAfter(times, cutoff);
    } else if k < |times| - 1 {
      LiveCount(times[..|times| - 1], k, cutoff);
    } else {
      NoneAfter(times[..|times| - 1], cutoff);
    }
  }

  lemma QueueCounts(times: seq<real>, queue: seq<real>, cutoff: real)
    requires Ascending(times) && Suffix(times, queue, cutoff) && Expire(queue, cutoff) == queue
    ensures |queue| == CountAfter(times, cutoff)
  {
    var k := |times| - |queue|;
    if k < |times| { assert queue[0] == times[k]; }
    LiveCount(times, k, cutoff);
  }

  lemma {:induction false} ExpireTwice(queue: seq<real>, cutoff: real)
    ensures Expire(Expire(queue, cutoff), cutoff) == Expire(queue, cutoff)
  {
  }

  lemma AgreeLater(l: Limiter, h: History, window: real, clock: real, now: real)
    requires Agree(l, h, window, clock) && clock <= now
    ensures Agree(l, h, window, now)
  {
    forall key ensures KeyAgrees(l.events, h, key, window, now) { assert KeyAgrees(l.events, h, key, window, clock); }
  }

  lemma PruneAgrees(l: Limiter, h: History, window: real, now: real, force: bool)
    requires Agree(l, h, window, now)
    ensures Agree(Prune(l, now, window, force), h, window, now)
  {
    var pruned := PrunedEvents(l.events, now - window);
    forall key ensures KeyAgrees(pruned, h, key, window, now) {
      assert KeyAgrees(l.events, h, key, window, now);
      ExpiredAgrees(Times(h, key), Queue(l.events, key), now - window, now - window);
      assert Queue(pruned, key) == Expire(Queue(l.events, key), now - window);
    }
  }

  function Remember(h: History, key: string, now: real): History { h[key := Times(h, key) + [now]] }

  lemma AppendedAgrees(times: seq<real>, queue: seq<real>, window: real, now: real)
    requires QueueAgrees(times, queue, window, now)
    ensures QueueAgrees(times + [now], queue + [now], window, now)
  {
  }

  lemma AppendAgrees(l: Limiter, h: History, key: string, queue: seq<real>, window: real, now: real)
    requires Agree(l, h, window, now) && Suffix(Times(h, key), queue, now - window)
    ensures Agree(l.(events := l.events[key := queue + [now]]), Remember(h, key, now), window, now)
  {
    var events', h' := l.events[key := queue + [now]], Remember(h, key, now);
    forall other ensures KeyAgrees(events', h', other, window, now) {
      assert KeyAgrees(l.events, h, other, window, now);
      if other == key { AppendedAgrees(Times(h, key), queue, window, now); }
    }
  }

  lemma TrimAgrees(l: Limiter, h: History, key: string, window: real, now: real)
    requires Agree(l, h, window, now) && key in l.events && Expire(l.events[key], now - window) != []
    ensures Agree(l.(events := l.events[key := Expire(l.events[key], now - window)]), h, window, now)
  {
    var queue := Expire(l.events[key], now - window);
    var after := l.events[key := queue];
    assert KeyAgrees(l.events, h, key, window, now);
    ExpiredAgrees(Times(h, key), l.events[key], now - window, now - window);
    assert QueueAgrees(Times(h, key), queue, window, now);
    forall other ensures KeyAgrees(after, h, other, window, now) {
      assert KeyAgrees(l.events, h, other, window, now);
      assert Queue(after, other) == if other == key then queue else Queue(l.events, other);
    }
  }

  /** A client no longer tracked has nothing live in its history. */
  lemma UntrackedHasNothingLive(l: Limiter, h: History, key: string, window: real, now: real)
    requires Agree(l, h, window, now) && key !in l.events
    ensures CountAfter(Times(h, key), now - window) == 0 && Suffix(Times(h, key), [], now - window)
  {
    assert KeyAgrees(l.events, h, key, window, now);
    NoneAfter(Times(h, key), now - window);
  }

  lemma TrackedAllowAgrees(l: Limiter, h: History, key: string, limit: int, window: real, now: real)
    requires limit > 0 && Agree(l, h, window, now) && key in l.events
    ensures var r := Allow(l, key, limit, window, now);
            && (r.1 == Allowed <==> NaiveAllows(h, key, limit, window, now)) && r.1 != AtCapacity
            && Agree(r.0, if r.1 == Allowed then Remember(h, key, now) else h, window, now)
  {
    var live := Expire(l.events[key], now - window);
    assert KeyAgrees(l.events, h, key, window, now);
    ExpiredAgrees(Times(h, key), l.events[key], now - window, now - window);
    ExpireTwice(l.events[key], now - window);
    QueueCounts(Times(h, key), live, now - window);
    if |live| >= limit {
      TrimAgrees(l, h, key, window, now);
    } else {
      AppendAgrees(l, h, key, live, window, now);
      PruneAgrees(l.(events := l.events[key := live + [now]]), Remember(h, key, now), window, now, false);
    }
  }

  lemma NewAllowAgrees(l: Limiter, h: History, key: string, limit: int, window: real, now: real)
    requires limit > 0 && Agree(l, h, window, now) && key !in l.events
    ensures var r := Allow(l, key, limit, window, now);
            && NaiveAllows(h, key, limit, window, now) && r.1 != OverLimit
            && Agree(r.0, if r.1 == Allowed then Remember(h, key, now) else h, window, now)
  {
    var room := MakeRoom(l, now, window);
    PruneAgrees(l, h, window, now, false);
    PruneAgrees(Prune(l, now, window, false), h, window, now, true);
    UntrackedHasNothingLive(l, h, key, window, now);
    if |room.events| < MAX_TRACKED_CLIENTS {
      AppendAgrees(room, h, key, [], window, now);
      assert [] + [now] == [now];
    }
  }

  // ---- Runs ----

  datatype Request = Request(key: string, now: real)

  datatype Pair = Pair(limiter: Limiter, history: History, clock: real)

  function Step(s: Pair, r: Request, limit: int, window: real): Pair {
    var (l, verdict) := Allow(s.limiter, r.key, limit, window, r.now);
    Pair(l, if verdict == Allowed then Remember(s.history, r.key, r.now) else s.history, r.now)
  }

  function Run(requests: seq<Request>, limit: int, window: real): Pair {
    if |requests| == 0 then Pair(Limiter(map[], 0.0), map[], 0.0)
    else Step(Run(requests[..|requests| - 1], limit, window), requests[|requests| - 1], limit, window)
  }

  ghost predicate Monotonic(requests: seq<Request>) {
    && (forall i | 0 <= i < |requests| :: 0.0 <= requests[i].now)
    && forall i, j | 0 <= i < j < |requests| :: requests[i].now <= requests[j].now
  }

  /** Any `limit` allowed events are followed by the next no sooner than a window after the first. */
  ghost predicate Spread(times: seq<real>, limit: int, window: real) {
    forall i, j | 0 <= i < j < |times| && j - i >= limit :: times[i] + window <= times[j]
  }

  ghost predicate AllSpread(h: History, limit: int, window: real) {
    forall key | key in h :: Spread(h[key], limit, window)
  }

  ghost predicate PairOk(s: Pair, limit: int, window: real) {
    && Agree(s.limiter, s.history, window, s.clock)
    && AllSpread(s.history, limit, window)
    && |s.limiter.events| <= MAX_TRACKED_CLIENTS
  }

  lemma {:induction false} CountAfterTail(times: seq<real>, i: nat, cutoff: real)
    requires Ascending(times) && i < |times| && times[i] > cutoff
    ensures CountAfter(times, cutoff) >= |times| - i
  {
    if i < |times| - 1 { CountAfterTail(times[..|times| - 1], i, cutoff); }
  }

  lemma AllowedKeepsSpread(times: seq<real>, limit: int, window: real, now: real)
    requires Ascending(times) && Spread(times, limit, window) && CountAfter(times, now - window) < limit
    ensures Spread(times + [now], limit, window)
  {
    forall i | 0 <= i < |times| && |times| - i >= limit
      ensures times[i] + window <= now
    {
      if times[i] > now - window { CountAfterTail(times, i, now - window); }
    }
    SpreadAppend(times, limit, window, now);
  }

  lemma SpreadAppend(times: seq<real>, limit: int, window: real, now: real)
    requires Spread(times, limit, window)
    requires forall i | 0 <= i < |times| && |times| - i >= limit :: times[i] + window <= now
    ensures Spread(times + [now], limit, window)
  {
  }

  lemma PruneShrinks(l: Limiter, now: real, window: real, force: bool)
    ensures |Prune(l, now, window, force).events| <= |l.events|
  {
    SubsetCardinality(Prune(l, now, window, force).events.Keys, l.events.Keys);
  }

  lemma RekeyedSize(events: Events, key: string, times: seq<real>)
    requires key in events
    ensures |events[key := times]| == |events|
  {
    assert events[key := times].Keys == events.Keys;
    assert |events[key := times]| == |events[key := times].Keys| && |events| == |events.Keys|;
  }

  lemma NewKeySize(events: Events, key: string, times: seq<real>)
    requires key !in events
    ensures |events[key := times]| == |events| + 1
  {
    assert events[key := times].Keys == events.Keys + {key};
    assert |events[key := times]| == |events[key := times].Keys| && |events| == |events.Keys|;
  }

  lemma AllowKeepsCapacity(l: Limiter, key: string, limit: int, window: real, now: real)
    requires |l.events| <= MAX_TRACKED_CLIENTS
    ensures |Allow(l, key, limit, window, now).0.events| <= MAX_TRACKED_CLIENTS
  {
    hide Prune, Expire;
    if key in l.events {
      var live := Expire(l.events[key], now - window);
      RekeyedSize(l.events, key, live);
      RekeyedSize(l.events, key, live + [now]);
      PruneShrinks(l.(events := l.events[key := live + [now]]), now, window, false);
    } else {
      RoomShrinks(l, now, window);
      var room := MakeRoom(l, now, window);
      if key in room.events { RekeyedSize(room.events, key, [now]); } else { NewKeySize(room.events, key, [now]); }
    }
  }

  lemma RoomShrinks(l: Limiter, now: real, window: real)
    ensures |MakeRoom(l, now, window).events| <= |l.events|
  {
    hide Prune;
    PruneShrinks(l, now, window, false);
    PruneShrinks(Prune(l, now, window, false), now, window, true);
  }

  lemma StepOk(s: Pair, r: Request, limit: int, window: real)
    requires limit > 0 && PairOk(s, limit, window) && s.clock <= r.now
    ensures PairOk(Step(s, r, limit, window), limit, window)
    ensures var verdict := Allow(s.limiter, r.key, limit, window, r.now).1;
            verdict != AtCapacity ==> (verdict == Allowed <==> NaiveAllows(s.history, r.key, limit, window, r.now))
  {
    hide Agree, Prune, Expire, CountAfter, Allow, Spread, Ascending;
    AgreeLater(s.limiter, s.history, window, s.clock, r.now);
    AllowKeepsCapacity(s.limiter, r.key, limit, window, r.now);
    if r.key in s.limiter.events { TrackedAllowAgrees(s.limiter, s.history, r.key, limit, window, r.now); }
    else { NewAllowAgrees(s.limiter, s.history, r.key, limit, window, r.now); }
    if Allow(s.limiter, r.key, limit, window, r.now).1 == Allowed {
      assert KeyAgrees(s.limiter.events, s.history, r.key, window, r.now);
      AllowedKeepsSpread(Times(s.history, r.key), limit, window, r.now);
    }
  }

  lemma {:induction false} RunOk(requests: seq<Request>, limit: int, window: real)
    requires limit > 0 && window > 0.0 && Monotonic(requests)
    ensures PairOk(Run(requests, limit, window), limit, window)
    ensures Run(requests, limit, window).clock == if |requests| == 0 then 0.0 else requests[|requests| - 1].now
  {
    if |requests| == 0 {
      forall key ensures KeyAgrees(map[], map[], key, window, 0.0) {}
    } else {
      RunOk(requests[..|requests| - 1], limit, window);
      StepOk(Run(requests[..|requests| - 1], limit, window), requests[|requests| - 1], limit, window);
    }
  }

  // ---- The promises ----

  function CountWithin(times: seq<real>, t: real, window: real): nat {
    if |times| == 0 then 0
    else CountWithin(times[..|times| - 1], t, window) + if t <= times[|times| - 1] < t + window then 1 else 0
  }

  lemma {:induction false} CountBoundedBy(times: seq<real>, from: nat, t: real, window: real)
    requires from <= |times| && forall i | 0 <= i < from :: !(t <= times[i] < t + window)
    ensures CountWithin(times, t, window) <= |times| - from
  {
    if from < |times| { CountBoundedBy(times[..|times| - 1], from, t, window); }
    else if |times| > 0 { CountBoundedBy(times[..|times| - 1], |times| - 1, t, window); }
  }

  lemma {:induction false} SpreadBoundsCount(times: seq<real>, limit: int, t: real, window: real)
    requires limit > 0 && Spread(times, limit, window)
    ensures CountWithin(times, t, window) <= limit
  {
    if |times| > 0 {
      var last := |times| - 1;
      if t <= times[last] < t + window {
        CountBoundedBy(times, if |times| <= limit then 0 else |times| - limit, t, window);
      } else {
        SpreadBoundsCount(times[..last], limit, t, window);
      }
    }
  }

  /** Any half-open interval of one window holds at most `limit` allowed events of a client. */
  lemma AtMostLimitPerWindow(requests: seq<Request>, key: string, limit: int, window: real, t: real)
    requires limit > 0 && window > 0.0 && Monotonic(requests)
    ensures CountWithin(Times(Run(requests, limit, window).history, key), t, window) <= limit
  {
    RunOk(requests, limit, window);
    SpreadBoundsCount(Times(Run(requests, limit, window).history, key), limit, t, window);
  }

  /** After a forced prune every tracked client has a live event. */
  lemma TrackedIsLive(l: Limiter, after: Limiter, h: History, key: string, window: real, now: real)
    requires Agree(after, h, window, now) && key in after.events
    requires var pruned := Prune(l, now, window, false); after == Prune(pruned, now, window, true)
    ensures CountAfter(Times(h, key), now - window) > 0
  {
    var pruned := Prune(l, now, window, false);
    ExpireTwice(pruned.events[key], now - window);
    assert KeyAgrees(after.events, h, key, window, now);
    QueueCounts(Times(h, key), after.events[key], now - window);
  }

  ghost predicate AllLive(events: Events, h: History, window: real, now: real) {
    forall key | key in events :: CountAfter(Times(h, key), now - window) > 0
  }

  lemma RefusalMeansFull(l: Limiter, h: History, key: string, limit: int, window: real, now: real)
    requires limit > 0 && Agree(l, h, window, now) && |l.events| <= MAX_TRACKED_CLIENTS
    requires Allow(l, key, limit, window, now).1 == AtCapacity
    ensures var after := Allow(l, key, limit, window, now).0;
            |after.events| == MAX_TRACKED_CLIENTS && key !in after.events && AllLive(after.events, h, window, now)
  {
    var after := Allow(l, key, limit, window, now).0;
    AllowKeepsCapacity(l, key, limit, window, now);
    NewAllowAgrees(l, h, key, limit, window, now);
    PruneShrinks(l, now, window, false);
    PruneShrinks(Prune(l, now, window, false), now, window, true);
    forall other | other in after.events ensures CountAfter(Times(h, other), now - window) > 0 {
      TrackedIsLive(l, after, h, other, window, now);
    }
  }

  /** At most 10,000 clients are ever tracked, and a client is turned away for capacity only while exactly
      that many others each have an event inside their window. */
  lemma CapacityRefusalIsNeeded(requests: seq<Request>, key: string, now: real, limit: int, window: real)
    requires limit > 0 && window > 0.0 && Monotonic(requests) && Run(requests, limit, window).clock <= now
    ensures var s := Run(requests, limit, window);
            var (after, verdict) := Allow(s.limiter, key, limit, window, now);
            && |after.events| <= MAX_TRACKED_CLIENTS
            && (verdict == AtCapacity ==>
                  |after.events| == MAX_TRACKED_CLIENTS && key !in after.events && AllLive(after.events, s.history, window, now))
  {
    RunOk(requests, limit, window);
    var s := Run(requests, limit, window);
    AllowKeepsCapacity(s.limiter, key, limit, window, now);
    AgreeLater(s.limiter, s.history, window, s.clock, now);
    if Allow(s.limiter, key, limit, window, now).1 == AtCapacity {
      RefusalMeansFull(s.limiter, s.history, key, limit, window, now);
    }
  }

  // ---- The answer, from the history alone ----

  /** The clients with an allowed event inside their window. */
  function LiveClients(h: History, window: real, now: real): set<string> {
    set key | key in h && CountAfter(h[key], now - window) > 0
  }

  lemma LiveIsTracked(l: Limiter, h: History, window: real, now: real)
    requires Agree(l, h, window, now)
    ensures LiveClients(h, window, now) <= l.events.Keys
  {
    forall key | key in LiveClients(h, window, now) ensures key in l.events {
      if key !in l.events { UntrackedHasNothingLive(l, h, key, window, now); }
    }
  }

  lemma RoomAgrees(l: Limiter, h: History, window: real, now: real)
    requires Agree(l, h, window, now)
    ensures Agree(MakeRoom(l, now, window), h, window, now)
  {
    PruneAgrees(l, h, window, now, false);
    PruneAgrees(Prune(l, now, window, false), h, window, now, true);
  }

  /** There is no room exactly when 10,000 others are live. */
  lemma RefusalExact(l: Limiter, h: History, key: string, limit: int, window: real, now: real)
    requires limit > 0 && Agree(l, h, window, now) && |l.events| <= MAX_TRACKED_CLIENTS
    ensures var live := LiveClients(h, window, now);
            Allow(l, key, limit, window, now).1 == AtCapacity <==> key !in live && |live| >= MAX_TRACKED_CLIENTS
  {
    hide Agree, Prune, Expire, CountAfter, LiveClients, AllLive;
    var live, room := LiveClients(h, window, now), MakeRoom(l, now, window);
    LiveIsTracked(l, h, window, now);
    if key in l.events {
      SubsetCardinality(live - {key}, l.events.Keys - {key});
      assert key !in live ==> live - {key} == live;
      assert |l.events| == |l.events.Keys|;
    } else {
      RoomAgrees(l, h, window, now);
      LiveIsTracked(room, h, window, now);
      SubsetCardinality(live, room.events.Keys);
      assert |room.events| == |room.events.Keys|;
      if |room.events| >= MAX_TRACKED_CLIENTS {
        assert Allow(l, key, limit, window, now) == (room, AtCapacity);
        RefusalMeansFull(l, h, key, limit, window, now);
        LiveIsRemembered(room.events, h, window, now);
        SubsetCardinality(room.events.Keys, live);
      }
    }
  }

  lemma LiveIsRemembered(events: Events, h: History, window: real, now: real)
    requires AllLive(events, h, window, now)
    ensures events.Keys <= LiveClients(h, window, now)
  {
  }

  /** After any run, `allow` answers as the limiter that keeps every event would, but for refusing a client without a
      live event while 10,000 others have one. */
  lemma AgreesWithNaive(requests: seq<Request>, r: Request, limit: int, window: real)
    requires limit > 0 && window > 0.0 && Monotonic(requests) && Run(requests, limit, window).clock <= r.now
    ensures var s := Run(requests, limit, window);
            var live := LiveClients(s.history, window, r.now);
            Allow(s.limiter, r.key, limit, window, r.now).1
            == if r.key !in live && |live| >= MAX_TRACKED_CLIENTS then AtCapacity
               else if CountAfter(Times(s.history, r.key), r.now - window) < limit then Allowed
               else OverLimit
  {
    hide Agree, AllSpread, Prune, Expire, CountAfter, LiveClients;
    RunOk(requests, limit, window);
    var s := Run(requests, limit, window);
    AgreeLater(s.limiter, s.history, window, s.clock, r.now);
    StepOk(s, r, limit, window);
    RefusalExact(s.limiter, s.history, r.key, limit, window, r.now);
  }
}
