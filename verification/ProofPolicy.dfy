/** The outbound proof-fetch policy (`registry_api/http_clients.py`): concurrency permits, per-domain quota
    windows, failure cooldown and pruning. Times are exact reals. */
module ProofPolicy {
  import opened Basics

  const MAX_TRACKED_DOMAINS := 10_000
  const PRUNE_INTERVAL := 60.0

  datatype Record = Record(failedAt: Option<real>, windowStart: real, count: nat, active: nat)

  datatype Permit = Permit(domain: string, generation: nat)

  datatype Refusal = TooManyConcurrent | TooManyTracked | CoolingDown | QuotaSpent

  datatype Policy = Policy(
    records: map<string, Record>, maxConcurrent: int, active: nat, cooldown: real, quota: int, window: real,
    lastPruned: real, generation: nat)

  function Max(a: real, b: real): real { if a < b then b else a }

  function Retention(p: Policy): real { Max(Max(p.window, p.cooldown), 60.0) }

  function FailedOrZero(r: Record): real { if r.failedAt.Some? then r.failedAt.value else 0.0 }

  predicate Stale(p: Policy, r: Record, now: real) {
    r.active == 0 && now - Max(FailedOrZero(r), r.windowStart) > Retention(p)
  }

  function Pruned(p: Policy, now: real, force: bool): Policy {
    if !force && now - p.lastPruned < PRUNE_INTERVAL then p
    else p.(lastPruned := now, records := map d | d in p.records && !Stale(p, p.records[d], now) :: p.records[d])
  }

  /** A domain's record once an expired quota window has been restarted. */
  function Windowed(p: Policy, r: Record, now: real): Record {
    if now - r.windowStart >= p.window then r.(windowStart := now, count := 0) else r
  }

  predicate Cooling(p: Policy, r: Record, now: real) {
    p.cooldown > 0.0 && r.failedAt.Some? && now - r.failedAt.value < p.cooldown
  }

  predicate Spent(p: Policy, r: Record) { p.quota > 0 && r.count >= p.quota }

  function Decide(p: Policy, domain: string, r: Record, now: real): (Policy, Result<Permit, Refusal>) {
    if Cooling(p, r, now) then (p.(records := p.records[domain := r]), Failure(CoolingDown))
    else if Spent(p, r) then (p.(records := p.records[domain := r]), Failure(QuotaSpent))
    else
      (p.(records := p.records[domain := r.(count := r.count + 1, active := r.active + 1)], active := p.active + 1),
       Success(Permit(domain, p.generation)))
  }

  function MakeRoom(p: Policy, now: real): Policy {
    if |p.records| < MAX_TRACKED_DOMAINS then p else Pruned(p, now, true)
  }

  function Admit(p: Policy, domain: string, now: real): (Policy, Result<Permit, Refusal>) {
    if p.maxConcurrent > 0 && p.active >= p.maxConcurrent then (p, Failure(TooManyConcurrent))
    else
      var q := Pruned(p, now, false);
      if domain in q.records then Decide(q, domain, Windowed(q, q.records[domain], now), now)
      else
        var room := MakeRoom(q, now);
        if |room.records| >= MAX_TRACKED_DOMAINS then (room, Failure(TooManyTracked))
        else Decide(room, domain, Record(None, now, 0, 0), now)
  }

  function MarkFailed(p: Policy, permit: Permit, now: real): Policy {
    if permit.generation != p.generation || permit.domain !in p.records then p
    else
      Pruned(p.(records := p.records[permit.domain := p.records[permit.domain].(failedAt := Some(now))]), now, false)
  }

  datatype ReleaseError = ReleasedTwice | NoDomainRecord

  function Release(p: Policy, permit: Permit): Result<Policy, ReleaseError> {
    if permit.generation != p.generation then Success(p)
    else if p.active <= 0 then Failure(ReleasedTwice)
    else if permit.domain !in p.records || p.records[permit.domain].active <= 0 then Failure(NoDomainRecord)
    else
      var r := p.records[permit.domain];
      Success(p.(records := p.records[permit.domain := r.(active := r.active - 1)], active := p.active - 1))
  }

  function Reset(p: Policy): Policy {
    p.(records := map[], maxConcurrent := 0, active := 0, lastPruned := 0.0, generation := p.generation + 1)
  }

  predicate IsAllowed(p: Policy, domain: string, now: real) {
    domain in p.records ==>
      var r := p.records[domain];
      !Cooling(p, r, now) && !(p.quota > 0 && now - r.windowStart < p.window && r.count >= p.quota)
  }

  // ---- Permits ----

  /** A request that was admitted, and how often its permit has been given back. */
  datatype Call = Call(permit: Permit, releases: nat)

  predicate Holds(c: Call, generation: nat) { c.releases == 0 && c.permit.generation == generation }

  function Outstanding(calls: seq<Call>, generation: nat): nat {
    if |calls| == 0 then 0
    else Outstanding(calls[..|calls| - 1], generation) + if Holds(calls[|calls| - 1], generation) then 1 else 0
  }

  function DomainShare(calls: seq<Call>, generation: nat, domain: string): nat {
    if |calls| == 0 then 0
    else
      var last := calls[|calls| - 1];
      DomainShare(calls[..|calls| - 1], generation, domain)
      + if Holds(last, generation) && last.permit.domain == domain then 1 else 0
  }

  datatype System = System(policy: Policy, calls: seq<Call>, broken: bool)

  /** What the threads of one process do to the policy, one lock acquisition at a time. */
  datatype Event =
    | EAdmit(domain: string, now: real)
    | EFail(call: nat, now: real)
    | ERelease(call: nat)
    | EReset
    | EConfigure(cooldown: real, quota: int, window: real, maxConcurrent: int)

  /** Nothing here keeps a call from failing or releasing twice; an error of `release` breaks the system. */
  function Next(s: System, e: Event): System {
    match e
    case EAdmit(domain, now) => Admitted(s, Admit(s.policy, domain, now))
    case EFail(i, now) => if i < |s.calls| then s.(policy := MarkFailed(s.policy, s.calls[i].permit, now)) else s
    case ERelease(i) =>
      if i < |s.calls| then
        var calls := s.calls[i := s.calls[i].(releases := s.calls[i].releases + 1)];
        (match Release(s.policy, s.calls[i].permit)
         case Success(p) => System(p, calls, s.broken)
         case Failure(_) => System(s.policy, calls, true))
      else s
    case EReset => s.(policy := Reset(s.policy))
    case EConfigure(cooldown, quota, window, maxConcurrent) =>
      s.(policy := s.policy.(cooldown := cooldown, quota := quota, window := window, maxConcurrent := maxConcurrent))
  }

  function Admitted(s: System, r: (Policy, Result<Permit, Refusal>)): System {
    System(r.0, if r.1.Success? then s.calls + [Call(r.1.value, 0)] else s.calls, s.broken)
  }

  const NEW_POLICY := Policy(map[], 0, 0, 0.0, 0, 60.0, 0.0, 0)

  function Run(events: seq<Event>): System {
    if |events| == 0 then System(NEW_POLICY, [], false)
    else Next(Run(events[..|events| - 1]), events[|events| - 1])
  }

  // ---- The threads ----

  /** How a call's worker thread and its result turn out. */
  datatype Worker = CannotStart | Returns | Raises | TimesOut

  /** The lock acquisitions of the request after it is admitted, in order. A timed-out request leaves its
      release to the worker's exit. */
  function RequestEvents(worker: Worker, call: nat, now: real): seq<Event> {
    match worker
    case CannotStart => [EFail(call, now), ERelease(call)]
    case Returns => [ERelease(call)]
    case Raises => [EFail(call, now), ERelease(call)]
    case TimesOut => [EFail(call, now)]
  }

  function CallEvents(worker: Worker, call: nat, now: real): seq<Event> {
    RequestEvents(worker, call, now) + if worker.TimesOut? then [ERelease(call)] else []
  }

  predicate About(e: Event, call: nat) { (e.EFail? || e.ERelease?) && e.call == call }

  /** What one call has done so far. */
  function Own(events: seq<Event>, call: nat): seq<Event> {
    if |events| == 0 then []
    else Own(events[..|events| - 1], call) + if About(events[|events| - 1], call) then [events[|events| - 1]] else []
  }

  ghost predicate OnTrack(own: seq<Event>, call: nat) {
    exists worker, now :: own <= CallEvents(worker, call, now)
  }

  /** Any thread may take the lock next; a call's own threads take it as its program says. */
  ghost predicate Enabled(events: seq<Event>, e: Event) {
    e.EFail? || e.ERelease? ==> e.call < |Run(events).calls| && OnTrack(Own(events, e.call) + [e], e.call)
  }

  ghost predicate Interleaving(events: seq<Event>) {
    |events| > 0 ==> Interleaving(events[..|events| - 1]) && Enabled(events[..|events| - 1], events[|events| - 1])
  }

  /** A domain's share of the outstanding permits is what its record says, and no record means none. */
  predicate ShareKept(p: Policy, calls: seq<Call>, domain: string) {
    DomainShare(calls, p.generation, domain) == if domain in p.records then p.records[domain].active else 0
  }

  ghost predicate Conserved(s: System) {
    && !s.broken
    && s.policy.active == Outstanding(s.calls, s.policy.generation)
    && (forall d :: ShareKept(s.policy, s.calls, d))
    && (forall i | 0 <= i < |s.calls| :: s.calls[i].permit.generation <= s.policy.generation)
    && |s.policy.records| <= MAX_TRACKED_DOMAINS
  }

  lemma {:induction false} CallCounts(calls: seq<Call>, i: nat, c: Call, generation: nat, domain: string)
    requires i < |calls| && c.permit == calls[i].permit
    ensures var before, after := (if Holds(calls[i], generation) then 1 else 0), (if Holds(c, generation) then 1 else 0);
            var mine := if c.permit.domain == domain then 1 else 0;
            && Outstanding(calls[i := c], generation) == Outstanding(calls, generation) - before + after
            && DomainShare(calls[i := c], generation, domain) == DomainShare(calls, generation, domain) + mine * (after - before)
  {
    var n := |calls| - 1;
    if i < n {
      CallCounts(calls[..n], i, c, generation, domain);
      assert calls[i := c][..n] == calls[..n][i := c];
    } else {
      assert calls[i := c][..n] == calls[..n];
    }
  }

  lemma {:induction false} HeldCounts(calls: seq<Call>, i: nat, generation: nat)
    requires i < |calls| && Holds(calls[i], generation)
    ensures Outstanding(calls, generation) > 0 && DomainShare(calls, generation, calls[i].permit.domain) > 0
  {
    if i < |calls| - 1 { HeldCounts(calls[..|calls| - 1], i, generation); }
  }

  lemma {:induction false} NewGenerationIsEmpty(calls: seq<Call>, generation: nat, domain: string)
    requires forall i | 0 <= i < |calls| :: calls[i].permit.generation < generation
    ensures Outstanding(calls, generation) == 0 && DomainShare(calls, generation, domain) == 0
  {
    if |calls| > 0 { NewGenerationIsEmpty(calls[..|calls| - 1], generation, domain); }
  }

  /** Pruning never drops a record with outstanding permits. */
  lemma PrunedKeepsShares(p: Policy, calls: seq<Call>, now: real, force: bool)
    requires forall d :: ShareKept(p, calls, d)
    ensures forall d :: ShareKept(Pruned(p, now, force), calls, d)
  {
    forall d ensures ShareKept(Pruned(p, now, force), calls, d) { assert ShareKept(p, calls, d); }
  }

  lemma PrunedShrinks(p: Policy, now: real, force: bool)
    ensures |Pruned(p, now, force).records| <= |p.records|
  {
    SubsetCardinality(Pruned(p, now, force).records.Keys, p.records.Keys);
  }

  lemma DecideKeepsShares(p: Policy, calls: seq<Call>, domain: string, r: Record, now: real)
    requires forall d :: ShareKept(p, calls, d)
    requires r.active == if domain in p.records then p.records[domain].active else 0
    ensures var (q, result) := Decide(p, domain, r, now);
            var calls' := if result.Success? then calls + [Call(result.value, 0)] else calls;
            && (forall d :: ShareKept(q, calls', d))
            && q.active - p.active == Outstanding(calls', p.generation) - Outstanding(calls, p.generation)
  {
    var (q, result) := Decide(p, domain, r, now);
    var calls' := if result.Success? then calls + [Call(result.value, 0)] else calls;
    if result.Success? { assert calls'[..|calls|] == calls; }
    forall d ensures ShareKept(q, calls', d) { assert ShareKept(p, calls, d); }
  }

  lemma PruneConserves(s: System, now: real, force: bool)
    requires Conserved(s)
    ensures Conserved(s.(policy := Pruned(s.policy, now, force)))
  {
    PrunedKeepsShares(s.policy, s.calls, now, force);
    PrunedShrinks(s.policy, now, force);
  }

  lemma DecideConserves(s: System, domain: string, r: Record, now: real)
    requires Conserved(s) && (domain in s.policy.records || |s.policy.records| < MAX_TRACKED_DOMAINS)
    requires r.active == if domain in s.policy.records then s.policy.records[domain].active else 0
    ensures Conserved(Admitted(s, Decide(s.policy, domain, r, now)))
  {
    DecideKeepsShares(s.policy, s.calls, domain, r, now);
    var q := Decide(s.policy, domain, r, now).0;
    assert q.records.Keys == s.policy.records.Keys + {domain};
    assert |q.records| == |q.records.Keys| && |s.policy.records| == |s.policy.records.Keys|;
    if domain in s.policy.records { assert q.records.Keys == s.policy.records.Keys; }
  }

  lemma AdmitConserves(s: System, domain: string, now: real)
    requires Conserved(s)
    ensures Conserved(Admitted(s, Admit(s.policy, domain, now)))
  {
    var p := s.policy;
    if !(p.maxConcurrent > 0 && p.active >= p.maxConcurrent) {
      var q := Pruned(p, now, false);
      PruneConserves(s, now, false);
      if domain in q.records {
        DecideConserves(s.(policy := q), domain, Windowed(q, q.records[domain], now), now);
      } else {
        PruneConserves(s.(policy := q), now, true);
        var room := MakeRoom(q, now);
        if |room.records| < MAX_TRACKED_DOMAINS {
          DecideConserves(s.(policy := room), domain, Record(None, now, 0, 0), now);
        }
      }
    }
  }

  lemma FailConserves(s: System, i: nat, now: real)
    requires Conserved(s)
    ensures Conserved(Next(s, EFail(i, now)))
  {
    if i < |s.calls| {
      var p, permit := s.policy, s.calls[i].permit;
      if permit.generation == p.generation && permit.domain in p.records {
        var q := p.(records := p.records[permit.domain := p.records[permit.domain].(failedAt := Some(now))]);
        forall d ensures ShareKept(q, s.calls, d) { assert ShareKept(p, s.calls, d); }
        assert q.records.Keys == p.records.Keys;
        PruneConserves(s.(policy := q), now, false);
      }
    }
  }

  /** A permit that is still out can always be given back. */
  lemma HeldReleases(s: System, i: nat)
    requires Conserved(s) && i < |s.calls| && s.calls[i].releases == 0
    ensures Release(s.policy, s.calls[i].permit).Success?
  {
    if s.calls[i].permit.generation == s.policy.generation {
      HeldCounts(s.calls, i, s.policy.generation);
      assert ShareKept(s.policy, s.calls, s.calls[i].permit.domain);
    }
  }

  lemma ReleaseConserves(s: System, i: nat)
    requires Conserved(s) && i < |s.calls| && s.calls[i].releases == 0
    ensures Conserved(Next(s, ERelease(i)))
  {
    HeldReleases(s, i);
    var g, s' := s.policy.generation, Next(s, ERelease(i));
    CallCounts(s.calls, i, s'.calls[i], g, s.calls[i].permit.domain);
    forall d ensures ShareKept(s'.policy, s'.calls, d) {
      CallCounts(s.calls, i, s'.calls[i], g, d);
      assert ShareKept(s.policy, s.calls, d);
    }
    assert s'.policy.records.Keys == s.policy.records.Keys;
  }

  lemma ResetConserves(s: System)
    requires Conserved(s)
    ensures Conserved(Next(s, EReset))
  {
    var g := s.policy.generation + 1;
    NewGenerationIsEmpty(s.calls, g, "");
    forall d ensures ShareKept(Reset(s.policy), s.calls, d) { NewGenerationIsEmpty(s.calls, g, d); }
  }

  /** A call that fails or releases still has its permit. */
  predicate Due(s: System, e: Event) {
    e.EFail? || e.ERelease? ==> e.call < |s.calls| && s.calls[e.call].releases == 0
  }

  lemma NextConserves(s: System, e: Event)
    requires Conserved(s) && Due(s, e)
    ensures Conserved(Next(s, e))
  {
    match e
    case EAdmit(domain, now) => AdmitConserves(s, domain, now);
    case EFail(i, now) => FailConserves(s, i, now);
    case ERelease(i) => ReleaseConserves(s, i);
    case EReset => ResetConserves(s);
    case EConfigure(_, _, _, _) =>
      forall d ensures ShareKept(Next(s, e).policy, s.calls, d) { assert ShareKept(s.policy, s.calls, d); }
  }

  // ---- Every interleaving ----

  lemma OwnSnoc(events: seq<Event>, e: Event, call: nat)
    ensures Own(events + [e], call) == Own(events, call) + if About(e, call) then [e] else []
  {
    assert (events + [e])[..|events|] == events;
  }

  lemma RunSnoc(events: seq<Event>, e: Event)
    ensures Run(events + [e]) == Next(Run(events), e)
    ensures Interleaving(events + [e]) <==> Interleaving(events) && Enabled(events, e)
  {
    assert (events + [e])[..|events|] == events;
  }

  /** A call has given its permit back as often as its last own event says: once, or not yet. */
  predicate Accounted(calls: seq<Call>, own: seq<Event>, call: nat) {
    if call < |calls| then calls[call].releases == if |own| > 0 && own[|own| - 1].ERelease? then 1 else 0
    else own == []
  }

  /** A call that is on track has not released before the event it performs. */
  lemma OnTrackReleasesLast(own: seq<Event>, e: Event, call: nat)
    requires OnTrack(own + [e], call)
    ensures |own| > 0 ==> own[|own| - 1].EFail?
  {
    var worker, now :| own + [e] <= CallEvents(worker, call, now);
    if |own| > 0 {
      assert |CallEvents(worker, call, now)| <= 2;
      assert own[0] == (own + [e])[0] == CallEvents(worker, call, now)[0];
    }
  }

  /** An event changes the release count of the call it is about, and a new call has released nothing. */
  lemma NextOnCall(s: System, e: Event, call: nat)
    ensures var calls := Next(s, e).calls;
            && |s.calls| <= |calls| <= |s.calls| + 1
            && (call < |s.calls| ==>
                  && calls[call].permit == s.calls[call].permit
                  && calls[call].releases == s.calls[call].releases + if e == ERelease(call) then 1 else 0)
            && (|s.calls| <= call < |calls| ==> calls[call].releases == 0)
  {
  }

  lemma AccountedStep(s: System, own: seq<Event>, e: Event, call: nat)
    requires Accounted(s.calls, own, call)
    requires About(e, call) ==> call < |s.calls| && OnTrack(own + [e], call)
    ensures Accounted(Next(s, e).calls, own + if About(e, call) then [e] else [], call)
  {
    NextOnCall(s, e, call);
    if About(e, call) { OnTrackReleasesLast(own, e, call); }
  }

  lemma {:induction false} CallsAccounted(events: seq<Event>)
    requires Interleaving(events)
    ensures forall i: nat :: Accounted(Run(events).calls, Own(events, i), i)
  {
    if |events| > 0 {
      var before, e := events[..|events| - 1], events[|events| - 1];
      CallsAccounted(before);
      assert before + [e] == events;
      forall i: nat ensures Accounted(Run(events).calls, Own(events, i), i) {
        OwnSnoc(before, e, i);
        assert Accounted(Run(before).calls, Own(before, i), i);
        AccountedStep(Run(before), Own(before, i), e, i);
      }
    }
  }

  lemma EnabledIsDue(events: seq<Event>, e: Event)
    requires Interleaving(events) && Enabled(events, e)
    ensures Due(Run(events), e)
  {
    if e.EFail? || e.ERelease? {
      CallsAccounted(events);
      assert Accounted(Run(events).calls, Own(events, e.call), e.call);
      OnTrackReleasesLast(Own(events, e.call), e, e.call);
    }
  }

  /** However the threads interleave, with resets and changes of configuration among them, the active count
      is the number of current-generation permits out, each record's is its own share, at most 10,000
      domains are tracked, and neither error of `release` is ever raised. */
  lemma {:induction false} PermitsConserved(events: seq<Event>)
    requires Interleaving(events)
    ensures Conserved(Run(events))
  {
    if |events| > 0 {
      PermitsConserved(events[..|events| - 1]);
      EnabledIsDue(events[..|events| - 1], events[|events| - 1]);
      NextConserves(Run(events[..|events| - 1]), events[|events| - 1]);
    }
  }

  /** What the other threads do between two lock acquisitions of call `me`. */
  ghost predicate Between(events: seq<Event>, gap: seq<Event>, me: nat) {
    |gap| > 0 ==>
      var before, e := gap[..|gap| - 1], gap[|gap| - 1];
      Between(events, before, me) && Enabled(events + before, e) && !About(e, me)
  }

  predicate Left(before: seq<Call>, after: seq<Call>, me: nat) {
    |before| <= |after| && (me < |before| ==> after[me] == before[me])
  }

  lemma OtherLeavesCall(events: seq<Event>, e: Event, me: nat)
    requires Interleaving(events) && Enabled(events, e) && !About(e, me)
    ensures Interleaving(events + [e]) && Own(events + [e], me) == Own(events, me)
    ensures Left(Run(events).calls, Run(events + [e]).calls, me)
  {
    RunSnoc(events, e);
    OwnSnoc(events, e, me);
    NextOnCall(Run(events), e, me);
  }

  lemma GapUnfolds(events: seq<Event>, gap: seq<Event>)
    ensures |gap| == 0 ==> events + gap == events
    ensures |gap| > 0 ==> events + gap == (events + gap[..|gap| - 1]) + [gap[|gap| - 1]]
  {
  }

  /** Other threads leave a call's permit and its place in its program alone. */
  lemma {:induction false} OthersLeaveCall(events: seq<Event>, gap: seq<Event>, me: nat)
    requires Interleaving(events) && Between(events, gap, me)
    ensures Interleaving(events + gap) && Own(events + gap, me) == Own(events, me)
    ensures Left(Run(events).calls, Run(events + gap).calls, me)
  {
    GapUnfolds(events, gap);
    if |gap| > 0 {
      OthersLeaveCall(events, gap[..|gap| - 1], me);
      OtherLeavesCall(events + gap[..|gap| - 1], gap[|gap| - 1], me);
    }
  }

  /** The next lock acquisition of a call's program can always be made, and makes no error. */
  lemma NextStepEnabled(events: seq<Event>, call: nat, worker: Worker, now: real)
    requires Interleaving(events) && call < |Run(events).calls| && Own(events, call) < CallEvents(worker, call, now)
    ensures var e := CallEvents(worker, call, now)[|Own(events, call)|];
            Interleaving(events + [e]) && !Run(events + [e]).broken
  {
    var own, program := Own(events, call), CallEvents(worker, call, now);
    var e := program[|own|];
    assert own + [e] <= program;
    RunSnoc(events, e);
    PermitsConserved(events + [e]);
  }

  /** A call whose program has run to its end has given its permit back exactly once; before that, not at all. */
  lemma ReleasedExactlyOnce(events: seq<Event>, call: nat, worker: Worker, now: real)
    requires Interleaving(events) && call < |Run(events).calls| && Own(events, call) <= CallEvents(worker, call, now)
    ensures Run(events).calls[call].releases == if Own(events, call) == CallEvents(worker, call, now) then 1 else 0
  {
    CallsAccounted(events);
    assert Accounted(Run(events).calls, Own(events, call), call);
    var own, program := Own(events, call), CallEvents(worker, call, now);
    assert |program| <= 2;
    if |own| > 0 { assert own[|own| - 1] == program[|own| - 1]; }
  }

  /** A second release is an error when no other permit is out: nothing but the threads' programs prevents it. */
  lemma SecondReleaseBreaks(s: System, i: nat)
    requires Conserved(s) && i < |s.calls| && s.calls[i].releases > 0
    requires s.calls[i].permit.generation == s.policy.generation && Outstanding(s.calls, s.policy.generation) == 0
    ensures Release(s.policy, s.calls[i].permit) == Failure(ReleasedTwice) && Next(s, ERelease(i)).broken
  {
  }

  /** A successful admission leaves the count within the configured maximum. */
  lemma AdmitWithinMaximum(p: Policy, domain: string, now: real)
    requires p.maxConcurrent > 0 && Admit(p, domain, now).1.Success?
    ensures Admit(p, domain, now).0.active == p.active + 1 <= p.maxConcurrent
  {
  }

  /** The read-only check says what `admit` would say at that moment, unless a global limit refuses. */
  lemma IsAllowedIsExact(p: Policy, domain: string, now: real)
    ensures var result := Admit(p, domain, now).1;
            result == Failure(TooManyConcurrent) || result == Failure(TooManyTracked)
            || (result.Success? <==> IsAllowed(p, domain, now))
  {
  }
}
