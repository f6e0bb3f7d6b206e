/** The proof-fetch policy against one that never forgets. Every client configures the one policy again before
    its fetch; the two are compared over all interleavings in which the cooldown, quota and window that are
    configured stay the same while anything is tracked. A reset starts the comparison afresh. */
module ProofHistory {
  import opened Basics
  import opened ProofPolicy

  // ---- The policy that never forgets ----

  /** `admit` with every record kept for ever and no limit on how many domains are tracked. */
  function IdealAdmit(p: Policy, domain: string, now: real): (Policy, Result<Permit, Refusal>) {
    if p.maxConcurrent > 0 && p.active >= p.maxConcurrent then (p, Failure(TooManyConcurrent))
    else Decide(p, domain, if domain in p.records then Windowed(p, p.records[domain], now) else Record(None, now, 0, 0), now)
  }

  function IdealFail(p: Policy, permit: Permit, now: real): Policy {
    if permit.generation != p.generation || permit.domain !in p.records then p
    else p.(records := p.records[permit.domain := p.records[permit.domain].(failedAt := Some(now))])
  }

  function IdealRelease(p: Policy, permit: Permit): Policy {
    if Release(p, permit).Success? then Release(p, permit).value else p
  }

  datatype Admission = Admission(domain: string, time: real, start: real)

  datatype Mark = Mark(domain: string, time: real)

  /** The real policy and the ideal one side by side, with what the ideal one has seen since the comparison last
      began, at which time there had been `since` calls. */
  datatype Pair = Pair(actual: System, ideal: Policy, admissions: seq<Admission>, marks: seq<Mark>, clock: real, since: nat)

  predicate SameRules(p: Policy, cooldown: real, quota: int, window: real) {
    p.cooldown == cooldown && p.quota == quota && p.window == window
  }

  function Begin(s: System, clock: real): Pair { Pair(s, s.policy, [], [], clock, |s.calls|) }

  function Seen(admissions: seq<Admission>, domain: string, now: real, r: (Policy, Result<Permit, Refusal>)): seq<Admission> {
    if r.1.Success? && domain in r.0.records
    then admissions + [Admission(domain, now, r.0.records[domain].windowStart)] else admissions
  }

  /** A capacity refusal is the one answer the ideal policy is not asked for, and the failure of a call from
      before a reset is the one failure it is not told of. */
  function Step(s: Pair, e: Event): Pair {
    var after := Next(s.actual, e);
    match e
    case EAdmit(domain, now) =>
      if Admit(s.actual.policy, domain, now).1 == Failure(TooManyTracked) then s.(actual := after, clock := now)
      else
        var r := IdealAdmit(s.ideal, domain, now);
        s.(actual := after, ideal := r.0, admissions := Seen(s.admissions, domain, now, r), clock := now)
    case EFail(i, now) =>
      if i < |s.actual.calls| && s.actual.calls[i].permit.generation == s.ideal.generation then
        var permit := s.actual.calls[i].permit;
        s.(actual := after, ideal := IdealFail(s.ideal, permit, now), marks := s.marks + [Mark(permit.domain, now)], clock := now)
      else s.(actual := after, clock := now)
    case ERelease(i) =>
      if i < |s.actual.calls| then s.(actual := after, ideal := IdealRelease(s.ideal, s.actual.calls[i].permit)) else s
    case EReset => Begin(after, s.clock)
    case EConfigure(cooldown, quota, window, maxConcurrent) =>
      if SameRules(s.ideal, cooldown, quota, window) then
        s.(actual := after, ideal := s.ideal.(maxConcurrent := maxConcurrent))
      else Begin(after, s.clock)
  }

  /** Nothing is tracked: the process has just started, or the policy was reset and not used since. */
  predicate Fresh(p: Policy) { p.records == map[] && p.active == 0 }

  /** Time does not go back, and a change of rules comes before anything is tracked. */
  predicate Calm(e: Event, s: Pair) {
    match e
    case EAdmit(_, now) => s.clock <= now
    case EFail(_, now) => s.clock <= now
    case EConfigure(cooldown, quota, window, _) =>
      SameRules(s.actual.policy, cooldown, quota, window) || Fresh(s.actual.policy)
    case _ => true
  }

  function Trace(clock: real, events: seq<Event>): Pair {
    if |events| == 0 then Begin(System(NEW_POLICY, [], false), clock)
    else Step(Trace(clock, events[..|events| - 1]), events[|events| - 1])
  }

  predicate CalmRun(clock: real, events: seq<Event>) {
    |events| > 0 ==>
      CalmRun(clock, events[..|events| - 1]) && Calm(events[|events| - 1], Trace(clock, events[..|events| - 1]))
  }

  /** A history of one process, from its start. */
  ghost predicate Steady(clock: real, events: seq<Event>) { Interleaving(events) && CalmRun(clock, events) }

  // ---- Pruning is invisible ----

  /** The real record remembers what can still matter. */
  predicate RecordAgrees(p: Policy, r: Record, n: Record, clock: real) {
    && r.windowStart == n.windowStart && r.count == n.count && r.active == n.active
    && (r.failedAt == n.failedAt || (r.failedAt.None? && !Cooling(p, n, clock)))
  }

  /** A forgotten record can no longer refuse anything. */
  predicate Harmless(p: Policy, n: Record, clock: real) {
    n.active == 0 && clock - n.windowStart >= p.window && !Cooling(p, n, clock)
  }

  predicate DomainAgrees(p: Policy, ideal: Policy, domain: string, clock: real) {
    && (domain in p.records ==>
          domain in ideal.records && RecordAgrees(p, p.records[domain], ideal.records[domain], clock))
    && (domain !in p.records && domain in ideal.records ==> Harmless(p, ideal.records[domain], clock))
  }

  predicate SameSettings(p: Policy, q: Policy) {
    && p.maxConcurrent == q.maxConcurrent && p.active == q.active && p.cooldown == q.cooldown && p.quota == q.quota
    && p.window == q.window && p.generation == q.generation
  }

  ghost predicate Agree(p: Policy, ideal: Policy, clock: real) {
    SameSettings(p, ideal) && forall d :: DomainAgrees(p, ideal, d, clock)
  }

  lemma AgreeLater(p: Policy, ideal: Policy, clock: real, now: real)
    requires Agree(p, ideal, clock) && clock <= now
    ensures Agree(p, ideal, now)
  {
    forall d ensures DomainAgrees(p, ideal, d, now) { assert DomainAgrees(p, ideal, d, clock); }
  }

  lemma PrunedAgrees(p: Policy, ideal: Policy, now: real, force: bool)
    requires Agree(p, ideal, now)
    ensures Agree(Pruned(p, now, force), ideal, now)
  {
    forall d ensures DomainAgrees(Pruned(p, now, force), ideal, d, now) { assert DomainAgrees(p, ideal, d, now); }
  }

  lemma DecideAgrees(p: Policy, ideal: Policy, domain: string, r: Record, n: Record, now: real)
    requires Agree(p, ideal, now)
    requires RecordAgrees(p, r, n, now)
    ensures Decide(p, domain, r, now).1 == Decide(ideal, domain, n, now).1
    ensures Agree(Decide(p, domain, r, now).0, Decide(ideal, domain, n, now).0, now)
  {
    var q, m := Decide(p, domain, r, now).0, Decide(ideal, domain, n, now).0;
    forall d ensures DomainAgrees(q, m, d, now) { assert DomainAgrees(p, ideal, d, now); }
  }

  lemma WindowedAgrees(p: Policy, ideal: Policy, domain: string, now: real)
    requires Agree(p, ideal, now)
    ensures var n := if domain in ideal.records then Windowed(ideal, ideal.records[domain], now) else Record(None, now, 0, 0);
            var r := if domain in p.records then Windowed(p, p.records[domain], now) else Record(None, now, 0, 0);
            RecordAgrees(p, r, n, now)
  {
    assert DomainAgrees(p, ideal, domain, now);
  }

  /** Apart from capacity refusals the answers are the same, and so is everything that can still matter. */
  lemma AdmitAgrees(p: Policy, ideal: Policy, domain: string, now: real)
    requires Agree(p, ideal, now)
    ensures var result := Admit(p, domain, now);
            if result.1 == Failure(TooManyTracked) then Agree(result.0, ideal, now)
            else result.1 == IdealAdmit(ideal, domain, now).1 && Agree(result.0, IdealAdmit(ideal, domain, now).0, now)
  {
    var q := Pruned(p, now, false);
    PrunedAgrees(p, ideal, now, false);
    PrunedAgrees(q, ideal, now, true);
    var room := if domain in q.records then q else MakeRoom(q, now);
    WindowedAgrees(room, ideal, domain, now);
    DecideAgrees(room, ideal, domain,
      if domain in room.records then Windowed(room, room.records[domain], now) else Record(None, now, 0, 0),
      if domain in ideal.records then Windowed(ideal, ideal.records[domain], now) else Record(None, now, 0, 0), now);
  }

  lemma IsAllowedAgrees(p: Policy, ideal: Policy, domain: string, now: real)
    requires Agree(p, ideal, now)
    ensures IsAllowed(p, domain, now) <==> IsAllowed(ideal, domain, now)
  {
    assert DomainAgrees(p, ideal, domain, now);
  }

  lemma FailAgrees(p: Policy, ideal: Policy, permit: Permit, now: real)
    requires Agree(p, ideal, now) && permit.generation == p.generation && permit.domain in p.records
    ensures Agree(MarkFailed(p, permit, now), IdealFail(ideal, permit, now), now)
  {
    assert DomainAgrees(p, ideal, permit.domain, now);
    var q := p.(records := p.records[permit.domain := p.records[permit.domain].(failedAt := Some(now))]);
    var m := IdealFail(ideal, permit, now);
    forall d ensures DomainAgrees(q, m, d, now) { assert DomainAgrees(p, ideal, d, now); }
    PrunedAgrees(q, m, now, false);
  }

  lemma ReleaseAgrees(p: Policy, ideal: Policy, permit: Permit, clock: real)
    requires Agree(p, ideal, clock) && Release(p, permit).Success?
    ensures Agree(Release(p, permit).value, IdealRelease(ideal, permit), clock)
  {
    assert DomainAgrees(p, ideal, permit.domain, clock);
    var q, m := Release(p, permit).value, IdealRelease(ideal, permit);
    forall d ensures DomainAgrees(q, m, d, clock) { assert DomainAgrees(p, ideal, d, clock); }
  }

  // ---- What the ideal policy has admitted ----

  predicate InWindow(a: Admission, domain: string, t: real, window: real) {
    a.domain == domain && t <= a.time < t + window
  }

  function CountFrom(admissions: seq<Admission>, domain: string, start: real): nat {
    if |admissions| == 0 then 0
    else
      var last := admissions[|admissions| - 1];
      CountFrom(admissions[..|admissions| - 1], domain, start) + if last.domain == domain && last.start == start then 1 else 0
  }

  function CountIn(admissions: seq<Admission>, domain: string, t: real, window: real): nat {
    if |admissions| == 0 then 0
    else
      CountIn(admissions[..|admissions| - 1], domain, t, window)
      + if InWindow(admissions[|admissions| - 1], domain, t, window) then 1 else 0
  }

  predicate Apart(s: real, t: real, window: real) { s == t || s + window <= t || t + window <= s }

  /** Where an admission stands relative to its domain's current quota window. */
  predicate AdmissionOk(ideal: Policy, a: Admission) {
    && a.domain in ideal.records
    && a.start <= a.time < a.start + ideal.window
    && (a.start == ideal.records[a.domain].windowStart || a.start + ideal.window <= ideal.records[a.domain].windowStart)
  }

  ghost predicate StartsApart(admissions: seq<Admission>, window: real) {
    forall a, b | a in admissions && b in admissions && a.domain == b.domain :: Apart(a.start, b.start, window)
  }

  predicate CountsOk(ideal: Policy, admissions: seq<Admission>, domain: string, start: real) {
    && CountFrom(admissions, domain, start) <= ideal.quota
    && (domain in ideal.records && start == ideal.records[domain].windowStart ==>
          CountFrom(admissions, domain, start) == ideal.records[domain].count)
    && (domain in ideal.records && start > ideal.records[domain].windowStart ==> CountFrom(admissions, domain, start) == 0)
    && (domain !in ideal.records ==> CountFrom(admissions, domain, start) == 0)
  }

  ghost predicate QuotaKept(ideal: Policy, admissions: seq<Admission>) {
    && (forall a | a in admissions :: AdmissionOk(ideal, a))
    && StartsApart(admissions, ideal.window)
    && (forall d, t :: CountsOk(ideal, admissions, d, t))
  }

  predicate MarkOk(ideal: Policy, m: Mark) {
    && m.domain in ideal.records && ideal.records[m.domain].failedAt.Some?
    && m.time <= ideal.records[m.domain].failedAt.value
  }

  ghost predicate FailuresKept(ideal: Policy, marks: seq<Mark>) {
    forall m | m in marks :: MarkOk(ideal, m)
  }

  predicate NotAfter(p: Policy, domain: string, clock: real) {
    domain in p.records ==>
      p.records[domain].windowStart <= clock && (p.records[domain].failedAt.Some? ==> p.records[domain].failedAt.value <= clock)
  }

  ghost predicate ClockAhead(p: Policy, clock: real) { forall d :: NotAfter(p, d, clock) }

  ghost predicate IdealOk(ideal: Policy, admissions: seq<Admission>, marks: seq<Mark>, clock: real) {
    && ClockAhead(ideal, clock)
    && FailuresKept(ideal, marks)
    && (ideal.quota > 0 && ideal.window > 0.0 ==> QuotaKept(ideal, admissions))
  }

  ghost predicate PairOk(s: Pair) {
    && Conserved(s.actual)
    && Agree(s.actual.policy, s.ideal, s.clock)
    && IdealOk(s.ideal, s.admissions, s.marks, s.clock)
  }

  lemma RecordRestarts(ideal: Policy, admissions: seq<Admission>, domain: string, r: Record)
    requires QuotaKept(ideal, admissions) && ideal.quota > 0 && r.count == 0
    requires domain in ideal.records ==> ideal.records[domain].windowStart + ideal.window <= r.windowStart
    requires ideal.window > 0.0
    ensures QuotaKept(ideal.(records := ideal.records[domain := r]), admissions)
  {
    var next := ideal.(records := ideal.records[domain := r]);
    forall a | a in admissions ensures AdmissionOk(next, a) { assert AdmissionOk(ideal, a); }
    forall d, t ensures CountsOk(next, admissions, d, t) { assert CountsOk(ideal, admissions, d, t); }
  }

  lemma RecordStands(ideal: Policy, admissions: seq<Admission>, domain: string, r: Record)
    requires QuotaKept(ideal, admissions) && domain in ideal.records
    requires r.windowStart == ideal.records[domain].windowStart && r.count == ideal.records[domain].count
    ensures QuotaKept(ideal.(records := ideal.records[domain := r]), admissions)
  {
    var next := ideal.(records := ideal.records[domain := r]);
    forall a | a in admissions ensures AdmissionOk(next, a) { assert AdmissionOk(ideal, a); }
    forall d, t ensures CountsOk(next, admissions, d, t) { assert CountsOk(ideal, admissions, d, t); }
  }

  /** Admitting into the current window of a record whose count has room. */
  lemma AdmissionKeepsQuota(ideal: Policy, admissions: seq<Admission>, domain: string, now: real)
    requires QuotaKept(ideal, admissions) && domain in ideal.records && ideal.window > 0.0
    requires var r := ideal.records[domain]; r.count < ideal.quota && r.windowStart <= now < r.windowStart + ideal.window
    ensures var r := ideal.records[domain];
            QuotaKept(ideal.(records := ideal.records[domain := r.(count := r.count + 1, active := r.active + 1)],
                             active := ideal.active + 1),
                      admissions + [Admission(domain, now, r.windowStart)])
  {
    var r := ideal.records[domain];
    var next := ideal.(records := ideal.records[domain := r.(count := r.count + 1, active := r.active + 1)],
                       active := ideal.active + 1);
    var a := Admission(domain, now, r.windowStart);
    var seen := admissions + [a];
    assert seen[..|admissions|] == admissions;
    forall b | b in seen ensures AdmissionOk(next, b) { if b in admissions { assert AdmissionOk(ideal, b); } }
    forall b | b in admissions && b.domain == domain ensures Apart(a.start, b.start, ideal.window) { assert AdmissionOk(ideal, b); }
    forall d, t ensures CountsOk(next, seen, d, t) { assert CountsOk(ideal, admissions, d, t); }
  }

  lemma EnteredKeepsQuota(ideal: Policy, admissions: seq<Admission>, domain: string, now: real)
    requires QuotaKept(ideal, admissions) && ideal.quota > 0 && ideal.window > 0.0 && NotAfter(ideal, domain, now)
    ensures var r := if domain in ideal.records then Windowed(ideal, ideal.records[domain], now) else Record(None, now, 0, 0);
            && QuotaKept(ideal.(records := ideal.records[domain := r]), admissions)
            && r.windowStart <= now < r.windowStart + ideal.window
  {
    var r := if domain in ideal.records then Windowed(ideal, ideal.records[domain], now) else Record(None, now, 0, 0);
    if domain in ideal.records && now - ideal.records[domain].windowStart < ideal.window {
      RecordStands(ideal, admissions, domain, r);
    } else {
      RecordRestarts(ideal, admissions, domain, r);
    }
  }

  lemma IdealAdmitKeepsQuota(ideal: Policy, admissions: seq<Admission>, domain: string, now: real)
    requires QuotaKept(ideal, admissions) && ideal.quota > 0 && ideal.window > 0.0 && NotAfter(ideal, domain, now)
    ensures var r := IdealAdmit(ideal, domain, now); QuotaKept(r.0, Seen(admissions, domain, now, r))
  {
    if !(ideal.maxConcurrent > 0 && ideal.active >= ideal.maxConcurrent) {
      var r := if domain in ideal.records then Windowed(ideal, ideal.records[domain], now) else Record(None, now, 0, 0);
      var entered := ideal.(records := ideal.records[domain := r]);
      EnteredKeepsQuota(ideal, admissions, domain, now);
      if Decide(ideal, domain, r, now).1.Success? {
        AdmissionKeepsQuota(entered, admissions, domain, now);
        assert entered.records[domain := r.(count := r.count + 1, active := r.active + 1)]
            == ideal.records[domain := r.(count := r.count + 1, active := r.active + 1)];
      }
    }
  }

  lemma IdealAdmitKeepsFailures(ideal: Policy, marks: seq<Mark>, domain: string, now: real)
    requires FailuresKept(ideal, marks)
    ensures FailuresKept(IdealAdmit(ideal, domain, now).0, marks)
  {
  }

  lemma IdealAdmitClock(ideal: Policy, domain: string, now: real)
    requires ClockAhead(ideal, now)
    ensures ClockAhead(IdealAdmit(ideal, domain, now).0, now)
  {
    forall d ensures NotAfter(IdealAdmit(ideal, domain, now).0, d, now) { assert NotAfter(ideal, d, now); }
  }

  lemma ClockMoves(ideal: Policy, clock: real, now: real)
    requires ClockAhead(ideal, clock) && clock <= now
    ensures ClockAhead(ideal, now)
  {
    forall d ensures NotAfter(ideal, d, now) { assert NotAfter(ideal, d, clock); }
  }

  lemma IdealLater(ideal: Policy, admissions: seq<Admission>, marks: seq<Mark>, clock: real, now: real)
    requires IdealOk(ideal, admissions, marks, clock) && clock <= now
    ensures IdealOk(ideal, admissions, marks, now)
  {
    ClockMoves(ideal, clock, now);
  }

  lemma IdealAdmitOk(ideal: Policy, admissions: seq<Admission>, marks: seq<Mark>, domain: string, now: real)
    requires IdealOk(ideal, admissions, marks, now)
    ensures var r := IdealAdmit(ideal, domain, now); IdealOk(r.0, Seen(admissions, domain, now, r), marks, now)
  {
    IdealAdmitClock(ideal, domain, now);
    IdealAdmitKeepsFailures(ideal, marks, domain, now);
    assert NotAfter(ideal, domain, now);
    if ideal.quota > 0 && ideal.window > 0.0 { IdealAdmitKeepsQuota(ideal, admissions, domain, now); }
  }

  /** Moves the pair's clock without an event. */
  lemma PairLater(s: Pair, now: real)
    requires PairOk(s) && s.clock <= now
    ensures PairOk(s.(clock := now))
  {
    AgreeLater(s.actual.policy, s.ideal, s.clock, now);
    IdealLater(s.ideal, s.admissions, s.marks, s.clock, now);
  }

  lemma AdmitStep(s: Pair, domain: string, now: real)
    requires PairOk(s) && s.clock <= now
    ensures PairOk(Step(s, EAdmit(domain, now)))
  {
    NextConserves(s.actual, EAdmit(domain, now));
    PairLater(s, now);
    AdmitAgrees(s.actual.policy, s.ideal, domain, now);
    IdealAdmitOk(s.ideal, s.admissions, s.marks, domain, now);
  }

  lemma HeldDomainTracked(s: System, i: nat)
    requires Conserved(s) && i < |s.calls| && Holds(s.calls[i], s.policy.generation)
    ensures s.calls[i].permit.domain in s.policy.records
  {
    HeldCounts(s.calls, i, s.policy.generation);
    assert ShareKept(s.policy, s.calls, s.calls[i].permit.domain);
  }

  lemma IdealFailKeeps(ideal: Policy, admissions: seq<Admission>, marks: seq<Mark>, permit: Permit, now: real)
    requires permit.generation == ideal.generation && permit.domain in ideal.records
    requires ClockAhead(ideal, now) && FailuresKept(ideal, marks)
    ensures var next := IdealFail(ideal, permit, now);
            && ClockAhead(next, now) && FailuresKept(next, marks + [Mark(permit.domain, now)])
            && (QuotaKept(ideal, admissions) ==> QuotaKept(next, admissions))
  {
    var next := IdealFail(ideal, permit, now);
    forall d ensures NotAfter(next, d, now) { assert NotAfter(ideal, d, now); }
    forall m | m in marks ensures MarkOk(next, m) { assert MarkOk(ideal, m) && NotAfter(ideal, m.domain, now); }
    if QuotaKept(ideal, admissions) { RecordStands(ideal, admissions, permit.domain, next.records[permit.domain]); }
  }

  lemma FailStep(s: Pair, i: nat, now: real)
    requires PairOk(s) && s.clock <= now && Due(s.actual, EFail(i, now))
    ensures PairOk(Step(s, EFail(i, now)))
  {
    var permit := s.actual.calls[i].permit;
    NextConserves(s.actual, EFail(i, now));
    PairLater(s, now);
    if permit.generation == s.ideal.generation {
      HeldDomainTracked(s.actual, i);
      FailAgrees(s.actual.policy, s.ideal, permit, now);
      assert DomainAgrees(s.actual.policy, s.ideal, permit.domain, now);
      IdealFailKeeps(s.ideal, s.admissions, s.marks, permit, now);
    }
  }

  lemma IdealReleaseKeeps(ideal: Policy, admissions: seq<Admission>, marks: seq<Mark>, permit: Permit, clock: real)
    requires ClockAhead(ideal, clock) && FailuresKept(ideal, marks)
    ensures var next := IdealRelease(ideal, permit);
            && ClockAhead(next, clock) && FailuresKept(next, marks)
            && (QuotaKept(ideal, admissions) ==> QuotaKept(next, admissions))
  {
    var next := IdealRelease(ideal, permit);
    forall d ensures NotAfter(next, d, clock) { assert NotAfter(ideal, d, clock); }
    forall m | m in marks ensures MarkOk(next, m) { assert MarkOk(ideal, m); }
    if QuotaKept(ideal, admissions) && next != ideal {
      RecordStands(ideal, admissions, permit.domain, next.records[permit.domain]);
      RecordsDecide(ideal.(records := ideal.records[permit.domain := next.records[permit.domain]]), next, admissions);
    }
  }

  /** The quota's promise is about the records, the quota and the window alone. */
  lemma RecordsDecide(ideal: Policy, next: Policy, admissions: seq<Admission>)
    requires QuotaKept(ideal, admissions)
    requires next.records == ideal.records && next.quota == ideal.quota && next.window == ideal.window
    ensures QuotaKept(next, admissions)
  {
    forall a | a in admissions ensures AdmissionOk(next, a) { assert AdmissionOk(ideal, a); }
    forall d, t ensures CountsOk(next, admissions, d, t) { assert CountsOk(ideal, admissions, d, t); }
  }

  lemma ReleaseStep(s: Pair, i: nat)
    requires PairOk(s) && Due(s.actual, ERelease(i))
    ensures PairOk(Step(s, ERelease(i)))
  {
    NextConserves(s.actual, ERelease(i));
    HeldReleases(s.actual, i);
    ReleaseAgrees(s.actual.policy, s.ideal, s.actual.calls[i].permit, s.clock);
    IdealReleaseKeeps(s.ideal, s.admissions, s.marks, s.actual.calls[i].permit, s.clock);
  }

  lemma BeginOk(s: System, clock: real)
    requires Conserved(s) && Fresh(s.policy)
    ensures PairOk(Begin(s, clock))
  {
  }

  /** Configuring the rules in force again changes nothing that is compared. */
  lemma SameRulesStep(s: Pair, maxConcurrent: int)
    requires PairOk(s)
    ensures var e := EConfigure(s.ideal.cooldown, s.ideal.quota, s.ideal.window, maxConcurrent); PairOk(Step(s, e))
  {
    var e := EConfigure(s.ideal.cooldown, s.ideal.quota, s.ideal.window, maxConcurrent);
    var next := Step(s, e);
    NextConserves(s.actual, e);
    forall d ensures DomainAgrees(next.actual.policy, next.ideal, d, s.clock) {
      assert DomainAgrees(s.actual.policy, s.ideal, d, s.clock);
    }
    forall d ensures NotAfter(next.ideal, d, s.clock) { assert NotAfter(s.ideal, d, s.clock); }
    forall m | m in s.marks ensures MarkOk(next.ideal, m) { assert MarkOk(s.ideal, m); }
    if s.ideal.quota > 0 && s.ideal.window > 0.0 { RecordsDecide(s.ideal, next.ideal, s.admissions); }
  }

  lemma CalmStep(s: Pair, e: Event)
    requires PairOk(s) && Due(s.actual, e) && Calm(e, s)
    ensures PairOk(Step(s, e))
  {
    match e
    case EAdmit(domain, now) => AdmitStep(s, domain, now);
    case EFail(i, now) => FailStep(s, i, now);
    case ERelease(i) => ReleaseStep(s, i);
    case EReset =>
      NextConserves(s.actual, e);
      BeginOk(Next(s.actual, e), s.clock);
    case EConfigure(cooldown, quota, window, maxConcurrent) =>
      if SameRules(s.ideal, cooldown, quota, window) {
        SameRulesStep(s, maxConcurrent);
      } else {
        NextConserves(s.actual, e);
        BeginOk(Next(s.actual, e), s.clock);
      }
  }

  lemma {:induction false} TraceIsRun(clock: real, events: seq<Event>)
    ensures Trace(clock, events).actual == Run(events)
  {
    if |events| > 0 { TraceIsRun(clock, events[..|events| - 1]); }
  }

  /** Every steady history keeps the two policies in agreement. */
  lemma {:induction false} TraceOk(clock: real, events: seq<Event>)
    requires Steady(clock, events)
    ensures PairOk(Trace(clock, events))
  {
    if |events| == 0 {
      PermitsConserved(events);
      BeginOk(System(NEW_POLICY, [], false), clock);
    } else {
      var before, e := events[..|events| - 1], events[|events| - 1];
      TraceOk(clock, before);
      TraceIsRun(clock, before);
      EnabledIsDue(before, e);
      CalmStep(Trace(clock, before), e);
    }
  }

  lemma TraceSnoc(clock: real, events: seq<Event>, e: Event)
    ensures Trace(clock, events + [e]) == Step(Trace(clock, events), e)
    ensures CalmRun(clock, events + [e]) <==> CalmRun(clock, events) && Calm(e, Trace(clock, events))
  {
    assert (events + [e])[..|events|] == events;
  }

  /** A client that configures the rules in force again keeps a history steady, and nothing seen is forgotten. */
  lemma SameRulesStaySteady(clock: real, events: seq<Event>, maxConcurrent: int)
    requires Steady(clock, events)
    ensures var p := Run(events).policy;
            var more := events + [EConfigure(p.cooldown, p.quota, p.window, maxConcurrent)];
            && Steady(clock, more)
            && Trace(clock, more).admissions == Trace(clock, events).admissions
            && Trace(clock, more).marks == Trace(clock, events).marks
  {
    var p := Run(events).policy;
    var e := EConfigure(p.cooldown, p.quota, p.window, maxConcurrent);
    RunSnoc(events, e);
    TraceSnoc(clock, events, e);
    TraceIsRun(clock, events);
    TraceOk(clock, events);
  }

  /** After a reset, whatever came before and whatever permits are still out, the next admission of any domain
      succeeds. */
  lemma ResetForgets(events: seq<Event>, domain: string, now: real)
    ensures var p := Run(events + [EReset]).policy;
            && p.generation == Run(events).policy.generation + 1
            && Admit(p, domain, now).1 == Success(Permit(domain, p.generation))
  {
    assert (events + [EReset])[..|events|] == events;
  }

  /** After a reset any rules may be configured, whatever permits are still out. */
  lemma ResetAllowsNewRules(clock: real, events: seq<Event>, cooldown: real, quota: int, window: real, maxConcurrent: int)
    requires Steady(clock, events)
    ensures Steady(clock, events + [EReset] + [EConfigure(cooldown, quota, window, maxConcurrent)])
  {
    var e := EConfigure(cooldown, quota, window, maxConcurrent);
    RunSnoc(events, EReset);
    TraceSnoc(clock, events, EReset);
    RunSnoc(events + [EReset], e);
    TraceSnoc(clock, events + [EReset], e);
    TraceIsRun(clock, events + [EReset]);
  }

  // ---- The promises ----

  /** Pruning is invisible: after any history, apart from a capacity refusal, the next answer for any domain, and
      the read-only check, are those of the policy that never forgets. */
  lemma PruningIsInvisible(clock: real, events: seq<Event>, domain: string, now: real)
    requires Steady(clock, events) && Trace(clock, events).clock <= now
    ensures var p, ideal := Run(events).policy, Trace(clock, events).ideal;
            var answer := Admit(p, domain, now).1;
            && (answer == Failure(TooManyTracked) || answer == IdealAdmit(ideal, domain, now).1)
            && (IsAllowed(p, domain, now) <==> IsAllowed(ideal, domain, now))
  {
    var s := Trace(clock, events);
    TraceOk(clock, events);
    TraceIsRun(clock, events);
    AgreeLater(s.actual.policy, s.ideal, s.clock, now);
    AdmitAgrees(s.actual.policy, s.ideal, domain, now);
    IsAllowedAgrees(s.actual.policy, s.ideal, domain, now);
  }

  lemma {:induction false} CountCovered(admissions: seq<Admission>, domain: string, t: real, window: real, s1: real, s2: real)
    requires forall a | a in admissions && InWindow(a, domain, t, window) :: a.start == s1 || a.start == s2
    ensures CountIn(admissions, domain, t, window) <= CountFrom(admissions, domain, s1) + CountFrom(admissions, domain, s2)
  {
    if |admissions| > 0 {
      var rest := admissions[..|admissions| - 1];
      assert forall a | a in rest :: a in admissions;
      assert admissions[|admissions| - 1] in admissions;
      CountCovered(rest, domain, t, window, s1, s2);
    }
  }

  /** An interval one window long meets at most two quota windows. */
  lemma TwoStarts(ideal: Policy, admissions: seq<Admission>, domain: string, t: real) returns (s1: real, s2: real)
    requires QuotaKept(ideal, admissions)
    ensures forall a | a in admissions && InWindow(a, domain, t, ideal.window) :: a.start == s1 || a.start == s2
  {
    s1, s2 := t, t;
    if a :| a in admissions && InWindow(a, domain, t, ideal.window) {
      s1, s2 := a.start, a.start;
      if b :| b in admissions && InWindow(b, domain, t, ideal.window) && b.start != s1 {
        s2 := b.start;
        forall c | c in admissions && InWindow(c, domain, t, ideal.window)
          ensures c.start == s1 || c.start == s2
        {
          assert AdmissionOk(ideal, a) && AdmissionOk(ideal, b) && AdmissionOk(ideal, c);
          assert Apart(a.start, b.start, ideal.window) && Apart(a.start, c.start, ideal.window) && Apart(b.start, c.start, ideal.window);
        }
      }
    }
  }

  /** Any half-open interval of one window holds at most twice the quota of one domain's admissions. */
  lemma TwiceTheQuota(clock: real, events: seq<Event>, domain: string, t: real)
    requires Steady(clock, events) && Run(events).policy.quota > 0 && Run(events).policy.window > 0.0
    ensures var p := Run(events).policy;
            CountIn(Trace(clock, events).admissions, domain, t, p.window) <= 2 * p.quota
  {
    var s := Trace(clock, events);
    TraceOk(clock, events);
    TraceIsRun(clock, events);
    var s1, s2 := TwoStarts(s.ideal, s.admissions, domain, t);
    CountCovered(s.admissions, domain, t, s.ideal.window, s1, s2);
    assert CountsOk(s.ideal, s.admissions, domain, s1) && CountsOk(s.ideal, s.admissions, domain, s2);
  }

  predicate SameDomain(a: Admission, c: Call) { a.domain == c.permit.domain }

  /** The admissions are the calls of the pair since the comparison began, one for one and in order. */
  predicate Listed(s: Pair) {
    && |s.actual.calls| == s.since + |s.admissions|
    && forall i | 0 <= i < |s.admissions| :: SameDomain(s.admissions[i], s.actual.calls[s.since + i])
  }

  lemma AdmitListed(s: Pair, domain: string, now: real)
    requires PairOk(s) && s.clock <= now && Listed(s)
    ensures Listed(Step(s, EAdmit(domain, now)))
  {
    AgreeLater(s.actual.policy, s.ideal, s.clock, now);
    AdmitAgrees(s.actual.policy, s.ideal, domain, now);
  }

  lemma CalmListed(s: Pair, e: Event)
    requires PairOk(s) && Calm(e, s) && Listed(s)
    ensures Listed(Step(s, e))
  {
    if e.EAdmit? { AdmitListed(s, e.domain, e.now); }
  }

  /** The counted admissions are the calls the real policy admitted since the comparison began, one for one and
      in order. */
  lemma {:induction false} AdmissionsAreCalls(clock: real, events: seq<Event>)
    requires Steady(clock, events)
    ensures Listed(Trace(clock, events)) && Trace(clock, events).actual == Run(events)
  {
    TraceIsRun(clock, events);
    if |events| > 0 {
      AdmissionsAreCalls(clock, events[..|events| - 1]);
      TraceOk(clock, events[..|events| - 1]);
      CalmListed(Trace(clock, events[..|events| - 1]), events[|events| - 1]);
    }
  }

  /** No admission succeeds within the cooldown after a failure. */
  lemma CooldownHolds(clock: real, events: seq<Event>, m: Mark, now: real)
    requires Steady(clock, events) && Trace(clock, events).clock <= now
    requires m in Trace(clock, events).marks && now - m.time < Run(events).policy.cooldown
    ensures Admit(Run(events).policy, m.domain, now).1.Failure?
  {
    var s := Trace(clock, events);
    TraceOk(clock, events);
    TraceIsRun(clock, events);
    PruningIsInvisible(clock, events, m.domain, now);
    assert MarkOk(s.ideal, m) && NotAfter(s.ideal, m.domain, s.clock);
  }

  // ---- Exactly when an admission is refused ----

  /** A failure that the ideal policy remembers was recorded, and no admission's window starts in the future. */
  ghost predicate SeenOk(ideal: Policy, admissions: seq<Admission>, marks: seq<Mark>, clock: real) {
    && (forall d | d in ideal.records && ideal.records[d].failedAt.Some? :: Mark(d, ideal.records[d].failedAt.value) in marks)
    && (forall a | a in admissions :: a.start <= clock)
  }

  ghost predicate SeenOkIn(s: Pair) { SeenOk(s.ideal, s.admissions, s.marks, s.clock) }

  lemma AdmitSeen(ideal: Policy, admissions: seq<Admission>, marks: seq<Mark>, domain: string, clock: real, now: real)
    requires SeenOk(ideal, admissions, marks, clock) && ClockAhead(ideal, now) && clock <= now
    ensures var r := IdealAdmit(ideal, domain, now); SeenOk(r.0, Seen(admissions, domain, now, r), marks, now)
  {
    var r := IdealAdmit(ideal, domain, now);
    IdealAdmitClock(ideal, domain, now);
    assert NotAfter(r.0, domain, now);
    forall d | d in r.0.records && r.0.records[d].failedAt.Some?
      ensures Mark(d, r.0.records[d].failedAt.value) in marks
    {
      assert d in ideal.records && ideal.records[d].failedAt == r.0.records[d].failedAt;
    }
  }

  lemma FailSeen(ideal: Policy, admissions: seq<Admission>, marks: seq<Mark>, permit: Permit, clock: real, now: real)
    requires SeenOk(ideal, admissions, marks, clock) && clock <= now
    ensures SeenOk(IdealFail(ideal, permit, now), admissions, marks + [Mark(permit.domain, now)], now)
  {
    var next, more := IdealFail(ideal, permit, now), marks + [Mark(permit.domain, now)];
    assert more[|marks|] == Mark(permit.domain, now);
    forall d | d in next.records && next.records[d].failedAt.Some?
      ensures Mark(d, next.records[d].failedAt.value) in more
    {
      if next.records[d] == Record(Some(now), next.records[d].windowStart, next.records[d].count, next.records[d].active)
         && d == permit.domain { assert Mark(d, now) in more; }
    }
  }

  lemma ReleaseSeen(ideal: Policy, admissions: seq<Admission>, marks: seq<Mark>, permit: Permit, clock: real)
    requires SeenOk(ideal, admissions, marks, clock)
    ensures SeenOk(IdealRelease(ideal, permit), admissions, marks, clock)
  {
  }

  lemma StepSeen(s: Pair, e: Event)
    requires PairOk(s) && SeenOkIn(s) && Calm(e, s)
    ensures SeenOkIn(Step(s, e))
  {
    hide PairOk, SeenOk, IdealAdmit, IdealFail, IdealRelease, Admit, Release, MarkFailed, Seen;
    match e
    case EAdmit(domain, now) =>
      PairClock(s, now);
      LaterSeen(s.ideal, s.admissions, s.marks, s.clock, now);
      AdmitSeen(s.ideal, s.admissions, s.marks, domain, s.clock, now);
    case EFail(i, now) =>
      LaterSeen(s.ideal, s.admissions, s.marks, s.clock, now);
      if i < |s.actual.calls| { FailSeen(s.ideal, s.admissions, s.marks, s.actual.calls[i].permit, s.clock, now); }
    case ERelease(i) =>
      if i < |s.actual.calls| { ReleaseSeen(s.ideal, s.admissions, s.marks, s.actual.calls[i].permit, s.clock); }
    case EReset => NothingSeen(Step(s, e).ideal, s.clock);
    case EConfigure(cooldown, quota, window, maxConcurrent) =>
      PairRules(s);
      if SameRules(s.ideal, cooldown, quota, window) {
        SameRecordsSeen(s.ideal, Step(s, e).ideal, s.admissions, s.marks, s.clock);
      } else {
        NothingSeen(Step(s, e).ideal, s.clock);
      }
  }

  lemma PairRules(s: Pair)
    requires PairOk(s)
    ensures SameSettings(s.actual.policy, s.ideal)
  {
  }

  lemma PairClock(s: Pair, now: real)
    requires PairOk(s) && s.clock <= now
    ensures ClockAhead(s.ideal, now)
  {
    ClockMoves(s.ideal, s.clock, now);
  }

  lemma LaterSeen(ideal: Policy, admissions: seq<Admission>, marks: seq<Mark>, clock: real, now: real)
    requires SeenOk(ideal, admissions, marks, clock) && clock <= now
    ensures SeenOk(ideal, admissions, marks, now)
  {
  }

  lemma NothingSeen(ideal: Policy, clock: real)
    requires ideal.records == map[]
    ensures SeenOk(ideal, [], [], clock)
  {
  }

  lemma SameRecordsSeen(ideal: Policy, next: Policy, admissions: seq<Admission>, marks: seq<Mark>, clock: real)
    requires SeenOk(ideal, admissions, marks, clock) && next.records == ideal.records
    ensures SeenOk(next, admissions, marks, clock)
  {
  }

  lemma {:induction false} TraceSeen(clock: real, events: seq<Event>)
    requires Steady(clock, events)
    ensures SeenOkIn(Trace(clock, events))
  {
    if |events| > 0 {
      TraceSeen(clock, events[..|events| - 1]);
      TraceOk(clock, events[..|events| - 1]);
      StepSeen(Trace(clock, events[..|events| - 1]), events[|events| - 1]);
    }
  }

  /** A failure of the domain is younger than the cooldown. */
  predicate FailedLately(marks: seq<Mark>, domain: string, cooldown: real, now: real) {
    exists m | m in marks :: m.domain == domain && now - m.time < cooldown
  }

  /** The quota window of one of the domain's admissions is still running and holds the whole quota. */
  predicate WindowFull(admissions: seq<Admission>, domain: string, quota: int, window: real, now: real) {
    exists a | a in admissions ::
      a.domain == domain && now < a.start + window && CountFrom(admissions, domain, a.start) >= quota
  }

  lemma CoolingExact(ideal: Policy, admissions: seq<Admission>, marks: seq<Mark>, domain: string, r: Record, clock: real, now: real)
    requires SeenOk(ideal, admissions, marks, clock) && FailuresKept(ideal, marks)
    requires r.failedAt == if domain in ideal.records then ideal.records[domain].failedAt else None
    ensures Cooling(ideal, r, now) <==> ideal.cooldown > 0.0 && FailedLately(marks, domain, ideal.cooldown, now)
  {
    if Cooling(ideal, r, now) { assert Mark(domain, r.failedAt.value) in marks; }
    if FailedLately(marks, domain, ideal.cooldown, now) {
      var m :| m in marks && m.domain == domain && now - m.time < ideal.cooldown;
      assert MarkOk(ideal, m);
    }
  }

  lemma {:induction false} CountedWitness(admissions: seq<Admission>, domain: string, start: real) returns (a: Admission)
    requires CountFrom(admissions, domain, start) > 0
    ensures a in admissions && a.domain == domain && a.start == start
  {
    var last := admissions[|admissions| - 1];
    if last.domain == domain && last.start == start { a := last; }
    else { a := CountedWitness(admissions[..|admissions| - 1], domain, start); }
  }

  /** The record that the next request of a domain is charged to. */
  function Charged(ideal: Policy, domain: string, now: real): Record {
    if domain in ideal.records then Windowed(ideal, ideal.records[domain], now) else Record(None, now, 0, 0)
  }

  /** A running window is the record's own. */
  lemma RunningWindow(ideal: Policy, admissions: seq<Admission>, a: Admission, now: real)
    requires QuotaKept(ideal, admissions) && NotAfter(ideal, a.domain, now)
    requires a in admissions && now < a.start + ideal.window
    ensures a.domain in ideal.records && a.start == ideal.records[a.domain].windowStart
    ensures CountFrom(admissions, a.domain, a.start) == ideal.records[a.domain].count
  {
    assert AdmissionOk(ideal, a) && CountsOk(ideal, admissions, a.domain, a.start);
  }

  lemma SpentExact(ideal: Policy, admissions: seq<Admission>, marks: seq<Mark>, domain: string, now: real)
    requires IdealOk(ideal, admissions, marks, now) && SeenOk(ideal, admissions, marks, now)
    ensures Spent(ideal, Charged(ideal, domain, now))
       <==> ideal.quota > 0 && WindowFull(admissions, domain, ideal.quota, ideal.window, now)
  {
    assert NotAfter(ideal, domain, now);
    if ideal.quota > 0 && ideal.window > 0.0 {
      if WindowFull(admissions, domain, ideal.quota, ideal.window, now) {
        var a :| a in admissions && a.domain == domain && now < a.start + ideal.window
          && CountFrom(admissions, domain, a.start) >= ideal.quota;
        RunningWindow(ideal, admissions, a, now);
      }
      if Spent(ideal, Charged(ideal, domain, now)) {
        var start := ideal.records[domain].windowStart;
        assert CountsOk(ideal, admissions, domain, start);
        var a := CountedWitness(admissions, domain, start);
        assert a in admissions && now < a.start + ideal.window;
      }
    }
  }

  /** The read-only check looks at the same two things. */
  lemma AllowedByRecord(ideal: Policy, domain: string, now: real)
    ensures IsAllowed(ideal, domain, now)
       <==> !Cooling(ideal, Charged(ideal, domain, now), now) && !Spent(ideal, Charged(ideal, domain, now))
  {
  }

  predicate MustCool(s: Pair, domain: string, now: real) {
    s.ideal.cooldown > 0.0 && FailedLately(s.marks, domain, s.ideal.cooldown, now)
  }

  predicate MustWait(s: Pair, domain: string, now: real) {
    s.ideal.quota > 0 && WindowFull(s.admissions, domain, s.ideal.quota, s.ideal.window, now)
  }

  lemma IdealExact(s: Pair, domain: string, now: real)
    requires IdealOk(s.ideal, s.admissions, s.marks, now) && SeenOk(s.ideal, s.admissions, s.marks, now)
    ensures var r := Charged(s.ideal, domain, now);
            && (Cooling(s.ideal, r, now) <==> MustCool(s, domain, now))
            && (Spent(s.ideal, r) <==> MustWait(s, domain, now))
  {
    CoolingExact(s.ideal, s.admissions, s.marks, domain, Charged(s.ideal, domain, now), now, now);
    SpentExact(s.ideal, s.admissions, s.marks, domain, now);
  }

  /** After any history an admission is refused for concurrency exactly when as many permits are out as are
      allowed. Otherwise, unless there is no room to track the domain, it is refused for cooling down exactly when
      a failure of the domain is younger than the cooldown, then for its quota exactly when a running quota window
      of the domain holds the whole quota, and else it succeeds; the read-only check says the same. */
  lemma AdmissionExact(clock: real, events: seq<Event>, domain: string, now: real)
    requires Steady(clock, events) && Trace(clock, events).clock <= now
    ensures var system, s := Run(events), Trace(clock, events);
            var p := system.policy;
            var answer, cooling, spent := Admit(p, domain, now).1,
              p.cooldown > 0.0 && FailedLately(s.marks, domain, p.cooldown, now),
              p.quota > 0 && WindowFull(s.admissions, domain, p.quota, p.window, now);
            && (answer == Failure(TooManyConcurrent)
                <==> p.maxConcurrent > 0 && Outstanding(system.calls, p.generation) >= p.maxConcurrent)
            && (answer != Failure(TooManyConcurrent) && answer != Failure(TooManyTracked) ==>
                  answer == if cooling then Failure(CoolingDown) else if spent then Failure(QuotaSpent)
                            else Success(Permit(domain, p.generation)))
            && (IsAllowed(p, domain, now) <==> !cooling && !spent)
  {
    var s := Trace(clock, events);
    TraceOk(clock, events);
    TraceIsRun(clock, events);
    TraceSeen(clock, events);
    PairLater(s, now);
    LaterSeen(s.ideal, s.admissions, s.marks, s.clock, now);
    PruningIsInvisible(clock, events, domain, now);
    IdealExact(s, domain, now);
    AllowedByRecord(s.ideal, domain, now);
    AnswerOf(s.actual.policy, s.ideal, domain, now);
  }

  lemma AnswerOf(p: Policy, ideal: Policy, domain: string, now: real)
    requires SameSettings(p, ideal)
    requires Admit(p, domain, now).1 == Failure(TooManyTracked) || Admit(p, domain, now).1 == IdealAdmit(ideal, domain, now).1
    ensures var r, answer := Charged(ideal, domain, now), Admit(p, domain, now).1;
            && (answer == Failure(TooManyConcurrent) <==> p.maxConcurrent > 0 && p.active >= p.maxConcurrent)
            && (answer != Failure(TooManyConcurrent) && answer != Failure(TooManyTracked) ==>
                  answer == if Cooling(ideal, r, now) then Failure(CoolingDown) else if Spent(ideal, r) then Failure(QuotaSpent)
                            else Success(Permit(domain, p.generation)))
  {
  }

  // ---- Exactly when there is no room ----

  predicate Within(p: Policy, age: real) { age <= p.window || age <= p.cooldown || age <= 60.0 }

  /** A permit of the domain is out, or its window or failure is as young as the window, the cooldown or a minute;
      a failure that never was counts as one at time zero. */
  predicate Needed(p: Policy, r: Record, now: real) {
    || r.active > 0
    || Within(p, now - r.windowStart)
    || Within(p, now - if r.failedAt.Some? then r.failedAt.value else 0.0)
  }

  function NeededDomains(p: Policy, now: real): set<string> { set d | d in p.records && Needed(p, p.records[d], now) }

  lemma NeededIsFresh(p: Policy, r: Record, now: real)
    ensures Needed(p, r, now) <==> !Stale(p, r, now)
  {
  }

  lemma PrunedToNeeded(p: Policy, now: real)
    ensures Pruned(p, now, true).records.Keys == NeededDomains(p, now)
    ensures NeededDomains(p, now) <= Pruned(p, now, false).records.Keys
    ensures NeededDomains(Pruned(p, now, false), now) == NeededDomains(p, now)
  {
    forall d | d in p.records ensures Needed(p, p.records[d], now) <==> !Stale(p, p.records[d], now) {
      NeededIsFresh(p, p.records[d], now);
    }
  }

  lemma CapacityAt(p: Policy, domain: string, now: real)
    requires domain !in p.records
    ensures Admit(p, domain, now).1 == Failure(TooManyTracked)
       <==> !(p.maxConcurrent > 0 && p.active >= p.maxConcurrent) && |NeededDomains(p, now)| >= MAX_TRACKED_DOMAINS
  {
    var q := Pruned(p, now, false);
    PrunedToNeeded(p, now);
    PrunedToNeeded(q, now);
    SubsetCardinality(NeededDomains(p, now), q.records.Keys);
    assert |q.records| == |q.records.Keys|;
    assert |Pruned(q, now, true).records| == |Pruned(q, now, true).records.Keys|;
  }

  /** A tracked domain always has its place, even when its own record is pruned on the way in. */
  lemma TrackedHasRoom(p: Policy, domain: string, now: real)
    requires domain in p.records && |p.records| <= MAX_TRACKED_DOMAINS
    ensures Admit(p, domain, now).1 != Failure(TooManyTracked)
  {
    var q := Pruned(p, now, false);
    if domain !in q.records {
      SubsetCardinality(q.records.Keys, p.records.Keys - {domain});
      assert |q.records| == |q.records.Keys| && |p.records| == |p.records.Keys|;
    }
  }

  /** A domain is turned away for want of room exactly when it is not tracked, the concurrency maximum does not
      refuse it first, and 10,000 tracked domains are each still needed. */
  lemma CapacityExact(events: seq<Event>, domain: string, now: real)
    requires Interleaving(events)
    ensures var system := Run(events);
            var p := system.policy;
            Admit(p, domain, now).1 == Failure(TooManyTracked)
            <==> && domain !in p.records && |NeededDomains(p, now)| >= MAX_TRACKED_DOMAINS
                 && !(p.maxConcurrent > 0 && Outstanding(system.calls, p.generation) >= p.maxConcurrent)
  {
    PermitsConserved(events);
    var p := Run(events).policy;
    if domain in p.records { TrackedHasRoom(p, domain, now); } else { CapacityAt(p, domain, now); }
  }
}
