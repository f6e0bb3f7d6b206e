/** The policy object and the client that runs one fetch behind one permit, as the code has them:
    fields updated in place, records edited one at a time. */
module ProofFetch {
  import opened Basics
  import opened ProofPolicy

  /** The stale domains that are not in `todo`. */
  ghost function StaleBut(p: Policy, todo: set<string>, now: real): set<string> {
    set d | d in p.records && d !in todo && Stale(p, p.records[d], now)
  }

  lemma StaleButLess(p: Policy, todo: set<string>, d: string, now: real)
    requires d in todo && d in p.records
    ensures StaleBut(p, todo - {d}, now) == StaleBut(p, todo, now) + if Stale(p, p.records[d], now) then {d} else {}
  {
  }

  class ProofFetchPolicy {
    var records: map<string, Record>
    var maxConcurrentFetches: int
    var activeFetches: nat
    var failureCooldownSeconds: real
    var quota: int
    var quotaWindowSeconds: real
    var lastPruned: real
    var generation: nat

    ghost function Snapshot(): Policy
      reads this
    {
      Policy(records, maxConcurrentFetches, activeFetches, failureCooldownSeconds, quota, quotaWindowSeconds,
             lastPruned, generation)
    }

    constructor ()
      ensures Snapshot() == NEW_POLICY
    {
      records, maxConcurrentFetches, activeFetches := map[], 0, 0;
      failureCooldownSeconds, quota, quotaWindowSeconds := 0.0, 0, 60.0;
      lastPruned, generation := 0.0, 0;
    }

    method Configure(cooldown: real, quota: int, window: real, maxConcurrent: int)
      modifies this
      ensures Snapshot() == old(Snapshot()).(cooldown := cooldown, quota := quota, window := window, maxConcurrent := maxConcurrent)
    {
      failureCooldownSeconds := cooldown;
      this.quota := quota;
      quotaWindowSeconds := window;
      maxConcurrentFetches := maxConcurrent;
    }

    /** The domains whose records may be dropped. */
    method StaleDomains(now: real) returns (stale: set<string>)
      ensures stale == StaleBut(Snapshot(), {}, now)
    {
      var retention := quotaWindowSeconds;
      if retention < failureCooldownSeconds { retention := failureCooldownSeconds; }
      if retention < 60.0 { retention := 60.0; }
      stale := {};
      var todo := records.Keys;
      while todo != {}
        invariant todo <= records.Keys
        invariant stale == StaleBut(Snapshot(), todo, now)
        decreases |todo|
      {
        var d :| d in todo;
        StaleButLess(Snapshot(), todo, d, now);
        var r := records[d];
        var newest := if r.failedAt.Some? then r.failedAt.value else 0.0;
        if newest < r.windowStart { newest := r.windowStart; }
        if r.active == 0 && now - newest > retention { stale := stale + {d}; }
        todo := todo - {d};
      }
    }

    method PruneLocked(now: real, force: bool)
      modifies this
      ensures Snapshot() == Pruned(old(Snapshot()), now, force)
    {
      if !force && now - lastPruned < PRUNE_INTERVAL { return; }
      lastPruned := now;
      var stale := StaleDomains(now);
      var todo := stale;
      while todo != {}
        invariant todo <= stale && records == old(records) - (stale - todo)
        invariant Snapshot() == old(Snapshot()).(lastPruned := now, records := records)
        decreases |todo|
      {
        var d :| d in todo;
        records := records - {d};
        todo := todo - {d};
      }
    }

    /** Fails when every tracked record is still needed. */
    method MakeRecordRoomLocked(now: real) returns (ok: bool)
      modifies this
      ensures Snapshot() == MakeRoom(old(Snapshot()), now)
      ensures ok <==> |records| < MAX_TRACKED_DOMAINS
    {
      if |records| < MAX_TRACKED_DOMAINS { return true; }
      PruneLocked(now, true);
      return |records| < MAX_TRACKED_DOMAINS;
    }

    /** The record to charge: the domain's own, its window restarted if it is over, or a new one. */
    method RecordFor(domain: string, now: real) returns (ok: bool)
      modifies this
      ensures var p := old(Snapshot());
              var room := if domain in p.records then p else MakeRoom(p, now);
              && (ok <==> domain in p.records || |room.records| < MAX_TRACKED_DOMAINS)
              && Snapshot() ==
                 if domain in p.records then p.(records := p.records[domain := Windowed(p, p.records[domain], now)])
                 else if ok then room.(records := room.records[domain := Record(None, now, 0, 0)])
                 else room
    {
      if domain !in records {
        ok := MakeRecordRoomLocked(now);
        if ok { records := records[domain := Record(None, now, 0, 0)]; }
        return;
      }
      var r := records[domain];
      if now - r.windowStart >= quotaWindowSeconds {
        r := r.(windowStart := now);
        r := r.(count := 0);
      }
      records := records[domain := r];
      ok := true;
    }

    method Admit(domain: string, now: real) returns (result: Result<Permit, Refusal>)
      modifies this
      ensures (Snapshot(), result) == ProofPolicy.Admit(old(Snapshot()), domain, now)
    {
      if maxConcurrentFetches > 0 && activeFetches >= maxConcurrentFetches { return Failure(TooManyConcurrent); }
      PruneLocked(now, false);
      ghost var pruned := Snapshot();
      var ok := RecordFor(domain, now);
      if !ok { return Failure(TooManyTracked); }
      var r := records[domain];
      if failureCooldownSeconds > 0.0 && r.failedAt.Some? && now - r.failedAt.value < failureCooldownSeconds {
        return Failure(CoolingDown);
      }
      if quota > 0 && r.count >= quota { return Failure(QuotaSpent); }
      ghost var room := if domain in pruned.records then pruned else MakeRoom(pruned, now);
      UpdateTwice(room.records, domain, r, r.(count := r.count + 1, active := r.active + 1));
      r := r.(count := r.count + 1);
      r := r.(active := r.active + 1);
      records := records[domain := r];
      activeFetches := activeFetches + 1;
      result := Success(Permit(domain, generation));
    }

    method MarkFailed(permit: Permit, now: real)
      modifies this
      ensures Snapshot() == ProofPolicy.MarkFailed(old(Snapshot()), permit, now)
    {
      if permit.generation != generation { return; }
      if permit.domain in records {
        records := records[permit.domain := records[permit.domain].(failedAt := Some(now))];
        PruneLocked(now, false);
      }
    }

    method Release(permit: Permit) returns (error: Option<ReleaseError>)
      modifies this
      ensures match ProofPolicy.Release(old(Snapshot()), permit)
              case Success(p) => error == None && Snapshot() == p
              case Failure(e) => error == Some(e) && Snapshot() == old(Snapshot())
    {
      if permit.generation != generation { return None; }
      if activeFetches <= 0 { return Some(ReleasedTwice); }
      if permit.domain !in records || records[permit.domain].active <= 0 { return Some(NoDomainRecord); }
      var r := records[permit.domain];
      records := records[permit.domain := r.(active := r.active - 1)];
      activeFetches := activeFetches - 1;
      error := None;
    }

    method IsAllowedNow(domain: string, now: real) returns (allowed: bool)
      ensures allowed <==> IsAllowed(Snapshot(), domain, now)
    {
      if domain !in records { return true; }
      var r := records[domain];
      if failureCooldownSeconds > 0.0 && r.failedAt.Some? && now - r.failedAt.value < failureCooldownSeconds { return false; }
      if quota > 0 && now - r.windowStart < quotaWindowSeconds && r.count >= quota { return false; }
      return true;
    }

    method Reset()
      modifies this
      ensures Snapshot() == ProofPolicy.Reset(old(Snapshot()))
    {
      records := map[];
      maxConcurrentFetches := 0;
      activeFetches := 0;
      lastPruned := 0.0;
      generation := generation + 1;
    }
  }

  // ---- The process ----

  predicate ArePermits(permits: seq<Permit>, calls: seq<Call>) {
    |permits| == |calls| && forall i | 0 <= i < |calls| :: permits[i] == calls[i].permit
  }

  /** The events of an admitted request from when it next takes the lock until it returns; `late` is what other
      threads do between the mark and the release of a request that has failed. */
  function Timeline(worker: Worker, call: nat, now: real, late: seq<Event>): seq<Event> {
    match worker
    case Returns => [ERelease(call)]
    case TimesOut => [EFail(call, now)]
    case _ => [EFail(call, now)] + late + [ERelease(call)]
  }

  lemma TimelineEvents(events: seq<Event>, call: nat, now: real, late: seq<Event>)
    ensures events + Timeline(Raises, call, now, late) == events + [EFail(call, now)] + late + [ERelease(call)]
    ensures events + Timeline(Returns, call, now, late) == events + [ERelease(call)]
    ensures CallEvents(Raises, call, now) == [] + [EFail(call, now)] + [ERelease(call)]
    ensures CallEvents(Returns, call, now) == [] + [ERelease(call)]
  {
  }

  /** A call that has done nothing yet may fail. */
  lemma MarkDue(events: seq<Event>, call: nat, now: real)
    requires call < |Run(events).calls| && Own(events, call) == []
    ensures Enabled(events, EFail(call, now))
  {
    assert Own(events, call) + [EFail(call, now)] <= CallEvents(Raises, call, now);
  }

  /** A call that has at most failed may release its permit. */
  lemma ReleaseDue(events: seq<Event>, call: nat, now: real)
    requires call < |Run(events).calls| && (Own(events, call) == [] || Own(events, call) == [EFail(call, now)])
    ensures Enabled(events, ERelease(call))
  {
    var worker := if Own(events, call) == [] then Returns else Raises;
    assert Own(events, call) + [ERelease(call)] <= CallEvents(worker, call, now);
  }

  /** A call that has just been admitted has done nothing else. */
  lemma JustAdmitted(events: seq<Event>, domain: string, now: real)
    requires Interleaving(events)
    ensures var i := |Run(events).calls|;
            Interleaving(events + [EAdmit(domain, now)]) && Own(events + [EAdmit(domain, now)], i) == []
  {
    var i := |Run(events).calls|;
    CallsAccounted(events);
    assert Accounted(Run(events).calls, Own(events, i), i);
    RunSnoc(events, EAdmit(domain, now));
    OwnSnoc(events, EAdmit(domain, now), i);
  }

  /** The module's one policy, the permits its calls were given, and all that its threads have done to it. */
  class Process {
    const policy: ProofFetchPolicy
    var permits: seq<Permit>
    ghost var events: seq<Event>

    ghost predicate Valid()
      reads this, policy
    {
      && Interleaving(events)
      && policy.Snapshot() == Run(events).policy
      && ArePermits(permits, Run(events).calls)
    }

    constructor ()
      ensures Valid() && fresh(policy) && events == []
    {
      policy := new ProofFetchPolicy();
      permits, events := [], [];
    }

    /** One admission by any thread. */
    method Enter(domain: string, now: real) returns (admitted: Result<Permit, Refusal>)
      requires Valid()
      modifies this, policy
      ensures Valid() && events == old(events) + [EAdmit(domain, now)]
      ensures admitted == Admit(old(policy.Snapshot()), domain, now).1
      ensures |permits| == |old(permits)| + if admitted.Success? then 1 else 0
    {
      RunSnoc(events, EAdmit(domain, now));
      admitted := policy.Admit(domain, now);
      if admitted.Success? { permits := permits + [admitted.value]; }
      events := events + [EAdmit(domain, now)];
    }

    method Mark(call: nat, now: real)
      requires Valid() && Enabled(events, EFail(call, now))
      modifies this, policy
      ensures Valid() && events == old(events) + [EFail(call, now)] && permits == old(permits)
      ensures Own(events, call) == old(Own(events, call)) + [EFail(call, now)]
    {
      RunSnoc(events, EFail(call, now));
      OwnSnoc(events, EFail(call, now), call);
      policy.MarkFailed(permits[call], now);
      events := events + [EFail(call, now)];
    }

    /** A release that is due makes no error. */
    method GiveBack(call: nat) returns (error: Option<ReleaseError>)
      requires Valid() && Enabled(events, ERelease(call))
      modifies this, policy
      ensures Valid() && events == old(events) + [ERelease(call)] && permits == old(permits) && error == None
      ensures Own(events, call) == old(Own(events, call)) + [ERelease(call)]
    {
      RunSnoc(events, ERelease(call));
      OwnSnoc(events, ERelease(call), call);
      PermitsConserved(events + [ERelease(call)]);
      error := policy.Release(permits[call]);
      events := events + [ERelease(call)];
    }

    /** Whatever a thread does the next time it takes the lock. */
    method Perform(e: Event)
      requires Valid() && Enabled(events, e)
      modifies this, policy
      ensures Valid() && events == old(events) + [e] && |old(permits)| <= |permits|
    {
      match e {
        case EAdmit(domain, now) => var _ := Enter(domain, now);
        case EFail(call, now) => Mark(call, now);
        case ERelease(call) => var _ := GiveBack(call);
        case EReset =>
          RunSnoc(events, e);
          policy.Reset();
          events := events + [e];
        case EConfigure(cooldown, quota, window, maxConcurrent) =>
          RunSnoc(events, e);
          policy.Configure(cooldown, quota, window, maxConcurrent);
          events := events + [e];
      }
    }

    /** What the other threads do until call `me` next takes the lock. */
    method Others(gap: seq<Event>, ghost me: nat)
      requires Valid() && Between(events, gap, me)
      modifies this, policy
      ensures Valid() && events == old(events) + gap && |old(permits)| <= |permits|
      ensures Own(events, me) == old(Own(events, me))
      decreases |gap|
    {
      GapUnfolds(events, gap);
      if |gap| > 0 {
        Others(gap[..|gap| - 1], me);
        OtherLeavesCall(events, gap[|gap| - 1], me);
        Perform(gap[|gap| - 1]);
      }
    }

    /** Marks, lets the others in, and releases. */
    method Finish(call: nat, failed: bool, now: real, gap: seq<Event>) returns (error: Option<ReleaseError>)
      requires Valid() && call < |permits| && Own(events, call) == []
      requires failed ==> Between(events + [EFail(call, now)], gap, call)
      modifies this, policy
      ensures Valid() && error == None && call < |permits|
      ensures events == old(events) + Timeline(if failed then Raises else Returns, call, now, gap)
      ensures Own(events, call) == CallEvents(if failed then Raises else Returns, call, now)
    {
      TimelineEvents(events, call, now, gap);
      if failed {
        MarkDue(events, call, now);
        Mark(call, now);
        Others(gap, call);
      }
      ReleaseDue(events, call, now);
      error := GiveBack(call);
    }

    /** Starts the worker and waits for it. `now` is the time of the failure, if there is one; `owed` is the call
        whose permit the worker still holds when the request returns. */
    method Await(call: nat, worker: Worker, now: real, late: seq<Event>) returns (owed: Option<nat>, error: Option<ReleaseError>)
      requires Valid() && call < |permits| && Own(events, call) == []
      requires worker.CannotStart? || worker.Raises? ==> Between(events + [EFail(call, now)], late, call)
      modifies this, policy
      ensures Valid() && error == None && call < |permits|
      ensures events == old(events) + Timeline(worker, call, now, late)
      ensures Own(events, call) == RequestEvents(worker, call, now)
      ensures owed == if worker.TimesOut? then Some(call) else None
    {
      owed, error := None, None;
      if worker.CannotStart? {
        error := Finish(call, true, now, late);
        return;
      }
      var releaseOnReturn, failed := true, true;
      if worker.Returns? {
        failed := false;
      } else if worker.TimesOut? {
        MarkDue(events, call, now);
        Mark(call, now);
        owed := Some(call);
        releaseOnReturn := false;
      }
      if releaseOnReturn { error := Finish(call, failed, now, late); }
    }

    /** One request behind one permit, with any other threads taking the lock before each of its own turns:
        it has released its permit once when it returns, or, timed out, left exactly that release to its worker. */
    method RunBounded(domain: string, worker: Worker, start: real, now: real, early: seq<Event>, late: seq<Event>)
      returns (admitted: Result<Permit, Refusal>, owed: Option<nat>, error: Option<ReleaseError>)
      requires Valid()
      requires Between(events + [EAdmit(domain, start)], early, |permits|)
      requires worker.CannotStart? || worker.Raises? ==>
                 Between(events + [EAdmit(domain, start)] + early + [EFail(|permits|, now)], late, |permits|)
      modifies this, policy
      ensures Valid() && error == None
      ensures admitted == Admit(old(policy.Snapshot()), domain, start).1
      ensures admitted.Failure? ==> events == old(events) + [EAdmit(domain, start)] && owed == None
      ensures admitted.Success? ==>
                var i := |old(permits)|;
                && events == old(events) + [EAdmit(domain, start)] + early + Timeline(worker, i, now, late)
                && Own(events, i) == RequestEvents(worker, i, now)
                && (EFail(i, now) in Own(events, i) <==> !worker.Returns?)
                && (owed == if worker.TimesOut? then Some(i) else None)
                && i < |permits| && Run(events).calls[i].releases == if worker.TimesOut? then 0 else 1
    {
      var call := |permits|;
      JustAdmitted(events, domain, start);
      admitted := Enter(domain, start);
      if admitted.Failure? { return admitted, None, None; }
      Others(early, call);
      owed, error := Await(call, worker, now, late);
      ReleasedExactlyOnce(events, call, worker, now);
    }

    /** The release a timed-out request leaves behind, whenever its worker is done with it. */
    method WorkerExit(call: nat, ghost now: real) returns (error: Option<ReleaseError>)
      requires Valid() && call < |permits| && Own(events, call) == RequestEvents(TimesOut, call, now)
      modifies this, policy
      ensures Valid() && error == None && call < |permits|
      ensures events == old(events) + [ERelease(call)] && Own(events, call) == CallEvents(TimesOut, call, now)
      ensures Run(events).calls[call].releases == 1
    {
      ReleaseDue(events, call, now);
      error := GiveBack(call);
      ReleasedExactlyOnce(events, call, TimesOut, now);
    }
  }
}
