/** What the other requests are answered: asset-scoped admin actions, migration, deletion, registration. */
module RegistryAdminAnswers {
  import opened Basics
  import opened RegistryModel
  import opened RegistrySteps
  import opened AssetHistory
  import opened RegistryInvariants
  import opened RegistryIcons
  import opened RegistryTheorems
  import opened RegistryFolds
  import opened RegistryAuthority
  import opened RegistryAnswers
  import Admin = AdminGovernance

  // ---- Every asset-scoped admin action ----

  /** Nothing the key has signed before, in either log, has a later time. */
  predicate AdminNotOlder(s: Db, key: Pubkey, timestamp: int) {
    && (forall f | f in s.admin.log && f.action.actor == key :: f.action.timestamp <= timestamp)
    && (forall e | e in s.log && e.actor == AdminActor && e.key == Some(key) && e.timestamp.Some? :: e.timestamp.value <= timestamp)
  }

  function VerifyAnswer(env: Env, s: Db, action: AdminAction, signature: Signature, now: int, window: int): Option<Error> {
    if !env.verifyAdmin(action.actor, signature, action) then Some(InvalidSignature)
    else if !(action.actor in s.admin.keys && s.admin.keys[action.actor].active) then Some(Forbidden)
    else if FindAdminNonce(s.log, action.actor, action.nonce).None?
            && !(InWindow(action.timestamp, now, window) && AdminNotOlder(s, action.actor, action.timestamp)) then
      Some(StaleTimestamp)
    else None
  }

  function AdminAnswer(
    env: Env, s: Db, url: string, action: AdminAction, signature: Signature, now: int, window: int): Option<Error>
  {
    var refused := VerifyAnswer(env, s, action, signature, now, window);
    if refused.Some? then refused
    else if action.assetId != url then Some(AssetIdMismatch)
    else if !HoldsRight(s.admin, action.actor, RightFor(action.op)) then Some(Forbidden)
    else if FindActive(s.assets, url).None? then Some(AssetNotFound)
    else None
  }

  lemma {:induction false} LifecycleTimeAttained(log: seq<Admin.AdminEntry>, key: Pubkey)
    requires Admin.LatestLifecycleTime(log, key).Some?
    ensures exists f :: f in log && f.action.actor == key && Some(f.action.timestamp) == Admin.LatestLifecycleTime(log, key)
  {
    var rest, last := Admin.LatestLifecycleTime(log[..|log| - 1], key), log[|log| - 1];
    assert last in log;
    if Admin.LatestLifecycleTime(log, key) == rest {
      LifecycleTimeAttained(log[..|log| - 1], key);
      var f :| f in log[..|log| - 1] && f.action.actor == key && Some(f.action.timestamp) == rest;
      assert f in log;
    }
  }

  lemma {:induction false} AssetTimeAttained(log: seq<Entry>, key: Pubkey)
    requires LatestAdminAssetTime(log, key).Some?
    ensures exists e :: e in log && e.actor == AdminActor && e.key == Some(key) && e.timestamp == LatestAdminAssetTime(log, key)
  {
    var rest, last := LatestAdminAssetTime(log[..|log| - 1], key), log[|log| - 1];
    assert last in log;
    if LatestAdminAssetTime(log, key) == rest {
      AssetTimeAttained(log[..|log| - 1], key);
      var e :| e in log[..|log| - 1] && e.actor == AdminActor && e.key == Some(key) && e.timestamp == rest;
      assert e in log;
    }
  }

  lemma FreshMeansNotOlder(s: Db, key: Pubkey, timestamp: int, now: int, window: int)
    ensures Admin.AdminFresh(s.admin.log, key, timestamp, LatestAdminAssetTime(s.log, key), now, window)
       <==> InWindow(timestamp, now, window) && AdminNotOlder(s, key, timestamp)
  {
    var lifecycle, asset := Admin.LatestLifecycleTime(s.admin.log, key), LatestAdminAssetTime(s.log, key);
    if lifecycle.Some? { LifecycleTimeAttained(s.admin.log, key); }
    if asset.Some? { AssetTimeAttained(s.log, key); }
  }

  lemma VerifyExact(env: Env, s: Db, action: AdminAction, signature: Signature, now: int, window: int)
    ensures VerifyAdmin(env, s, action, signature, now, window) == VerifyAnswer(env, s, action, signature, now, window)
  {
    hide AdminNotOlder, InWindow, Admin.AdminFresh, FindAdminNonce, LatestAdminAssetTime;
    FreshMeansNotOlder(s, action.actor, action.timestamp, now, window);
  }

  lemma AdminExact(env: Env, s: Db, url: string, action: AdminAction, signature: Signature, right: Admin.Permission, now: int, window: int)
    requires right == RightFor(action.op)
    ensures var gate, target := AdminGate(env, s, url, action, signature, right, now, window), FindTarget(s, url);
            AdminAnswer(env, s, url, action, signature, now, window)
            == if gate.Some? then gate else if target.Stop? then Some(AssetNotFound) else None
    ensures FindActive(s.assets, url).Some? ==> FindTarget(s, url) == Go(FindActive(s.assets, url).value)
    ensures FindActive(s.assets, url).None? ==> FindTarget(s, url) == Stop(Rejected(AssetNotFound))
  {
    hide VerifyAdmin, VerifyAnswer, FindActive;
    VerifyExact(env, s, action, signature, now, window);
    if VerifyAnswer(env, s, action, signature, now, window).None? { VerifiedIsActive(env, s, action, signature, now, window); }
  }

  lemma VerifiedIsActive(env: Env, s: Db, action: AdminAction, signature: Signature, now: int, window: int)
    requires VerifyAnswer(env, s, action, signature, now, window).None?
    ensures action.actor in s.admin.keys && s.admin.keys[action.actor].active
  {
  }

  /** The row an applied admin action adds to the log. */
  function AdminRow(s: Db, u: Uuid, action: AdminAction, signature: Signature): Entry {
    Entry(s.nextSequence, u, AdminActor, PAdmin(action), None, Some(action.nonce), Some(action.timestamp),
          Some(action.actor), Some(signature))
  }

  // ---- Icon decisions ----

  predicate WaitsWith(p: Proposal, u: Uuid, hash: Hash) {
    p.asset == u && p.hash == hash && p.status == Pending && p.obsoletedBy.None?
  }

  predicate SomeWaitsWith(proposals: seq<Proposal>, u: Uuid, hash: Hash) {
    exists p | p in proposals :: WaitsWith(p, u, hash)
  }

  /** The newest proposal of the hash is decided. */
  predicate NewestDecided(proposals: seq<Proposal>, u: Uuid, hash: Hash) {
    exists i | 0 <= i < |proposals| ::
      && proposals[i].asset == u && proposals[i].hash == hash && proposals[i].status != Pending
      && forall j | i < j < |proposals| :: !(proposals[j].asset == u && proposals[j].hash == hash)
  }

  /** What a decision is answered; None when it is applied. */
  function DecisionAnswer(
    env: Env, s: Db, url: string, action: AdminAction, signature: Signature, now: int, window: int): Option<Error>
  {
    if !action.op.ApproveIcon? && !action.op.RejectIcon? then Some(ValidationError)
    else if AdminAnswer(env, s, url, action, signature, now, window).Some? then
      AdminAnswer(env, s, url, action, signature, now, window)
    else
      var u, used := FindActive(s.assets, url).value, FindAdminNonce(s.log, action.actor, action.nonce);
      if used.Some? && used.value.payload != PAdmin(action) then Some(NonceConflict)
      else if SomeWaitsWith(s.proposals, u, action.op.hash) then if used.Some? then Some(IconAlreadyDecided) else None
      else if NewestDecided(s.proposals, u, action.op.hash) then Some(IconAlreadyDecided)
      else Some(IconProposalNotFound)
  }

  lemma {:induction false} LastIsNewest(proposals: seq<Proposal>, q: IconQuery)
    ensures var found := LastProposal(proposals, q);
            found.Some? ==> forall j | found.value < j < |proposals| :: !Selects(q, proposals[j])
  {
    if |proposals| > 0 && !Selects(q, proposals[|proposals| - 1]) { LastIsNewest(proposals[..|proposals| - 1], q); }
  }

  lemma WaitingFound(proposals: seq<Proposal>, u: Uuid, hash: Hash)
    ensures LastProposal(proposals, WaitingWithHash(u, hash)).Some? <==> SomeWaitsWith(proposals, u, hash)
  {
    var found := LastProposal(proposals, WaitingWithHash(u, hash));
    if found.Some? { assert proposals[found.value] in proposals; }
  }

  lemma DecidedFound(proposals: seq<Proposal>, u: Uuid, hash: Hash)
    ensures var found := LastProposal(proposals, WithHash(u, hash));
            found.Some? && proposals[found.value].status != Pending <==> NewestDecided(proposals, u, hash)
  {
    var found := LastProposal(proposals, WithHash(u, hash));
    LastIsNewest(proposals, WithHash(u, hash));
    if NewestDecided(proposals, u, hash) {
      var i :| 0 <= i < |proposals|
        && proposals[i].asset == u && proposals[i].hash == hash && proposals[i].status != Pending
        && forall j | i < j < |proposals| :: !(proposals[j].asset == u && proposals[j].hash == hash);
      assert proposals[i] in proposals;
      assert Selects(WithHash(u, hash), proposals[i]) && Selects(WithHash(u, hash), proposals[found.value]);
    }
  }

  lemma OutcomeAnswer(s: Db, u: Uuid, action: AdminAction)
    requires action.op.ApproveIcon? || action.op.RejectIcon?
    ensures var used := FindAdminNonce(s.log, action.actor, action.nonce);
            DecisionOutcome(s, u, action.op.hash, ReplayAdmin(s, action))
            == if used.Some? && used.value.payload != PAdmin(action) then Some(Rejected(NonceConflict))
               else if SomeWaitsWith(s.proposals, u, action.op.hash) then
                 if used.Some? then Some(Rejected(IconAlreadyDecided)) else None
               else if NewestDecided(s.proposals, u, action.op.hash) then Some(Rejected(IconAlreadyDecided))
               else Some(Rejected(IconProposalNotFound))
  {
    hide LastProposal, SomeWaitsWith, NewestDecided;
    WaitingFound(s.proposals, u, action.op.hash);
    DecidedFound(s.proposals, u, action.op.hash);
  }

  /** One waiting proposal of the hash, and no other, is decided as asked: approved with its bytes and made the icon, or
      rejected and without them. */
  ghost predicate DecidesOne(
    before: seq<Proposal>, after: seq<Proposal>, icon: Option<nat>, newIcon: Option<nat>, u: Uuid, op: AdminOp, sequence: nat)
    requires op.ApproveIcon? || op.RejectIcon?
  {
    exists i | 0 <= i < |before| ::
      && WaitsWith(before[i], u, op.hash) && newIcon == (if op.ApproveIcon? then Some(i) else icon)
      && after == before[i := before[i].(status := if op.ApproveIcon? then Approved else IconRejected,
                                         image := if op.ApproveIcon? then before[i].image else None,
                                         decidedBy := Some(sequence))]
  }

  lemma DecisionStores(s: Db, u: Uuid, action: AdminAction, signature: Signature, now: int)
    requires u < |s.assets| && IsDecision(action.op) && SomeWaitsWith(s.proposals, u, action.op.hash)
    ensures var found := LastProposal(s.proposals, WaitingWithHash(u, action.op.hash));
            && found.Some?
            && var r := CommitDecision(s, u, found.value, action, signature, now);
               && r.1 == Applied(AdminRow(s, u, action, signature)) && |r.0.assets| == |s.assets|
               && DecidesOne(s.proposals, r.0.proposals, s.assets[u].icon, r.0.assets[u].icon, u, action.op, s.nextSequence)
  {
    hide FreshFragment, LogOf;
    WaitingFound(s.proposals, u, action.op.hash);
  }

  lemma DecisionGateAnswer(env: Env, s: Db, url: string, action: AdminAction, signature: Signature, now: int, window: int)
    ensures var answer := DecisionAnswer(env, s, url, action, signature, now, window);
            DecisionGate(env, s, url, action, signature, now, window)
            == if answer.Some? then Stop(Rejected(answer.value)) else Go(FindActive(s.assets, url).value)
    ensures DecisionAnswer(env, s, url, action, signature, now, window).None? ==>
              && FindActive(s.assets, url).Some? && IsDecision(action.op)
              && SomeWaitsWith(s.proposals, FindActive(s.assets, url).value, action.op.hash)
  {
    hide AdminGate, FindTarget, DecisionOutcome, ReplayAdmin, AdminAnswer, FindActive, FindAdminNonce, SomeWaitsWith, NewestDecided;
    if IsDecision(action.op) {
      AdminExact(env, s, url, action, signature, Admin.ReviewIcons, now, window);
      if AdminAnswer(env, s, url, action, signature, now, window).None? { OutcomeAnswer(s, FindTarget(s, url).uuid, action); }
    }
  }

  /** In every state, an icon decision is answered as the tables say, refusals in their order, and applied exactly
      when the signature verifies under an active key that may review icons, the time is right, the nonce is unused
      and a proposal of that hash waits; then that one is decided as asked. */
  lemma DecisionAnswerExact(env: Env, s: Db, url: string, action: AdminAction, signature: Signature, now: int, window: int)
    ensures var r, answer := DecideIconProposal(env, s, url, action, signature, now, window),
                             DecisionAnswer(env, s, url, action, signature, now, window);
            if answer.Some? then r == (s, Rejected(answer.value))
            else
              var u := FindActive(s.assets, url).value;
              && r.1 == Applied(AdminRow(s, u, action, signature))
              && (action.op.ApproveIcon? || action.op.RejectIcon?) && u < |r.0.assets|
              && DecidesOne(s.proposals, r.0.proposals, s.assets[u].icon, r.0.assets[u].icon, u, action.op, s.nextSequence)
  {
    hide DecisionGate, DecisionAnswer, FindActive, CommitDecision, SomeWaitsWith, DecidesOne;
    DecisionGateAnswer(env, s, url, action, signature, now, window);
    if DecisionAnswer(env, s, url, action, signature, now, window).None? {
      DecisionStores(s, FindActive(s.assets, url).value, action, signature, now);
    }
  }

  // ---- Admin uploads ----

  /** An upload of these bytes that may be used again: undecided or approved, current, and with its bytes. */
  predicate MayReuse(p: Proposal, u: Uuid, hash: Hash) {
    && p.asset == u && p.hash == hash && p.obsoletedBy.None? && p.image.Some? && (p.status == Pending || p.status == Approved)
  }

  /** The uploads that may be used again have the bytes sent, as they must unless two images share a hash. */
  predicate SameBytes(proposals: seq<Proposal>, u: Uuid, hash: Hash, image: Option<Bytes>) {
    forall p | p in proposals && MayReuse(p, u, hash) :: p.image == image
  }

  lemma SharedHashOrSameBytes(env: Env, s: Db, u: Uuid, hash: Hash, image: Bytes)
    requires ProposalsOk(env, s.proposals, |s.assets|) && env.imageHash(image) == hash
    ensures SameBytes(s.proposals, u, hash, Some(image))
         || exists other :: other != image && env.imageHash(other) == env.imageHash(image)
  {
    if !SameBytes(s.proposals, u, hash, Some(image)) {
      var p :| p in s.proposals && MayReuse(p, u, hash) && p.image != Some(image);
      var i :| 0 <= i < |s.proposals| && s.proposals[i] == p;
      assert ProposalOk(env, s.proposals[i], |s.assets|);
      assert p.image.value != image && env.imageHash(p.image.value) == env.imageHash(image);
    }
  }

  /** What an upload is answered, if no other image shares its hash; an applied upload is a retry's entry or none. */
  function UploadAnswer(
    env: Env, s: Db, url: string, action: AdminAction, image: Option<Bytes>, signature: Signature, now: int, window: int)
    : Option<Outcome>
  {
    if !action.op.SetIcon? then Some(Rejected(ValidationError))
    else if ImageAnswer(env, image, action.op.hash).Some? then Some(Rejected(ImageAnswer(env, image, action.op.hash).value))
    else if action.assetId != url then Some(Rejected(AssetIdMismatch))
    else if AdminAnswer(env, s, url, action, signature, now, window).Some? then
      Some(Rejected(AdminAnswer(env, s, url, action, signature, now, window).value))
    else
      var u, used := FindActive(s.assets, url).value, FindAdminNonce(s.log, action.actor, action.nonce);
      if used.Some? then
        Some(if used.value.payload == PAdmin(action) then Retry(used.value) else Rejected(NonceConflict))
      else if Curate(LogOf(s.log, u)).icon == Some(action.op.hash) then Some(Rejected(NoOpAction))
      else None
  }

  lemma ReusedHasBytes(s: Db, u: Uuid, hash: Hash, image: Option<Bytes>)
    requires SameBytes(s.proposals, u, hash, image)
    ensures var reuse := ReusableProposal(s, u, hash); reuse.Some? ==> s.proposals[reuse.value].image == image
  {
    var reuse := ReusableProposal(s, u, hash);
    if reuse.Some? { assert s.proposals[reuse.value] in s.proposals && MayReuse(s.proposals[reuse.value], u, hash); }
  }

  lemma ShownHash(env: Env, s: Db, u: Uuid, hash: Hash)
    requires u < |s.assets| && AllCurated(s)
    ensures var a := s.assets[u];
            a.icon.Some? && a.icon.value < |s.proposals| && s.proposals[a.icon.value].hash == hash
            <==> Curate(LogOf(s.log, u)).icon == Some(hash)
  {
    hide LogOf, Curate;
    assert CuratedAt(s, u);
  }

  lemma UploadGateAnswer(
    env: Env, s: Db, url: string, action: AdminAction, image: Option<Bytes>, signature: Signature, now: int, window: int)
    requires AllCurated(s)
    requires action.op.SetIcon? && FindActive(s.assets, url).Some? ==>
               SameBytes(s.proposals, FindActive(s.assets, url).value, action.op.hash, image)
    ensures var answer := UploadAnswer(env, s, url, action, image, signature, now, window);
            && SetIconGate(env, s, url, action, image, signature, now, window)
               == (if answer.Some? then Stop(answer.value) else Go(FindActive(s.assets, url).value))
            && (answer.None? ==> action.op.SetIcon? && FindActive(s.assets, url).Some?)
  {
    hide AdminGate, FindTarget, AdminAnswer, FindActive, FindAdminNonce, CheckImage, ImageAnswer, LogOf, Curate, SameBytes,
         ReusableProposal, AllCurated;
    if action.op.SetIcon? {
      CheckImageAnswer(env, image, action.op.hash, action.assetId, url);
      AdminExact(env, s, url, action, signature, Admin.ManageIcons, now, window);
      if AdminAnswer(env, s, url, action, signature, now, window).None? {
        ReusedHasBytes(s, FindTarget(s, url).uuid, action.op.hash, image);
        ShownHash(env, s, FindTarget(s, url).uuid, action.op.hash);
      }
    }
  }

  /** An undecided one before an approved one, and the newest of its kind. */
  ghost predicate FirstChoice(proposals: seq<Proposal>, i: nat, u: Uuid, hash: Hash)
    requires i < |proposals|
  {
    && MayReuse(proposals[i], u, hash)
    && (forall j | i < j < |proposals| :: MayReuse(proposals[j], u, hash) ==> proposals[j].status != proposals[i].status)
    && (proposals[i].status == Approved ==>
          forall j | 0 <= j < |proposals| :: MayReuse(proposals[j], u, hash) ==> proposals[j].status == Approved)
  }

  /** The icon is set to the first choice among the uploads that may be used again, approved if it was undecided, or,
      if there is none, to a new one. */
  ghost predicate Assigns(
    before: seq<Proposal>, after: seq<Proposal>, icon: Option<nat>, u: Uuid, hash: Hash, image: Option<Bytes>, sequence: nat)
  {
    && icon.Some?
    && if exists p | p in before :: MayReuse(p, u, hash) then
         var i := icon.value;
         && i < |before| && FirstChoice(before, i, u, hash)
         && after == (if before[i].status == Pending then before[i := before[i].(status := Approved, decidedBy := Some(sequence))]
                      else before)
       else
         icon.value == |before| && after == before + [Proposal(u, hash, image, Approved, sequence, Some(sequence), None)]
  }

  lemma ReuseIsFirstChoice(s: Db, u: Uuid, hash: Hash)
    ensures var reuse := ReusableProposal(s, u, hash);
            && (reuse.Some? <==> exists p | p in s.proposals :: MayReuse(p, u, hash))
            && (reuse.Some? ==> FirstChoice(s.proposals, reuse.value, u, hash))
  {
    hide LastProposal;
    LastIsNewest(s.proposals, Usable(u, hash, Pending));
    LastIsNewest(s.proposals, Usable(u, hash, Approved));
    forall p | p in s.proposals && MayReuse(p, u, hash)
      ensures Selects(Usable(u, hash, Pending), p) || Selects(Usable(u, hash, Approved), p)
    {
    }
    var reuse := ReusableProposal(s, u, hash);
    if reuse.Some? { assert s.proposals[reuse.value] in s.proposals && MayReuse(s.proposals[reuse.value], u, hash); }
  }

  lemma AssignStores(s: Db, u: Uuid, action: AdminAction, image: Option<Bytes>, signature: Signature, now: int)
    requires u < |s.assets| && action.op.SetIcon?
    ensures var r := AssignIcon(s, u, ReusableProposal(s, u, action.op.hash), action, image, signature, now);
            && r.1 == Applied(AdminRow(s, u, action, signature)) && |r.0.assets| == |s.assets|
            && Assigns(s.proposals, r.0.proposals, r.0.assets[u].icon, u, action.op.hash, image, s.nextSequence)
  {
    hide FreshFragment, LogOf, ReusableProposal, FirstChoice, MayReuse;
    ReuseIsFirstChoice(s, u, action.op.hash);
    AssignApplies(s, u, ReusableProposal(s, u, action.op.hash), action, image, signature, now);
  }

  /** In every state the folds hold in, an upload is answered as the tables say and applied exactly when its bytes are
      valid and hash as signed, the signature verifies under an active key that may manage icons, the time is right,
      the nonce is unused and the icon is not the one set; then it is set, to an upload that may be used again if there
      is one. */
  lemma UploadAnswerExact(
    env: Env, s: Db, url: string, action: AdminAction, image: Option<Bytes>, signature: Signature, now: int, window: int)
    requires AllCurated(s)
    requires action.op.SetIcon? && FindActive(s.assets, url).Some? ==>
               SameBytes(s.proposals, FindActive(s.assets, url).value, action.op.hash, image)
    ensures var r, answer := SetAdminIcon(env, s, url, action, image, signature, now, window),
                             UploadAnswer(env, s, url, action, image, signature, now, window);
            if answer.Some? then r == (s, answer.value)
            else
              var u := FindActive(s.assets, url).value;
              && r.1 == Applied(AdminRow(s, u, action, signature)) && action.op.SetIcon? && u < |r.0.assets|
              && Assigns(s.proposals, r.0.proposals, r.0.assets[u].icon, u, action.op.hash, image, s.nextSequence)
  {
    hide SetIconGate, UploadAnswer, FindActive, AssignIcon, SameBytes, AllCurated, ReusableProposal, Assigns;
    UploadGateAnswer(env, s, url, action, image, signature, now, window);
    if UploadAnswer(env, s, url, action, image, signature, now, window).None? {
      AssignStores(s, FindActive(s.assets, url).value, action, image, signature, now);
    }
  }

  // ---- Annotations ----

  /** What an annotation action is answered. A change to null of a column that forbids it fails the flush. */
  function AnnotationAnswer(
    env: Env, s: Db, url: string, action: AdminAction, signature: Signature, now: int, window: int): Option<Outcome>
  {
    if !action.op.UpdateAnnotations? && !action.op.ForceDelist? && !action.op.ForceRelist? then Some(Rejected(ValidationError))
    else if AdminAnswer(env, s, url, action, signature, now, window).Some? then
      Some(Rejected(AdminAnswer(env, s, url, action, signature, now, window).value))
    else
      var n, used := Curate(LogOf(s.log, FindActive(s.assets, url).value)).annotations,
                     FindAdminNonce(s.log, action.actor, action.nonce);
      if used.Some? then
        Some(if used.value.payload == PAdmin(action) then Retry(used.value) else Rejected(NonceConflict))
      else
        match action.op
        case UpdateAnnotations(changes) =>
          if SetsNull(changes) then Some(Rejected(InternalError))
          else if Annotated(n, changes) == n then Some(Rejected(NoOpAction)) else None
        case ForceDelist(_) => if n.delisted then Some(Rejected(NoOpAction)) else None
        case _ => if !n.delisted then Some(Rejected(NoOpAction)) else None
  }

  lemma AnnotationGateAnswer(env: Env, s: Db, url: string, action: AdminAction, signature: Signature, now: int, window: int)
    ensures var gate, refused := AnnotationGate(env, s, url, action, signature, now, window),
                                 AdminAnswer(env, s, url, action, signature, now, window);
            if !IsAnnotation(action.op) then gate == Stop(Rejected(ValidationError))
            else if refused.Some? then gate == Stop(Rejected(refused.value))
            else
              var used := FindAdminNonce(s.log, action.actor, action.nonce);
              && FindActive(s.assets, url).Some?
              && gate == if used.None? then Go(FindActive(s.assets, url).value)
                         else Stop(if used.value.payload == PAdmin(action) then Retry(used.value) else Rejected(NonceConflict))
  {
    hide AdminGate, FindTarget, AdminAnswer, FindActive, FindAdminNonce;
    if IsAnnotation(action.op) {
      var right := if action.op.UpdateAnnotations? then Admin.AnnotateAssets else Admin.DelistAssets;
      AdminExact(env, s, url, action, signature, right, now, window);
    }
  }

  /** In every state the folds hold in, an annotation action is answered as the log says and applied exactly when the
      signature verifies under an active key with the right for it, the time is right, the nonce is unused, it changes
      an annotation and sets none to null that cannot be. */
  lemma AnnotationAnswerExact(env: Env, s: Db, url: string, action: AdminAction, signature: Signature, now: int, window: int)
    requires AllCurated(s)
    ensures var r, answer := AnnotateAsset(env, s, url, action, signature, now, window),
                             AnnotationAnswer(env, s, url, action, signature, now, window);
            if answer.Some? then
              r.1 == answer.value && r.0 == if answer == Some(Rejected(InternalError)) then RolledBack(s) else s
            else r.1 == Applied(AdminRow(s, FindActive(s.assets, url).value, action, signature))
  {
    hide AnnotationGate, AdminAnswer, FindActive, FindAdminNonce, FreshFragment, LogOf, Curate, ChangesNothing, SetsNull,
         Annotated, AllCurated;
    AnnotationGateAnswer(env, s, url, action, signature, now, window);
    if FindActive(s.assets, url).Some? {
      AnnotationsCurated(s, FindActive(s.assets, url).value);
      if action.op.UpdateAnnotations? { NothingChanges(s.assets[FindActive(s.assets, url).value].annotations, action.op.changes); }
    }
    AdminAnswerIsNoFailure(env, s, url, action, signature, now, window);
  }

  lemma NothingChanges(n: Annotations, c: Changes)
    ensures ChangesNothing(n, c) <==> !SetsNull(c) && Annotated(n, c) == n
  {
  }

  lemma AnnotationsCurated(s: Db, u: Uuid)
    requires AllCurated(s) && u < |s.assets|
    ensures s.assets[u].annotations == Curate(LogOf(s.log, u)).annotations
  {
    hide LogOf, Curate;
    assert CuratedAt(s, u);
  }

  lemma AdminAnswerIsNoFailure(env: Env, s: Db, url: string, action: AdminAction, signature: Signature, now: int, window: int)
    ensures AdminAnswer(env, s, url, action, signature, now, window) != Some(InternalError)
  {
  }

  // ---- Migration and deletion ----

  /** What an approval, if there is one, is answered. */
  function ApprovalAnswer(
    env: Env, s: Db, assetId: string, approval: Option<(AdminAction, Signature)>, now: int, window: int): Option<Error>
  {
    if approval.None? then None
    else
      var (action, signature) := approval.value;
      if VerifyAnswer(env, s, action, signature, now, window).Some? then VerifyAnswer(env, s, action, signature, now, window)
      else if !action.op.MigrateAsset? then Some(ValidationError)
      else if action.assetId != assetId then Some(AssetIdMismatch)
      else if !HoldsRight(s.admin, action.actor, Admin.MigrateAssets) then Some(Forbidden)
      else None
  }

  function MigrationAnswer(
    env: Env, s: Db, assetId: string, approval: Option<(AdminAction, Signature)>, now: int, window: int): Option<Outcome>
  {
    var refused, found := ApprovalAnswer(env, s, assetId, approval, now, window), FindActive(s.assets, assetId);
    if refused.Some? then Some(Rejected(refused.value))
    else if found.None? then Some(Rejected(AssetNotFound))
    else
      var ticker, done := s.assets[found.value].contract.ticker, FindMigration(LogOf(s.log, found.value));
      if ticker.None? || ticker.value == "" then Some(Rejected(ValidationError))
      else if done.Some? then Some(Retry(done.value))
      else None
  }

  /** A migration is applied, once, exactly when its approval, if it has one, is in order and the asset is active and
      has a ticker; a migrated asset answers with its migration. */
  lemma MigrationAnswerExact(
    env: Env, s: Db, assetId: string, approval: Option<(AdminAction, Signature)>, now: int, window: int)
    ensures var r, answer := MigrateAssetToV2(env, s, assetId, approval, now, window),
                             MigrationAnswer(env, s, assetId, approval, now, window);
            if answer.Some? then r == (s, answer.value)
            else
              var u := FindActive(s.assets, assetId).value;
              var payload := PMigrate(assetId, s.assets[u].contract.version, s.assets[u].source);
              r.1 == Applied(Entry(s.nextSequence, u, System, payload, Some(env.actionHash(payload)), None, None, None, None))
  {
    hide VerifyAdmin, VerifyAnswer, FreshFragment, LogOf, FindMigration, FindActive;
    if approval.Some? {
      VerifyExact(env, s, approval.value.0, approval.value.1, now, window);
      if VerifyAnswer(env, s, approval.value.0, approval.value.1, now, window).None? {
        VerifiedIsActive(env, s, approval.value.0, approval.value.1, now, window);
      }
    }
  }

  /** A legacy deletion is applied exactly when the asset is active and the signature verifies under the key its log
      leaves current. */
  lemma DeletionAnswerExact(env: Env, s: Db, assetId: string, signature: Signature, now: int)
    requires CoreInv(env, s)
    ensures var r, found := DeregisterLegacy(env, s, assetId, signature, now), FindActive(s.assets, assetId);
            if found.None? then r == (s, Rejected(AssetNotFound))
            else
              var key := Fold(LogOf(s.log, found.value)).key;
              if !env.verifyDeletion(key, signature, assetId) then r == (s, Rejected(InvalidSignature))
              else r.1 == Applied(Entry(s.nextSequence, found.value, Issuer, PLegacyDeregister(assetId), None, None, None,
                                        Some(key), Some(signature)))
  {
    hide FreshFragment, LogOf, Fold, FindActive, CoreInv;
    if FindActive(s.assets, assetId).Some? { CoreFolds(env, s, FindActive(s.assets, assetId).value); }
  }

  // ---- Registration ----

  /** An active asset has this domain and ticker. */
  predicate TickerTaken(assets: seq<Asset>, contract: Contract) {
    && contract.ticker.Some? && contract.ticker.value != ""
    && exists a | a in assets :: a.status == Active && a.contract.domain == contract.domain && a.contract.ticker == contract.ticker
  }

  predicate IdTaken(assets: seq<Asset>, assetId: string) {
    exists a | a in assets :: a.status == Active && a.assetId == assetId
  }

  /** A v2 registration is refused as invalid for its version, a missing ticker or repeated tags, then as a conflict for
      an active asset of its id or of its domain and ticker or for a repeated URL; otherwise it is applied, and its row
      starts the asset's log. */
  lemma RegistrationAnswerExact(
    env: Env, s: Db, assetId: string, contract: Contract, issuerKey: Pubkey, mutable: Mutable, issuance: Issuance, now: int)
    ensures var r := RegisterV2(env, s, assetId, contract, issuerKey, mutable, issuance, now);
            if contract.version != 2 || contract.ticker.None? || Repeats(mutable.tags) then r == (s, Rejected(ValidationError))
            else if IdTaken(s.assets, assetId) || TickerTaken(s.assets, contract) then r == (s, Rejected(AssetConflict))
            else if RepeatsUrl(mutable.venues) then r == (RolledBack(s), Rejected(AssetConflict))
            else
              var payload := PRegister(assetId, contract, issuerKey, mutable);
              r.1 == Applied(Entry(s.nextSequence, |s.assets|, System, payload, Some(env.actionHash(payload)), None, None, None, None))
  {
    hide FreshFragment, LogOf, RepeatsUrl;
    var found := FindActive(s.assets, assetId);
    if found.Some? { assert s.assets[found.value] in s.assets; }
  }

  lemma LegacyRegistrationAnswerExact(s: Db, request: LegacyRequest, issuance: Issuance, now: int)
    ensures var r := RegisterLegacy(s, request, issuance, now);
            if request.contract.version != 0 then r == (s, Rejected(ValidationError))
            else if IdTaken(s.assets, request.assetId) || TickerTaken(s.assets, request.contract) then r == (s, Rejected(AssetConflict))
            else r.1 == Applied(Entry(s.nextSequence, |s.assets|, System, PLegacyRegister(request), None, None, None, None, None))
  {
    hide FreshFragment, LogOf;
    var found := FindActive(s.assets, request.assetId);
    if found.Some? { assert s.assets[found.value] in s.assets; }
  }

  // ---- Maintenance ----

  /** An import of one icon is applied, with its bytes approved at once, exactly when they are valid and the asset is
      active and shows no icon; the icon shown is the one the log last set. */
  lemma ImportAnswerExact(env: Env, s: Db, assetId: string, image: Bytes, now: int)
    requires AllCurated(s) && IconInv(env, s)
    ensures var r, found, hash := ImportLegacyIcon(env, s, assetId, image, now), FindActive(s.assets, assetId), env.imageHash(image);
            if !env.validLegacyIcon(image) then r == (s, Rejected(InvalidIcon))
            else if found.None? then r == (s, Rejected(AssetNotFound))
            else
              var shown := Curate(LogOf(s.log, found.value)).icon;
              if shown.Some? then r == (s, Rejected(if shown.value == hash then NoOpAction else AssetConflict))
              else
                && r.1 == Applied(Entry(s.nextSequence, found.value, System, PImportIcon(assetId, hash), None, None, None, None, None))
                && |r.0.assets| == |s.assets| && r.0.assets[found.value].icon == Some(|s.proposals|)
                && r.0.proposals
                   == s.proposals + [Proposal(found.value, hash, Some(image), Approved, s.nextSequence, Some(s.nextSequence), None)]
  {
    hide FreshFragment, LogOf, Curate, FindActive, AllCurated, IconInv;
    if FindActive(s.assets, assetId).Some? { IconShown(env, s, FindActive(s.assets, assetId).value); }
  }

  /** A backfill changes a row exactly when a reference of it is missing and none that it has differs; then the row has
      both references as verified and is otherwise what it was. */
  lemma BackfillAnswerExact(s: Db, u: Uuid, txin: Reference, prevout: Reference)
    ensures var r := BackfillIssuance(s, u, txin, prevout);
            if u >= |s.assets| || (s.assets[u].issuance.txin.Some? && s.assets[u].issuance.prevout.Some?) then
              r == (s, Rejected(AssetNotFound))
            else if (s.assets[u].issuance.txin.Some? && s.assets[u].issuance.txin != Some(txin))
                    || (s.assets[u].issuance.prevout.Some? && s.assets[u].issuance.prevout != Some(prevout)) then
              r == (s, Rejected(ReferenceConflict))
            else
              && r.1 == Changed && r.0.log == s.log && r.0.proposals == s.proposals && r.0.admin == s.admin
              && r.0.assets == s.assets[u := s.assets[u].(issuance := Issuance(Some(txin), Some(prevout)))]
  {
    hide FreshFragment, LogOf;
  }

  // ---- Admin lifecycle ----

  predicate AnotherRoot(keys: Admin.Keys, target: Pubkey) {
    exists k | k in keys :: k != target && keys[k].active && Admin.Root in keys[k].permissions
  }

  predicate ActiveKey(keys: Admin.Keys, key: Pubkey) { key in keys && keys[key].active }

  /** What stands against the change itself before it is tried. */
  function ChangeAnswer(keys: Admin.Keys, op: Admin.LifecycleOp): Option<Admin.AdminError> {
    match op
    case AddAdmin(target, _, _) => if ActiveKey(keys, target) then Some(Admin.AdminConflict) else None
    case UpdatePermissions(target, permissions) =>
      if target !in keys then Some(Admin.AdminNotFound)
      else if keys[target].active && forall p :: p in permissions <==> p in keys[target].permissions then Some(Admin.NoOpAction)
      else None
    case UpdateName(target, name) =>
      if target !in keys then Some(Admin.AdminNotFound)
      else if keys[target].active && keys[target].name == name then Some(Admin.NoOpAction) else None
    case RemoveAdmin(target) => if !ActiveKey(keys, target) then Some(Admin.NoOpAction) else None
  }

  /** The change would take root from the last active holder of it, or from a key that is none. */
  predicate TakesLastRoot(keys: Admin.Keys, op: Admin.LifecycleOp) {
    match op
    case UpdatePermissions(target, permissions) =>
      Admin.Root in PermissionsOf(keys, target) && Admin.Root !in permissions && !AnotherRoot(keys, target)
    case RemoveAdmin(target) => Admin.Root in PermissionsOf(keys, target) && !AnotherRoot(keys, target)
    case _ => false
  }

  /** The key a change leaves its target with; every other key is left as it was. */
  predicate Changes(before: Admin.Keys, after: Admin.Keys, op: Admin.LifecycleOp) {
    && after.Keys == before.Keys + {op.target}
    && (forall k | k in before && k != op.target :: after[k] == before[k])
    && match op
       case AddAdmin(target, name, permissions) =>
         after[target].name == name && after[target].active && forall p :: p in after[target].permissions <==> p in permissions
       case UpdatePermissions(target, permissions) =>
         && target in before && after[target].name == before[target].name && after[target].active == before[target].active
         && forall p :: p in after[target].permissions <==> p in permissions
       case UpdateName(target, name) => target in before && after[target] == before[target].(name := name)
       case RemoveAdmin(target) => target in before && after[target] == before[target].(active := false)
  }

  function LifecycleAnswer(
    env: Env, s: Db, action: Admin.LifecycleAction, signature: Signature, now: int, window: int): Option<Admin.AdminOutcome>
  {
    var op, used := action.op, Admin.FindByNonce(s.admin.log, action.actor, action.nonce);
    if (op.AddAdmin? || op.UpdatePermissions?) && Repeats(op.permissions) then Some(Admin.Rejected(Admin.ValidationError))
    else if !env.verifyLifecycle(signature, action) then Some(Admin.Rejected(Admin.InvalidSignature))
    else if !ActiveKey(s.admin.keys, action.actor) then Some(Admin.Rejected(Admin.Forbidden))
    else if used.Some? then
      Some(if used.value.action == action then Admin.Retry(used.value) else Admin.Rejected(Admin.NonceConflict))
    else if !InWindow(action.timestamp, now, window) || !AdminNotOlder(s, action.actor, action.timestamp) then
      Some(Admin.Rejected(Admin.StaleTimestamp))
    else if ChangeAnswer(s.admin.keys, op).Some? then Some(Admin.Rejected(ChangeAnswer(s.admin.keys, op).value))
    else if !MayChange(s.admin, action) then Some(Admin.RolledBack(Admin.Forbidden))
    else if TakesLastRoot(s.admin.keys, op) then Some(Admin.RolledBack(Admin.LastRootAdmin))
    else None
  }

  lemma ChangeExact(keys: Admin.Keys, op: Admin.LifecycleOp)
    ensures Admin.RejectNoOp(keys, op) == ChangeAnswer(keys, op)
  {
    if op.UpdatePermissions? && op.target in keys {
      var wanted := Admin.Elements(op.permissions);
      assert (forall p :: p in op.permissions <==> p in keys[op.target].permissions) <==> keys[op.target].permissions == wanted;
    }
  }

  lemma ApplyExact(db: Admin.AdminDb, action: Admin.LifecycleAction)
    requires ActiveKey(db.keys, action.actor) && ChangeAnswer(db.keys, action.op).None?
    ensures var r := Admin.ApplyLifecycle(db.keys, action.actor, action.op);
            if !MayChange(db, action) then r == Failure(Admin.Forbidden)
            else if TakesLastRoot(db.keys, action.op) then r == Failure(Admin.LastRootAdmin)
            else r.Success? && Changes(db.keys, r.value, action.op)
  {
    assert AnotherRoot(db.keys, action.op.target) <==> Admin.AnotherActiveRoot(db.keys, action.op.target);
  }

  /** In every state, a lifecycle action is answered as the tables say and applied exactly when its permissions do not
      repeat, its signature verifies, its actor is active and may make the change, its nonce is unused, its time is
      right, it is no no-op and does not take the last root; then its target is left as asked and nothing else moves. A
      change that is refused once it is tried spends an audit number. */
  lemma LifecycleAnswerExact(
    env: Env, s: Db, action: Admin.LifecycleAction, signature: Signature, now: int, window: int)
    ensures var r, answer := Admin.SubmitLifecycle(s.admin, s.nextSequence, action, env.verifyLifecycle(signature, action),
                                                   LatestAdminAssetTime(s.log, action.actor), now, window),
                             LifecycleAnswer(env, s, action, signature, now, window);
            if answer.Some? then r == (s.admin, answer.value)
            else
              && r.1 == Admin.Applied(Admin.AdminEntry(s.nextSequence, action)) && r.0.log == s.admin.log + [r.1.entry]
              && Changes(s.admin.keys, r.0.keys, action.op)
    ensures var r, answer := SubmitAdminLifecycle(env, s, action, signature, now, window),
                             LifecycleAnswer(env, s, action, signature, now, window);
            match answer
            case None =>
              r.1 == Changed && r.0.admin.log == s.admin.log + [Admin.AdminEntry(s.nextSequence, action)]
              && r.0 == s.(admin := r.0.admin, nextSequence := s.nextSequence + 1)
            case Some(Rejected(error)) => r == (s, Rejected(Lifecycle(error)))
            case Some(RolledBack(error)) => r == (s.(nextSequence := s.nextSequence + 1), Rejected(Lifecycle(error)))
            case Some(_) => r == (s, Changed)
  {
    hide Admin.AdminFresh, Admin.RejectNoOp, Admin.ApplyLifecycle, ChangeAnswer, MayChange, TakesLastRoot, Changes,
         AdminNotOlder, InWindow, LatestAdminAssetTime, Admin.FindByNonce;
    FreshMeansNotOlder(s, action.actor, action.timestamp, now, window);
    ChangeExact(s.admin.keys, action.op);
    if ActiveKey(s.admin.keys, action.actor) && ChangeAnswer(s.admin.keys, action.op).None? { ApplyExact(s.admin, action); }
  }
}
