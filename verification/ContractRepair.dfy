/** The hash-guided repair of legacy contracts (`migrations/legacy_contract_repair.py`). JSON objects are
    maps; equal canonical text is equality of maps. */
module ContractRepair {
  import opened Basics
  import opened JsonValue

  type Contract = map<string, Value>

  const OPTIONAL_KEYS: set<string> := {"collection", "ticker"}
  const ISSUER_KEY := "issuer_pubkey"

  /** What a registration payload holds: its request's other fields, the stored contract, the recorded hash
      and the issuance output the asset id can be derived from. */
  datatype Payload = Payload(request: map<string, Value>, contract: Contract, hash: string, prevout: Option<Prevout>)

  datatype Prevout = Prevout(txid: string, vout: nat)

  /** SHA-256 of the canonical text, asset id derivation, and the keys of the four fixed testnet assets. */
  datatype Env = Env(hash: Contract -> string, derive: (Prevout, string) -> string, originalKeys: map<string, string>)

  datatype RepairError = MissingIssuerPubkey | NotUnique | HashChained

  // ---- Candidates ----

  function WithoutNulls(c: Contract): Contract { map k | k in c && c[k] != Null :: c[k] }

  predicate IsNull(c: Contract, k: string) { k in c && c[k] == Null }

  /** The keys whose null the old importer may have invented, or the earlier migration erased. */
  function Optional(base: Contract, request: map<string, Value>): set<string> {
    set k | k in OPTIONAL_KEYS && (IsNull(base, k) || (k !in base && IsNull(request, k)))
  }

  function Candidate(base: Contract, optional: set<string>, present: set<string>): Contract {
    map k | k in base.Keys + present && (k in optional ==> k in present) :: if k in present then Null else base[k]
  }

  ghost predicate FromBase(c: Contract, base: Contract, request: map<string, Value>) {
    var optional := Optional(base, request);
    exists present :: present <= optional && c == Candidate(base, optional, present)
  }

  ghost predicate IsCandidate(c: Contract, stored: Contract, request: map<string, Value>) {
    FromBase(c, stored, request) || FromBase(c, WithoutNulls(stored), request)
  }

  predicate Matches(env: Env, p: Payload, assetId: string, c: Contract) {
    if p.prevout.None? then env.hash(c) == p.hash else env.derive(p.prevout.value, env.hash(c)) == assetId
  }

  /** The stored contract with the fixed testnet key put back. */
  function Stored(env: Env, p: Payload, assetId: string): Result<Contract, RepairError> {
    if assetId !in env.originalKeys then Success(p.contract)
    else if ISSUER_KEY !in p.contract then Failure(MissingIssuerPubkey)
    else Success(p.contract[ISSUER_KEY := Str(env.originalKeys[assetId])])
  }

  /** `c` is the only candidate that matches. */
  ghost predicate SoleMatch(env: Env, p: Payload, assetId: string, stored: Contract, c: Contract) {
    && IsCandidate(c, stored, p.request) && Matches(env, p, assetId, c)
    && forall d :: IsCandidate(d, stored, p.request) && Matches(env, p, assetId, d) ==> d == c
  }

  // ---- The search ----

  /** Every subset of a set of keys, by bit choices. */
  method Subsets(keys: set<string>) returns (all: set<set<string>>)
    ensures forall s :: s in all <==> s <= keys
  {
    all := {{}};
    var done: set<string> := {};
    assert forall s: set<string> :: s <= {} ==> s == {};
    while keys - done != {}
      invariant done <= keys && forall s :: s in all <==> s <= done
      decreases keys - done
    {
      var k :| k in keys - done;
      var more := set s | s in all :: s + {k};
      forall s ensures s in all + more <==> s <= done + {k} {
        if k in s { assert s - {k} + {k} == s; assert s <= done + {k} ==> s - {k} in all; }
      }
      all := all + more;
      done := done + {k};
    }
    assert keys == (keys - done) + done;
  }

  method CandidatesFrom(base: Contract, request: map<string, Value>) returns (candidates: set<Contract>)
    ensures forall c :: c in candidates <==> FromBase(c, base, request)
  {
    var optional := Optional(base, request);
    var choices := Subsets(optional);
    candidates := set present | present in choices :: Candidate(base, optional, present);
  }

  /** `_registered_contract`. */
  method RegisteredContract(env: Env, p: Payload, assetId: string) returns (r: Result<Contract, RepairError>)
    ensures Stored(env, p, assetId).Failure? ==> r == Failure(Stored(env, p, assetId).error)
    ensures Stored(env, p, assetId).Success? ==>
      match r
      case Success(c) => SoleMatch(env, p, assetId, Stored(env, p, assetId).value, c)
      case Failure(e) => e == NotUnique && forall c :: !SoleMatch(env, p, assetId, Stored(env, p, assetId).value, c)
  {
    var s := Stored(env, p, assetId);
    if s.Failure? { return Failure(s.error); }
    var stored := s.value;
    var first := CandidatesFrom(stored, p.request);
    var second := CandidatesFrom(WithoutNulls(stored), p.request);
    var candidates := first + second;
    var matches := set c | c in candidates && Matches(env, p, assetId, c);
    if |matches| != 1 {
      forall c ensures !SoleMatch(env, p, assetId, stored, c) {
        if SoleMatch(env, p, assetId, stored, c) {
          OneElement(matches, c);
          assert false;
        }
      }
      return Failure(NotUnique);
    }
    assert forall d :: IsCandidate(d, stored, p.request) && Matches(env, p, assetId, d) ==> d in matches;
    assert matches != {};
    var c :| c in matches;
    Singleton(matches, c);
    r := Success(c);
  }

  lemma OneElement<T>(s: set<T>, x: T)
    requires x in s && forall y | y in s :: y == x
    ensures |s| == 1
  {
    assert s == {x};
  }

  lemma Singleton<T>(s: set<T>, x: T)
    requires |s| == 1 && x in s
    ensures s == {x}
  {
    assert |s - {x}| == 0;
    assert s == (s - {x}) + {x};
  }

  // ---- What a match may differ in ----

  /** The registered contract differs from the stored one only in which null keys are there: the two optional
      ones freely, the others all kept or all dropped. */
  lemma OnlyNullsDiffer(c: Contract, stored: Contract, request: map<string, Value>)
    requires IsCandidate(c, stored, request)
    ensures WithoutNulls(c) == WithoutNulls(stored)
    ensures (forall k | k !in OPTIONAL_KEYS :: IsNull(c, k) <==> IsNull(stored, k)) || (forall k | k !in OPTIONAL_KEYS :: !IsNull(c, k))
  {
  }

  /** Null keys of `c` that nothing in the stored contract or the request accounts for. */
  predicate Accounted(c: Contract, stored: Contract, request: map<string, Value>) {
    forall k | k in OPTIONAL_KEYS && IsNull(c, k) :: IsNull(stored, k) || (k !in stored && IsNull(request, k))
  }

  predicate AccountedByRequest(c: Contract, request: map<string, Value>) {
    forall k | k in OPTIONAL_KEYS && IsNull(c, k) :: IsNull(request, k)
  }

  /** Exactly these are tried: the stored contract with its other null keys kept and any of the two optional ones that
      it or, where it lacks the key, the request has as null; and the stored contract with its other null keys dropped
      and any of the optional ones that the request has as null. */
  lemma CandidatesExact(c: Contract, stored: Contract, request: map<string, Value>)
    ensures IsCandidate(c, stored, request) <==>
              && WithoutNulls(c) == WithoutNulls(stored)
              && (|| ((forall k | k !in OPTIONAL_KEYS :: IsNull(c, k) <==> IsNull(stored, k)) && Accounted(c, stored, request))
                  || ((forall k | k !in OPTIONAL_KEYS :: !IsNull(c, k)) && AccountedByRequest(c, request)))
  {
    FromBaseExact(c, stored, request);
    FromBaseExact(c, WithoutNulls(stored), request);
    assert WithoutNulls(WithoutNulls(stored)) == WithoutNulls(stored);
    if WithoutNulls(c) == WithoutNulls(stored) { OptionalsDropped(c, stored, request); }
  }

  lemma OptionalsDropped(c: Contract, stored: Contract, request: map<string, Value>)
    requires WithoutNulls(c) == WithoutNulls(stored)
    ensures Accounted(c, WithoutNulls(stored), request) <==> AccountedByRequest(c, request)
  {
    forall k | IsNull(c, k) ensures k !in WithoutNulls(stored) { assert k !in WithoutNulls(c); }
  }

  lemma FromBaseExact(c: Contract, base: Contract, request: map<string, Value>)
    ensures FromBase(c, base, request) <==>
              && WithoutNulls(c) == WithoutNulls(base)
              && (forall k | k !in OPTIONAL_KEYS :: IsNull(c, k) <==> IsNull(base, k)) && Accounted(c, base, request)
  {
    var optional := Optional(base, request);
    if && WithoutNulls(c) == WithoutNulls(base)
       && (forall k | k !in OPTIONAL_KEYS :: IsNull(c, k) <==> IsNull(base, k)) && Accounted(c, base, request) {
      var present := set k | k in optional && IsNull(c, k);
      forall k ensures k in c <==> k in Candidate(base, optional, present) { SameKey(c, base, k); }
      forall k | k in c ensures c[k] == Candidate(base, optional, present)[k] { SameKey(c, base, k); }
      assert c == Candidate(base, optional, present);
    }
  }

  /** Contracts that agree apart from nulls agree on every key that is null in neither. */
  lemma SameKey(c: Contract, base: Contract, k: string)
    requires WithoutNulls(c) == WithoutNulls(base)
    ensures k in c && c[k] != Null <==> k in base && base[k] != Null
    ensures k in c && c[k] != Null ==> c[k] == base[k]
  {
    assert k in WithoutNulls(c) <==> k in WithoutNulls(base);
    assert k in WithoutNulls(c) ==> WithoutNulls(c)[k] == c[k] && WithoutNulls(base)[k] == base[k];
  }

  /** A contract that is found is the one registered: the asset id derives from its hash where the issuance output is
      known, and its hash is the recorded one where it is not. */
  lemma FoundIsRegistered(env: Env, p: Payload, assetId: string, stored: Contract, c: Contract)
    requires SoleMatch(env, p, assetId, stored, c)
    ensures match p.prevout
            case Some(prevout) => env.derive(prevout, env.hash(c)) == assetId
            case None => env.hash(c) == p.hash
  {
  }

  lemma CandidateKeeps(c: Contract, stored: Contract, request: map<string, Value>, k: string)
    requires IsCandidate(c, stored, request)
    ensures k in c && c[k] != Null <==> k in stored && stored[k] != Null
    ensures k in c && c[k] != Null ==> c[k] == stored[k]
  {
    OnlyNullsDiffer(c, stored, request);
    SameKey(c, stored, k);
  }

  /** What is found is the stored contract up to nulls, with the original issuer key in it for a fixed testnet asset;
      only such an asset without any issuer key is an error. */
  lemma FoundIsStored(env: Env, p: Payload, assetId: string)
    ensures Stored(env, p, assetId).Failure? <==> assetId in env.originalKeys && ISSUER_KEY !in p.contract
    ensures Stored(env, p, assetId).Failure? ==> Stored(env, p, assetId).error == MissingIssuerPubkey
    ensures Stored(env, p, assetId).Success? ==>
              forall c | SoleMatch(env, p, assetId, Stored(env, p, assetId).value, c) ::
                && (assetId in env.originalKeys ==> ISSUER_KEY in c && c[ISSUER_KEY] == Str(env.originalKeys[assetId]))
                && forall k | !(assetId in env.originalKeys && k == ISSUER_KEY) ::
                     && (k in c && c[k] != Null <==> k in p.contract && p.contract[k] != Null)
                     && (k in c && c[k] != Null ==> c[k] == p.contract[k])
  {
    hide IsCandidate, Matches;
    if Stored(env, p, assetId).Success? {
      var stored := Stored(env, p, assetId).value;
      forall c, k | SoleMatch(env, p, assetId, stored, c)
        ensures k in c && c[k] != Null <==> k in stored && stored[k] != Null
        ensures k in c && c[k] != Null ==> c[k] == stored[k]
      {
        CandidateKeeps(c, stored, p.request, k);
      }
    }
  }

  // ---- Running again ----

  lemma CandidateTwice(base: Contract, optional: set<string>, present: set<string>, inner: set<string>, again: set<string>)
    requires again <= inner <= optional && present <= inner
    ensures Candidate(Candidate(base, optional, present), inner, again) == Candidate(base, optional, again)
  {
  }

  /** A candidate's own candidates are candidates of its base. */
  lemma CandidatesNest(base: Contract, request: map<string, Value>, present: set<string>, d: Contract)
    requires present <= Optional(base, request)
    requires FromBase(d, Candidate(base, Optional(base, request), present), request)
    ensures FromBase(d, base, request)
  {
    var optional := Optional(base, request);
    var c := Candidate(base, optional, present);
    var inner := Optional(c, request);
    var again :| again <= inner && d == Candidate(c, inner, again);
    assert inner <= optional && present <= inner;
    CandidateTwice(base, optional, present, inner, again);
  }

  lemma CandidatesShrink(c: Contract, stored: Contract, request: map<string, Value>, d: Contract)
    requires IsCandidate(c, stored, request) && IsCandidate(d, c, request)
    ensures IsCandidate(d, stored, request)
  {
    OnlyNullsDiffer(c, stored, request);
    if FromBase(d, c, request) {
      if FromBase(c, stored, request) {
        var present :| present <= Optional(stored, request) && c == Candidate(stored, Optional(stored, request), present);
        CandidatesNest(stored, request, present, d);
      } else {
        var base := WithoutNulls(stored);
        var present :| present <= Optional(base, request) && c == Candidate(base, Optional(base, request), present);
        CandidatesNest(base, request, present, d);
      }
    }
  }

  /** A contract is a candidate of itself. */
  lemma OwnCandidate(c: Contract, request: map<string, Value>)
    ensures FromBase(c, c, request)
  {
    var optional := Optional(c, request);
    var present := set k | k in optional && k in c;
    assert c == Candidate(c, optional, present);
  }

  /** The corrected payload the migration writes back. */
  function Corrected(env: Env, p: Payload, c: Contract): Payload { p.(contract := c, hash := env.hash(c)) }

  /** Running the search again on the corrected payload finds the same contract, and corrects nothing. */
  lemma RerunFindsTheSame(env: Env, p: Payload, assetId: string, c: Contract)
    requires Stored(env, p, assetId).Success? && SoleMatch(env, p, assetId, Stored(env, p, assetId).value, c)
    ensures var q := Corrected(env, p, c);
            && Stored(env, q, assetId) == Success(c)
            && SoleMatch(env, q, assetId, c, c)
            && Corrected(env, q, c) == q
  {
    var stored, q := Stored(env, p, assetId).value, Corrected(env, p, c);
    if assetId in env.originalKeys {
      CandidateKeeps(c, stored, p.request, ISSUER_KEY);
      assert c[ISSUER_KEY := c[ISSUER_KEY]] == c;
    }
    OwnCandidate(c, p.request);
    forall d | IsCandidate(d, c, q.request) && Matches(env, q, assetId, d) ensures d == c {
      CandidatesShrink(c, stored, p.request, d);
    }
  }

  // ---- Null repair ----

  function RepairNulls(projected: Contract, registered: Contract): Contract {
    map k | k in projected.Keys + registered.Keys && (IsNull(registered, k) || (k in projected && (projected[k] == Null ==> k in registered)))
      :: if IsNull(registered, k) then Null else if projected[k] == Null then registered[k] else projected[k]
  }

  function FilledNulls(projected: Contract, registered: Contract): Contract {
    map k | k in projected && (projected[k] == Null ==> k in registered)
      :: if projected[k] == Null then registered[k] else projected[k]
  }

  function WithNulls(filled: Contract, registered: Contract): Contract {
    map k | k in filled.Keys + registered.Keys && (k in filled || IsNull(registered, k))
      :: if IsNull(registered, k) then Null else filled[k]
  }

  /** The first loop with the keys of `todo` still to do. */
  function FilledExcept(projected: Contract, registered: Contract, todo: set<string>): Contract {
    map k | k in projected && (k !in todo && projected[k] == Null ==> k in registered)
      :: if k !in todo && projected[k] == Null then registered[k] else projected[k]
  }

  lemma FillOneMore(projected: Contract, registered: Contract, todo: set<string>, k: string)
    requires k in todo && k in projected
    ensures var before, after := FilledExcept(projected, registered, todo), FilledExcept(projected, registered, todo - {k});
            && k in before && before[k] == projected[k]
            && after == if projected[k] != Null then before else if k !in registered then before - {k} else before[k := registered[k]]
  {
  }

  lemma FilledEnds(projected: Contract, registered: Contract)
    ensures FilledExcept(projected, registered, projected.Keys) == projected
    ensures FilledExcept(projected, registered, {}) == FilledNulls(projected, registered)
  {
  }

  /** The first loop: drop or refill the projected nulls. */
  method FillNulls(projected: Contract, registered: Contract) returns (repaired: Contract)
    ensures repaired == FilledNulls(projected, registered)
  {
    hide FilledExcept, FilledNulls;
    FilledEnds(projected, registered);
    repaired := projected;
    var todo := projected.Keys;
    while todo != {}
      invariant todo <= projected.Keys && repaired == FilledExcept(projected, registered, todo)
      decreases |todo|
    {
      var k :| k in todo;
      FillOneMore(projected, registered, todo, k);
      if repaired[k] == Null {
        if k !in registered { repaired := repaired - {k}; } else { repaired := repaired[k := registered[k]]; }
      }
      todo := todo - {k};
    }
  }

  lemma AddOneMore(filled: Contract, registered: Contract, todo: set<string>, k: string)
    requires k in todo && k in registered
    ensures WithNulls(filled, registered - (todo - {k}))
         == if registered[k] == Null then WithNulls(filled, registered - todo)[k := Null] else WithNulls(filled, registered - todo)
  {
  }

  /** The second loop: put the registered nulls in. */
  method AddNulls(filled: Contract, registered: Contract) returns (repaired: Contract)
    ensures repaired == WithNulls(filled, registered)
  {
    repaired := filled;
    var todo := registered.Keys;
    while todo != {}
      invariant todo <= registered.Keys && repaired == WithNulls(filled, registered - todo)
      decreases |todo|
    {
      var k :| k in todo;
      AddOneMore(filled, registered, todo, k);
      if registered[k] == Null { repaired := repaired[k := Null]; }
      todo := todo - {k};
    }
    assert registered - todo == registered;
  }

  /** `_repair_nulls`. */
  method RepairNullsInPlace(projected: Contract, registered: Contract) returns (repaired: Contract)
    ensures repaired == RepairNulls(projected, registered)
  {
    repaired := FillNulls(projected, registered);
    repaired := AddNulls(repaired, registered);
    assert WithNulls(FilledNulls(projected, registered), registered) == RepairNulls(projected, registered);
  }

  /** The result has exactly the registered contract's null keys, keeps every projected value that is not
      replaced by one of them, invents no value, and repairing again changes nothing. */
  lemma RepairNullsExact(projected: Contract, registered: Contract)
    ensures var r := RepairNulls(projected, registered);
            && (forall k :: IsNull(r, k) <==> IsNull(registered, k))
            && (forall k | k in projected && projected[k] != Null && !IsNull(registered, k) :: k in r && r[k] == projected[k])
            && (forall k | k in r && r[k] != Null :: (k in projected && r[k] == projected[k]) || (k in registered && r[k] == registered[k]))
            && RepairNulls(r, registered) == r
  {
  }

  // ---- One asset's rows ----

  /** The registration action, the stored extra fields, and the contracts inside the two cached fragments. */
  datatype Row = Row(
    assetId: string, legacy: bool, payload: Payload, chained: bool, extras: Contract,
    legacyJson: Option<Contract>, v2Json: Option<Contract>)

  const KNOWN_FIELDS: set<string> :=
    {"entity", "name", "precision", "version", "ticker", "issuer_pubkey", "initial_issuer_pubkey"}

  function Extras(c: Contract): Contract { c - KNOWN_FIELDS }

  function RepairedLegacy(env: Env, assetId: string, projected: Contract, c: Contract): Contract {
    var r := RepairNulls(projected, c);
    if assetId in env.originalKeys && ISSUER_KEY in c then r[ISSUER_KEY := c[ISSUER_KEY]] else r
  }

  /** The rows once `c` is known to be the registered contract. */
  function Rewritten(env: Env, r: Row, c: Contract): Row {
    r.(payload := if r.legacy then Corrected(env, r.payload, c) else r.payload,
       extras := RepairNulls(r.extras, Extras(c)),
       legacyJson := if r.legacyJson.Some? then Some(RepairedLegacy(env, r.assetId, r.legacyJson.value, c)) else None,
       v2Json := if r.v2Json.Some? then Some(RepairNulls(r.v2Json.value, c)) else None)
  }

  /** What the migration makes of a row: the contract it goes by, and the rows after it. A row whose contract
      cannot be told, or whose hash-chained action would change, is skipped. */
  ghost predicate Repairs(env: Env, r: Row, after: Row) {
    if !r.legacy then after == Rewritten(env, r, r.payload.contract)
    else
      match Stored(env, r.payload, r.assetId)
      case Failure(_) => after == r
      case Success(stored) =>
        if exists c :: SoleMatch(env, r.payload, r.assetId, stored, c) then
          exists c :: SoleMatch(env, r.payload, r.assetId, stored, c)
            && after == if Corrected(env, r.payload, c) != r.payload && r.chained then r else Rewritten(env, r, c)
        else after == r
  }

  /** `after` is `before` with exactly the null keys of `c`: their other values are kept, or taken from `c` where a
      null stood for one. */
  ghost predicate NullsOf(before: Contract, after: Contract, c: Contract) {
    && (forall k :: IsNull(after, k) <==> IsNull(c, k))
    && (forall k | k in before && before[k] != Null && !IsNull(c, k) :: k in after && after[k] == before[k])
    && (forall k | k in after && after[k] != Null ::
          if k in before && before[k] != Null then after[k] == before[k] else k in before && k in c && after[k] == c[k])
  }

  /** The extra fields: nulls as in `c` apart from the known fields, which are not theirs to have as null. */
  ghost predicate ExtrasOf(before: Contract, after: Contract, c: Contract) {
    && (forall k | k in KNOWN_FIELDS && IsNull(before, k) :: k !in after)
    && (forall k | k !in KNOWN_FIELDS :: IsNull(after, k) <==> IsNull(c, k))
    && (forall k | k in before && before[k] != Null && (k in KNOWN_FIELDS || !IsNull(c, k)) :: k in after && after[k] == before[k])
    && (forall k | k in after && after[k] != Null ::
          if k in before && before[k] != Null then after[k] == before[k] else k in before && k in c && after[k] == c[k])
  }

  lemma RepairedExtras(before: Contract, c: Contract)
    ensures ExtrasOf(before, RepairNulls(before, Extras(c)), c)
  {
    RepairedNulls(before, Extras(c));
  }

  /** The stored contract and everything derived from it agree with the registered contract `c`. */
  ghost predicate GoesBy(env: Env, r: Row, after: Row, c: Contract) {
    && after.assetId == r.assetId && after.legacy == r.legacy && after.chained == r.chained
    && after.payload.request == r.payload.request && after.payload.prevout == r.payload.prevout
    && after.payload.contract == c && (r.legacy ==> after.payload.hash == env.hash(c))
    && ExtrasOf(r.extras, after.extras, c)
    && (after.v2Json.Some? <==> r.v2Json.Some?) && (after.legacyJson.Some? <==> r.legacyJson.Some?)
    && (r.v2Json.Some? ==> NullsOf(r.v2Json.value, after.v2Json.value, c))
    && (r.legacyJson.Some? ==>
          if r.assetId in env.originalKeys && ISSUER_KEY in c then
            && ISSUER_KEY in after.legacyJson.value && after.legacyJson.value[ISSUER_KEY] == c[ISSUER_KEY]
            && NullsOf(r.legacyJson.value - {ISSUER_KEY}, after.legacyJson.value - {ISSUER_KEY}, c - {ISSUER_KEY})
          else NullsOf(r.legacyJson.value, after.legacyJson.value, c))
  }

  lemma RepairedNulls(projected: Contract, c: Contract)
    ensures NullsOf(projected, RepairNulls(projected, c), c)
  {
  }

  lemma RepairedLegacyNulls(env: Env, assetId: string, projected: Contract, c: Contract)
    requires assetId in env.originalKeys && ISSUER_KEY in c
    ensures var after := RepairedLegacy(env, assetId, projected, c);
            && ISSUER_KEY in after && after[ISSUER_KEY] == c[ISSUER_KEY]
            && NullsOf(projected - {ISSUER_KEY}, after - {ISSUER_KEY}, c - {ISSUER_KEY})
  {
    RepairedNulls(projected - {ISSUER_KEY}, c - {ISSUER_KEY});
    assert RepairedLegacy(env, assetId, projected, c) - {ISSUER_KEY} == RepairNulls(projected - {ISSUER_KEY}, c - {ISSUER_KEY});
  }

  lemma RewrittenGoesBy(env: Env, r: Row, c: Contract)
    requires r.legacy || r.payload.contract == c
    ensures GoesBy(env, r, Rewritten(env, r, c), c)
  {
    hide NullsOf, ExtrasOf, RepairedLegacy, RepairNulls;
    RepairedExtras(r.extras, c);
    if r.v2Json.Some? { RepairedNulls(r.v2Json.value, c); }
    if r.legacyJson.Some? {
      if r.assetId in env.originalKeys && ISSUER_KEY in c { RepairedLegacyNulls(env, r.assetId, r.legacyJson.value, c); }
      else { PlainLegacyNulls(env, r.assetId, r.legacyJson.value, c); }
    }
  }

  lemma PlainLegacyNulls(env: Env, assetId: string, projected: Contract, c: Contract)
    requires !(assetId in env.originalKeys && ISSUER_KEY in c)
    ensures NullsOf(projected, RepairedLegacy(env, assetId, projected, c), c)
  {
    RepairedNulls(projected, c);
  }

  /** A repaired row agrees throughout with the contract it was registered with; it is left alone exactly when that
      contract cannot be told, or when correcting it would change a hash-chained action. */
  lemma RepairAgrees(env: Env, r: Row, after: Row)
    requires Repairs(env, r, after)
    ensures if !r.legacy then GoesBy(env, r, after, r.payload.contract)
            else
              match Stored(env, r.payload, r.assetId)
              case Failure(_) => after == r
              case Success(stored) =>
                && ((forall c :: !SoleMatch(env, r.payload, r.assetId, stored, c)) ==> after == r)
                && forall c | SoleMatch(env, r.payload, r.assetId, stored, c) ::
                     if r.chained && (c != r.payload.contract || env.hash(c) != r.payload.hash) then after == r
                     else GoesBy(env, r, after, c)
  {
    hide SoleMatch, GoesBy, Rewritten;
    if !r.legacy {
      RewrittenGoesBy(env, r, r.payload.contract);
    } else if Stored(env, r.payload, r.assetId).Success? {
      var stored := Stored(env, r.payload, r.assetId).value;
      forall c | SoleMatch(env, r.payload, r.assetId, stored, c)
        ensures if r.chained && (c != r.payload.contract || env.hash(c) != r.payload.hash) then after == r
                else GoesBy(env, r, after, c)
      {
        var d :| SoleMatch(env, r.payload, r.assetId, stored, d)
          && after == if Corrected(env, r.payload, d) != r.payload && r.chained then r else Rewritten(env, r, d);
        SoleMatchUnique(env, r.payload, r.assetId, stored, c, d);
        RewrittenGoesBy(env, r, c);
      }
    }
  }

  method RepairRow(env: Env, r: Row) returns (after: Row)
    ensures Repairs(env, r, after)
  {
    var c := r.payload.contract;
    if r.legacy {
      var found := RegisteredContract(env, r.payload, r.assetId);
      if found.Failure? { return r; }
      c := found.value;
      if Corrected(env, r.payload, c) != r.payload && r.chained { return r; }
    }
    var extras := RepairNullsInPlace(r.extras, Extras(c));
    var legacyJson, v2Json := r.legacyJson, r.v2Json;
    if legacyJson.Some? {
      var repaired := RepairNullsInPlace(legacyJson.value, c);
      if r.assetId in env.originalKeys && ISSUER_KEY in c { repaired := repaired[ISSUER_KEY := c[ISSUER_KEY]]; }
      legacyJson := Some(repaired);
    }
    if v2Json.Some? {
      var repaired := RepairNullsInPlace(v2Json.value, c);
      v2Json := Some(repaired);
    }
    after := r.(payload := if r.legacy then Corrected(env, r.payload, c) else r.payload,
                extras := extras, legacyJson := legacyJson, v2Json := v2Json);
    assert after == Rewritten(env, r, c);
  }

  lemma RepairedLegacyTwice(env: Env, assetId: string, projected: Contract, c: Contract)
    ensures var r := RepairedLegacy(env, assetId, projected, c); RepairedLegacy(env, assetId, r, c) == r
  {
  }

  lemma RewrittenTwice(env: Env, r: Row, c: Contract)
    requires r.legacy || r.payload.contract == c
    ensures var after := Rewritten(env, r, c); Rewritten(env, after, c) == after
  {
    RepairNullsExact(r.extras, Extras(c));
    if r.legacyJson.Some? { RepairedLegacyTwice(env, r.assetId, r.legacyJson.value, c); }
    if r.v2Json.Some? { RepairNullsExact(r.v2Json.value, c); }
  }

  lemma SoleMatchUnique(env: Env, p: Payload, assetId: string, stored: Contract, c: Contract, d: Contract)
    requires SoleMatch(env, p, assetId, stored, c) && SoleMatch(env, p, assetId, stored, d)
    ensures c == d
  {
  }

  /** Running the migration a second time changes no row. */
  lemma RepairIsIdempotent(env: Env, r: Row, after: Row, again: Row)
    requires Repairs(env, r, after) && Repairs(env, after, again)
    ensures again == after
  {
    hide WithoutNulls, RepairNulls;
    if !r.legacy {
      RewrittenTwice(env, r, r.payload.contract);
    } else if Stored(env, r.payload, r.assetId).Success? && after != r {
      var stored := Stored(env, r.payload, r.assetId).value;
      var c :| SoleMatch(env, r.payload, r.assetId, stored, c)
        && after == if Corrected(env, r.payload, c) != r.payload && r.chained then r else Rewritten(env, r, c);
      RerunFindsTheSame(env, r.payload, r.assetId, c);
      RewrittenTwice(env, r, c);
      var d :| SoleMatch(env, after.payload, after.assetId, c, d)
        && again == if Corrected(env, after.payload, d) != after.payload && after.chained then after else Rewritten(env, after, d);
      SoleMatchUnique(env, after.payload, after.assetId, c, c, d);
    } else if Stored(env, r.payload, r.assetId).Success? && exists c :: SoleMatch(env, r.payload, r.assetId, Stored(env, r.payload, r.assetId).value, c) {
      var stored := Stored(env, r.payload, r.assetId).value;
      var c :| SoleMatch(env, r.payload, r.assetId, stored, c)
        && after == if Corrected(env, r.payload, c) != r.payload && r.chained then r else Rewritten(env, r, c);
      var d :| SoleMatch(env, r.payload, r.assetId, stored, d)
        && again == if Corrected(env, after.payload, d) != after.payload && after.chained then after else Rewritten(env, after, d);
      SoleMatchUnique(env, r.payload, r.assetId, stored, c, d);
    }
  }

  // ---- The batch loop ----

  ghost predicate AscendingIds(ids: seq<nat>) { forall i, j | 0 <= i < j < |ids| :: ids[i] < ids[j] }

  /** Exactly the rows in `done` have been repaired. */
  ghost predicate Repaired(env: Env, table: map<nat, Row>, after: map<nat, Row>, done: seq<nat>) {
    && after.Keys == table.Keys
    && forall id | id in table :: if id in done then Repairs(env, table[id], after[id]) else after[id] == table[id]
  }

  lemma RepairedInTurn(
    env: Env, table: map<nat, Row>, middle: map<nat, Row>, after: map<nat, Row>, done: seq<nat>, more: seq<nat>)
    requires Repaired(env, table, middle, done) && Repaired(env, middle, after, more)
    requires forall id | id in done :: id !in more
    ensures Repaired(env, table, after, done + more)
  {
  }

  /** The rows of one batch, each repaired in place. */
  method RepairBatch(env: Env, table: map<nat, Row>, batch: seq<nat>) returns (after: map<nat, Row>)
    requires AscendingIds(batch) && forall id | id in batch :: id in table
    ensures Repaired(env, table, after, batch)
  {
    after := table;
    var i := 0;
    while i < |batch|
      invariant i <= |batch| && Repaired(env, table, after, batch[..i])
    {
      var row := RepairRow(env, after[batch[i]]);
      RepairedInTurn(env, table, after, after[batch[i] := row], batch[..i], [batch[i]]);
      after := after[batch[i] := row];
      assert batch[..i + 1] == batch[..i] + [batch[i]];
      i := i + 1;
    }
    assert batch[..i] == batch;
  }

  /** The cursor is the last of the first `n` ids. */
  predicate CursorAt(ids: seq<nat>, n: nat, last: Option<nat>) {
    n <= |ids| && if n == 0 then last.None? else last == Some(ids[n - 1])
  }

  /** The next batch by key: ids after the last one seen, in order, up to the batch size. */
  method NextBatch(ids: seq<nat>, after: Option<nat>, size: nat, ghost from: nat) returns (batch: seq<nat>)
    requires AscendingIds(ids) && size > 0 && CursorAt(ids, from, after)
    ensures from + |batch| <= |ids| && batch == ids[from..from + |batch|]
    ensures |batch| == 0 <==> from == |ids|
  {
    batch := [];
    var i := 0;
    while i < |ids| && |batch| < size
      invariant i <= |ids| && |batch| <= size
      invariant i <= from ==> batch == []
      invariant i > from ==> from + |batch| == i && batch == ids[from..i]
    {
      if after.None? || after.value < ids[i] {
        assert i >= from && ids[from..i + 1] == ids[from..i] + [ids[i]];
        batch := batch + [ids[i]];
      }
      i := i + 1;
    }
  }

  /** `batch` is the part of `ids` between `n` and `m`. */
  ghost predicate Between(ids: seq<nat>, n: nat, batch: seq<nat>, m: nat) {
    && n <= m <= |ids| && ids[..m] == ids[..n] + batch && AscendingIds(batch)
    && (forall id | id in ids[..n] :: id !in batch)
    && (forall id | id in batch :: id in ids)
    && (if batch == [] then m == |ids| else n < m)
  }

  method FetchBatch(ids: seq<nat>, last: Option<nat>, size: nat, ghost n: nat)
    returns (batch: seq<nat>, cursor: Option<nat>, ghost m: nat)
    requires AscendingIds(ids) && size > 0 && CursorAt(ids, n, last)
    ensures CursorAt(ids, m, cursor) && Between(ids, n, batch, m)
  {
    batch := NextBatch(ids, last, size, n);
    m := n + |batch|;
    assert ids[..m] == ids[..n] + batch;
    cursor := if batch == [] then last else Some(batch[|batch| - 1]);
  }

  /** Whatever the batch size, the loop visits each asset exactly once, in order, and stops; each row ends as
      its one repair leaves it. */
  method RepairAll(env: Env, table: map<nat, Row>, ids: seq<nat>, size: nat) returns (after: map<nat, Row>, visited: seq<nat>)
    requires AscendingIds(ids) && size > 0 && forall id | id in ids :: id in table
    ensures visited == ids && Repaired(env, table, after, visited)
  {
    after, visited := table, [];
    var last: Option<nat> := None;
    ghost var n: nat := 0;
    var more := true;
    while more
      invariant CursorAt(ids, n, last) && visited == ids[..n] && Repaired(env, table, after, visited)
      invariant !more ==> n == |ids|
      decreases |ids| - n, more
    {
      var batch;
      batch, last, n := FetchBatch(ids, last, size, n);
      var next := RepairBatch(env, after, batch);
      RepairedInTurn(env, table, after, next, visited, batch);
      more := batch != [];
      after, visited := next, visited + batch;
    }
  }
}
