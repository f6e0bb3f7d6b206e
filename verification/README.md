# Asset registry: a verified model

This project models the registry service as a set of small state machines and proves what they promise over
every run. It is written in Dafny 4.11; `dafny verify dfyconfig.toml` checks all of it. Nothing here executes the
service. Citations are paths and lines of the service's own repository.

## What is modelled

**The registry.** `RegistryModel` has the tables as values, `RegistrySteps` each transaction as one function from
database to database and outcome, and `Run` any sequence of them with arbitrary clock readings: v2 and legacy
registration, migration, every issuer action, icon proposal, decision, upload and import, annotations and forced
delisting, both deregistrations, issuance backfill, admin lifecycle and bootstrap. `AssetHistory` relates one asset
row to its own log, `RegistryInvariants`, `RegistryIcons`, `RegistrySettles` and `RegistryRows` carry the invariants
over runs, and `RegistryTheorems`, `RegistryPublishing`, `RegistryFolds` and `RegistryViews` state the promises.
`RegistryAuthority` says who signed what was applied and by what right; `RegistryAnswers` and `RegistryAdminAnswers`
say what each request is answered, read from the log and the tables alone; `RegistryDocuments` what the published
documents show, field by field. `RegistrySamples` has short runs that reach what is not promised. `RegistryTables` and
`RegistrySession` are the same transactions as the code performs them: an object whose child tables (tags, venues,
custom attributes, key history) are deleted from and inserted into row by row, whose columns are assigned one by one,
and which rolls back a failed flush; each method is proved equal to its transaction on the assembled database, and a
session fed any sequence of requests is always in the state of that run (`Serve`), so what is proved of runs holds of
it. `AdminGovernance` and `AdminSession` do the same for admin keys. `RegistryImport` is the batch icon import on the
same object, against the run of its entries one at a time.

**Conditional reads** (`ConditionalRead`). Writers take a row lock at commit and assign a version, then commit or
abort; validator queries and body reads are separate snapshots; clients echo dates; the clock is arbitrary.

**Admission policies.** `ProofPolicy` (permits over every interleaving of the requests' and workers' lock
acquisitions, with resets and reconfiguration), `ProofHistory` (against a policy that never forgets, over whole
histories of one process), `ProofFetch` (the policy object, the process, and one bounded call among other threads),
`RateLimit` (the sliding log, its object, and the limiter that keeps everything).

**Algorithms.** `Audit` (merge and paging), `IconMap` (streamed merge), `Coalescing`, `JsonDepth`,
`ContractRepair`.

Conventions. An endpoint's body schema refuses an operation it does not take before anything else is looked at
(`registry_api/api/v2.py:752-830`), so that refusal comes first here too. Transactions are serial and atomic, as the
service gives no other guarantee for them; only conditional reads and permits interleave. Rows are numbered by
position, a child's position is its index, proposals are listed in the order of proposing, and an action is named by
its number in the one audit sequence. An admin's public key stands for its row id. Domains are taken as already
lower-cased. Signatures, SHA-256, image decoding and canonical text are functions given from outside (`Env`); freedom
from collisions is assumed in one place, between the entries of the two chains compared
(`AssetHistory.CollisionFree`). Times in the registry are integers, in the two policies exact reals, in conditional
reads microseconds.

## Where the code falls short of a promise

Each is kept as the code has it, with a lemma that names an input and one that says exactly when it happens.

- A deregistered asset can have a cached fragment: the issuance backfill does not look at the status
  (`DeregisteredFragmentIff`, `DeregisteredFragmentHappens`).
- A venue replacement that repeats a URL is refused as a nonce conflict, and spends an audit number
  (`NonceConflictWithoutANonce`, `NonceConflictHappens`).
- Custom values are compared with Python's `==`, under which 1, 1.0 and true are equal: a real change can be refused as a
  no-op (`FalseNoOpIff`, `FalseNoOpHappens`), and a different action can pass for a retry (`UsedNonceIff`,
  `DifferentActionMayReplay`).
- A lifecycle action on a removed admin can be applied without changing anything (`AppliedWithoutEffectIff`,
  `AppliedWithoutEffectHappens`, `RenameWithoutEffectHappens`).
- Following the audit cursor in descending order never reaches a second page (`DescendingCursorSkips`,
  `DescendingCursorMisses`).
- With deregistered rows included, a listing repeats a key exactly when an asset id was registered again after its
  deregistration (`FullListingRepeatsIff`, `FullListingMayRepeat`); active listings never do (`ActiveListingKeysDiffer`).
- A batch of legacy icons judges every entry against the tables as they were, so two keys of the map that name one asset
  are both imported, where one at a time the second would be refused (`BatchIsOneByOneIff`, `RepeatedEntryHappens`).

One promise holds for a reason the code does not state: the issuer-timestamp lookup sorts nulls first, and sees the
newest timestamp only because an active asset has no untimestamped issuer entry (`IssuerOrderAlways`).

## Model

| member | source | states |
|---|---|---|
| JsonValue.PyEqReflexive | registry_api/issuer_actions.py:275-291 | comparing a stored value with itself never reports a change |
| JsonValue.PyEqMergesNumbersAndBooleans | registry_api/issuer_actions.py:288 | the comparison used for no-ops treats 1, 1.0 and true alike |
| AdminGovernance.BootstrapGoverns | registry_api/admin_actions.py:45-59 | genesis alone is a governed registry |
| AdminGovernance.BootstrapIsOnce | registry_api/admin_actions.py:49-51 | once an admin exists no second genesis is made |
| AdminGovernance.SubmitKeepsGoverned | registry_api/admin_actions.py:62-116 | every lifecycle submission keeps an active root, the key table as the replay of the log, and the chain of authority |
| AdminGovernance.ApplyKeepsARoot | registry_api/admin_actions.py:381-466 | the last-root guard leaves at least one active root after any applied change |
| AdminGovernance.RootComesFromARoot | registry_api/admin_actions.py:358-415 | whoever gains root was granted it by an active root, reactivated keys included |
| AdminGovernance.OnlyRootsChangeTheRoots | registry_api/admin_actions.py:409-415 | the set of active roots changes only by an action of an active root |
| AdminGovernance.AppliedWithoutEffectIff | registry_api/admin_actions.py:323-355 | an applied lifecycle action leaves the keys as they were exactly when a removed key is given what it has |
| AdminGovernance.AppliedWithoutEffectHappens | registry_api/admin_actions.py:341-346 | after the genesis key has added and removed an admin, renaming it to its own name is applied and logged |
| AdminSession.AdminStore.Submit | registry_api/admin_actions.py:62-116 | the guards, the log row, the in-place change and the rollback amount to the lifecycle transaction |
| AdminSession.AdminStore.ApplyUpdate | registry_api/admin_actions.py:381-394 | permissions are replaced, or the first failing guard is reported and nothing moves |
| AdminSession.AdminStore.ApplyRemove | registry_api/admin_actions.py:397-406 | the key is deactivated, or the first failing guard is reported and nothing moves |
| AdminSession.AdminStore.ReplacePermissions | registry_api/admin_actions.py:418-423 | the key has exactly the given permissions, every other key what it had |
| AdminSession.AdminStore.BootstrapGenesis | registry_api/admin_actions.py:45-59 | the genesis key with root on an empty table, nothing otherwise |
| RegistrySteps.IssuerGate | registry_api/issuer_actions.py:60-128 | a request goes on only for an active, eligible asset of that id, with a fresh nonce, the chain head, freshness, signature and no-op checks passed; under which key, and when exactly, is `RegistryAnswers.IssuerAnswerExact` |
| RegistrySteps.ProposalGate | registry_api/icons.py:115-285 | a proposal goes on only with valid bytes of the signed hash and a free slot |
| RegistrySteps.SetIconGate | registry_api/icons.py:614-728 | an upload goes on only if reused bytes are the submitted ones |
| AssetHistory.NextKeepsAsset | registry_api/issuer_actions.py:122-161 | every legal next action keeps fold, key chain, hash chain, time order, nonce uniqueness and source of an asset |
| AssetHistory.RegistrationStartsAsset | registry_api/v2_assets.py:136-176 | a registration row and its asset row satisfy the asset invariant |
| AssetHistory.RotationKeepsKeys | registry_api/issuer_actions.py:423-441 | a rotation keeps the key history a chain that covers every issuer entry with the key it carries |
| AssetHistory.KeyInForceIsUnique | registry_api/issuer_actions.py:423-441 | no audit number falls in two intervals of a key history |
| AssetHistory.LatestIsLastChained | registry_api/issuer_actions.py:525-531 | the lookup by descending audit number finds the last hashed entry |
| AssetHistory.SameHeadSameChain | registry_api/issuer_actions.py:534-548 | without a collision, equal head hashes mean equal payloads back to the nearest system entry |
| RegistryInvariants.StepShape | registry_api/issuer_actions.py:141-161 | every transaction logs one legal action on one asset, registers one, fills in references, or leaves assets and log alone |
| RegistryInvariants.RunKeepsCore | registry_api/issuer_actions.py:122-161 | after every run each asset satisfies its invariant and audit numbers ascend and are never shared by the two logs |
| RegistryTheorems.KeyInForceAlways | registry_api/issuer_actions.py:423-441 | always a gapless chain with one open interval holding the current key, and each issuer entry carries the key of the one interval covering it |
| RegistryTheorems.RotationBelongsToTheOldKey | registry_api/issuer_actions.py:423-441 | the rotation entry lies in the interval it closes, later entries in the one it opens |
| RegistryTheorems.StateIsTheFoldOfTheLog | registry_api/issuer_actions.py:216-246 | tags, venues, custom map, key and status always equal the fold of the asset's log |
| RegistryTheorems.RefusalChangesNothing | registry_api/issuer_actions.py:153-161 | a refused, replayed or rolled-back request changes no table; one audit number at most is spent |
| RegistryTheorems.AppliedActionChangesTheFold | registry_api/issuer_actions.py:249-318 | every applied issuer action changes the folded state |
| RegistryTheorems.FalseNoOpIff | registry_api/issuer_actions.py:275-291 | the no-op guard refuses a real change exactly when values differ as JSON but compare equal |
| RegistryTheorems.ChainAlwaysLinked | registry_api/issuer_actions.py:534-548 | each issuer entry names the hash of the hashed entry before it, every hash is that of its payload, and only a registration or one migration starts a segment |
| RegistryTheorems.LatestHashCommitsToTheChain | registry_api/issuer_actions.py:172-213 | two runs whose chains end in one hash agree on everything chained since the nearest system entry, unless a collision is shown |
| RegistryTheorems.LatestHashAlwaysServed | registry_api/issuer_actions.py:199-206 | the missing-hash error is unreachable and the hash served is the chain's last |
| RegistryTheorems.IssuerOrderAlways | registry_api/issuer_actions.py:460-470 | issuer timestamps ascend, nonces are unique, and the descending lookup sees the newest timestamp of an active asset |
| RegistryTheorems.NonceConflictWithoutANonce | registry_api/issuer_actions.py:153-159 | with an unused nonce, a nonce conflict is answered exactly for a cleared venue replacement that repeats a URL |
| RegistryTheorems.UsedNonceIff | registry_api/issuer_actions.py:108-120 | a used nonce returns its entry exactly when the two actions are equal, custom values as Python compares them, a conflict otherwise, and changes nothing |
| RegistryTheorems.DifferentActionMayReplay | registry_api/issuer_actions.py:110 | a different action can compare equal to the logged one |
| RegistryAnswers.IssuerAnswerExact | registry_api/issuer_actions.py:70-161 | after any run an unused nonce gets exactly this answer, read from the log: every refusal in its order, and applied exactly when the asset takes actions, the previous hash ends the chain, the time is in the window and no older than any issuer entry, the signature verifies under the key the log leaves current, the schema is current and the change is told |
| RegistryAnswers.ProposalAnswerExact | registry_api/icons.py:115-285 | the same for a proposal: valid bytes that hash as signed, no proposal waiting, another icon than the one the log last set; the bytes sent are what is stored |
| RegistryAnswers.LatestHashExact | registry_api/issuer_actions.py:172-213 | the hash of the last chained entry is served for exactly the active assets that take actions |
| RegistryAuthority.LogSigned | registry_api/issuer_actions.py:127-138 | after every run each signed entry has a signature that verifies under its own key for its payload, and no other entry has one |
| RegistryAuthority.SignedByTheKeyInForce | registry_api/issuer_actions.py:127-138 | each issuer action and legacy deregistration in the log verifies under the key of the one interval of the key history that covers it |
| RegistryAuthority.AdminEntryHadRight | registry_api/icons.py:784-811 | each admin entry was applied by an event before which its actor was an active key with root or the right of its operation |
| RegistryAuthority.ApprovedMigrationHadRight | registry_api/migration.py:22-34 | an approved migration was signed by an active key that may migrate, for that asset |
| RegistryAuthority.LifecycleHadRight | registry_api/admin_actions.py:409-415 | each lifecycle entry was submitted with a valid signature by an active key with root or, where root is on neither side of the change, the right to manage admins |
| RegistryAdminAnswers.DecisionAnswerExact | registry_api/icons.py:578-611 | in every state a decision gets exactly this answer, and is applied exactly for an active key that may review icons, with a valid signature, time and unused nonce, when a proposal of the hash waits; then that one is decided as asked and no other |
| RegistryAdminAnswers.SharedHashOrSameBytes | registry_api/icons.py:697-728 | an upload that may be used again has the bytes sent, unless two images share a hash |
| RegistryAdminAnswers.UploadAnswerExact | registry_api/icons.py:614-781 | the answer to an admin upload, its retries included, and what an applied one sets the icon to: the newest undecided upload of the bytes, approved, else the newest approved one, else a new one |
| RegistryAdminAnswers.AnnotationAnswerExact | registry_api/admin.py:49-168 | the answer to an annotation, forced delisting or relisting, its retries and the failed flush of a null included |
| RegistryAdminAnswers.MigrationAnswerExact | registry_api/migration.py:14-78 | the answer to a migration with or without an approval; a second one returns the first |
| RegistryAdminAnswers.DeletionAnswerExact | registry_api/legacy_assets.py:57-92 | a legacy deregistration is applied exactly when the signature verifies under the current key |
| RegistryAdminAnswers.RegistrationAnswerExact | registry_api/v2_assets.py:136-192 | the answer to a registration, and exactly the log row an applied one adds |
| RegistryAdminAnswers.LegacyRegistrationAnswerExact | registry_api/registration.py:86-127 | the same for a legacy registration |
| RegistryAdminAnswers.ImportAnswerExact | registry_api/legacy_icon_import.py:79-163 | the answer to the import of one icon, and what it adds |
| RegistryAdminAnswers.BackfillAnswerExact | registry_api/issuance_backfill.py:83-110 | references are filled in exactly when one is missing and none differs, deregistered rows included; no time moves |
| RegistryAdminAnswers.LifecycleAnswerExact | registry_api/admin_actions.py:62-116 | the answer to a lifecycle action, refusals and the rolled-back ones in their order, and exactly how an applied one leaves the keys |
| RegistrySamples.FalseNoOpHappens | registry_api/issuer_actions.py:280-291 | after a registration with 1, a valid signed action that sets true is answered as a no-op |
| RegistrySamples.NonceConflictHappens | registry_api/issuer_actions.py:153-159 | after a registration, a valid venue replacement with one URL twice is answered as a nonce conflict though no nonce was ever used |
| RegistrySamples.RenameWithoutEffectHappens | registry_api/admin_actions.py:341-346 | a run of bootstrap, add and remove after which a rename is logged and changes no key |
| RegistryIcons.FragmentsKept | registry_api/serialized_fragments.py:30-60 | a change confined to one asset leaves every other fragment fresh |
| RegistrySettles.StepSettles | registry_api/icons.py:288-300 | every transaction leaves the icon state of its asset in order and its fragment fresh, and touches no other asset |
| RegistrySettles.RunSettles | registry_api/serialized_fragments.py:30-60 | icons and fragments are in order after every run |
| RegistryRows.RunKeepsRowsDifferent | registry_api/models.py:158-172 | at most one active row per asset id and per domain and ticker |
| RegistryRows.AdminOrderAlways | registry_api/admin_actions.py:253-296 | each admin key's timestamps ascend in audit order across both logs, and it reuses no nonce within either |
| RegistryRows.LifecycleRetriesReplay | registry_api/admin_actions.py:78-87 | after any run, resubmitting any logged lifecycle action of an active admin returns the original entry and changes nothing |
| RegistryRows.RuledAlways | registry_api/admin_actions.py:45-116 | after bootstrap every reachable registry has an active root and a chain of authority back to genesis |
| RegistryPublishing.IconsAlways | registry_api/icons.py:261-285 | one waiting proposal at most, an active icon is the asset's own approved upload with bytes of its hash, a deregistered asset has nothing current |
| RegistryPublishing.DecisionsAreFinal | registry_api/icons.py:921-934 | a status moves only from pending, only rejection drops bytes, obsolete stays obsolete |
| RegistryPublishing.IconUrlStaysServed | registry_api/icons.py:999-1056 | a content-addressed icon once served is served for ever with bytes of that hash, whatever happens to the asset |
| RegistryPublishing.FragmentsAlwaysFresh | registry_api/serialized_fragments.py:30-60 | every active asset is cached and every cached fragment is the fresh serialisation; what that shows is `RegistryDocuments.DocumentsAlways` |
| RegistryDocuments.DocumentsAlways | registry_api/v2_assets.py:421-452 | after every run, for each asset cached or not, both documents show field by field what its log says: the registration, folded state, key chain from the registered key to the current one, folded annotations and icon, the newest admin entry; and the issuance and time of the row |
| RegistryDocuments.UpdatedAtIsLastTouch | registry_api/admin.py:220-229 | the time shown is that of the last event that applied an action to the asset |
| RegistryDocuments.IssuanceIsLastReferences | registry_api/issuance_backfill.py:83-110 | the issuance shown is what registered the asset or the backfill that last filled it |
| RegistryPublishing.DeregisteredFragmentIff | registry_api/issuance_backfill.py:83-110 | a deregistered asset has a fragment exactly when, after its deregistration, a backfill found a reference missing and none that differs |
| RegistryPublishing.DeregisteredFragmentHappens | registry_api/issuance_backfill.py:83-110 | such a run |
| RegistryPublishing.ListingNeedsNoCache | registry_api/serialized_fragments.py:97-139 | the fast listing equals the listing computed without a cache |
| RegistryPublishing.ActiveListingKeysDiffer | registry_api/serialized_fragments.py:97-119 | a listing of active rows never repeats a key |
| RegistryPublishing.FullListingRepeatsIff | registry_api/serialized_fragments.py:122-139 | the full listing repeats a key exactly when some registration passed its guards while a deregistered row of its id was in the table |
| RegistryPublishing.FullListingMayRepeat | registry_api/serialized_fragments.py:122-139 | a run after which two rows of the full listing share an asset id |
| RegistryPublishing.RetriesAlwaysReplay | registry_api/issuer_actions.py:107-115 | resubmitting any logged action or proposal of an active asset returns its entry, changes nothing and never misses its proposal |
| RegistryPublishing.UsedProposalNonceIff | registry_api/icons.py:225-258 | a proposal with a used nonce returns its entry exactly when the two actions are equal, a conflict otherwise, and changes nothing |
| RegistryFolds.CuratedAlways | registry_api/admin.py:99-118 | each asset's annotations and current icon always equal the fold of its log |
| RegistryFolds.ShownIconIsLogged | registry_api/icons.py:957-972 | the icon shown is the one the log last set, and none after deregistration |
| RegistryFolds.StepEdits | registry_api/icons.py:731-781 | every applied entry edits its asset as the entry alone says |
| RegistryFolds.AnnotationsAsAsked | registry_api/admin.py:99-118 | an applied annotation action changes something, sets the fields it names and leaves the rest; asking for the same again is a no-op |
| RegistryFolds.AppliedAnnotationIsPublished | registry_api/admin.py:99-124 | after any run, an applied annotation is in the asset's cached fragment at once, stamped with its action, and repeating it would be refused |
| RegistryViews.AuditSearchIsExact | registry_api/audit.py:37-93 | on the registry's own logs a search returns the first matches in order after every run, and their newest number |
| RegistryViews.IconKeysAscend | registry_api/icons.py:1127-1141 | the icon query's rows have strictly ascending keys after every run |
| RegistryTables.ReplaceChildren | registry_api/issuer_actions.py:328-339 | the asset has exactly the new child rows, every other asset what it had |
| RegistryTables.DeleteAttribute | registry_api/issuer_actions.py:414-419 | exactly the asset's rows of that name are gone |
| RegistryTables.RotateHistory | registry_api/issuer_actions.py:426-441 | closing the open row and adding one is the rotation of a gapless chain |
| RegistryTables.FlushVenues | registry_api/issuer_actions.py:354-364 | inserting venues one by one fails exactly when a URL repeats |
| RegistryTables.ObsoleteProposals | registry_api/icons.py:937-954 | every current proposal of the asset is made obsolete, all others stay |
| RegistrySession.Registry.ApplyAction | registry_api/issuer_actions.py:216-246 | the row-by-row effect of each operation is its effect on the assembled asset, all other assets unchanged |
| RegistrySession.Registry.SubmitIssuerAction | registry_api/issuer_actions.py:50-169 | the session's steps, with the rollback, are the issuer transaction, which is the one of `RegistryAnswers.IssuerAnswerExact` |
| RegistrySession.Registry.SubmitIconProposal | registry_api/icons.py:115-170 | the session's steps are the proposal transaction (`RegistryAnswers.ProposalAnswerExact`) |
| RegistrySession.Registry.DecideIconProposal | registry_api/icons.py:578-611 | the session's steps are the decision transaction (`RegistryAdminAnswers.DecisionAnswerExact`) |
| RegistrySession.Registry.SetAdminIcon | registry_api/icons.py:614-661 | the session's steps are the upload transaction, reusing or adding a proposal (`RegistryAdminAnswers.UploadAnswerExact`) |
| RegistrySession.Registry.AnnotateAsset | registry_api/admin.py:82-168 | the session's steps are the annotation transaction, the failed flush included (`RegistryAdminAnswers.AnnotationAnswerExact`) |
| RegistrySession.Registry.DeregisterLegacy | registry_api/legacy_assets.py:57-92 | the session's steps are the legacy deregistration |
| RegistrySession.Registry.MigrateAssetToV2 | registry_api/migration.py:14-78 | the session's steps are the migration |
| RegistrySession.Registry.RegisterV2 | registry_api/v2_assets.py:136-192 | the session's inserts, with the rollback, are the registration |
| RegistrySession.Registry.RegisterLegacy | registry_api/registration.py:86-127 | the session's inserts are the legacy registration |
| RegistrySession.Registry.BackfillIssuance | registry_api/issuance_backfill.py:83-110 | one asset of the backfill |
| RegistrySession.Registry.ImportLegacyIcon | registry_api/legacy_icon_import.py:79-163 | an import of a map with one icon, judged and written (`RegistryImport.BatchOfOne`) |
| RegistrySession.Registry.Follow | registry_api/issuer_actions.py:50-169 | a session in the state of a run, given the next request, is in the state of the longer run and answers as it does |
| RegistrySession.Serve | registry_api/issuer_actions.py:50-169 | from the empty registry a session serving any requests is in the state of that run |
| RegistrySession.ReachableIsChained | registry_api/issuer_actions.py:426-435 | in every reachable state closing the one open interval is enough |
| RegistryImport.ImportLegacyIcons | registry_api/legacy_icon_import.py:79-167 | the two loops judge every entry against the tables as they were and write all prepared icons or nothing |
| RegistryImport.BatchOfOne | registry_api/legacy_icon_import.py:79-163 | a batch of one entry leaves what the single import leaves |
| RegistryImport.BatchRefusedIff | registry_api/legacy_icon_import.py:79-129 | refused exactly when an icon is invalid, differs from a current one, or belongs to no active asset and none is to be skipped; then, and in a rehearsal, nothing changes; every entry is counted once |
| RegistryImport.BatchIsOneByOneIff | registry_api/legacy_icon_import.py:79-163 | a committed batch is the import of its entries one at a time exactly when no asset is planned twice |
| RegistryImport.BatchIsRun | registry_api/legacy_icon_import.py:131-163 | after any run such a batch leaves the state of the longer run of single imports |
| RegistryImport.BatchKeepsInvariants | registry_api/legacy_icon_import.py:131-163 | any batch after any run, one that plans an asset twice included, keeps every asset's invariant, the icon states and every fragment fresh |
| RegistryImport.RepeatedEntryHappens | registry_api/legacy_icon_import.py:43-57 | two keys that name one asset are both imported |
| ConditionalRead.NextVersionMovesOn | migrations/versions/0015_asset_registry_version.py:62-67 | a version is the earliest whole second that is no earlier than the clock's and a second past the last committed one |
| ConditionalRead.CommitTriggers | migrations/versions/0015_asset_registry_version.py:55-70 | however many rows change, one transaction assigns one version, its first |
| ConditionalRead.FireMovesOn | migrations/versions/0015_asset_registry_version.py:49-70 | in every run, a writer that gets the row lock takes exactly that version from the last one committed |
| ConditionalRead.PrepareAssetRead | registry_api/api/asset_cache.py:32-90 | 304 exactly for one usable date, without If-None-Match, from the version up to but not including the current second; Last-Modified is the version if it is past and the second before otherwise; nothing for an unknown version |
| ConditionalRead.NextSound | migrations/versions/0015_asset_registry_version.py:49-82 | every event keeps versions a second apart in commit order and each answer tied to its snapshot |
| ConditionalRead.EchoIsExact | registry_api/api/asset_cache.py:42-90 | an echoed date gets 304 exactly when nothing committed since, the date was not pulled back and is past, and then the body held is current |
| ConditionalRead.DateIsExact | registry_api/api/asset_cache.py:75-90 | every answer of every run gives 304 exactly when the asset is there, its snapshot has a version before the current second, and the date sent lies from that version up to but not including that second |
| ConditionalRead.LastModifiedIsPast | registry_api/api/asset_cache.py:66-74 | Last-Modified is always a whole second before the current one: the version seen, if past, otherwise the second before |
| ConditionalRead.LastModifiedNeverDecreases | registry_api/api/asset_cache.py:66-74 | while the clock does not go back, a later answer never shows an older date |
| ConditionalRead.VersionsPersist | migrations/versions/0015_asset_registry_version.py:49-82 | what a run has committed begins what any longer run has committed |
| ConditionalRead.ProtocolPromises | registry_api/api/asset_cache.py:32-90 | in every interleaving: exact 304s, whole past dates, no decrease, and versions that name states |
| ProofPolicy.PermitsConserved | registry_api/http_clients.py:78-156 | over every interleaving of the calls' programs, resets and configurations the counts are the permits out, domains stay within the limit, and neither release error occurs, though the machine releases whenever told to |
| ProofPolicy.OthersLeaveCall | registry_api/http_clients.py:477-516 | whatever other threads do leaves a call's permit, its releases and its place in its program alone |
| ProofPolicy.NextStepEnabled | registry_api/http_clients.py:477-516 | the next lock acquisition of a call's program can be made at any time, and makes no error |
| ProofPolicy.ReleasedExactlyOnce | registry_api/http_clients.py:499-516 | a call whose program has ended, the late exit of a timed-out worker included, has released exactly once, and before that not at all |
| ProofPolicy.SecondReleaseBreaks | registry_api/http_clients.py:143-144 | a second release would raise: nothing but the programs prevents it |
| ProofPolicy.AdmitConserves | registry_api/http_clients.py:78-127 | an admission, pruning and record eviction included, keeps every count equal to the permits out |
| ProofPolicy.ReleaseConserves | registry_api/http_clients.py:139-151 | a release takes one off the count and off its domain's share |
| ProofPolicy.AdmitWithinMaximum | registry_api/http_clients.py:81-89 | a success leaves the count within the configured maximum |
| ProofPolicy.IsAllowedIsExact | registry_api/http_clients.py:158-177 | the read-only check is what an admission would answer, global limits aside |
| ProofHistory.PruningIsInvisible | registry_api/http_clients.py:179-204 | over whole histories, every client configuring the policy again and resets included, answers are those of the policy that never forgets, a capacity refusal aside |
| ProofHistory.TwiceTheQuota | registry_api/http_clients.py:93-121 | any half-open interval of one window holds at most twice the quota |
| ProofHistory.CooldownHolds | registry_api/http_clients.py:104-113 | no admission succeeds within the cooldown after a failure |
| ProofHistory.AdmissionExact | registry_api/http_clients.py:78-127 | from the permits out, the failures marked and the admissions made: too many concurrent exactly at the maximum; below it, no lack of room, cooling down exactly when a failure of the domain is younger than a positive cooldown, else spent exactly when its current window holds a positive quota of admissions, else admitted; the read-only check likewise |
| ProofHistory.CapacityExact | registry_api/http_clients.py:195-204 | a domain is turned away for want of room exactly when it is not tracked and 10,000 tracked ones are still needed |
| ProofHistory.ResetForgets | registry_api/http_clients.py:206-212 | after a reset the next admission of any domain succeeds, whatever came before |
| ProofHistory.AdmissionsAreCalls | registry_api/http_clients.py:118-127 | the admissions counted are the permits issued since the process started or was last reset, in order |
| ProofHistory.SameRulesStaySteady | registry_api/http_clients.py:292-297 | a client that configures the rules in force again, as each does, keeps the history among those covered and forgets nothing seen |
| ProofHistory.ResetAllowsNewRules | registry_api/http_clients.py:206-212 | after a reset any rules may be configured, whatever permits are still out |
| ProofFetch.ProofFetchPolicy.Admit | registry_api/http_clients.py:78-127 | the in-place admission is the policy's, whose answers are those of `ProofHistory.AdmissionExact` and `ProofHistory.CapacityExact` |
| ProofFetch.ProofFetchPolicy.PruneLocked | registry_api/http_clients.py:179-193 | the two loops delete exactly the stale records |
| ProofFetch.ProofFetchPolicy.IsAllowedNow | registry_api/http_clients.py:158-177 | the read-only check in place is the policy's (`ProofHistory.AdmissionExact`) |
| ProofFetch.Process.Finish | registry_api/http_clients.py:153-156 | a failed call is marked and then released, a successful one released, other threads acting in between; the release makes no error |
| ProofFetch.Process.RunBounded | registry_api/http_clients.py:477-516 | however the worker ends and whatever other threads do at each of its turns for the lock, the call performs its program in order with no release error, marks its domain exactly when the worker does not return, and has released once when it returns, or left exactly that release to its worker |
| ProofFetch.Process.WorkerExit | registry_api/http_clients.py:505-507 | the late release of a timed-out call is made without error and is its one release |
| RateLimit.SlidingWindowLimiter.TryAllow | registry_api/rate_limit.py:32-55 | the in-place decision is the policy's; a limit of zero allows all |
| RateLimit.SlidingWindowLimiter.PruneLocked | registry_api/rate_limit.py:57-71 | the loops expire every queue and drop exactly the empty ones |
| RateLimit.AgreesWithNaive | registry_api/rate_limit.py:32-55 | from the history of allowed events alone: no room exactly for a client without a live event while 10,000 others have one; otherwise allowed exactly below the limit within the window |
| RateLimit.AtMostLimitPerWindow | registry_api/rate_limit.py:50-53 | any half-open window holds at most the limit of one client's allowed events |
| RateLimit.CapacityRefusalIsNeeded | registry_api/rate_limit.py:40-47 | at most 10,000 clients are tracked, and a capacity refusal means 10,000 others each have a live event |
| Audit.SearchIsPrefix | registry_api/audit.py:58-93 | cutting, merging, sorting and cutting again is taking the first of the ordered union of matches, and the cursor is the newest number among them |
| Audit.EverythingListsMatches | registry_api/audit.py:127-168 | the two filters together select exactly the rows the query describes |
| Audit.CursorLeavesTheRest | registry_api/audit.py:90-93 | after an ascending page the cursor leaves exactly the rest |
| Audit.FollowPages | registry_api/audit.py:90-93 | following the cursor ascending returns every match once, in order, and stops |
| Audit.DescendingCursorSkips | registry_api/audit.py:90-93 | following it descending finds an empty page, so all is seen exactly when one page holds all |
| Audit.DescendingCursorMisses | registry_api/audit.py:90-93 | two rows and pages of one: the second page is empty and the older row is never seen |
| IconMap.StreamIconMap | registry_api/icons.py:1120-1167 | the output parses to strictly ascending members that denote the fallbacks overridden by the rows |
| IconMap.StreamWithFallback | registry_api/icons.py:1143-1167 | the same from an unsorted fallback map |
| IconMap.ParsesBack | registry_api/icons.py:1175-1182 | commas placed by the first flag give an object that parses back |
| IconMap.IterJsonObject | registry_api/serialized_fragments.py:142-153 | the streamed listing parses back to its members |
| Coalescing.Coalesce | registry_api/serialized_fragments.py:156-175 | same bytes, no empty output, oversize outputs are whole inputs, neighbours exceed the target together |
| Coalescing.FewChunks | registry_api/serialized_fragments.py:156-175 | the number of outputs is bounded by about twice the total over the target |
| JsonDepth.JsonDepthValidator.Feed | registry_api/security.py:210-228 | one chunk scanned in place is the byte-by-byte scan |
| JsonDepth.ScanAppend | registry_api/security.py:203-228 | scanning in two pieces is scanning the whole |
| JsonDepth.ValidateMessages | registry_api/security.py:122-141 | in any chunking the verdict is that of the joined body; a maximum of zero switches the check off |
| JsonDepth.RejectsExactlyTooDeep | registry_api/security.py:203-228 | every JSON text is rejected exactly when nested deeper than the maximum, and otherwise ends at depth 0 outside a string |
| ContractRepair.RegisteredContract | migrations/legacy_contract_repair.py:61-123 | the sole matching candidate, or the reason there is none |
| ContractRepair.CandidatesExact | migrations/legacy_contract_repair.py:82-106 | exactly these are tried: the stored contract with its other nulls kept, or all dropped, and any of the two optional keys that it, or where it lacks the key the request, has as null |
| ContractRepair.FoundIsRegistered | migrations/legacy_contract_repair.py:107-123 | a contract that is found derives the asset id, or has the recorded hash where the issuance output is unknown |
| ContractRepair.FoundIsStored | migrations/legacy_contract_repair.py:61-81 | what is found is the stored contract up to nulls, with the original issuer key put back for a fixed testnet asset; only such an asset without an issuer key is an error |
| ContractRepair.OnlyNullsDiffer | migrations/legacy_contract_repair.py:88-102 | a candidate differs from the stored contract only in which null keys are there |
| ContractRepair.RerunFindsTheSame | migrations/legacy_contract_repair.py:61-123 | on the corrected payload the search finds the same contract and corrects nothing |
| ContractRepair.RepairNullsInPlace | migrations/legacy_contract_repair.py:126-137 | the two loops compute the repair |
| ContractRepair.RepairNullsExact | migrations/legacy_contract_repair.py:126-137 | the result has exactly the registered null keys, loses no other value, invents none, and is a fixed point |
| ContractRepair.RepairRow | migrations/legacy_contract_repair.py:171-229 | one asset's rows, rewritten or skipped |
| ContractRepair.RepairAgrees | migrations/legacy_contract_repair.py:171-229 | a row is left alone exactly when its contract cannot be told or a hash-chained action would change; otherwise payload, hash, extra fields and both fragments agree with the registered contract, nulls and issuer key included |
| ContractRepair.RepairIsIdempotent | migrations/legacy_contract_repair.py:171-229 | a second run changes no row |
| ContractRepair.RepairAll | migrations/legacy_contract_repair.py:140-253 | for any batch size each asset is visited once, in order, and repaired once |

## Left out

- Interleaved transactions for issuer and admin actions: the code takes no lock on the asset, so the chain properties are claimed for serial transactions only.
- Chain, domain and registration proofs, and the schema, size and encoding checks of requests: they decide whether a request reaches the modelled part.
- Network, TLS, DNS, threads and HTTP streaming; of a bounded call only its permit events are kept.
- HTTP-date syntax: a usable date is an integer time, an unusable one is absent.
- Signature, hash, asset-derivation and image code: functions given from outside.
- created_at, the per-row updated_by columns and the receipt times of actions: no modelled decision reads them.
- JSON text of fragments: a fragment is the value its text is written from, and equal text is equality of values.
- Malformed registration payloads in the contract repair: a payload is taken as well-typed, and a row with a malformed one is skipped by the code before anything here applies.
- ProofHistory.TwiceTheQuota: a change of cooldown, quota or window is admitted only while nothing is tracked, and starts the count afresh as a reset does, because a change of window mid-run redefines the interval; the service configures the same three values before every fetch.
- AdminGovernance.RootComesFromARoot: speaks of one change; the chain over runs is RegistryRows.RuledAlways.
- RegistrySession.Registry.ChangeAdmins: assigns the admin tables as one value; their row-by-row changes are AdminSession's.
- RegistrySession.Registry: the guards of a request only read, and are called as functions of the tables; what is refined statement by statement is what is written, rolled back and committed.
- RegistrySteps.ReplayAdmin: an admin action is its typed value, while the code compares parsed JSON, in which one value may be spelled in two ways; a retry spelled otherwise may be a nonce conflict there.
- SDK, settings, OpenAPI, search filters and pagination of listings, shadow traffic and scripts: wrappers and single-branch checks that would add only easy members.
