# A verified model of the ACC to Databricks connector

The connector copies Autodesk Construction Cloud exports into Databricks. This project models the
parts of it that are hard to get right by reading one function at a time, and proves what they keep
over every run. It is plain Dafny: `dafny verify dfyconfig.toml` checks all of it.

Protocols that several threads, workers or requests take part in are state machines: a `State`, a
`Step` a participant can take, `Do` for one step and `Run` for any sequence of them. The main results
speak about every run. Code that changes one object in place is a class whose methods are proved
equal to a step of the same machine, or to the specification function the theorems are about; the
table of refresh locks, which no machine shares, states its own guarantee.

| module | models |
|---|---|
| `ConnectionIdentity`, `PyText` | connection ids, claim owners, workspace keys, and the few string methods they use |
| `CatalogClaims` | the `catalog_claims` table and its transactions (SQLite) |
| `ClaimSystem`, `ClaimRaces`, `BootstrapRuns`, `ExclusivityIff`, `OwnershipCheck` | all users and connections that claim catalogs, statement by statement |
| `TokenRefresh`, `TokenAnswers`, `TokenSafety` | refresh of single-use Databricks tokens (section 6 of RFC 6749) |
| `PkRegistry`, `RegistryGate` | the primary-key registry MERGE and its hash gate |
| `SchemaEvolution` | reconciling a Bronze table with schema.json |
| `SchemaResolution` | which schema, and which of the two pipelines, a CSV belongs to |
| `BronzeRun` | the loop over the CSVs, its counters and the heartbeat sweep |
| `CdcSchedule` | the headless CDC tick with enable and disable |
| `AutoSyncTimers` | the in-memory daily timers |
| `ProvisioningLease` | the expiring claim on creating a hub's robot |
| `BulkDownloader`, `DownloadTask`, `SharedTargets` | the download pool, its retries, `_SUCCESS` and the clean-up |
| `Polling` | polling a workflow run or a pipeline update with an idle timeout |
| `PipelineNaming` | names of the provisioned artifacts |

SHA-256 is any injective function for connection ids, and any function into eight characters for
artifact names. Clocks, answers of servers, and outcomes of syncs and bootstraps are parameters of the
steps.

## What the proofs brought out

- Catalog exclusivity holds in every reachable state, across both sign-in paths, releases, resets,
  deletes and the backfill, and it is known exactly for which targets: those that keep their workspace key
  when their URL is stored, and of which no two share an id and a workspace but not the catalog
  (`ExclusivityIff.ExclusiveIffSeparate`). Targets without `|` in hub, project and URL whose URL has no
  space before its last slashes are such. A `|` in a URL path, or such a space, can break it, and there
  is a run for each.
- The ownership check before a sync lasts exactly as long as the user holds the catalog; on a free one
  it is worth nothing (`OwnershipCheck.OwnershipLastsIff`). The tick of an automatic sync re-reads its
  timer table but not that check.
- "A user provisions one catalog at a time" is kept by every step except the backfill of claims, which
  runs at start-up and again on `/reset` (backend/routes/acc_routes.py:139-141);
  `ClaimRaces.BackfillOnePerOwnerIff` says exactly when the backfill of a bootstrap keeps it.
- A bootstrap that fails ends its claim exactly if no snapshot pipeline was on it when the claim was taken,
  even if it made one itself (`BootstrapRuns.FailureReleasesIff`). Deleting a connection frees its row but
  not its catalog (`BootstrapRuns.DeletedStillHolds`).
- Single use of refresh tokens holds exactly under three conditions (`TokenSafety.SafeIff`). There is
  one worker process: the lock is one lock per process, and
  docs/New architecture/Web hosting and CICD/STAGING_HOSTING_GUIDE.md:310 sets up two. Every answer
  that burns a token brings a new one and arrives. And the sign-in callback, which stores the same
  tokens before and after it validates the workspace, does so the second time less than the lifetime
  minus 60 seconds after the first. For each condition that fails there is a run from the empty state
  in which a burned token is presented.
- The hash gate of the registry sync is sound exactly when no two files give a table different columns,
  or there is one project in the catalog and no sync is cut off (`RegistryGate.GateSoundIff`). The code
  compares the digest of any project of the catalog, and stores a digest only after the last batch.
- The column diff recorded by the gate is computed against the already reconciled struct, so its
  lists of absent columns and of kept types are always empty, whatever was absent or kept
  (`SchemaEvolution.SecondPass`, `BronzeRun.RecordedDiffIsPartial`). An update that finds schema.json
  unchanged hands on the raw types and drops the columns an earlier update had kept
  (`SchemaEvolution.UnchangedUpdateLosesColumn`).
- No table is ever registered by both pipelines. Beyond the service groups, two pipelines that load the
  registry at different times can only disagree on the schema of a file if two schema names differ in
  case alone or one extends the other with an underscore (`SchemaResolution.ResolutionsAgreeIff`).
- Two manifest items with one target are counted as two files downloaded, and the run succeeds
  (`SharedTargets.CompleteIffDistinct`).
- Stopping and starting an automatic sync while its tick is running leaves two timers
  (`AutoSyncTimers.RestartDoubles`). Disabling headless CDC is undone by a running tick
  exactly when it has the connection on its list still (`CdcSchedule.DisableSticksIff`). A robot claim released late clears the
  claim of the worker that took over (`ProvisioningLease.LateReleaseClearsSuccessor`).

## Model

| member | source | states |
|---|---|---|
| ConnectionIdentity.IdDeterminesTarget | backend/services/m2m/connection_identity.py:16-46 | two targets get the same id exactly when their normalised quadruples are equal, provided hub, project and URL contain no bar; the catalog may |
| ConnectionIdentity.BarsCollide | backend/services/m2m/connection_identity.py:44 | without that condition different normalised targets share an id, whatever the digest |
| ConnectionIdentity.ClaimOwnerInjective | backend/services/m2m/connection_service.py:78-85 | equal claim owners come from equal connection ids |
| ConnectionIdentity.NormalizeKeepsKey | backend/repositories/state/catalog_claim_repository.py:28-41 | storing a URL normalised is idempotent exactly when its normal form does not end in a space, and then it keeps the workspace key; spaces elsewhere do no harm |
| ConnectionIdentity.EndSpaceLosesKey | backend/repositories/state/catalog_claim_repository.py:36-41 | for every host, the URL of that host with a space before its last slash whose stored form has no workspace key although it had one |
| ConnectionIdentity.TrailingSlash | backend/repositories/state/catalog_claim_repository.py:31-36 | one more slash changes neither the normal form nor the key of a URL that does not end in a space |
| ConnectionIdentity.KeyOfHost | backend/repositories/state/catalog_claim_repository.py:28-41 | with any scheme or none, in any case, and with a path, a query or a fragment right after it, the host in lower case is the key |
| CatalogClaims.ClaimEffect | backend/repositories/state/catalog_claim_repository.py:116-130 | the claim transaction succeeds exactly when nobody else holds the catalog; it then moves the owner's one claim of that workspace there, under a new id, and changes nobody else's; the unique index is kept |
| CatalogClaims.ClaimOnePerOwner | backend/repositories/state/catalog_claim_repository.py:116-120 | claiming keeps one active claim per owner and workspace |
| CatalogClaims.ReleaseOwnerEffect | backend/repositories/state/catalog_claim_repository.py:117-120 | the UPDATE ends exactly the claims of one owner in one workspace |
| CatalogClaims.InsertEffect | backend/repositories/state/database.py:136-138 | an INSERT the partial unique index accepts adds exactly one holder and keeps the index |
| CatalogClaims.HolderIs | backend/repositories/state/database.py:136-138 | who holds a catalog is unique |
| CatalogClaims.ReleaseEverywhereEffect | backend/repositories/state/catalog_claim_repository.py:149-156 | the release takes every catalog from one owner and none from anybody else, keeps the rows, and keeps the unique index |
| CatalogClaims.DeleteOwnerEffect | backend/repositories/state/user_repository.py:22-24 | the reset takes every catalog from one owner and none from anybody else, leaves no row of that owner and every other row as it was |
| CatalogClaims.ReleaseEffect | backend/repositories/state/catalog_claim_repository.py:139-146 | the holders after a release are exactly those before it except on the catalog of that claim; the unique index is kept |
| CatalogClaims.MarkEffect | backend/repositories/state/catalog_claim_repository.py:169-187 | noting a snapshot pipeline id on a claim changes no holder and no other row |
| CatalogClaims.BackfillEffect | backend/repositories/state/database.py:624-655 | exactly who holds a catalog after the backfill: who held it before, or, if it was free and has a workspace, the user of the first bootstrap stored for it |
| CatalogClaims.BackfillProvisions | backend/repositories/state/database.py:641-655 | no claim that was there changes, and a new one is active and provisioned exactly if that first bootstrap was |
| CatalogClaims.ClaimStore.GetActiveClaim | backend/repositories/state/catalog_claim_repository.py:44-53 | finds the active claim of a catalog if and only if there is one |
| CatalogClaims.ClaimStore.ClaimCatalog | backend/repositories/state/catalog_claim_repository.py:90-136 | with any writes of others between the SELECT and the transaction: rejects blank arguments; is locked exactly when somebody else holds the catalog at the SELECT or at the INSERT, and then the table is as the others left it, the caller's previous claim included; the holder asking again gets the claim it has |
| CatalogClaims.ClaimStore.ReleaseClaim | backend/repositories/state/catalog_claim_repository.py:139-146 | ends that claim, so that its owner no longer holds its catalog by it, and changes no other holder; says whether it was active |
| CatalogClaims.ClaimStore.ReleaseUserClaims | backend/repositories/state/catalog_claim_repository.py:149-156 | of the holders exactly the others are left; says how many claims it ended |
| CatalogClaims.ClaimStore.ResetUser | backend/repositories/state/user_repository.py:15-24 | of the holders exactly the others are left, and no row of the user |
| CatalogClaims.ClaimStore.BackfillCatalogClaims | backend/repositories/state/database.py:624-655 | inserts a claim, provisioned if the bootstrap was, for every stored bootstrap whose catalog is free at its turn, in order, and keeps the unique index |
| CatalogClaims.ClaimStore.OwnsCatalog | backend/repositories/state/catalog_claim_repository.py:189-199 | true unless another user holds the catalog; an unclaimed catalog is everybody's |
| ClaimSystem.SeparateIsExclusive | backend/services/m2m/connection_service.py:78-151 | in every reachable state of any interleaving that creates connections only for targets that keep their key and do not clash: every connection's own owner holds its catalog, so no two connections share one, no user holds it, and no user whose ownership check passes aims at it |
| ClaimSystem.CatalogExclusivity | backend/services/m2m/connection_service.py:78-151 | so it is for all targets without bars in hub, project and URL whose normalised URL does not end in a space |
| ClaimSystem.RunKeepsInv | backend/routes/bootstrap_routes.py:57-81 | the invariant behind it, over any sequence of statements of connection calls, bootstraps and their releases on failure, resets, backfills and deletes |
| ClaimSystem.AuthenticFunctional | backend/services/m2m/connection_service.py:78-97 | an id names one catalog in each workspace |
| ClaimSystem.ConnectionClaimKeeps | backend/services/m2m/connection_service.py:88-101 | a claim for a connection, also in a race of the same owner that re-inserts the claim, keeps what every connection holds and gives the connection its catalog |
| ClaimSystem.UserClaimKeeps | backend/routes/bootstrap_routes.py:57-63 | a user's claim never takes a catalog from a connection |
| ClaimSystem.BackfillKeeps | backend/repositories/state/database.py:595-659 | the backfill never takes a catalog from a connection |
| ClaimSystem.UserRowsKeep | backend/repositories/state/user_repository.py:22-24 | releasing or deleting one user's claims keeps those of every connection |
| ClaimSystem.InsertRowSound | backend/repositories/state/connection_repository.py:57-78 | inserting a connection row, or losing the race for it, leaves every row with its claim |
| ExclusivityIff.ExclusiveIffSeparate | backend/services/m2m/connection_service.py:104-151 | for any set of stripped targets: exclusivity holds in all runs that create connections for them if and only if each that can be claimed keeps its key when stored and no two share an id and a workspace but not the catalog |
| ExclusivityIff.UnstableBreaks | backend/repositories/state/connection_repository.py:69-77 | a target that does not keep its key: one call ends with a connection whose owner does not hold it |
| ExclusivityIff.ClashBreaks | backend/services/m2m/connection_service.py:132-149 | two targets that clash: two racing calls end with a connection whose catalog is free for anybody |
| ExclusivityIff.BarsBreakExclusivity | backend/services/m2m/connection_identity.py:44 | such a run for a bar in a URL path, whatever the digest |
| ExclusivityIff.SpaceBreaksExclusivity | backend/repositories/state/catalog_claim_repository.py:36-41 | such a run for a URL with a space before its last slash, for every host |
| ClaimRaces.OneWinnerPerTarget | backend/services/m2m/connection_service.py:117-151 | without deletes, for any targets, an id has a row exactly when a call answered for it, and exactly one call answers resumed=False |
| ClaimRaces.ConflictIsOwnRow | backend/repositories/state/database.py:215-231 | the unique quadruple refuses an INSERT exactly when the primary key does |
| ClaimRaces.RefusedIffRival | backend/services/m2m/connection_service.py:88-101 | in every reachable state, for any targets, a claim statement of a connection refuses exactly when another owner holds the catalog at that moment, and changes nothing then |
| ClaimRaces.ResumeNeverRefused | backend/services/m2m/connection_service.py:119-125 | for targets that keep their key and do not clash, resuming an existing row is never refused |
| ClaimRaces.OnlyTheOwnerEndsAClaim | backend/routes/bootstrap_routes.py:75-79 | a step that ends an owner's claim is a step of that owner |
| ClaimRaces.OneClaimPerOwner | backend/repositories/state/catalog_claim_repository.py:92-97 | leaving the backfill aside, no owner ever has two active claims in one workspace |
| ClaimRaces.BackfillOnePerOwnerIff | backend/repositories/state/database.py:624-659 | the backfill keeps that exactly when the catalog is taken or the user holds nothing in the workspace |
| ClaimRaces.OwnershipIsMomentary | backend/routes/sync_routes.py:52-74 | a check that passes on an unclaimed catalog fails for every user one statement later |
| BootstrapRuns.WorkerTakes | backend/routes/bootstrap_routes.py:57-66 | a claim statement of a bootstrap refuses exactly when another owner holds the catalog; a bootstrap that gets its claim has an active claim of its user on that catalog, marked unprovisioned exactly if no snapshot pipeline id is on it |
| BootstrapRuns.FailureReleasesIff | backend/routes/bootstrap_routes.py:69-81 | whatever runs in between: a bootstrap that fails ends its claim if and only if no snapshot pipeline id was on it when it was taken, takes no catalog from anybody else, and one that succeeds ends nothing |
| BootstrapRuns.ProvisionedStays | backend/routes/bootstrap_routes.py:65-79 | once a worker has noted a snapshot pipeline, the next bootstrap of that user on the catalog keeps the claim even if it fails |
| BootstrapRuns.BootstrapAlone | backend/routes/bootstrap_routes.py:57-66 | a bootstrap nothing comes between: refused, without a change, exactly by a rival; otherwise its user holds the catalog, gives up only its own other claims of the workspace, and nobody else is affected |
| BootstrapRuns.CallAlone | backend/services/m2m/connection_service.py:104-151 | a create_or_resume call nothing comes between, in one piece: fails exactly for a blank part or a URL without a key, is refused exactly by a rival, both without a change; otherwise ends connected and holding, resumed exactly if there was a row, with its target stored exactly if there was none |
| BootstrapRuns.CreateAlone | backend/routes/connection_routes.py:118-124 | so it is, in every reachable state, for what the client sent, stripped |
| BootstrapRuns.RetakeAlone | backend/services/m2m/connection_service.py:88-101 | claiming again for a stored row: refused, without a change, exactly by a rival, else its owner holds its catalog |
| BootstrapRuns.LoserAdopts | backend/services/m2m/connection_service.py:142-149 | a call that loses the race for its row changes nothing and answers resumed, unless the row has been deleted by then |
| BootstrapRuns.CrashThenRetry | backend/services/m2m/connection_service.py:112-116 | a call that dies between claim and row does not lock its target: the same call again connects |
| BootstrapRuns.OwnerStepsEffect | backend/repositories/state/user_repository.py:22-24 | exactly who holds a catalog after a reset, a release of everything and a start-up |
| BootstrapRuns.DeletedStillHolds | backend/repositories/state/connection_repository.py:182-199 | deleting a connection leaves its claim, so everybody else is still refused its catalog |
| OwnershipCheck.OwnershipLastsIff | backend/routes/sync_routes.py:52-74 | a check that passes goes on passing in every run without a step of that user if and only if the user holds the catalog |
| TokenRefresh.NoBurnedTokenPresented | backend/utils/databricks_auth.py:83-166 | with one process, answers that replace what they burn and prompt callbacks, no interleaving of any number of threads and sign-ins presents a burned token, or any token before the saved ones count as expiring |
| TokenRefresh.TokensAreSingleUse | backend/utils/databricks_auth.py:99-110 | with a server that rotates every time no token is presented twice |
| TokenRefresh.QuietAfterSave | backend/repositories/state/token_repository.py:93-111 | from a save until expires_in - 60 seconds later nothing is presented, absent a new sign-in, so a burst of threads makes one exchange |
| TokenAnswers.AnswerIff | backend/utils/databricks_auth.py:92-118 | a step that ends a call answers well if and only if there is a record that is good for more than 60 seconds, or, right after a save, any record; and never if the server refused |
| TokenAnswers.EndsIff | backend/utils/databricks_auth.py:92-148 | exactly which steps end a call |
| TokenAnswers.EndsUnlock | backend/utils/databricks_auth.py:101-110 | a call that ends inside the lock frees it, whichever way it ends |
| TokenAnswers.GoodRecordAnswers | backend/utils/databricks_auth.py:92-108 | a call that finds a record good for more than 60 seconds, outside the lock or inside it, answers well and presents nothing |
| TokenAnswers.ExpiredIsPresented | backend/utils/databricks_auth.py:104-121 | inside the lock, exactly an expired record with a refresh token is presented, with that token |
| TokenAnswers.ExchangedEndsWell | backend/utils/databricks_auth.py:149-166 | a call whose exchange brought tokens never answers badly, whatever runs beside it, unless the user disconnects; its next two steps end it with those tokens stored |
| TokenAnswers.DisconnectAnswersBadly | backend/utils/databricks_auth.py:166 | a disconnect between the save and the read is the way to lose it |
| TokenAnswers.WaitersAreServed | backend/utils/databricks_auth.py:99-108 | a call that waited for the lock while another one saved answers well and presents nothing |
| TokenRefresh.ExchangeKeeps | backend/utils/databricks_auth.py:113-166 | every answer that burns nothing or replaces what it burns keeps the protocol's invariant |
| TokenRefresh.CallbackAgainKeeps | backend/routes/databricks_routes.py:222-239 | the second save of a callback keeps it when it is prompt |
| TokenSafety.SafeIff | backend/utils/databricks_auth.py:83-166 | for any set of processes, of token lifetimes, of answers and of delays of a second save: no run presents a burned or an early token if and only if there is one process, every answer replaces what it burns, and every second save comes less than the lifetime minus 60 seconds after the first |
| TokenSafety.TwoWorkersPresentTwice | backend/utils/databricks_auth.py:23-33 | with two processes, for every lifetime, a run from the empty state presents a burned token |
| TokenSafety.LostAnswerPresentsAgain | backend/utils/databricks_auth.py:133-154 | so does one with an answer that burns the token and is lost |
| TokenSafety.SilentBurnPresentsAgain | backend/utils/databricks_auth.py:155-164 | so does one with an answer that burns the token without a new one in it |
| TokenSafety.LateCallbackRevivesToken | backend/routes/databricks_routes.py:222-239 | so does one in which a second save comes the lifetime minus 60 seconds after the first, or later, for every lifetime and every such delay |
| TokenRefresh.RefreshLocks.GetRefreshLock | backend/utils/databricks_auth.py:27-33 | one lock per user, made once, never replaced and shared with nobody |
| PkRegistry.MergeEffect | notebooks/shared/acc_pipeline_common.py:549-575 | a MERGE writes exactly the listed keys, leaves unlisted rows as they were and removes nothing; what a listed key ends with is `ListedEndsWith` |
| PkRegistry.ListedEndsWith | notebooks/shared/acc_pipeline_common.py:564-572 | a listed table ends with the listed columns, marked explicit, unless an operator set its row, which stays |
| PkRegistry.KeepsValueIff | notebooks/shared/acc_pipeline_common.py:30-34 | a listed row keeps its value if and only if its source is neither auto_position_1 nor explicit_pk_config, or it agrees already |
| PkRegistry.DiscoveredGetsListed | notebooks/shared/acc_pipeline_common.py:486-577 | over runs: a table discovered first and listed later ends, after a completed sync that is not skipped, with its listed columns, whatever is synced, cut off or discovered between and as long as no operator takes it over |
| PkRegistry.SyncSkipsIff | notebooks/shared/acc_pipeline_common.py:474-577 | a sync leaves everything exactly when the digest is stored and the registry not empty, or the file has no row; otherwise it stores its digest and brings every listed table in |
| PkRegistry.FixedPointIff | notebooks/shared/acc_pipeline_common.py:30-34 | a MERGE changes nothing exactly when every listed key is there, curated or already explicit with those columns |
| PkRegistry.MergeTwice | notebooks/shared/acc_pipeline_common.py:549-575 | merging the same file twice is merging it once |
| PkRegistry.CutThenRerun | notebooks/shared/acc_pipeline_common.py:549-577 | a sync cut off anywhere and run again with the same file ends where an uninterrupted one does |
| PkRegistry.GateIsSound | notebooks/shared/acc_pipeline_common.py:486-488 | over any run of completed syncs, discoveries and operator overrides of one project, the gated registry equals the one merged every time |
| RegistryGate.GateSoundIff | notebooks/shared/acc_pipeline_common.py:474-577 | for any set of files, any set of projects, and syncs that may be cut off or not: from empty tables the gated registry equals the one merged every time in every run, whichever project's digest is compared, if and only if no two files give a table different columns, or there is one project and no sync is cut off |
| RegistryGate.GateFooled | notebooks/shared/acc_pipeline_common.py:486-488 | otherwise three syncs show it: the first file, the second one for another project or cut off before its digest is stored, and the first again |
| PkRegistry.CuratedRowsStay | notebooks/shared/acc_pipeline_common.py:525-527 | no sync and no discovery ever changes a curated row |
| PkRegistry.DiscoverKeepsApplied | notebooks/shared/acc_pipeline_common.py:392-409 | discovery keeps a stored digest applied |
| PkRegistry.GateAfterCutIff | notebooks/shared/acc_pipeline_common.py:474-488 | after one cut sync of another file, skipping the old one is right exactly when every row written is curated, unlisted in the old file or listed with the same columns |
| PkRegistry.CutOfAnotherFileFoolsGate | notebooks/shared/acc_pipeline_common.py:486-488 | two files of one table for which it is wrong |
| PkRegistry.TwoProjectsFoolGate | notebooks/shared/acc_pipeline_common.py:474-480 | two projects in one catalog for which the gate is wrong |
| PkRegistry.MetaTables.SeedFromConfig | notebooks/shared/acc_pipeline_common.py:445-577 | the sync in batches of 50, stopped after any of them, is the gated sync or a prefix of its MERGE without the digest |
| PkRegistry.MetaTables.InsertRegistryRow | notebooks/shared/acc_pipeline_common.py:392-409 | adds at most one row, changes none, and whatever file the stored digest names, it stays applied |
| SchemaEvolution.BuildEvolvedSchema | notebooks/shared/acc_pipeline_common.py:320-372 | the two loops return exactly the reconciled struct and the column diff of the specification, which `EndsWithType` and `DiffReports` describe; a missing table takes schema.json as it is |
| SchemaEvolution.WidensIff | notebooks/shared/acc_pipeline_common.py:292-298 | what is widened, by the types: an integer to a wider one by bits, every number but a tinyint to a double, an int to a float, and nothing else |
| SchemaEvolution.EndsWithType | notebooks/shared/acc_pipeline_common.py:335-366 | a column of the table ends with the wanted type if and only if that is its type or a wider one in this sense, and otherwise keeps its own; a new column takes the wanted type |
| SchemaEvolution.DiffReports | notebooks/shared/acc_pipeline_common.py:335-368 | exactly which columns the diff reports as added, absent, widened and kept, with both types |
| SchemaEvolution.EvolvedUnique | notebooks/shared/acc_pipeline_common.py:332-366 | no column doubles |
| SchemaEvolution.NothingIsLost | notebooks/shared/acc_pipeline_common.py:335-366 | the columns afterwards are those of the table and of schema.json, and an existing column keeps its type or is safely widened |
| SchemaEvolution.WideningClimbs | notebooks/shared/acc_pipeline_common.py:292-298 | every safe widening climbs a rank from 0 to 4 |
| SchemaEvolution.HistoryIsMonotone | notebooks/shared/acc_pipeline_common.py:320-372 | over any run of reconciling updates a column never disappears or doubles and changes type at most four times |
| SchemaEvolution.SecondPass | notebooks/shared/acc_pipeline_common.py:988-999 | reconciling the reconciled struct returns it; the diff repeats added and widened columns and never lists absent or kept ones |
| SchemaEvolution.Stable | notebooks/shared/acc_pipeline_common.py:320-372 | the same schema.json changes the table it produced no further |
| SchemaEvolution.SkippingHarmlessIff | notebooks/shared/acc_pipeline_common.py:375-389 | skipping the reconciliation is harmless exactly when nothing is absent and nothing is kept old |
| SchemaEvolution.UnchangedUpdateLosesColumn | notebooks/shared/acc_pipeline_common.py:379-380 | a dropped column survives the update that notices it and is gone from the next one |
| SchemaResolution.LongestMatch | notebooks/shared/acc_pipeline_common.py:609-619 | the longest known schema that prefixes the stem with an underscore, if any does |
| SchemaResolution.SplitIs | notebooks/shared/acc_pipeline_common.py:609-619 | a stem splits into a known schema and the rest that joins back to it, or is `unknown` exactly when no known schema matches |
| SchemaResolution.SplitInvertsJoinIff | notebooks/shared/acc_pipeline_common.py:609-619 | splitting inverts joining for all tables exactly when no known schema extends another with an underscore |
| SchemaResolution.SplitsAgreeIff | notebooks/shared/acc_pipeline_common.py:609-619 | for any set of names: whatever subsets of it are known, every stem splits to the same schema or to `unknown` if and only if no name extends another with an underscore |
| SchemaResolution.ResolutionAgrees | notebooks/shared/acc_pipeline_common.py:950-964 | two registries over schema names that differ in more than case and do not extend one another resolve a file to the same schema, or one does not know it |
| SchemaResolution.ResolutionsAgreeIff | notebooks/shared/acc_pipeline_common.py:585-619 | and that is exact: any two registries over a set of names agree on every file if and only if the names are so |
| SchemaResolution.ExtensionDisagrees | notebooks/shared/service_groups_config.py:39-49 | two names of which one extends the other split one stem differently |
| SchemaResolution.PlainAreSeparated | notebooks/shared/service_groups_config.py:10-28 | lower-case names without underscores, such as the service groups, meet that condition |
| SchemaResolution.NeverBothPipelines | notebooks/acc_snapshot_pipeline.py:54-61 | no table is ever registered by both pipelines, whatever the registry holds and whenever each loads it |
| BronzeRun.GateAccepts | notebooks/auto_cdc_pipeline.py:753-788 | a registered table passes exactly when its key columns are in the header; a found table is keyed on a column it has and always passes; when a table is found is `FoundIff` |
| BronzeRun.StatusIff | notebooks/auto_cdc_pipeline.py:712-847 | each of the statuses has its exact condition on the header, the registry and the known schemas |
| BronzeRun.FoundIff | notebooks/auto_cdc_pipeline.py:762-776 | a table is found if and only if it is unregistered, of a known schema and has a first column, which becomes its key |
| BronzeRun.RegistryAfterRun | notebooks/auto_cdc_pipeline.py:774-776 | the registry after a run, exactly: what was there, and every table some CSV found, under the first column of the first such CSV |
| BronzeRun.NewTableIsRegistered | notebooks/auto_cdc_pipeline.py:753-847 | after a run a table with one CSV has the status of its gate, stamped by the run; a new table of a known schema with a first column is in the registry under that column with status ok |
| BronzeRun.RecordedDiffIsPartial | notebooks/auto_cdc_pipeline.py:790-802 | the diff recorded for a table never lists absent columns or kept types, and lists all added and widened ones exactly if the table passes while schema.json has changed |
| BronzeRun.HeartbeatIsComplete | notebooks/auto_cdc_pipeline.py:868-919 | after the run every registry row carries this run's stamp, rows the loop wrote are as it wrote them, swept rows keep their diff, other rows are untouched |
| BronzeRun.CountsAddUp | notebooks/auto_cdc_pipeline.py:1204-1220 | the six counters sum to the CSVs plus the swept rows |
| BronzeRun.EachCounter | notebooks/auto_cdc_pipeline.py:717-846 | each status counter is raised by the number of CSVs that ended so, that of skipped tables also by the swept rows |
| BronzeRun.FoundCounter | notebooks/auto_cdc_pipeline.py:637-649 | the counters of discovered tables and of schema changes count the CSVs that found a table or have a diff |
| BronzeRun.KeysAreKept | notebooks/auto_cdc_pipeline.py:774-776 | a run adds only tables it found and never changes a registered key |
| BronzeRun.LoopStatus | notebooks/auto_cdc_pipeline.py:1204-1218 | the status of a table after the loop is the last one written for it, or the one before the run |
| BronzeRun.Run.RegisterTable | notebooks/auto_cdc_pipeline.py:712-847 | every way out writes one status, with its diff, for the name the file resolves to and raises one counter, as the gate specification says whose conditions are `StatusIff` and `FoundIff` |
| BronzeRun.Run.ResolveSchemaTable | notebooks/auto_cdc_pipeline.py:850-859 | the name the main loop marks as processed is the one the gate writes a status for |
| BronzeRun.Run.SweepHeartbeat | notebooks/auto_cdc_pipeline.py:868-921 | stamps exactly the registry rows without a CSV and counts them |
| BronzeRun.Run.RunPipeline | notebooks/auto_cdc_pipeline.py:1204-1220 | the loop and the sweep compute the run that the results on runs above are about |
| CdcSchedule.AttemptsAreDaily | backend/services/m2m/scheduler.py:31-61 | however requests fall between and into ticks, two attempts on one connection belong to ticks at least 24 hours apart, their syncs begin 24 hours apart less the time the first tick had been running, and an enabled connection always has a next run |
| CdcSchedule.OffStaysOff | backend/services/m2m/connection_service.py:211-214 | a connection that is off and on no running tick's list stays off, is on no due list and is not attempted until enabled |
| CdcSchedule.DisableSticksIff | backend/services/m2m/scheduler.py:32-50 | a disabled connection stays off in every run without an enable if and only if no running tick has it on its list |
| CdcSchedule.DisableUndoneMidTick | backend/services/m2m/scheduler.py:48-50 | a disable just before the tick reaches the connection is undone exactly when it is not busy |
| CdcSchedule.EnableIff | backend/services/m2m/connection_service.py:175-208 | each refusal has its exact condition, in order, and changes nothing; an enabled connection is due exactly from 24 hours later on |
| CdcSchedule.ListedIff | backend/repositories/state/connection_repository.py:162-179 | a tick lists exactly the ready, enabled connections with a service principal whose next run is unset or has come |
| CdcSchedule.TurnPlansNext | backend/services/m2m/scheduler.py:35-50 | a connection whose turn comes is attempted exactly if it is not busy and is then due exactly from 24 hours after the tick began; nobody else notices |
| CdcSchedule.BarredIsNeverAttempted | backend/repositories/state/connection_repository.py:165-167 | over any run, a connection that is not ready or has no service principal, and is on no running tick's list, is never attempted until that is changed |
| CdcSchedule.TickEnds | backend/services/m2m/scheduler.py:32-43 | a tick that finds all connections busy ends without a change |
| CdcSchedule.ConnectionStore.ScheduledCdcTick | backend/services/m2m/scheduler.py:24-61 | each due connection lands in exactly one of started, skipped and failed, whatever the others do, and the next run is claimed for all that were not busy |
| CdcSchedule.TickIsARun | backend/services/m2m/scheduler.py:35-50 | a tick that is left alone is a run of the tick steps, with the rows the loop ends with |
| CdcSchedule.ConnectionStore.ListDueForCdc | backend/repositories/state/connection_repository.py:162-179 | exactly the ready, enabled connections with a service principal whose time has come, each once, in order of their next run |
| CdcSchedule.ConnectionStore.EnableCdc | backend/services/m2m/connection_service.py:175-208 | refused without a change for an unknown connection, one not ready, one without a service principal, or a failed probe, in that order |
| CdcSchedule.ConnectionStore.DisableCdc | backend/repositories/state/connection_repository.py:146-159 | no due list of any time holds the connection any more, and no other row changes |
| AutoSyncTimers.RegisteredIsAlive | backend/routes/sync_routes.py:101-187 | in every interleaving a registered key has an armed timer or a tick in progress |
| AutoSyncTimers.ExactlyOne | backend/routes/sync_routes.py:101-187 | it has exactly one as long as no key is started while a tick of it runs |
| AutoSyncTimers.StartKeepsSingleIff | backend/routes/sync_routes.py:104-118 | a start keeps that exactly when no tick of the key is in progress |
| AutoSyncTimers.RestartDoubles | backend/routes/sync_routes.py:177-187 | stop, start and the end of a running tick leave two armed timers |
| AutoSyncTimers.RestartDoublesFromStart | backend/routes/sync_routes.py:101-187 | such a run from the empty table |
| AutoSyncTimers.UnregisteredTickEnds | backend/routes/sync_routes.py:162-164 | a tick that finds its key unregistered syncs nothing and arms nothing |
| AutoSyncTimers.StoppedStaysStopped | backend/routes/sync_routes.py:127-140 | after a stop no further sync of the key begins until it is started again, whatever is left over |
| AutoSyncTimers.DailyCycle | backend/routes/sync_routes.py:159-187 | a timer of a registered key that fires syncs once and is replaced by exactly one armed and registered timer |
| AutoSyncTimers.StopCancels | backend/routes/sync_routes.py:127-140 | a stop takes the key out of the table and its timer away if that is armed still |
| AutoSyncTimers.Timers.StartAutoSync | backend/routes/sync_routes.py:101-124 | arms and registers one timer unless the key is registered |
| AutoSyncTimers.Timers.StopAutoSync | backend/routes/sync_routes.py:127-140 | unregisters the key and cancels its timer if that has not fired |
| AutoSyncTimers.Timers.StopAllForUser | backend/routes/sync_routes.py:143-156 | stops every key of one user, counts them, and touches nobody else's timers |
| ProvisioningLease.MutualExclusion | backend/repositories/state/tenant_repository.py:97-125 | if every holder releases within 300 seconds, no two workers hold the claim and the stored time is the holder's own |
| ProvisioningLease.ClaimIff | backend/repositories/state/tenant_repository.py:107-118 | a claim succeeds exactly if none is stored or the stored one is more than 300 seconds old, and stores its own time |
| ProvisioningLease.ClaimLasts | backend/repositories/state/tenant_repository.py:107-118 | over any run without a release, a claim stays as it was made and nobody gets in until 300 seconds have passed |
| ProvisioningLease.SecondHolderIff | backend/repositories/state/tenant_repository.py:110-118 | a second worker gets in exactly when the holder has overstayed |
| ProvisioningLease.DeadHolderExpires | backend/repositories/state/tenant_repository.py:107-118 | a dead worker's claim can be taken over just after 300 seconds and not before |
| ProvisioningLease.LateReleaseClearsSuccessor | backend/repositories/state/tenant_repository.py:121-125 | a late release clears the successor's claim and lets a third worker in |
| ProvisioningLease.TenantStore.TryClaimProvisioning | backend/repositories/state/tenant_repository.py:100-118 | is the claim step of the machine for its hub and a new attempt; an unknown hub is never claimed and no other hub notices |
| ProvisioningLease.TenantStore.ReleaseProvisioning | backend/repositories/state/tenant_repository.py:121-125 | is the release step of the machine for its hub when the attempt holds the claim; no other hub notices |
| BulkDownloader.AllOrNothing | notebooks/bulk_downloader.py:190-230 | every interleaving ends with every target holding exactly the one answer that succeeded after retryable ones, a `_SUCCESS` that counts them all and the right byte total, or with the directory removed; and it aborts only if a task failed or something outside the tasks did |
| BulkDownloader.SentinelMeansComplete | notebooks/bulk_downloader.py:206-213 | wherever a new `_SUCCESS` is seen, every file is complete |
| BulkDownloader.WorkersAreGone | notebooks/bulk_downloader.py:192-230 | past the pool no worker step changes anything, so clean-up never runs beside a writer |
| BulkDownloader.NeverStuck | notebooks/bulk_downloader.py:192-230 | in every reachable state some thread can still move until the run has ended |
| BulkDownloader.EndIsFinal | notebooks/bulk_downloader.py:219-230 | nothing changes once the run has ended |
| BulkDownloader.LostNeverSucceeds | notebooks/bulk_downloader.py:193-230 | a run that is interrupted or collects a failed task never succeeds, however it goes on |
| BulkDownloader.TaskStepExplained | notebooks/bulk_downloader.py:141-178 | the state of a task follows from its answers: three attempts, retry on 5xx and network errors only, fail at once on anything else |
| BulkDownloader.TaskStepKept | notebooks/bulk_downloader.py:153-160 | the file of a task holds what the current attempt wrote and nothing of an earlier one |
| SharedTargets.CompleteIffDistinct | notebooks/bulk_downloader.py:190-230 | every run that succeeds has every file downloaded if and only if the targets are pairwise distinct and none is that of `_SUCCESS` |
| SharedTargets.SharedTargetLosesOne | notebooks/bulk_downloader.py:154 | otherwise a run from the start succeeds, counts all files and leaves one that is not what was downloaded |
| DownloadTask.Volume.WriteStream | notebooks/bulk_downloader.py:153-158 | truncates, then writes the chunks of one answer in order, and counts their bytes |
| DownloadTask.Volume.DownloadOne | notebooks/bulk_downloader.py:136-178 | for any answers, returns the first success within three attempts with its bytes, a fast failure, or exhaustion; no other file changes |
| DownloadTask.DownloadIsARun | notebooks/bulk_downloader.py:136-178 | that loop is a run of the pool's task steps: same file, same answers used, same end |
| DownloadTask.OutcomeIff | notebooks/bulk_downloader.py:141-178 | exactly which answers end a download well, at once badly, or exhausted, by their kinds |
| DownloadTask.Retried | notebooks/bulk_downloader.py:162-176 | the answers before the first one that is not retried |
| Polling.PollWorkflowRun | backend/clients/databricks_client.py:1006-1066 | returns only at a terminal state, times out only when nothing changed for max_wait_min minutes, and polls at most 1 + 2 * max_wait_min times the changes seen |
| Polling.PollPipelineUpdate | backend/clients/databricks_client.py:1198-1222 | the same with 1 + 4 * max_wait_min |
| Polling.WorkflowEnds | backend/clients/databricks_client.py:1053-1066 | what the end of a workflow poll means: the result, or else the state, of the first terminal answer, with at most 1 + 2 * max_wait_min polls for each change |
| Polling.UpdateEnds | backend/clients/databricks_client.py:1198-1222 | the same for a pipeline update with 1 + 4 * max_wait_min |
| Polling.TimeoutMeansQuiet | backend/clients/databricks_client.py:1006-1066 | a timeout comes only after the same answer for 60 seconds times max_wait_min |
| Polling.BoundIsMet | backend/clients/databricks_client.py:1006-1037 | the bound is reached, at either rate, by a run that never changes after its first answer |
| PipelineNaming.NamesCollideIff | backend/services/pipeline_naming.py:25-68 | two artifact names are equal exactly for the same role of the same catalog, or of two catalogs over 40 characters that agree in 40 characters and in the short digest |
| PipelineNaming.ShortCatalogsAreApart | backend/services/pipeline_naming.py:34-37 | a catalog of at most 40 characters shares no artifact with any other |

## Left out

- The Postgres backend: its integrity error is another type and its isolation differs.
- HTTP, OAuth redirects, screens, Spark, DLT, encryption and secret stores; syncs, bootstraps and probes are steps that succeed or fail.
- SHA-256 and `urlparse` beyond an injective function and the authority part (section 3.2 of RFC 3986); `str.lower` beyond ASCII.
- That a download run ends: it cannot get stuck and asks for each file at most three times, but how long an answer goes on is up to the server.
- Of the claims and connections: timestamps, artifact columns other than whether a snapshot pipeline exists, project names and onboarding states; the other tables `reset_user` empties; the marker that keeps a user from starting two bootstraps at once (the model lets users do so, which is more than the code allows).
- CatalogClaims.ClaimStore.BackfillCatalogClaims: the claim id the code notes on the bootstrap row is not modelled; the method and the machine take any list of bootstraps, so the code's filter on rows without a claim id only narrows what they allow.
- ClaimSystem.SeparateIsExclusive: assumes that user ids do not start with `cnx:`.
- TokenRefresh.NoBurnedTokenPresented: one user; the other users have locks of their own.
- RegistryGate.GateSoundIff: operators write curated rows and delete none.
- SchemaEvolution.HistoryIsMonotone: speaks of reconciling updates only; the update that skips the reconciliation is `SchemaEvolution.SkippingHarmlessIff`. Catalog types are taken to parse.
- BronzeRun.HeartbeatIsComplete: assumes that MERGE statements succeed; the code logs and goes on when one fails. Error messages and recorded headers are not modelled.
- CdcSchedule.AttemptsAreDaily: ticks do not overlap.
- SharedTargets.CompleteIffDistinct: two workers that write one file at the same time are not modelled; the run that breaks it downloads the items one after the other. Removal is atomic, and a failed removal leaves the directory as it is. A body that ends early without an error counts as complete, as it does in the code. The manifest checks before the pool starts are not modelled.
- BulkDownloader.WorkersAreGone: the main thread is not interrupted while it waits for the pool to end. Such an interrupt reaches the clean-up with workers still writing, and what they then leave depends on the file system.
- AutoSyncTimers.StoppedStaysStopped: one process, as are all results on the timers. The table is one per process, so with two a stop reaches only the timers of the process it runs in.
- ClaimRaces.OneClaimPerOwner: leaves the backfill aside, wherever it runs.
- ProvisioningLease.TenantStore.TryClaimProvisioning: an attempt claims once and with the default stale time, as its only caller does.
- The near-copies `auto_cdc_cdc_pipeline.py` and `seed_registry.py`, and the branches of `acc_delta_cdc_pipeline.py` that return without a status.
