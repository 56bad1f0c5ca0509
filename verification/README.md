# Verified models of the Honua Python SDK

Dafny models of the stateful cores of the Honua Python SDK repository, its release and provenance
scripts and its ETL example, with proofs of what they promise. Each file is one module.

| file | what it models |
|---|---|
| `DependencyClosure.dfy` | the worklist that decides whether a set of wheels is exactly what was asked for (PEP 508 extras and markers, PEP 503 names) |
| `SiteCensus.dfy` | the finite census of an installed site against the wheels that explain it (PEP 376 RECORD) |
| `InstallLineage.dfy` | the verifier of an ordered run of pip steps |
| `VerifiedSteps.dfy` | what that verifier's acceptance says of each step, item by item |
| `UndeclaredSources.dfy` | what that verifier guarantees of source packages, and when |
| `PlainInstalls.dfy`, `AdminAlone.dfy` | inventories pip leaves of the simplest wheels, and an accepted run made of them |
| `FeatureStore.dfy` | a remote feature store as the edit probes may assume it: truthful queries, batches that change only what they name, everything else allowed to go wrong |
| `ConformanceEdits.dfy` | the conformance edit protocol: seed, refused batch, accepted batch, cleanup |
| `EditCertificate.dfy` | what a normal return of that protocol certifies, field by field |
| `SmokeRoundTrip.dfy` | the smoke edit round trip and its error reporting |
| `OwnedContainers.dfy` | the life of the containers a governed run creates, and of its scratch directory |
| `EtlUpsert.dfy` | validation, upsert planning and application in the geospatial ETL |
| `ClientClones.dfy` | trees of admin clients that share or own HTTP clients and transports, on the heap |
| `FieldCasing.dfy`, `OrderedDict.dfy` | camelCase and snake_case names, and the key maps built from them |
| `AdminModels.dfy`, `MigrationArtifacts.dfy` | recursive models and their API dictionaries |
| `Compatibility.dfy` | the version parser and the server compatibility gate |
| `CatalogWalk.dfy` | reading a paged catalog to its end |
| `Certification.dfy` | from case results to an accepted release fragment |
| `Publication.dfy` | backoff, polling and hash parity after an upload |
| `Contents.dfy` | the table of contents generator |
| `Common.dfy`, `Sorting.dfy` | results, ordered listings and sorting used by the others |

Loops and objects of the source are methods and classes here, proved against specification functions
and predicates; the lemmas then say what those specifications mean. External systems are classes
(`Store`, `Daemon`, `Service`) whose contracts state what is assumed of them, with every failure the
callers must survive left open. Digests are arbitrary functions, injective only where a member says so.

## Where the code does not do what one would expect

Each of these is proved, as an exact condition or by a concrete witness.

- An interrupt during container cleanup is not an `Exception`, so `pending` stays false and the scratch
  directory is deleted with a container still there (`OwnedContainers.ScratchRuleIsSoundIff`,
  `OwnedContainers.InterruptedCleanupLosesScratch`).
- A distribution that is neither an active artifact nor a declared origin is counted in the census but
  held against no wheel (`SiteCensus.ExactnessIsGuaranteedIff`, `SiteCensus.UnheldDistributionsAreUnchecked`).
  In a verified run these are the source packages that no invocation declared
  (`UndeclaredSources.ContentsAreGuaranteedIff`): honua-sdk, when `pip install packages/honua-admin` takes it
  from the index (`AdminAlone.AcceptedWithAnUndeclaredSource`). It takes an offline report that does not
  name, as a file, all that the resolver report names: where each does and the backend is no source package,
  everything is guaranteed (`UndeclaredSources.FullReportsGuaranteeAll`).
- Selecting valid rows by label repeats rows when accepted rows share an index label, and pulls in a
  rejected row that shares an accepted row's label. `pd.read_csv` takes the first column for labels when
  the data rows have one field more than the header, so such frames can be read. The load is exact if and
  only if accepted labels are unshared (`EtlUpsert.HandedIsValidRowsIff`, `EtlUpsert.FirstLoadIsExactIff`;
  `EtlUpsert.TwinsAreDoubled`, `EtlUpsert.RejectedRowIsHandedOn`).
- A target row hidden by the pre-load filter is duplicated (`EtlUpsert.UidsStayUniqueIff`,
  `EtlUpsert.HiddenRowIsDuplicated`).
- The smoke probe notes the id of an add receipt before any readback, so a false receipt can delete any
  foreign row (`SmokeRoundTrip.DeletesSpareForeignRowsIff`, `SmokeRoundTrip.FalseReceiptLosesForeignRow`),
  and an interrupted probe loses the cleanup error (`SmokeRoundTrip.ExitOf`).
- One-letter name parts merge (`FieldCasing.RoundTripIff`, `FieldCasing.LoneLettersMerge`).
- A `None` in a list of models comes back as an empty list (`AdminModels.RoundTripIff`,
  `AdminModels.ReadsBackRefilled`, `MigrationArtifacts.MissingReferencesComeBackEmpty`).
- `render` drops a page when one path is given twice with different kinds (`Contents.EachPageOnceIff`,
  `Contents.SharedPathDropsAPage`). `collect` takes each relative path once, so the program never gives it
  such a list.
- A server that always claims one item more is asked for ever (`CatalogWalk.EndlessIsAskedOn`), and one that
  reports a page below zero makes the walk raise (`CatalogWalk.BackwardsIsRefused`).

## Model

| member | source | states |
|---|---|---|
| DependencyClosure.ReachedIsClosed | scripts/development_source_inputs.py:214-230 | the nodes reached from the requested roots through active requirements are closed under following active requirements, extras and markers included |
| DependencyClosure.ReachedIsLeast | scripts/development_source_inputs.py:214-230 | the reached nodes are contained in every closed set, so `Reached` is the least fixpoint |
| DependencyClosure.CompleteIff | scripts/development_source_inputs.py:214-232 | an environment is complete if and only if the requested values are satisfied, so is everything listed at the end of any chain of requirements, under the extra it was followed with, and every installed distribution ends a chain; a chain follows a requirement whose marker holds under each extra it names, or under none if it names none |
| DependencyClosure.PopKeepsInvariant | scripts/development_source_inputs.py:216-230 | popping any pending demand, accepted or refused, keeps: everything seen is reached, everything pending is owed, everything owed is pending or handled |
| DependencyClosure.SelectionKeepsInvariant | scripts/development_source_inputs.py:225-230 | adding the nodes of the selected extras with their parsed requirements keeps the invariant |
| DependencyClosure.EmptyWorklistDecides | scripts/development_source_inputs.py:231-232 | once nothing is pending, completeness of the environment is equality of the names seen and the names installed |
| DependencyClosure.AnyOrderGivesTheSameVerdict | scripts/development_source_inputs.py:214-232 | a finished run with pops in any order whatever accepts exactly the complete environments |
| DependencyClosure.EveryPopProgresses | scripts/development_source_inputs.py:216-230 | cycles included, every pop decreases one finite lexicographic measure, so every run ends |
| DependencyClosure.ParseDemands | scripts/development_source_inputs.py:214-214 | a list of requirement strings parses as a whole or not at all, and gives exactly the demands it states |
| DependencyClosure.CheckArtifact | scripts/development_source_inputs.py:204-212 | accepts exactly an artifact whose origin, digest and wheel metadata all agree with its record |
| DependencyClosure.Authenticate | scripts/development_source_inputs.py:203-213 | succeeds exactly when all artifacts are authentic and no name repeats, and then indexes them by name |
| DependencyClosure.Visit | scripts/development_source_inputs.py:225-230 | performs exactly the worklist step for a satisfied, active demand |
| DependencyClosure.PopLast | scripts/development_source_inputs.py:217-230 | one loop turn is exactly the abstract step on the last pending demand, on each of its exits |
| DependencyClosure.Traverse | scripts/development_source_inputs.py:214-232 | terminates, and accepts exactly the complete environments |
| DependencyClosure.ValidateClosure | scripts/development_source_inputs.py:202-232 | accepts if and only if the artifacts are authentic, every demand met on the way is satisfied without a direct URL, everything parses, and the names reached are the names installed |
| FeatureStore.Store.Query | scripts/_conformance_operations.py:151-156 | the assumption on readbacks: hits are real rows matching the filter, each once, all of them unless truncated at the limit |
| FeatureStore.Store.ApplyEdits | scripts/_conformance_operations.py:207-211 | the assumption on batches: any failure or partial commit may happen, but only named ids change and added rows get unused ids; receipts are true only on an honest server |
| FeatureStore.BatchSparesForeignRows | scripts/_conformance_operations.py:207-211 | a batch that names no foreign id and rewrites no description leaves every foreign row as it was, however the server misbehaves |
| FeatureStore.NoMarkerRowsMeansRestored | scripts/_conformance_operations.py:244-244 | when foreign rows are untouched and no marked row is left, the store is exactly what it was at the start |
| FeatureStore.OursAreNotForeign | scripts/_conformance_operations.py:158-170 | no row found under a fresh marker was there before the run |
| FeatureStore.Send | scripts/_conformance_operations.py:207-211 | sending such a batch keeps every foreign row, whatever the reply or fault |
| ConformanceEdits.Ours | scripts/_conformance_operations.py:158-170 | a successful readback is exactly the set of rows that carry the marker, every id positive; it fails when truncated, over four rows, repeated or naming an id that is not positive |
| ConformanceEdits.Readback | scripts/_conformance_operations.py:150-156 | a readback fails when the query raises or is truncated, and else gives real rows of the filter |
| ConformanceEdits.CheckRows | scripts/_conformance_operations.py:178-187 | a passing check means the marked rows are exactly the expected ids and each shows its authored attributes and point; on a conforming server showing them suffices |
| ConformanceEdits.Seed | scripts/_conformance_operations.py:194-202 | after seeding, foreign rows are untouched, and on success the two baseline rows are shown under two distinct ids that no row of the initial store had |
| ConformanceEdits.ConformingSeed | scripts/_conformance_operations.py:194-202 | an exact server's commit of the two adds presents the baseline under the reported ids |
| ConformanceEdits.SeededIds | scripts/_conformance_operations.py:196-201 | the ids accepted from receipts are positive, distinct, one per baseline fixture, and are the ids the reply reports |
| ConformanceEdits.RequireAbsent | scripts/_conformance_operations.py:203-204 | passes only when no row has the id that stands for the missing target |
| ConformanceEdits.SendNegative | scripts/_conformance_operations.py:207-218 | the negative batch touches no foreign row, and passes exactly when its reply is a refusal of the whole batch with error 1003 on the missing id |
| ConformanceEdits.Negative | scripts/_conformance_operations.py:203-219 | when the negative stage passes, the baseline rows are still exactly the marked ones and the missing id was not a row |
| ConformanceEdits.AddedId | scripts/_conformance_operations.py:227-233 | the added id is accepted only with the intended update and delete targets, positive, and different from every id in use |
| ConformanceEdits.SendPositive | scripts/_conformance_operations.py:221-233 | the positive batch touches no foreign row even if the add receipts of the seeding lied; on an exact server it presents the updated and added rows |
| ConformanceEdits.Positive | scripts/_conformance_operations.py:221-238 | when the positive stage passes, the marked rows are exactly the updated row and the added row, with the merged attributes |
| ConformanceEdits.OverriddenAttributes | scripts/_conformance_operations.py:234-235 | translating overridden fixture attributes equals overriding the translated attributes |
| ConformanceEdits.ConformingPositive | scripts/_conformance_operations.py:221-236 | on an exact server the positive batch gives accepted receipts and the expected rows |
| ConformanceEdits.ConformingRefusal | scripts/_conformance_operations.py:207-218 | an atomic server's refusal of a batch with a missing delete target satisfies every demand made of it and changes nothing |
| ConformanceEdits.Batches | scripts/_conformance_operations.py:203-238 | across both batches foreign rows survive every step, and success certifies the three replies and the state after each |
| ConformanceEdits.Attempt | scripts/_conformance_operations.py:193-238 | on every exit of the `try` body, at every step, foreign rows are untouched |
| ConformanceEdits.Cleanup | scripts/_conformance_operations.py:239-244 | the `finally` block deletes only marked rows; if it succeeds the store is exactly the initial one |
| ConformanceEdits.ApplyEdits | scripts/_conformance_operations.py:193-245 | whole run: foreign rows are spared after every batch on every exit; cleanup success restores the store; a cleanup fault replaces the outcome; a normal return certifies the seed receipts, the refusal with 1003, the commit receipts and the marked rows after each of the three; a conforming server with good fixtures gets one |
| EditCertificate.AuthoredIff | scripts/_conformance_operations.py:134-149 | the shape asked of the fixtures, field by field: two baseline rows of ids 7 and 42 in either order, rollback on both batches, deletes of 7 and 8 and one update in the refused one, one add, one update and the delete of 7 in the committed one |
| EditCertificate.ShowsIff | scripts/_conformance_operations.py:178-187 | a marked row passes the check exactly when it has the fixture's name and area and its point within 1e-8, the fixture having nothing else |
| EditCertificate.CertifiedMeans | scripts/_conformance_operations.py:193-245 | what a certificate says of the receipts and of the marked rows after each of the three batches, field by field: counts, targets, the 1003 on the missing id, each row's name, area and point within 1e-8, the merged attributes of the update |
| EditCertificate.CertifyEdits | scripts/_conformance_operations.py:193-245 | fixtures of another shape are refused before anything is sent; foreign rows survive every batch; a normal return carries that certificate and restores the store; a conforming server with fixtures that can be sent always gets one |
| SmokeRoundTrip.FirstSuccess | scripts/_smoke_harness.py:1657-1667 | the receipt used is the first of the list that reports success |
| SmokeRoundTrip.QuerySingle | scripts/_smoke_harness.py:1524-1541 | success means exactly one row has the run's description and it is the one returned |
| SmokeRoundTrip.FieldsAreShown | scripts/_smoke_harness.py:1600-1634 | a row passes the field check exactly when it has each expected field and its point is within a millionth of a degree |
| SmokeRoundTrip.Add | scripts/_smoke_harness.py:1310-1327 | the add changes no foreign row; with truthful receipts the id noted is a row of this run |
| SmokeRoundTrip.ReadAndUpdate | scripts/_smoke_harness.py:1329-1377 | reading back and updating changes no foreign row, and adds only ids of this run to the known ones; success means the one described row showed the added fields and point, and afterwards the updated ones |
| SmokeRoundTrip.UpdateRow | scripts/_smoke_harness.py:1347-1377 | success means the one described row, under the id that was read, shows every updated field and the updated point; a conforming server always makes it |
| SmokeRoundTrip.DeleteLeftovers | scripts/_smoke_harness.py:1419-1437 | deleting found and remembered ids spares foreign rows when none of the remembered ids is foreign; a conforming server leaves no described row |
| SmokeRoundTrip.Cleanup | scripts/_smoke_harness.py:1402-1457 | success means no described row is left; with known ids of this run only, it means the store is the initial one |
| SmokeRoundTrip.ExitOf | scripts/_smoke_harness.py:1378-1397 | when the probe and the cleanup both raise exceptions the probe's own error is raised, carrying the cleanup's; a cleanup failure goes unreported exactly when the probe was interrupted and the cleanup raised an exception |
| SmokeRoundTrip.Probe | scripts/_smoke_harness.py:1291-1399 | with truthful add receipts every foreign row survives every batch, and any exit with a successful cleanup leaves the store as it was; a conforming server makes the probe return; and whenever it returns, the row was there as added after the first batch and as updated after the second |
| SmokeRoundTrip.DeletesSpareForeignRowsIff | scripts/_smoke_harness.py:1425-1431 | a delete batch is safe against every permitted server behaviour exactly when none of its ids is foreign, which is why the noted id must be truthful |
| SmokeRoundTrip.FalseReceiptLosesForeignRow | scripts/_smoke_harness.py:1310-1437 | for every store and every foreign row: one add receipt that names that row is enough for permitted batches to delete it in a cleanup that succeeds |
| OwnedContainers.Daemon.Create | scripts/run_governed_source_inputs.py:328-328 | assumption: creation may raise and still have created one container with the owner's label |
| OwnedContainers.Daemon.Inspect | scripts/run_governed_source_inputs.py:205-208 | assumption: a report is true of its container at that moment |
| OwnedContainers.Daemon.Remove | scripts/run_governed_source_inputs.py:279-279 | assumption: removal may raise before or after removing, and answer anything |
| OwnedContainers.InspectValid | scripts/run_governed_source_inputs.py:205-230 | a validated observation is true, is the latest event, and matches the expected identity and mounts |
| OwnedContainers.WaitForTerminal | scripts/run_governed_source_inputs.py:238-246 | ends only when the container is observed not running, over any number of rounds, revalidating every observation |
| OwnedContainers.CaptureAction | scripts/run_governed_source_inputs.py:249-263 | success means the container was observed exited with real timestamps and code zero, whatever the attach returned |
| OwnedContainers.FindTerminal | scripts/run_governed_source_inputs.py:267-278 | finds the only container with the owner's label and returns only after seeing it exited or never started; a dutiful daemon always shows it, if it is in one of those states |
| OwnedContainers.RemovalAfterTerminalIsJustified | scripts/run_governed_source_inputs.py:275-279 | a removal right after a terminal observation keeps the log justified |
| OwnedContainers.CleanupOwned | scripts/run_governed_source_inputs.py:266-284 | on success no container of the owner is left, the one there was seen exited or never started, its removal was acknowledged under its own id, and no other container was removed; on failure nothing unjustified happened; each way to end leaves the containers `MayEnd` says; on a dutiful daemon whose container is as the owner expects it succeeds, whether it exited or was never started |
| OwnedContainers.CreateOwned | scripts/run_governed_source_inputs.py:328-330 | a failed creation leaves only containers labelled with the owner |
| OwnedContainers.StartAction | scripts/run_governed_source_inputs.py:328-334 | success gives a never-started report before and an exited, successful report after, of the same, only owned container |
| OwnedContainers.RunAction | scripts/run_governed_source_inputs.py:327-344 | cleanup runs on every exit; its failure replaces the outcome; success yields a record, of a container never used before, whose three observations match the expected identity and mounts and whose states the receipt checks accept |
| OwnedContainers.Execute | scripts/run_governed_source_inputs.py:307-349 | for every failure point and any number of wait rounds: removals are justified, foreign containers are kept, scratch is deleted only when no container of the run is left or the cleanup was interrupted, and success yields one accepted record per action in order, over distinct containers and owners, field by field; on a dutiful daemon it succeeds and deletes scratch |
| OwnedContainers.ScratchRuleIsSoundIff | scripts/run_governed_source_inputs.py:338-349 | over all ways a cleanup may end: deleting scratch never loses a container exactly when the cleanup raised nothing or an `Exception`; an interrupt is the failing case |
| OwnedContainers.InterruptedCleanupLosesScratch | scripts/run_governed_source_inputs.py:338-349 | wherever a container of the owner exists, an interrupted cleanup may leave one and scratch is deleted all the same |
| OwnedContainers.StoppedReportsAgree | scripts/run_governed_source_inputs.py:59-62 | two true reports of one stopped container have equal canonical forms, whatever order their mounts come in |
| OwnedContainers.MatchedMountsAreThePermutation | scripts/run_governed_source_inputs.py:218-230 | the length-and-set test means the bind mounts are the expected ones, each exactly once |
| OwnedContainers.MountsMatchIff | scripts/run_governed_source_inputs.py:218-230 | the mount test in terms of the daemon's rows: one for each expected bind, at most the private tmpfs besides, every expected bind there with its source, target and mode, and nothing else |
| OwnedContainers.RunAcceptedIff | scripts/run_governed_source_inputs.py:128-153 | a run's records are accepted if and only if there is one for each action in order, of distinct containers and owners, each of the expected identity and mounts, never started before, exited with code zero after, and in that same state, up to the order of mounts, at its cleanup |
| Sorting.SortedEqualIffPermutation | scripts/run_governed_source_inputs.py:59-62 | two mount lists sort alike exactly when one is a permutation of the other |
| ClientClones.CloseWrapped | packages/honua-sdk/honua_sdk/_retry.py:211-212 | closing a transport closes every inner transport it forwards to, and none behind a non-closing wrapper |
| ClientClones.AdminClient.Owning | packages/honua-admin/honua_admin/_client.py:238-250 | a constructed client owns a new HTTP client over the given transport, or over a new one |
| ClientClones.AdminClient.CopyOf | packages/honua-admin/honua_admin/_client.py:379-379 | a shallow copy has every field of the original, ownership included |
| ClientClones.AdminClient.Close | packages/honua-admin/honua_admin/_client.py:260-268 | an owner closes its HTTP client and transport; a non-owner changes nothing |
| ClientClones.AdminClient.WithOptions | packages/honua-admin/honua_admin/_client.py:322-387 | the clone's overrides are the given ones or the parent's; it owns a new client with the smaller timeout when a base URL or a smaller timeout is given, and otherwise shares without owning; a new client sends over the supplied transport, if there is one, to the clone's base URL, retrying as often as the original was built to |
| ClientClones.LeastIsTheMinimum | packages/honua-admin/honua_admin/_client.py:338-342 | the transport timeout along a chain is a lower bound of all given ones and one of them |
| ClientClones.LastGivenIsTheMostRecent | packages/honua-admin/honua_admin/_client.py:368-375 | the per-request timeout and the retry count along a chain are the last ones given, with none given after |
| ClientClones.CloningKeepsSound | packages/honua-admin/honua_admin/_client.py:322-387 | cloning any client of a tree keeps: one owner per HTTP client, supplied transport closed by the root alone, options and timeouts as the chain says |
| ClientClones.CloningKeepsTransport | packages/honua-admin/honua_admin/_client.py:343-357 | however it was cloned, a client of a tree with a supplied transport sends over that transport, and clones made from it will |
| ClientClones.CloningKeepsOwners | packages/honua-admin/honua_admin/_client.py:354-387 | cloning leaves each HTTP client and each transport it closes with one owner, closed exactly when that owner is |
| ClientClones.CloningKeepsOptions | packages/honua-admin/honua_admin/_client.py:368-375 | along its chain a clone keeps the last timeout, retry count and base URL given, the least transport timeout, and the retry count the root was built with |
| ClientClones.SharingSurvives | packages/honua-admin/honua_admin/_client.py:376-387 | clients that share an HTTP client keep agreeing on its transport timeout |
| ClientClones.ClosingKeepsSound | packages/honua-admin/honua_admin/_client.py:260-268 | closing any client of a tree, any number of times, keeps the tree sound |
| ClientClones.SuppliedTransportClosesWithTheRoot | packages/honua-admin/honua_admin/_client.py:343-352 | a caller-supplied transport is closed exactly when the original client has been closed |
| ClientClones.OwnersAreUnique | packages/honua-admin/honua_admin/_client.py:322-387 | two owners of one HTTP client, or two whose closing closes one transport, are the same client |
| ClientClones.ExternalClientStaysOut | packages/honua-admin/honua_admin/_client.py:260-268 | closing any client of a tree built around a caller's HTTP client leaves that client as it was |
| ClientClones.Family.WithOptions | packages/honua-admin/honua_admin/_client.py:270-387 | on the heap: cloning extends the tree by one client and its chain by one override, and keeps it sound |
| ClientClones.Family.CloseClient | packages/honua-admin/honua_admin/_client.py:260-268 | on the heap: closing has exactly the effect the value model gives it, and leaves the HTTP client a caller supplied as it was |
| ClientClones.Family.Perform | packages/honua-admin/honua_admin/_client.py:260-404 | any sequence of clonings and closings gives the clients, chains and closings that the list of operations says, and keeps the tree sound; the supplied transport ends closed exactly if the root was closed, and an HTTP client supplied by the caller is never closed; every client sends over the supplied transport |
| SiteCensus.CopyMembers | scripts/python_document_inputs.py:272-286 | fails exactly when some member is unmodelled by its name or its bytes, or two land on one name, else gives the copied members |
| SiteCensus.AddBytecode | scripts/python_document_inputs.py:308-325 | accepts exactly when every source file has validated bytecode, and adds those files only |
| SiteCensus.CheckRecord | scripts/python_document_inputs.py:328-342 | accepts exactly RECORD files whose rows are distinct, name the modelled files and RECORD itself, and carry the right digest and size outside caches |
| SiteCensus.CheckFiles | scripts/python_document_inputs.py:344-352 | accepts exactly when file names agree, the retained bytes are those of the generated files, and every file has the modelled digest, size and retained bytes |
| SiteCensus.InstalledWheelBytes | scripts/python_document_inputs.py:255-354 | accepts an observation if and only if the wheel explains it |
| SiteCensus.CensusGrows | scripts/python_document_inputs.py:369-372 | a further file fits the census exactly when its path is not yet taken |
| SiteCensus.TakeCensus | scripts/python_document_inputs.py:359-372 | succeeds exactly when no two installed files are one path, and is then the map from site path to digest |
| SiteCensus.InstalledSourceAndArtifactBytes | scripts/python_document_inputs.py:357-385 | accepts if and only if contexts agree, the census is collision-free and agreed by every row, and every held distribution is explained by its wheel |
| SiteCensus.SiteAcceptedIff | scripts/python_document_inputs.py:357-385 | the same in terms of the rows: one site and interpreter, one path for each file inside the site, one census whose digest every row tells, every active artifact explained by its wheel and every declared origin by its editable or source build, as declared |
| SiteCensus.EverySiteFileHasOneOwner | scripts/python_document_inputs.py:363-375 | with injective digests, every file of the site directory belongs to exactly one distribution, under one name |
| SiteCensus.ExplainedMeansExact | scripts/python_document_inputs.py:344-352 | with injective digests, an explained distribution's files on disk are its modelled contents, byte for byte |
| SiteCensus.ExplainedMeansRecorded | scripts/python_document_inputs.py:328-343 | its RECORD rows are in bijection with the files on disk, with true digest and size outside caches and RECORD itself, and neither there |
| SiteCensus.ExplainedMeansLaidOut | scripts/python_document_inputs.py:255-354 | its files on disk are, one by one: the members of the wheel where the install scheme puts them, the scripts its entry points ask for, `INSTALLER`, `REQUESTED`, `direct_url.json` and RECORD as pip writes them, and bytecode valid for the source on the disk; and nothing else |
| SiteCensus.HeldDistributionsAreExact | scripts/python_document_inputs.py:376-385 | all three facts for every distribution held against an archive |
| SiteCensus.UnheldDistributionsAreUnchecked | scripts/python_document_inputs.py:363-385 | in any accepted, reported inventory, a distribution that no active artifact and no declared origin names can be replaced by any files with a METADATA and a RECORD of its own on free paths; the result is accepted again, is what the inventory program reports of a disk with those files, and keeps all other files |
| SiteCensus.ExactnessIsGuaranteedIff | scripts/python_document_inputs.py:363-385 | wherever some inventory is accepted and files without an INSTALLER could stand for the distribution: every accepted inventory the program can report shows a wheel's exact contents for it if and only if some active artifact or declared origin names it |
| SiteCensus.UnheldIsAccepted | scripts/python_document_inputs.py:363-385 | replacing an unheld distribution by any row on free paths and taking the census again keeps an inventory accepted |
| SiteCensus.UnheldIsReported | scripts/python_document_inputs.py:28-66 | with the files on the disk, that inventory is what the inventory program reports: true digests, sizes, retained bytes, METADATA digest and RECORD names |
| SiteCensus.PlainWheelIsExplained | scripts/python_document_inputs.py:255-354 | what pip installs of a wheel that holds METADATA alone is explained by that wheel |
| InstallLineage.ReportItems | scripts/python_document_inputs.py:206-234 | accepts exactly reports by this pip in this environment in which each declared source appears once, at its own place, mode and version, and every other item is remote or a captured wheel; returns the remote items in order |
| InstallLineage.CheckEnvironment | scripts/python_document_inputs.py:651-665 | accepts exactly environments whose active artifacts are a complete closure of the required roots, with every declared origin in place, the backend unchanged and all held files explained |
| InstallLineage.VerifyStep | scripts/python_document_inputs.py:614-666 | accepts exactly the steps whose lineage, reports, artifact and version deltas, offline origins, recomputed active artifacts and roots, and environment are all right, and gives the next state |
| InstallLineage.Verify | scripts/python_document_inputs.py:602-666 | accepts exactly the contexts every step of which is correct, for any number of steps |
| InstallLineage.EachStepAccepted | scripts/python_document_inputs.py:613-666 | in an accepted context each step was judged correct in the state its predecessors left |
| InstallLineage.StateTracksTheRun | scripts/python_document_inputs.py:602-666 | the loop state is a fold of the steps: previous inventory, versions and declared origins |
| InstallLineage.AvailableWasCaptured | scripts/python_document_inputs.py:611-654 | every available artifact was captured initially or by an earlier step, under its own name and version |
| InstallLineage.VerifiedMeansLineage | scripts/python_document_inputs.py:602-666 | each step starts from the previous one's ending inventory, versions after step k are the initial ones overridden by deltas 0..k in order, and every backend distribution keeps its version |
| InstallLineage.EveryDistributionWasCaptured | scripts/python_document_inputs.py:651-654 | every installed distribution that is not a source package is a captured artifact at exactly its version |
| InstallLineage.EveryStepIsComplete | scripts/python_document_inputs.py:652-655 | after each step the active artifacts form a complete dependency closure of everything asked for so far |
| InstallLineage.EveryDistributionIsExact | scripts/python_document_inputs.py:656-665 | after each step every captured or declared distribution is on disk exactly as the captured active wheel, or the built wheel of its latest declared source, says: members, scripts, pip's own files, bytecode valid for the source beside it, RECORD, and nothing else |
| InstallLineage.DeclaredSourcesAreInPlace | scripts/python_document_inputs.py:656-660 | after each step every package declared so far is installed, and its recorded origin is the place and mode of its latest declaration |
| InstallLineage.IdleRunsAreVerified | scripts/python_document_inputs.py:602-666 | acceptance is possible at every length: runs that ask for nothing and change nothing are accepted |
| VerifiedSteps.DeclaredOriginsAre | scripts/python_document_inputs.py:656-656 | the declared origins after k invocations are the packages some word of theirs names, each as the last word of the latest of them says |
| VerifiedSteps.StepReports | scripts/python_document_inputs.py:206-234 | both reports of an accepted step are this pip's and this environment's; each item is remote with a captured origin, or a file of the warehouse if offline, or the declared source in its place, mode and version; each declared source is reported once |
| VerifiedSteps.StepVersions | scripts/python_document_inputs.py:643-646 | what is installed after an accepted step is, name by name, the version the resolver report gives last, or what was installed before |
| VerifiedSteps.StepArtifacts | scripts/python_document_inputs.py:637-642 | what an accepted step captures is, name by name, the version, origin and digest the resolver report gives last for a remote item, and nothing else |
| VerifiedSteps.StepOffline | scripts/python_document_inputs.py:646-650 | every item installed offline from no source is the warehouse file of an artifact of its name and version captured by then |
| UndeclaredSources.ReinstalledIsVerified | scripts/python_document_inputs.py:613-666 | after any step of an accepted run the inventory can be exchanged for any other of the same versions whose declared origins are in place and whose held distributions and census are right, and the run is accepted again |
| UndeclaredSources.UndeclaredSourcesAreUnchecked | scripts/python_document_inputs.py:651-665 | in every accepted run, after every step, a source package installed but declared by no invocation so far can be any files on free paths: the run with those files and all else as before is accepted, and its inventory is one the program reports |
| UndeclaredSources.ContentsAreGuaranteedIff | scripts/python_document_inputs.py:651-665 | acceptance guarantees a wheel's exact contents for an installed distribution if and only if it is no source package or some invocation so far declared it |
| UndeclaredSources.FullReportsLeaveNoneUndeclared | scripts/python_document_inputs.py:212-233 | when the backend is no source package and every offline report names, as a file, all that its resolver report names, every source package ever installed was declared |
| UndeclaredSources.FullReportsGuaranteeAll | scripts/python_document_inputs.py:602-666 | so acceptance of a run with such reports guarantees the contents of every distribution after every step |
| AdminAlone.AdminAloneIsVerified | scripts/python_document_inputs.py:602-666 | for every setting with these facts: the run of `pip install packages/honua-admin` whose resolver report takes honua-sdk from the index and whose offline report leaves it out is accepted, with backend and honua-admin held against wheels and honua-sdk against nothing |
| AdminAlone.AcceptedWithAnUndeclaredSource | scripts/python_document_inputs.py:602-666 | there is such an accepted run, with an inventory the program reports of a disk |
| EtlUpsert.StripIsIdempotent | examples/geospatial_etl/workflow.py:679-688 | normalizing text twice is normalizing it once, for all Unicode white space |
| EtlUpsert.SpacesAre | examples/geospatial_etl/workflow.py:679-684 | the characters stripped are the twenty-nine Unicode counts as white space |
| EtlUpsert.NormalizedUidIsStable | examples/geospatial_etl/workflow.py:159-169 | the planner and the validator see the same uid of a normalized row |
| EtlUpsert.AcceptedExactlyWhenFirst | examples/geospatial_etl/workflow.py:185-220 | a row is valid exactly when its uid is the first occurrence among all earlier rows, rejected ones included, and its other checks pass |
| EtlUpsert.ValidationPartitions | examples/geospatial_etl/workflow.py:185-220 | accepted and rejected positions are each in source order and split the frame; each issue carries its row's uid and reasons |
| EtlUpsert.AcceptedUidsAreDistinct | examples/geospatial_etl/workflow.py:187-220 | two accepted rows never share a uid |
| EtlUpsert.JudgeRow | examples/geospatial_etl/workflow.py:186-207 | the reasons collected are the uid's, then name and status, then coordinates and geometry, in that order |
| EtlUpsert.Validate | examples/geospatial_etl/workflow.py:178-235 | the loop computes the specified partition, and selects the valid frame by label |
| EtlUpsert.ValidFrameIsTheAcceptedRowsIff | examples/geospatial_etl/workflow.py:222-225 | label selection gives the accepted rows exactly when no accepted row shares its index label |
| EtlUpsert.ValidRowsAreTheSource | examples/geospatial_etl/workflow.py:159-235 | each valid row is a row of the source with its texts stripped, its status lower-cased and its count and geometry as they were |
| EtlUpsert.EveryRowIsPlanned | examples/geospatial_etl/workflow.py:288-306 | each row handed on is added or updated, never both |
| EtlUpsert.BuildUpsertPlan | examples/geospatial_etl/workflow.py:273-313 | rows without an object id become adds and the others updates, in order |
| EtlUpsert.PlannerKnows | examples/geospatial_etl/workflow.py:288-293 | a row gets exactly the object id the target shows for its uid inside the filter |
| EtlUpsert.UpdatesAre | examples/geospatial_etl/workflow.py:296-306 | updates are the assigned rows, all of them and nothing else |
| EtlUpsert.AddsAre | examples/geospatial_etl/workflow.py:295-301 | adds are the unassigned rows, all of them, with distinct uids |
| EtlUpsert.PlanUpserts | examples/geospatial_etl/workflow.py:288-313 | a committed plan replaces the filtered rows that share a valid uid, appends the rest, and keeps every other row |
| EtlUpsert.UidsStayUniqueIff | examples/geospatial_etl/workflow.py:132-134 | applying the plan keeps uids unique exactly when the pre-load filter hid no row that shares a valid uid |
| EtlUpsert.LoadConverges | examples/geospatial_etl/workflow.py:273-313 | the target's uid-indexed view becomes the old one overridden by the valid rows |
| EtlUpsert.ReplanAddsNothingIff | examples/geospatial_etl/workflow.py:273-313 | replanning the same rows adds nothing exactly when the filter shows every valid uid |
| EtlUpsert.ReplanUpdatesTheWritten | examples/geospatial_etl/workflow.py:296-306 | replanning updates exactly the uids written |
| EtlUpsert.ReapplyingIsIdle | examples/geospatial_etl/workflow.py:273-313 | applying the second plan changes nothing a uid-indexed reader sees |
| EtlUpsert.ValidRowsAreLoadable | examples/geospatial_etl/workflow.py:187-225 | valid rows have distinct uids and a geometry, as loading needs |
| EtlUpsert.Service.Snapshot | examples/geospatial_etl/workflow.py:238-260 | assumption: a snapshot is the rows whose uid the filter accepts |
| EtlUpsert.Service.Apply | examples/geospatial_etl/workflow.py:458-465 | assumption: with rollback on failure the whole plan commits or nothing does, what several updates of one row make of it left open; a positive success count means it did |
| EtlUpsert.HandedIsValidRowsIff | examples/geospatial_etl/workflow.py:222-235 | for any frame, validation hands on exactly the valid rows if and only if no accepted row shares its index label, and more rows otherwise |
| EtlUpsert.DistinctLabelsAreHandedOnExactly | examples/geospatial_etl/workflow.py:222-235 | a frame with distinct index labels is handed on exactly |
| EtlUpsert.FirstLoadIsExactIff | examples/geospatial_etl/workflow.py:222-313 | a first load leaves as many rows as there are valid ones if and only if no accepted row shares its index label |
| EtlUpsert.TwinsAreDoubled | examples/geospatial_etl/workflow.py:222-313 | a frame of two good rows under one label, whose first load repeats their uids |
| EtlUpsert.RejectedRowIsHandedOn | examples/geospatial_etl/workflow.py:222-225 | a frame in which a rejected row is handed on because an accepted row has its label |
| EtlUpsert.HiddenRowIsDuplicated | examples/geospatial_etl/workflow.py:132-134 | a target whose only row lacks the prefix of the pre-load filter, and whose uid the load repeats |
| EtlUpsert.PlanIsApplicable | examples/geospatial_etl/workflow.py:288-306 | whatever rows are handed on, repeated ones included, every update names a row of the target |
| EtlUpsert.CommitIsLoaded | examples/geospatial_etl/workflow.py:273-313 | a committed plan of loadable rows is the complete upsert of them |
| EtlUpsert.ValidRowsAreWritten | examples/geospatial_etl/workflow.py:303-308 | after a committed load each valid row's uid, name, status, count and point stand together in one row of the target, each in the column of its name |
| EtlUpsert.OtherRowsStay | examples/geospatial_etl/workflow.py:296-313 | rows whose uid no valid row has stay as they were, the rewritten ones keep every other column, and each new row carries a valid one |
| EtlUpsert.RunWorkflow | examples/geospatial_etl/workflow.py:331-553 | for any frame: the target changes only by a committed plan for the rows handed on, exit code zero means it did and every stage completed, and earlier failures leave it untouched; where no accepted row shares its label that is the complete upsert of the valid rows, each column in its place; success includes a readback, and a dutiful service always gives it unless every row is rejected |
| FieldCasing.SplitIsExact | packages/honua-admin/honua_admin/_models.py:47-47 | splitting at underscores loses nothing: rejoining the parts gives the name |
| FieldCasing.SplitOfJoin | packages/honua-admin/honua_admin/_models.py:47-47 | joining parts without underscores and splitting gives the parts |
| FieldCasing.AcronymScanIsLocal | packages/honua-admin/honua_admin/_models.py:41-41 | the greedy left-to-right acronym substitution marks exactly each capital that follows a capital and precedes a small letter |
| FieldCasing.BoundaryScanIsLocal | packages/honua-admin/honua_admin/_models.py:42-42 | the non-overlapping second substitution marks exactly each capital after a small letter or digit |
| FieldCasing.ToSnakeMarksBoundaries | packages/honua-admin/honua_admin/_models.py:39-42 | both substitutions together are one local rule for where an underscore goes |
| FieldCasing.CapitalisedPartsRejoin | packages/honua-admin/honua_admin/_models.py:39-48 | snake-casing capitalised parts rejoins them with an underscore before each part whose boundary can be seen |
| FieldCasing.EveryUnderscoreCounts | packages/honua-admin/honua_admin/_models.py:39-48 | the rejoined text is never longer than the original and equals it exactly when every boundary is marked |
| FieldCasing.RoundTripIff | packages/honua-admin/honua_admin/_models.py:39-48 | for every name over small letters, digits and underscores the round trip holds if and only if each later part starts with a letter and follows a part of two characters or has a letter second (a non-empty first part for the first boundary) |
| FieldCasing.WordsRoundTrip | packages/honua-admin/honua_admin/_models.py:39-48 | names whose later parts start with a letter and have at least two characters round-trip |
| FieldCasing.LoneLettersMerge | packages/honua-admin/honua_admin/_models.py:39-48 | a name that does not round-trip |
| FieldCasing.CamelNamesStayApart | packages/honua-admin/honua_admin/_models.py:56-58 | different recoverable names have different camel-case forms |
| FieldCasing.RecoverableIff | packages/honua-admin/honua_admin/_models.py:39-48 | the names that survive, character by character |
| FieldCasing.KeysRoundTrip | packages/honua-admin/honua_admin/_models.py:51-58 | camel-casing and snake-casing the keys of a dict over recoverable names restores it, order included |
| OrderedDict.RenamingIsPointwise | packages/honua-admin/honua_admin/_models.py:51-58 | renaming keys without collisions keeps every entry, value and position |
| OrderedDict.MovedToFront | packages/honua-admin/honua_admin/_models.py:1438-1444 | writing two keys first changes the order only |
| AdminModels.DataclassToCamelDict | packages/honua-admin/honua_admin/_models.py:78-85 | the loop computes the specified dictionary |
| AdminModels.JsonIsUntouched | packages/honua-admin/honua_admin/_models.py:67-75 | values without models, free-form maps included, are serialized unchanged |
| AdminModels.CamelDictEntries | packages/honua-admin/honua_admin/_models.py:78-85 | the dictionary has one entry for each attribute that is not `None`, under its camel-case name, and no other |
| AdminModels.LookUp | packages/honua-admin/honua_admin/_models.py:51-64 | a field read by its snake-case name finds the value written under its camel-case name |
| AdminModels.FoundIs | packages/honua-admin/honua_admin/_models.py:78-85 | after serialization each field is found with its value, or not at all when it was `None` |
| AdminModels.FieldRoundTripIff | packages/honua-admin/honua_admin/_models.py:88-92 | one field, of any kind and nesting, is restored exactly when it is not a `None` the reader replaces |
| AdminModels.ModelsRoundTripIff | packages/honua-admin/honua_admin/_models.py:88-92 | a list of models is restored exactly when each of its models is |
| AdminModels.RoundTripIff | packages/honua-admin/honua_admin/_models.py:67-92 | for every class with recoverable field names, every instance of any nesting: `from_dict(to_dict(x)) == x` if and only if no `None` stands where `from_dict` fills in something else |
| AdminModels.ReadsBackRefilled | packages/honua-admin/honua_admin/_models.py:67-92 | what reading back gives for every instance: each `None` becomes what its field is filled with (its default, or an empty list), a required one raises, and nothing else changes |
| AdminModels.MissingListComesBackEmpty | packages/honua-admin/honua_admin/_models.py:88-92 | an instance restorable but for one model list that is `None` comes back with the empty list there and equal elsewhere |
| MigrationArtifacts.SourceInventoryNames | packages/honua-admin/honua_admin/_models.py:1081-1444 | every field name of the migration inventory classes is recoverable and unique in its class |
| MigrationArtifacts.ArtifactKeys | packages/honua-admin/honua_admin/_models.py:1438-1444 | the two keys `to_dict` pops are the ones serialization wrote |
| MigrationArtifacts.OrderDoesNotMatter | packages/honua-admin/honua_admin/_models.py:1405-1436 | `from_dict` gives the same result for dictionaries that answer every lookup alike |
| MigrationArtifacts.PopSucceedsIff | packages/honua-admin/honua_admin/_models.py:1438-1444 | `to_dict` succeeds exactly when kind and version are present, and then only reorders |
| MigrationArtifacts.InventoryRoundTripIff | packages/honua-admin/honua_admin/_models.py:1390-1444 | a migration source inventory of any nesting survives `to_dict` and `from_dict` if and only if no `None` stands where `from_dict` fills in something else |
| MigrationArtifacts.WellTypedIsRestorable | packages/honua-admin/honua_admin/_models.py:1081-1388 | instances whose attributes have their declared types have no `None` the reader replaces, at any depth |
| MigrationArtifacts.WellTypedInventoryRoundTrips | packages/honua-admin/honua_admin/_models.py:1390-1444 | every well-typed migration source inventory survives `to_dict` and `from_dict` |
| MigrationArtifacts.MissingReferencesComeBackEmpty | packages/honua-admin/honua_admin/_models.py:1358-1388 | an external dependency whose `spatial_references` is `None` comes back with an empty list |
| Compatibility.ThreeRunsDecide | packages/honua-admin/honua_admin/_models.py:95-102 | the first three digit runs are the version, whatever text stands around them |
| Compatibility.EveryVersionHasThreeRuns | packages/honua-admin/honua_admin/_models.py:95-102 | conversely every parsed version comes from three separate digit runs |
| Compatibility.DottedVersionParses | packages/honua-admin/honua_admin/_models.py:95-102 | `a.b.c` followed by any suffix that does not start with a digit parses to `(a, b, c)` for all naturals |
| Compatibility.ChannelsRank | packages/honua-admin/honua_admin/_models.py:25-34 | the rank of each of the eight channels in any case, and of nothing else |
| Compatibility.EvaluateAdminCompatibility | packages/honua-admin/honua_admin/_models.py:700-767 | supported if and only if version, major, base path and channel are all acceptable; exactly the owed reasons are listed; deprecation only warns |
| Compatibility.SupportIsMonotone | packages/honua-admin/honua_admin/_models.py:700-767 | with the control plane fixed, a version not earlier and a channel not lower never turn supported into unsupported |
| Compatibility.EarlyBuildsAreRefused | packages/honua-admin/honua_admin/_models.py:8-20 | a build reporting `1.0.0+<sha>` is below the default floor for every hash |
| Compatibility.DefaultFloor | packages/honua-admin/honua_admin/_models.py:20-20 | the default floor parses to (2026, 1, 0) |
| CatalogWalk.ListAll | packages/honua-admin/honua_admin/_client.py:573-589 | for any server and any number of requests one is ready to wait for: ends at the first request whose answer ends the walk, having collected all answers so far in order; raises exactly before a request for a page below the first; and otherwise is still asking |
| CatalogWalk.EndlessIsAskedOn | packages/honua-admin/honua_admin/_client.py:573-589 | a server that always shows one item more and claims another is left is asked for page after page for ever |
| CatalogWalk.BackwardsIsRefused | packages/honua-admin/honua_admin/_endpoints.py:37-38 | a server whose first answer reports a page below zero makes the walk ask for a page that is refused |
| CatalogWalk.BoundedTotalsStop | packages/honua-admin/honua_admin/_endpoints.py:54-56 | a server whose totals never exceed T ends the walk within max(1, T) requests |
| CatalogWalk.EchoWalkIsComplete | packages/honua-admin/honua_admin/_client.py:1567-1588 | over a server of N items that echoes page, size and total, the walk collects exactly those items in order in max(1, ceil(N/size)) requests |
| CatalogWalk.EchoStops | packages/honua-admin/honua_admin/_endpoints.py:54-56 | such a server ends the walk with its last page |
| Certification.PassedOperations | scripts/_conformance.py:1408-1417 | the passed operations are exactly the cells of the passed results |
| Certification.BuildFragment | scripts/_conformance.py:1738-1920 | a fragment is built exactly when every case is known and governed, with one observation per result and a scope that is complete exactly when the passed operations are the required ones |
| Certification.CheckCells | scripts/_conformance.py:1673-1693 | accepts exactly when required and observed cells are duplicate-free and every required cell is observed |
| Certification.ValidateRelease | scripts/_conformance.py:1624-1725 | accepts exactly the acceptable fragments |
| Certification.AcceptableIff | scripts/_conformance.py:1624-1725 | the gate in terms of the fragment alone: a valid cut and a revision, a complete scope, distinct required operations each observed, distinct observed cells, and every row passed, governed, with a receipt for the same context, revision and cut whose records are all of a disabled license and hold exactly one edit case, passed and proved |
| Certification.BuiltFragmentSays | scripts/_conformance.py:1738-1920 | each observation of a built fragment says how its case went, under its governed context; all but known gaps come with a receipt for this revision and cut that holds every result of the run |
| Certification.UncoveredStayApart | scripts/_conformance.py:1396-1402 | the operations that stand for uncovered factories are distinct for distinct names |
| Certification.EditsRunOnce | scripts/_conformance.py:1712-1716 | with required cells observed once each, the edit case was run exactly once and is the payload's only edit record |
| Certification.AcceptedIsCertified | scripts/_conformance.py:1624-1725 | an accepted fragment's results are, up to order, the required operations, all passed, governed, on a proved disabled license |
| Certification.CertifiedIsAccepted | scripts/_conformance.py:1624-1725 | and conversely such results are always accepted |
| Certification.ReleaseIff | scripts/_conformance.py:1624-1725 | release acceptance as one equivalence on the case results |
| Certification.UncoveredFactoryNeverPasses | scripts/_conformance.py:1396-1402 | while any public factory is uncovered, no list of results is ever accepted |
| Certification.EveryCaseRunOnce | scripts/_conformance.py:1308-1362 | with all factories covered, acceptance means each of the thirteen cases was run exactly once |
| Certification.FullPassIsAccepted | scripts/_conformance.py:1624-1725 | conversely, with all factories covered and every case governed, the run in which each case passes on a proved disabled license is accepted |
| Publication.ManifestHashes | scripts/verify_distribution_parity.py:78-88 | succeeds exactly for usable entries with exactly two file names, and maps name to lower-cased digest |
| Publication.PypiHashes | scripts/verify_distribution_parity.py:104-117 | succeeds exactly for a list of usable entries |
| Publication.VerifyHashParity | scripts/verify_distribution_parity.py:120-128 | passes exactly on parity of the two maps, and otherwise reports the first thing wrong: in the manifest, in the index, or the difference |
| Publication.ParityIsExact | scripts/verify_distribution_parity.py:120-128 | parity with a wheel and an sdist means the index lists both with their digests and no other file |
| Publication.ParityIff | scripts/verify_distribution_parity.py:78-128 | parity in terms of the entries alone: two usable manifest entries of different names, an index of usable entries under those names only, and for each name the last entry shown has its digest up to case |
| Publication.DelayIsCappedPower | scripts/verify_distribution_parity.py:165-168 | the delay before retry i is the first delay doubled i times, capped at sixty seconds |
| Publication.BackoffDelays | scripts/verify_distribution_parity.py:162-169 | delays are positive, doubled, capped, sum to at most the budget, and are maximal: a schedule of n delays fits exactly when n is at most their number; the loop ends |
| Publication.PollUntilPublished | scripts/verify_distribution_parity.py:192-205 | at most one more fetch than delays, one sleep before each further fetch; a fetch error ends it; otherwise it succeeds exactly when some fetch shows parity, and reports what was wrong with the last payload fetched |
| Publication.VerifyPublished | scripts/verify_distribution_parity.py:247-249 | with backoff delays the total sleep is within the budget, and giving up means one more delay would exceed it |
| Contents.Render | scripts/generate-summary.py:84-118 | the loop with its `placed` set computes the table specified page by page |
| Contents.RenderSection | scripts/generate-summary.py:88-110 | one section lists, sorted, the matching pages whose path no earlier section took |
| Contents.EachPageOnceIff | scripts/generate-summary.py:84-118 | every page is listed exactly once if and only if pages that share a path are wanted first by the same section |
| Contents.SharedPathDropsAPage | scripts/generate-summary.py:84-118 | two pages of one path and different kinds, of which the table lists only the first |
| Contents.DistinctPathsAreSorted | scripts/generate-summary.py:84-118 | with distinct paths each section lists exactly the pages it is first to match, by lead rank then path, and leftovers keep input order |
| Contents.SectionsWant | scripts/generate-summary.py:33-46 | which pages each section wants, in terms of the path's characters and the kind |
| Contents.SectionOrder | scripts/generate-summary.py:101-103 | the index and quickstart pages first, then the README pages, then by path, character by character |
| Contents.PageLeqIsKeyOrder | scripts/generate-summary.py:101-103 | lead rank then path is a total order on keys |

## Left out

- Subprocesses, git, docker, pip, HTTP, the file system and clocks: abstract daemons, stores, services and functions stand for them, as their contracts state.
- The inventory program's refusals of symlinks and of paths outside the owned context; RECORD rows of missing files, which it skips.
- Other writers acting on the feature store or the target layer during a run.
- SHA-256, JSON, base64, zip and marshal formats, PEP 508 marker and PEP 440 specifier evaluation, calendar checks: arbitrary functions.
- InstallLineage.VerifyStep: command lines, the bytes of the declared invocation and the digests of raw observation files are not compared; `roots` is an arbitrary function. Everything compared about inventories, reports, artifacts, versions and files is.
- InstallLineage.Verify: one context, without the checks of bootstrap, build hooks and editable-build provenance that precede its steps; the one precondition is that a JSON object lists each key once.
- Certification.BuildFragment: the refusals for an unknown wheel identity and for an unobserved context are one lookup, of the governed context of a case, that may find nothing.
- Certification.ValidateRelease: the schema of a receipt and the fields and times of the entitlement proof are one flag each.
- `installed_wheel_bytes`: entry-point scripts, bytecode validity and RECORD syntax are functions of the laboratory; which files they apply to, and every comparison, is modelled.
- `verify_execution_receipt`: stream digests, fixed outputs of single actions and the projection census; the lifecycle and canonical-state comparisons are modelled.
- `validate_container`: command, user, image and tmpfs fields are one identity value; mounts are modelled row by row.
- `apply_edits`: the entitlement observation and the status fixture; attribute types other than text and number.
- Admin client construction: argument validation, authentication hooks, redirects and headers. The asynchronous client has the same control flow.
- `admin_catalog_params` and the one-request admin methods: thin wrappers that would add only easy members.
- Field names outside ASCII, and Unicode digits in versions; Python's limit on the length of integer text.
- Model classes outside the migration source inventory: `AdminModels.RoundTripIff` covers any class of the same field kinds.
- CRS conversion, plots, count coercion and the text of summaries in the ETL workflow; geometry validity is a flag.
- Status text is lower-cased for ASCII letters only.
- IEEE rounding in delays: `Publication` computes over reals. Interrupts during a poll's sleep.
- Certification: target checks before the results are read, and observation fields that no check reads.
- Contents: front matter, file collection and the final joining of lines; the order of same-path pages with equal keys is stable insertion but nothing is claimed about it.
- CatalogWalk.ListAll: is watched for a given number of requests, any number, because a walk need not end; a request that fails ends it with that error, which is not modelled.
- OwnedContainers.WaitForTerminal: ends because the modelled daemon lets every action stop eventually; a container that never stops is waited for without end.
