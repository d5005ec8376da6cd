# Verification of the operational scripts

A Dafny model of the repository's operational scripts (`scripts/`) with machine-checked properties. Databases,
secret stores, queues and processes are explicit state; a transaction is all or nothing; what the scripts import
without showing (pair scoring, neighbour search) is a parameter. `dafny verify dfyconfig.toml` checks everything.

| area | files |
|---|---|
| duplicate-model backfill: paging, pair decisions, union-find clustering, merging, run bookkeeping, reruns | `Keyset`, `Reconcile`, `Cosine`, `UnionFind`, `Graph`, `Scanning`, `Discovery`, `Emission`, `Merging`, `MergeDetails`, `Running`, `RunReports`, `Rerun`, `RerunCondition`, `RerunCounterexample` |
| worker supervisor and its stale-lock protocol | `Supervisor`, `SupervisorSteps`, `SupervisorPass` |
| source installations, provider rows and the secret store | `ProviderKeys`, `Installations`, `SourceTable` |
| moving plaintext credentials into secret refs | `WhatsappMigration`, `MigratedRows` |
| edge backfill | `EdgeBackfill`, `EdgeReports` |
| scanners and parsers | `CallNames`, `TransactionVisitor`, `ReportedCalls`, `SqlComments`, `EnvParser`, `EnvPrinting` |
| statistics of a run | `Percentile` |
| role console | `Roles`, `RoleOutcomes` |
| shared helpers | `Options`, `Positions`, `Sorting`, `Text` |

Code that updates state is a class or a method with loops, proved against a specification function; the promises
are lemmas about that function. Where a promise does not hold of the code, a lemma gives a concrete input and
another states exactly when it does hold.

## What the proofs found

- The backfill's header (scripts/backfill_duplicate_models.py:47-53) says a rerun merges nothing more. The shared-evidence
  boost of the reconciler reads events a merge rewrites, so a survivor that inherited an event can cross the threshold
  later (`SharedEvidenceMakesRerunMerge`). When exactly a rerun merges
  again is read off the rows the first run left (`RerunMergesIff`, `ExhaustiveRerunMergesIff`).
- A pair recorded as borderline first is never merged by a later auto_merge verdict (lines 564-566), so the removal
  at line 580 never removes anything (`ReplayMeaning`).
- The archive counter (line 789), like those of candidates and reviews, is bumped before commit (`CounterExactIff`,
  `CommitFailureOvercounts`).
- A worker may claim rows whose lock is old, so two live workers can hold one row (`ExclusiveIffNoStealing`).
- Uninstall's error text allows a missing secret store for rows without refs; the assertion at
  scripts/manage_dedicated_source_installations.py:577 does not (`NoStoreNoUninstall`).
- Two rows of a tenant may yield one provider key: several sources are unique by base_url only (for example
  db/migrations/0074_mercury.sql:59) while their key is another column, and two URLs may share a host. Commands on one of
  them then move the provider row of the other (`AgreementSafeIffKeyAlone`).
- Uninstall deletes secrets before its transaction, so a crash leaves refs to nothing; which runs end that way
  is stated exactly (`RefsResolvableIff`). Worker ids other than the supervisor's own can name its slots (`OwnIdIffPlainNumber`).
- The credential migration clears plaintext beside a ref whose secret is missing (`AllReadableIff`).
- The edge backfill catches every exception inside the transaction block, so a client-side error commits a partial
  tenant (`ErrorKeepsExactly`). It needs no broken connection: a uuid[] value may have two dimensions, its entries are
  then all lists, and the driver refuses a list as the insert's uuid argument
  (scripts/backfill_model_edges.py:86-98, 131-143, 173-185) before anything is sent (`ClientErrorCommitsPartialRun`). A
  NULL entry or a row naming itself blocks its tenant (`CompletesIffEntriesFit`).
- In the env parser a different quote inside quotes changes the open quote (scripts/check_production_env_contract.py:326),
  so an apostrophe in a value keeps a trailing comment (`ApostropheKeepsComment`). A key that is itself `export`, with a
  space before its `=`, is taken for the keyword and lost (`ReadsBackIffGood`).
- The SQL comment stripper is not idempotent (`NotIdempotent`); it is on exactly the files where removing block comments
  joins no two characters into a new marker (`IdempotentIff`).
- The role console's bootstrap is described as being for the first operator; it opens again whenever no operator role
  is active (`BootstrapIff`, `BootstrapTwice`), and a tenant whose only operator rows belong to another tenant's actors
  can no longer be managed (`LockedOutForever`).

## Model

| member | source | states |
|---|---|---|
| `Keyset.IterActiveModels` | scripts/backfill_duplicate_models.py:246-310 | For every chunk size of at least 1 the cursor loop ends and yields exactly the single sorted query; with size 0 it yields nothing |
| `Keyset.SingleQueryMeaning` | scripts/backfill_duplicate_models.py:246-310 | The single query lists every active row of the chosen kinds once, strictly ascending in (created_at, id) |
| `Keyset.SingleQueryRows` | scripts/backfill_duplicate_models.py:246-310 | In the columns' own terms: the active rows with a kind column among the kinds, oldest first, by id on equal times |
| `Keyset.PageIsSlice` | scripts/backfill_duplicate_models.py:270-308 | The page fetched past the n-th key is exactly the next slice of the single query |
| `Keyset.SortThenFilter` | scripts/backfill_duplicate_models.py:270-308 | Filtering rows past the cursor commutes with sorting them |
| `Reconcile.DecisionFollowsScore` | scripts/backfill_duplicate_models.py:340-422 | A better-scored pair never gets a weaker decision under one rule, and a blocked kind never auto-merges nor becomes a same-issue candidate |
| `Reconcile.DecisionMeaning` | scripts/backfill_duplicate_models.py:380-422 | When exactly each of auto_merge, human_review and same_issue_candidate is decided |
| `Reconcile.DefaultsFillIn` | scripts/backfill_duplicate_models.py:384-393 | A kind without its own thresholds decides like one naming the defaults |
| `Reconcile.OrientPairMeaning` | scripts/backfill_duplicate_models.py:650-667 | The first of the pair was created no later, a missing time counting as latest, and on equal times has the smaller id |
| `Reconcile.OrientPairUnordered` | scripts/backfill_duplicate_models.py:650-667 | The orientation of a pair does not depend on which side found it |
| `Reconcile.PickCanonical` | scripts/backfill_duplicate_models.py:670-684 | The chosen member is preferred to every member: highest activation, then oldest, then smallest id |
| `Reconcile.CanonicalMeaning` | scripts/backfill_duplicate_models.py:670-684 | In the rows' fields: highest activation, then earliest creation with a missing time counting as 0, then smallest id |
| `Reconcile.CanonicalIgnoresOrder` | scripts/backfill_duplicate_models.py:670-684 | The choice depends on the set of members only |
| `Cosine.CosineSimilarity` | scripts/backfill_duplicate_models.py:425-438 | The loop returns 0 for incomparable vectors, else the quotient of the dot product and the two lengths, and never leaves [-1, 1] |
| `Cosine.ComparableMeaning` | scripts/backfill_duplicate_models.py:425-438 | Vectors can be compared exactly when they are equally long and neither has only zeros |
| `Cosine.CauchySchwarz` | scripts/backfill_duplicate_models.py:430-433 | dot² ≤ na·nb for the three sums of the loop, on all equal-length vectors |
| `Cosine.CosineRange` | scripts/backfill_duplicate_models.py:425-438 | The similarity lies in [-1, 1] and is -1 exactly for opposite directions |
| `Cosine.AtMostOne` | scripts/backfill_duplicate_models.py:425-438 | The similarity is 1 exactly when the vectors, each scaled by the other's length, are equal |
| `Cosine.OneIffPositiveMultiple` | scripts/backfill_duplicate_models.py:425-438 | The similarity is 1 if and only if one vector is a positive multiple of the other |
| `Cosine.CosineSymmetric` | scripts/backfill_duplicate_models.py:425-438 | Exchanging the vectors keeps the similarity |
| `Cosine.CosineIgnoresLength` | scripts/backfill_duplicate_models.py:425-438 | Scaling a vector by a positive factor keeps the similarity |
| `Cosine.CosineNegates` | scripts/backfill_duplicate_models.py:425-438 | Reversing a vector negates the similarity |
| `UnionFind.UF.Add` | scripts/backfill_duplicate_models.py:450-452 | Adding an id keeps the forest, its partition and the insertion order of the other ids |
| `UnionFind.UF.Find` | scripts/backfill_duplicate_models.py:454-459 | The halving walk ends at the root and leaves the partition where it was |
| `UnionFind.UF.Union` | scripts/backfill_duplicate_models.py:461-464 | Union adds both ids and joins exactly their two classes |
| `UnionFind.HalvingKeepsForest` | scripts/backfill_duplicate_models.py:457-459 | Pointing a node at its grandparent keeps every root and the acyclicity of the links |
| `UnionFind.LinkKeepsForest` | scripts/backfill_duplicate_models.py:461-464 | Linking one root under another relabels exactly one class |
| `UnionFind.SameRootIffConnected` | scripts/backfill_duplicate_models.py:446-464 | After any sequence of calls two known ids share a root exactly when the unions made so far connect them |
| `UnionFind.UnknownIdIsolated` | scripts/backfill_duplicate_models.py:446-464 | An id never seen is connected to nothing but itself |
| `Scanning.RecordOffer` | scripts/backfill_duplicate_models.py:564-587 | One scored neighbour: a pair remembered as borderline is skipped, auto_merge calls union, the first borderline decision is remembered |
| `Scanning.ScanRow` | scripts/backfill_duplicate_models.py:552-587 | The loop over one row's neighbours records exactly that row's offers in order |
| `Scanning.ScanOne` | scripts/backfill_duplicate_models.py:540-587 | A row without an embedding or without a search answer offers nothing; any other offers its neighbours |
| `Scanning.Scan` | scripts/backfill_duplicate_models.py:511-587 | The scan over all rows leaves the union-find and the remembered decisions that replaying the offers gives |
| `Scanning.ReplayMeaning` | scripts/backfill_duplicate_models.py:564-587 | A pair is merged exactly when its first real verdict is auto_merge, and is remembered with its first borderline decision |
| `Scanning.CallsMeaning` | scripts/backfill_duplicate_models.py:574-577 | The union-find has been told exactly the recorded auto_merge pairs |
| `Discovery.GroupByRoot` | scripts/backfill_duplicate_models.py:589-593 | The ids of the union-find grouped under their roots in first-seen order, without moving the partition |
| `Discovery.ScorePairs` | scripts/backfill_duplicate_models.py:613-624 | The double loop covers every unordered pair of members and their cosines |
| `Discovery.EmitAuto` | scripts/backfill_duplicate_models.py:595-627 | Auto clusters are emitted one per root until the cap is reached |
| `Discovery.EmitPairs` | scripts/backfill_duplicate_models.py:629-647 | Remembered pairs not absorbed are appended until the cap is reached |
| `Discovery.Emit` | scripts/backfill_duplicate_models.py:589-647 | The emitted list is the cap applied to all auto clusters followed by the remaining pairs |
| `Discovery.Discover` | scripts/backfill_duplicate_models.py:472-647 | Discovery returns the cap applied to the full cluster list |
| `Discovery.Capped` | scripts/backfill_duplicate_models.py:626-647 | The result is a prefix; with a cap of at least 1 no longer than the cap, and a smaller cap still lets one cluster through |
| `Discovery.AbsorbedIsOneClass` | scripts/backfill_duplicate_models.py:613-633 | A pair is skipped as already absorbed exactly when its two ids share a root |
| `Discovery.ClustersAreComponents` | scripts/backfill_duplicate_models.py:503-627 | The auto_merge clusters are the connected components of the recorded auto_merge pairs: sorted, at least two ids, disjoint, two ids together iff connected |
| `Discovery.PairsOutsideComponents` | scripts/backfill_duplicate_models.py:503-647 | Every remembered pair outside a component is emitted exactly once with its first recorded decision, and no other pair is |
| `Emission.OffersAreTheScan` | scripts/backfill_duplicate_models.py:540-587 | The scan makes one offer for each loaded neighbour other than the row itself, in the order of rows and neighbours, and each carries the pair's orientation, the cosine of its two embeddings and the scanned row's kind |
| `Emission.RecordedInScanOrder` | scripts/backfill_duplicate_models.py:564-587 | A pair goes to union for every auto_merge offer and is remembered for its first borderline offer, both in scan order |
| `Emission.EntriesCarryCosines` | scripts/backfill_duplicate_models.py:580-587 | What is remembered of a pair is the cosine of its later row's embedding against the earlier one's, not the boosted score, and the kind of one of its rows |
| `Emission.PairsInScanOrder` | scripts/backfill_duplicate_models.py:629-647 | The pair clusters follow the order in which their pairs were remembered, each with its entry's cosine, kind and decision |
| `Emission.PairClustersCarryCosines` | scripts/backfill_duplicate_models.py:629-647 | A pair cluster has one cosine, that of its two rows |
| `Emission.MergeClustersCarryCosines` | scripts/backfill_duplicate_models.py:595-627 | An auto cluster's cosines are those of its member pairs, the smaller id first, in order; its kind is that of its smallest member |
| `Emission.MergeClustersInOrder` | scripts/backfill_duplicate_models.py:589-627 | Auto clusters stand in the order in which the union calls first name one of their members |
| `Merging.UnionEvidence` | scripts/backfill_duplicate_models.py:712-738 | The union loops compute the gathered events and supports |
| `Merging.EvidenceMeaning` | scripts/backfill_duplicate_models.py:712-738 | The gathered lists are duplicate-free and hold exactly the members' events, and the members' supports minus the members |
| `Merging.AfterMergesAt` | scripts/backfill_duplicate_models.py:691-802 | After any disjoint merges a row holds what its own cluster's merge gives it, and other rows are unchanged |
| `Merging.MergeOrderIrrelevant` | scripts/backfill_duplicate_models.py:691-802 | Disjoint merges from one snapshot give the same table in every order |
| `Merging.SnapshotEqualsRereading` | scripts/backfill_duplicate_models.py:691-802 | Merging from the stale snapshot equals re-reading the rows before each merge |
| `Merging.OneSurvivorHoldsEvidence` | scripts/backfill_duplicate_models.py:691-802 | Each merged cluster keeps exactly one active row, holding all events, the outside supports and the maximum confidence, clipped if a member is out of the column's bounds |
| `Merging.EvidenceConserved` | scripts/backfill_duplicate_models.py:691-802 | The events held by active rows are the same set before and after all merges |
| `Merging.ConfidenceLiftedIffInBounds` | services/domain/models/repo.py:561-566 | The clip lets a cluster's maximum through exactly when it lies within the bounds that db/migrations/0001_foundation.sql:118 puts on the column |
| `MergeDetails.MergeWrites` | scripts/backfill_duplicate_models.py:691-802 | In a merge of distinct members the kept row gets a note of the archived members in order and the gathered lists; any other member is only archived |
| `MergeDetails.EvidenceInOrder` | scripts/backfill_duplicate_models.py:712-738 | The gathered events and supports stand in the order of their first occurrence, members in order |
| `MergeDetails.OthersInOrder` | scripts/backfill_duplicate_models.py:691-802 | The archived members are the members without the kept one, in order |
| `Running.Backfill.ArchiveOthers` | scripts/backfill_duplicate_models.py:782-796 | The archive loop archives the others and counts each one, also when a later one fails |
| `Running.Backfill.ApplyAutoMerge` | scripts/backfill_duplicate_models.py:691-802 | The writes of one merge equal the merge function; the counter moves by the archives made so far when a write fails |
| `Running.Backfill.ApplySameIssueCandidates` | scripts/backfill_duplicate_models.py:804-874 | One candidate per other member, counted as inserted |
| `Running.Backfill.ApplyHumanReview` | scripts/backfill_duplicate_models.py:877-946 | One review row per other member, counted as inserted |
| `Running.PairEffect` | scripts/backfill_duplicate_models.py:804-946 | A committed pair adds exactly one candidate or review row, from the member that loses to the preferred one |
| `Running.DiscoveredPairEffect` | scripts/backfill_duplicate_models.py:804-946 | The row inserted for a pair found by discovery carries the cosine of the pair's embeddings, a review row also the kind of one of the two |
| `Running.Backfill.Body` | scripts/backfill_duplicate_models.py:974-1010 | Inside the transaction the decision chooses which of the three writers runs |
| `Running.Backfill.Transact` | scripts/backfill_duplicate_models.py:954-1031 | One cluster's transaction changes the tables by its whole effect or not at all, while counters keep what was counted before a failure |
| `Running.Backfill.ProcessCluster` | scripts/backfill_duplicate_models.py:954-1031 | One cluster is all or nothing: a failure leaves the tables as they were and is reported |
| `Running.Backfill.Run` | scripts/backfill_duplicate_models.py:1059-1137 | Every cluster is processed whatever happened to the others; tables, counters and reports are the folds over the clusters |
| `Running.CountersBalance` | scripts/backfill_duplicate_models.py:1092-1118 | Decision counts plus failed reports equal the clusters considered; the error counter never exceeds the failed reports |
| `Running.CounterExactIff` | scripts/backfill_duplicate_models.py:782-946 | The archive, candidate and review counters are never too low, and each is exact if and only if no cluster of its decision that failed had written a row |
| `Running.CommitFailureOvercounts` | scripts/backfill_duplicate_models.py:782-946 | A cluster that fails at commit is counted in full although nothing was written |
| `Running.RunIsCommittedMerges` | scripts/backfill_duplicate_models.py:1092-1118 | A run leaves the models as if only the committed clusters had been given |
| `Running.DryRunChangesNothing` | scripts/backfill_duplicate_models.py:1092-1118 | A dry run changes no table, whatever fails |
| `RunReports.CountersMeaning` | scripts/backfill_duplicate_models.py:1059-1137 | Each write counter is the sum of the rows its clusters wrote, the error counter the number of clusters that failed at a write, each decision's counter the number of its clusters that did not fail |
| `RunReports.InsertsMeaning` | scripts/backfill_duplicate_models.py:804-946 | A run adds, in cluster order, one candidate or review row for each member a committed borderline cluster loses, and nothing else |
| `RunReports.ReportMeaning` | scripts/backfill_duplicate_models.py:1092-1118 | A report names decision, members and failure, and, unless failed, the member preferred to all others |
| `Rerun.DiscoveredMergesAreSafe` | scripts/backfill_duplicate_models.py:472-647 | Discovery only hands over disjoint, unrepeated merges about loaded rows |
| `Rerun.SurvivorsDisconnected` | scripts/backfill_duplicate_models.py:691-802 | Of two ids connected by auto_merge pairs at most one is active after the apply |
| `Rerun.NoMergeIffNoFirstVerdict` | scripts/backfill_duplicate_models.py:511-627 | Discovery emits no auto cluster exactly when no pair's first real verdict is auto_merge |
| `Rerun.OffersUnchanged` | scripts/backfill_duplicate_models.py:511-587 | If archived rows merely drop out of the search and scores ignore merged fields, the rerun scans exactly the first scan's offers between survivors |
| `RerunCondition.SurvivorsAreActiveRows` | scripts/backfill_duplicate_models.py:691-802 | The rows the first run leaves active, read off the rows it loaded and the clusters it found |
| `RerunCondition.PairVerdictMeaning` | scripts/backfill_duplicate_models.py:540-587 | A pair's first verdict in the scan depends on the scans of its two rows only, the earlier one first |
| `RerunCondition.RerunMergesIff` | scripts/backfill_duplicate_models.py:47-53 | Under any scoring and search, a rerun merges again if and only if two of the rows the first run left get the verdict auto_merge as it left them, and that verdict is then a new one |
| `RerunCondition.ExhaustiveRerunMergesIff` | scripts/backfill_duplicate_models.py:47-53 | With a search that leaves no row out: if and only if two of those rows merge under the kind rule of the one scanned first, or find no match there and merge under the other's |
| `RerunCondition.RerunIsClean` | scripts/backfill_duplicate_models.py:47-53 | If archived rows merely drop out of the search and scores ignore merged fields, a rerun yields no auto_merge cluster |
| `RerunCounterexample.Cosines` | scripts/backfill_duplicate_models.py:425-438 | The three pairs' similarities in the counterexample are the cosines of their embeddings |
| `RerunCounterexample.SharedEvidenceMakesRerunMerge` | services/reasoning/think/reconciler.py:516-552 | With the shared-evidence boost the documented promise fails: a concrete table of unit vectors whose rerun merges two more rows |
| `Supervisor.SlotRoundTrip` | scripts/drain_company_e2e_think.py:110-117 | A slot's worker id parses back to that slot |
| `Supervisor.OwnIdIffPlainNumber` | scripts/drain_company_e2e_think.py:110-117 | An id that names a slot is that slot's own id if and only if what follows the prefix is digits without a leading zero |
| `Supervisor.ForeignIdNamesSlot` | scripts/drain_company_e2e_think.py:110-117 | So the parser is not injective: an id with a leading zero names a slot it does not own |
| `SupervisorSteps.PyIntMeaning` | scripts/drain_company_e2e_think.py:110-117 | The number read is exactly the one a sign and digits with single underscores between them write, surrounded by space |
| `SupervisorSteps.WorkerIndexMeaning` | scripts/drain_company_e2e_think.py:110-117 | An id names slot i exactly when it is the prefix, a dash and a text that says i+1 |
| `Supervisor.StepLocks` | scripts/drain_company_e2e_think.py:80-107 | A step only ever clears a lock, keeps it, or sets it to the claiming worker |
| `Supervisor.StepKeepsInv` | scripts/drain_company_e2e_think.py:187-308 | Every step of supervisor, workers and clock keeps the slot, process, phase and lock-owner invariant |
| `Supervisor.StepKeepsFlight` | scripts/drain_company_e2e_think.py:187-308 | When workers never take locked rows, what a live worker has in flight stays locked under its id |
| `Supervisor.AtMostOneLiveProcess` | scripts/drain_company_e2e_think.py:187-308 | In every interleaving each worker id has at most one live process |
| `Supervisor.ReleaseIsSafe` | scripts/drain_company_e2e_think.py:80-107 | A release clears exactly the stale incomplete rows of one worker, none of whose processes is alive |
| `SupervisorSteps.SupervisorOrder` | scripts/drain_company_e2e_think.py:236-269 | Where the supervisor stands fixes its next step; it lists exactly the ids under its prefix holding a lock older than the window, or none when the window is not positive |
| `SupervisorSteps.WorkerSteps` | services/reasoning/think/worker.py:846-996 | When exactly a live worker may claim, finish, give up, refresh or recover rows |
| `SupervisorSteps.RowAfterStep` | services/reasoning/think/worker.py:2444-2535 | What each step does to each row: claimed, finished, put back, refreshed or freed under stated conditions, and otherwise as it was |
| `SupervisorSteps.ProcessAfterStep` | scripts/drain_company_e2e_think.py:120-140 | A process ends exactly by a crash, a restart of its slot or the final stop, and keeps its id; its flight changes by its own claims and finishes only |
| `SupervisorSteps.ChildrenAfterStep` | scripts/drain_company_e2e_think.py:236-269 | A slot gets a new process exactly when it is restarted or its process is found ended |
| `SupervisorSteps.PhaseAfterStep` | scripts/drain_company_e2e_think.py:236-269 | Where the supervisor stands after each step |
| `SupervisorSteps.DoneStaysDone` | services/reasoning/think/worker.py:724-768 | In every run a row that is done is never locked, taken or changed again |
| `SupervisorSteps.FreshLockIsKept` | scripts/drain_company_e2e_think.py:80-107 | A lock refreshed within the window stays with its worker in every step but the worker's own |
| `SupervisorPass.Supervision.TerminateProcessGroup` | scripts/drain_company_e2e_think.py:120-140 | Ending a process that has ended already changes nothing; otherwise exactly that process ends |
| `SupervisorPass.Supervision.ReleaseWorkerLocks` | scripts/drain_company_e2e_think.py:80-107 | Row by row: exactly the worker's stale incomplete rows lose their lock, every other row stays, and the result is how many lost it |
| `SupervisorPass.ReleaseMeaning` | scripts/drain_company_e2e_think.py:80-107 | After a release nothing else about the queue has changed, and the worker holds no stale incomplete row |
| `SupervisorPass.OwnersAreSlots` | scripts/drain_company_e2e_think.py:242-255 | The restarted ids are the listed ones that name a slot, in the listed order |
| `SupervisorPass.Supervision.RestartSlot` | scripts/drain_company_e2e_think.py:242-255 | One slot's process is ended, its stale locks are released and a new process takes the slot |
| `SupervisorPass.Supervision.RestartStale` | scripts/drain_company_e2e_think.py:242-255 | The loop over the listed ids ends, releases and respawns each slot it names and passes over the others |
| `SupervisorPass.Supervision.ReplaceEnded` | scripts/drain_company_e2e_think.py:263-269 | The loop over the children replaces exactly the ended ones |
| `SupervisorPass.Supervision.RunPass` | scripts/drain_company_e2e_think.py:236-269 | One pass of the loop body is the pass function |
| `SupervisorPass.PassMeaning` | scripts/drain_company_e2e_think.py:236-269 | After a pass no incomplete stale row is held under a slot's id and every slot has a live process; only stale locks of listed workers were released, and healthy unlisted slots keep their process |
| `SupervisorPass.PassIsRun` | scripts/drain_company_e2e_think.py:236-269 | An uninterrupted pass is one of the interleavings of the step machine |
| `Supervisor.StealingDoublesWork` | services/reasoning/think/worker.py:724-760 | With two slots and claims that take old locks, two live workers can hold one row |
| `Supervisor.ExclusiveIffNoStealing` | services/reasoning/think/worker.py:724-760 | No row is ever worked on by two live workers, in any run, if and only if claims never take locked rows or there is at most one slot |
| `ProviderKeys.HostOfUrl` | scripts/manage_dedicated_source_installations.py:1036-1042 | The provider key of a URL is its host, with its port if any, whatever the scheme, path and trailing slashes |
| `Installations.KeyMeaning` | scripts/manage_dedicated_source_installations.py:1023-1042 | A source filed under hosts has the host of the scope's URL as its provider key, any other the scope itself |
| `Installations.LinkedMeaning` | scripts/manage_dedicated_source_installations.py:847-857 | A provider row is touched only for sources with a webhook secret and a row whose key is there and not empty |
| `SourceTable.SourceTables.SetProviderEnabled` | scripts/manage_dedicated_source_installations.py:847-870 | The provider row under an installation's key is enabled or disabled, if the source has webhooks and the key is not blank |
| `SourceTable.SourceTables.SetDisabledAt` | scripts/manage_dedicated_source_installations.py:448-489 | Pause and resume move every matched row and the provider row of the one returned, or nothing on a crash or without a match |
| `SourceTable.SourceTables.SelectSingle` | scripts/manage_dedicated_source_installations.py:748-771 | A selector yields a row exactly when it matches one and only one |
| `SourceTable.SourceTables.RotateSecret` | scripts/manage_dedicated_source_installations.py:491-538 | Rotation replaces the stored secret of a referenced column of the one matched row, with the source's error cases |
| `SourceTable.RotateOnTable` | scripts/manage_dedicated_source_installations.py:491-538 | A rotation succeeds exactly when its selector matches one row that can be rotated; then that row's secret is the new value, and rows, provider rows and other secrets stay |
| `Installations.RotateMeaning` | scripts/manage_dedicated_source_installations.py:491-538 | When a rotation succeeds, crashes or fails, and what it then has stored and logged |
| `SourceTable.StateOnTable` | scripts/manage_dedicated_source_installations.py:448-489 | Pause and resume set the state of exactly the matched rows and of the one provider row they are linked to |
| `Installations.StateMeaning` | scripts/manage_dedicated_source_installations.py:448-489 | Pause and resume set the row's state and the linked provider row's flag and log one entry |
| `SourceTable.SourceTables.DeleteSecrets` | scripts/manage_dedicated_source_installations.py:577-588 | The deletes take effect one by one and a crash keeps those made; a column counts as cleared only on success |
| `SourceTable.SourceTables.CommitDeletion` | scripts/manage_dedicated_source_installations.py:590-603 | One commit disables both rows and clears the columns whose deletes succeeded |
| `SourceTable.SourceTables.Uninstall` | scripts/manage_dedicated_source_installations.py:540-603 | On the one matched row, secrets are deleted one by one outside the transaction; then one commit clears what was deleted and disables both rows |
| `SourceTable.MatchedShareKey` | scripts/manage_dedicated_source_installations.py:699-718 | Rows matched together yield one provider key, so it does not matter which of them an update returns |
| `SourceTable.OneRowCommand` | scripts/manage_dedicated_source_installations.py:396-687 | A command whose selector matches one row does to it and its provider row what the one-row command does, and nothing to the others |
| `Installations.DeletionMeaning` | scripts/manage_dedicated_source_installations.py:577-597 | A column is cleared exactly when its delete reported success, and then its secret is gone; only referenced secrets are deleted |
| `Installations.UninstallResults` | scripts/manage_dedicated_source_installations.py:540-603 | How an uninstall ends, and what it leaves when it does not come to commit |
| `Installations.UninstallMeaning` | scripts/manage_dedicated_source_installations.py:577-603 | A committed uninstall disables the row, clears the columns whose delete was reported done and has lost the secrets whose delete took effect |
| `Installations.UninstalledProvider` | scripts/manage_dedicated_source_installations.py:872-898 | It turns the linked provider row off and drops its secret exactly when the webhook column was cleared |
| `Installations.RefsInColumnOrder` | scripts/manage_dedicated_source_installations.py:577-588 | The refs are deleted in the order of the source's columns |
| `SourceTable.RunsKeepAgreement` | scripts/manage_dedicated_source_installations.py:448-603 | Over every run of commands on any rows, failing deletes and crashes included, the provider row's enabled flag and secret_ref follow a row whose key is its own |
| `SourceTable.AgreementSafeIffKeyAlone` | scripts/manage_dedicated_source_installations.py:847-898 | The agreement is safe from every command on any row if and only if the row yields a non-empty provider key and no other row of the tenant yields it |
| `SourceTable.AllRunsAgreeIff` | scripts/manage_dedicated_source_installations.py:448-603 | A table in agreement stays so in every run if and only if every row that has a provider row has it alone |
| `SourceTable.OneRowRun` | scripts/manage_dedicated_source_installations.py:396-687 | Commands on one row of the table are the one-row run the results below speak of, and leave the other rows as they are |
| `SourceTable.RunsOnlyClear` | scripts/manage_dedicated_source_installations.py:577-603 | In every run on any rows a ref column is cleared only when its secret no longer exists, no secret appears, and one that no row refers to is untouched |
| `Installations.ClearedMeansGone` | scripts/manage_dedicated_source_installations.py:577-597 | In every run a ref column is cleared only when its secret no longer exists, and foreign secrets are untouched |
| `Installations.CleanMeaning` | scripts/manage_dedicated_source_installations.py:540-603 | What one error-free uninstall leaves of refs, secrets and both rows |
| `Installations.UninstallRetrySafe` | scripts/manage_dedicated_source_installations.py:540-603 | After any commands, crashed uninstalls among them, one error-free uninstall ends where an uninterrupted one would, up to timestamps |
| `Installations.DanglingAfter` | scripts/manage_dedicated_source_installations.py:540-603 | After one command a column dangles exactly when it is kept and its secret was missing or is deleted by the command |
| `Installations.DanglingIff` | scripts/manage_dedicated_source_installations.py:448-603 | The columns a run leaves dangling, from the first row and the commands alone |
| `Installations.RefsResolvableIff` | scripts/manage_dedicated_source_installations.py:448-603 | A run leaves every ref resolvable if and only if each column whose secret an uninstall deletes is cleared by that uninstall or a later one |
| `Installations.CrashLeavesDanglingRefs` | scripts/manage_dedicated_source_installations.py:540-603 | A crash after any number of deletes leaves the last of those refs dangling, and rotating it then fails |
| `Installations.NoStoreNoUninstall` | scripts/manage_dedicated_source_installations.py:549-577 | Without a secret store only a dry run succeeds, also for a row without refs |
| `WhatsappMigration.SelectedMeaning` | scripts/migrate_whatsapp_secret_refs.py:37-56 | The selection names distinct legacy rows: all of them, or as many as the limit allows |
| `WhatsappMigration.SelectedOldestFirst` | scripts/migrate_whatsapp_secret_refs.py:37-56 | The chosen rows ascend strictly by (updated_at, id), and every legacy row left out comes after all of them |
| `WhatsappMigration.Migration.DeleteCreatedRefs` | scripts/migrate_whatsapp_secret_refs.py:59-66 | The undo loop deletes the created refs and touches no other secret |
| `WhatsappMigration.Migration.PutSecrets` | scripts/migrate_whatsapp_secret_refs.py:91-108 | The loop over a row's fields stores each legacy plaintext under a new ref, until a put fails |
| `WhatsappMigration.Migration.MigrateRow` | scripts/migrate_whatsapp_secret_refs.py:91-134 | A row migrates completely, or it is left untouched and its created secrets are deleted again |
| `WhatsappMigration.Migration.MigrateRows` | scripts/migrate_whatsapp_secret_refs.py:86-137 | The loop migrates the chosen rows in order, stops at the first failing one, and succeeds iff no fault hits |
| `WhatsappMigration.Migration.Migrate` | scripts/migrate_whatsapp_secret_refs.py:69-141 | The whole command: dry runs change nothing; a real run is the fold over the selected rows up to the first failure |
| `WhatsappMigration.PutsMeaning` | scripts/migrate_whatsapp_secret_refs.py:95-108 | Each put stores one plaintext under a fresh ref and nothing stored before changes |
| `MigratedRows.RowsMeaning` | scripts/migrate_whatsapp_secret_refs.py:91-134 | After a run each migrated row has the new update time, no plaintext, the refs it had, and for each plaintext without a ref a new ref holding it; every other row is as before |
| `MigratedRows.RefsCreated` | scripts/migrate_whatsapp_secret_refs.py:91-134 | A run creates one ref for each field of the chosen rows with plaintext and no ref |
| `MigratedRows.CompletesIff` | scripts/migrate_whatsapp_secret_refs.py:91-134 | A run gets through exactly when no chosen row meets its fault |
| `WhatsappMigration.NoCredentialLost` | scripts/migrate_whatsapp_secret_refs.py:91-134 | No credential reached through its ref or its plaintext is lost, existing refs and stored secrets are left alone, over any sequence of rows |
| `WhatsappMigration.AllReadableIff` | scripts/migrate_whatsapp_secret_refs.py:91-134 | Every plaintext stays readable if and only if no migrated row has plaintext beside a ref to a missing secret |
| `WhatsappMigration.StillLegacy` | scripts/migrate_whatsapp_secret_refs.py:37-56 | Exactly the migrated rows stop being legacy |
| `WhatsappMigration.RunShrinksBacklog` | scripts/migrate_whatsapp_secret_refs.py:37-56 | A run with limit L lowers the remaining rows by min(L, remaining); without one a rerun selects nothing |
| `EdgeBackfill.EdgeTable.BackfillRow` | scripts/backfill_model_edges.py:80-107 | One fetched row asks for one insert per array entry, in order; a dry run only counts them |
| `EdgeBackfill.EdgeTable.BackfillKind` | scripts/backfill_model_edges.py:65-108 | One insert loop is the fold of conflict-ignoring inserts; a dry run counts every array entry |
| `EdgeBackfill.EdgeTable.BackfillOneTenant` | scripts/backfill_model_edges.py:194-234 | One tenant's three loops in one transaction, with the exception caught inside the block |
| `EdgeBackfill.InsertAllMeaning` | scripts/backfill_model_edges.py:65-191 | The loop's table grows only by requested edges, by exactly the number it counts, and by all of them when it completes |
| `EdgeReports.DerivedMeaning` | scripts/backfill_model_edges.py:65-191 | The derived edges lead from each model named in a fetched array to the row's target, with the kind of the column |
| `EdgeReports.RequestAt` | scripts/backfill_model_edges.py:65-191 | The inserts come row by row and entry by entry |
| `EdgeReports.DryRunCountsEntries` | scripts/backfill_model_edges.py:65-191 | A dry run reports the number of array entries of each kind and changes nothing |
| `EdgeReports.ReportCounts` | scripts/backfill_model_edges.py:194-234 | A report, failed or not, has exactly the kinds whose loops ended before the first failing insert, each with the number of its new edges |
| `EdgeBackfill.InsertAllStopsAtFirstFailure` | scripts/backfill_model_edges.py:65-191 | A loop makes exactly the inserts before the first one that fails, and ends with that one's error |
| `EdgeBackfill.InsertAllSucceedsIff` | scripts/backfill_model_edges.py:65-191 | A loop completes exactly when no insert is refused by its data and no fault is due |
| `EdgeBackfill.ThreeLoopsAreOne` | scripts/backfill_model_edges.py:194-234 | A tenant's three loops act as one loop over all its inserts |
| `EdgeBackfill.CompleteRunIsExact` | scripts/backfill_model_edges.py:194-234 | A complete run ends with the original plus the derived edges and reports the new ones per kind |
| `EdgeBackfill.RunStaysBetween` | scripts/backfill_model_edges.py:194-234 | Whatever fails, the table stays between the original and the complete set; dry runs and server errors change nothing |
| `EdgeBackfill.RunsConverge` | scripts/backfill_model_edges.py:194-234 | Any mix of runs followed by one complete run lands exactly on the complete set |
| `EdgeBackfill.RerunReportsZero` | scripts/backfill_model_edges.py:194-234 | An immediate complete rerun reports zero for every kind |
| `EdgeBackfill.DryCountIsUpperBound` | scripts/backfill_model_edges.py:65-191 | The dry count is never below the real one, for every kind |
| `EdgeBackfill.ErrorKeepsExactly` | scripts/backfill_model_edges.py:206-229 | A tenant reports the error of its first failing insert; after a server error it keeps nothing, after a client error exactly the edges of the inserts before; so the table is unchanged iff the error is the server's or those edges were there |
| `EdgeBackfill.CompletesIffEntriesFit` | db/migrations/0031_model_edges.sql:58-92 | Without injected faults a tenant completes if and only if every array entry is a model other than its row; NULL and self entries are the table's refusals |
| `EdgeBackfill.ClientErrorCommitsPartialRun` | scripts/backfill_model_edges.py:86-98 | A row with a two-dimensional array is refused at the insert's arguments, on the client side, and the inserts made for the row before it are committed |
| `CallNames.LastSegmentMeaning` | scripts/check_architecture_ratchets.py:877-890 | A name equal to a word or ending in a dot and that word is a name whose last dotted segment is the word |
| `CallNames.TransactionNameIsLastSegment` | scripts/check_architecture_ratchets.py:877-890 | The four transaction-context tests together test the last dotted segment |
| `CallNames.ListedIff` | scripts/check_architecture_ratchets.py:889-903 | A dotted call is a network call exactly when its first segment is a listed module, it is a listed object method, or its last segment is a listed function, method or suffix |
| `TransactionVisitor.RatchetTells` | scripts/check_architecture_ratchets.py:877-903 | For every chain of names, attributes and calls: with the ratchet's own tables it opens a transaction exactly when its last name is one of the two words, and is a network call under its dotted name exactly when the tables list it |
| `TransactionVisitor.FullNameIsDotted` | scripts/check_architecture_ratchets.py:864-874 | The full name of such a chain is the dotted join of its names, calls adding nothing |
| `TransactionVisitor.ChainedCallTells` | scripts/check_architecture_ratchets.py:864-903 | `a.b().c(...)` is a network call exactly as the tables say of the joined receiver and the last attribute |
| `CallNames.OneWordListed` | scripts/check_architecture_ratchets.py:889-903 | A call of a bare name is a network call exactly when it is a listed module, function or method name |
| `TransactionVisitor.Visitor.Visit` | scripts/check_architecture_ratchets.py:950-994 | Visiting appends the node's report and leaves the depth counter as found |
| `TransactionVisitor.Visitor.RecordCall` | scripts/check_architecture_ratchets.py:962-977 | A network call is recorded while a transaction is open, and only then |
| `TransactionVisitor.Visitor.GenericVisit` | scripts/check_architecture_ratchets.py:950-994 | Visiting children in order appends their reports |
| `TransactionVisitor.Visitor.VisitWithBody` | scripts/check_architecture_ratchets.py:955-975 | A transaction `with` counts for its body and not for its header |
| `TransactionVisitor.ReportIsByPosition` | scripts/check_architecture_ratchets.py:950-994 | On every tree the report is, once each and in pre-order, the network calls lying in the body of some enclosing transaction `with` |
| `ReportedCalls.ReportMeaning` | scripts/check_architecture_ratchets.py:950-994 | The report is, in reading order, exactly the network calls below a transaction context in a `with` body, each with its line and network name |
| `ReportedCalls.CleanIff` | scripts/check_architecture_ratchets.py:950-994 | Nothing is reported exactly when no network call stands in an open transaction |
| `ReportedCalls.PreOrderAscends` | scripts/check_architecture_ratchets.py:950-994 | Positions are visited parents first, children left to right, a body after the items |
| `TransactionVisitor.AllPositions` | scripts/check_architecture_ratchets.py:950-994 | The pre-order lists every position of the tree and nothing else |
| `TransactionVisitor.PositionsDistinct` | scripts/check_architecture_ratchets.py:950-994 | No position is listed twice |
| `TransactionVisitor.InBodyBelow` | scripts/check_architecture_ratchets.py:955-975 | A position lies in a transaction body iff the path enters one at its first step or further down |
| `SqlComments.StripLine` | scripts/check_architecture_ratchets.py:2937-2958 | The character loop over one line yields the stripped line and the flag it hands on |
| `SqlComments.StripSqlComments` | scripts/check_architecture_ratchets.py:2934-2960 | The loop over lines threads the flag and keeps one output line per input line |
| `SqlComments.StripperIsAutomaton` | scripts/check_architecture_ratchets.py:2934-2960 | Line-at-a-time stripping equals one pass of a six-state character automaton over the joined text |
| `SqlComments.LinesAreAutomaton` | scripts/check_architecture_ratchets.py:2934-2960 | The same from either flag, with the flag handed on |
| `SqlComments.StepIsStrip` | scripts/check_architecture_ratchets.py:2937-2958 | One automaton step inside a line is one step of the line stripper, held-back characters included |
| `SqlComments.StripLinesCompose` | scripts/check_architecture_ratchets.py:2934-2960 | Stripping a concatenation of line lists composes through the carried flag |
| `SqlComments.StripKeepsLineCount` | scripts/check_architecture_ratchets.py:2934-2960 | The number of lines is kept |
| `SqlComments.LinesStayPut` | scripts/check_architecture_ratchets.py:2934-2960 | Output line i is a subsequence of input line i |
| `SqlComments.UnchangedIffNoMarker` | scripts/check_architecture_ratchets.py:2934-2960 | A file comes out unchanged, so that a second pass would too, exactly when no line holds a comment marker |
| `SqlComments.MarkerIffRejoined` | scripts/check_architecture_ratchets.py:2937-2958 | A stripped line holds a comment marker if and only if two kept characters of the input line form one with only closed block comments between them |
| `SqlComments.IdempotentIff` | scripts/check_architecture_ratchets.py:2934-2960 | A second pass changes nothing if and only if no line, from the flag it starts with, has two such characters |
| `SqlComments.NotIdempotent` | scripts/check_architecture_ratchets.py:2934-2960 | A concrete line on which a second pass strips more |
| `EnvParser.StripInlineComment` | scripts/check_production_env_contract.py:322-329 | The loop cuts at the first `#` outside quotes, with the source's quote switching |
| `EnvParser.ParseRawLine` | scripts/check_production_env_contract.py:344-354 | One line's parse: blank and comment lines, `export `, split at the first `=`, unquoting |
| `EnvParser.ParseEnvTemplate` | scripts/check_production_env_contract.py:338-356 | The parser returns the settings of the text's lines with 1-based line numbers |
| `EnvParser.BreakCharacters` | scripts/check_production_env_contract.py:338-342 | The ten characters at which a text is broken into lines |
| `EnvParser.SplitMeaning` | scripts/check_production_env_contract.py:338-342 | The lines of a text are free of line breaks and, with breaks after them, make up the text again |
| `EnvParser.SplitsJoined` | scripts/check_production_env_contract.py:338-342 | Splitting undoes joining, whatever breaks end the lines |
| `EnvParser.NumberMeaning` | scripts/check_production_env_contract.py:340-356 | The entries are, in order, the settings of the lines that hold one, numbered from 1 |
| `EnvParser.FindDuplicates` | scripts/check_production_env_contract.py:359-368 | Each key maps to its first definition, and exactly the keys defined twice or more map to all their definitions in order |
| `EnvParser.DefinitionsMeaning` | scripts/check_production_env_contract.py:359-368 | The definitions of a key are the entries with that key in the order they stand in |
| `EnvPrinting.ReadsBackIffGood` | scripts/check_production_env_contract.py:322-356 | A printed line, with or without `export`, spaces anywhere, a bare, single- or double-quoted value and a comment, reads back as itself exactly when key and value meet a stated condition |
| `EnvPrinting.TemplateReadsBackIffGood` | scripts/check_production_env_contract.py:338-356 | A printed template, with any line breaks, reads back with all keys, values and line numbers exactly when every line meets it |
| `EnvPrinting.EverySettingIsPrinted` | scripts/check_production_env_contract.py:322-356 | Conversely every line that yields a setting is the printing of an item that meets the condition |
| `EnvPrinting.GoodValueByParity` | scripts/check_production_env_contract.py:322-335 | The condition on a value by parity: every `#` follows an odd run of one kind of quote, and before a comment the quote open before the value is open after it; a bare value is trimmed and not itself quoted |
| `EnvPrinting.QuoteFreeValuesAreGood` | scripts/check_production_env_contract.py:322-335 | Values without quotes meet the condition in quotes whatever follows, and bare when trimmed and without `#` |
| `EnvPrinting.ApostropheKeepsComment` | scripts/check_production_env_contract.py:322-329 | A double-quoted value with one apostrophe does not meet it when a comment follows |
| `EnvParser.ParsedKeys` | scripts/check_production_env_contract.py:338-356 | Every key parsed from any line is trimmed, non-empty and free of `=` |
| `EnvPrinting.NumberInjective` | scripts/check_production_env_contract.py:338-356 | The numbered entries determine what every line held |
| `Percentile.PercentileBetween` | scripts/run_100_signal_real_llm_e2e.py:635-645 | The percentile lies between the smallest and the largest value |
| `Percentile.PercentileInterpolates` | scripts/run_100_signal_real_llm_e2e.py:635-645 | At position k plus a part below 1 the percentile is the k-th value plus that part of the step to the next |
| `Percentile.PercentileAtRank` | scripts/run_100_signal_real_llm_e2e.py:635-645 | At k/(n-1) the percentile is the k-th value |
| `Percentile.SmallPercentiles` | scripts/run_100_signal_real_llm_e2e.py:635-645 | No values give 0, one value gives itself |
| `Percentile.MedianIsMiddle` | scripts/run_100_signal_real_llm_e2e.py:641-645 | The median is the middle value, or the mean of the two middle ones |
| `Percentile.NinetiethIsInterpolated` | scripts/run_100_signal_real_llm_e2e.py:641-645 | The 0.9 percentile from the two values around nine tenths of the way |
| `Percentile.PercentileRises` | scripts/run_100_signal_real_llm_e2e.py:635-645 | A larger fraction never gives a smaller percentile, across interpolation pieces too |
| `Percentile.PercentileIgnoresOrder` | scripts/run_100_signal_real_llm_e2e.py:635-645 | The percentile does not depend on the input order |
| `Percentile.PercentileRaised` | scripts/run_100_signal_real_llm_e2e.py:635-645 | Raising values one by one never lowers a percentile, even when their order changes |
| `Percentile.MedianMeaning` | scripts/run_100_signal_real_llm_e2e.py:635-645 | A median within a limit means at least half of the values are, one above it that at least half are above; for odd counts an equivalence |
| `Percentile.SummaryMeaning` | scripts/run_100_signal_real_llm_e2e.py:648-673 | min ≤ p50 ≤ p90 ≤ max and min ≤ avg ≤ max, and the gate's verdict says where at least half of the counts lie |
| `Percentile.SummaryFigures` | scripts/run_100_signal_real_llm_e2e.py:648-673 | p50 is the middle and p90 the nine-tenths value of counts and ratios; least and most are counts; the gate passes exactly when the middle count is within the limit |
| `Percentile.AverageMeaning` | scripts/run_100_signal_real_llm_e2e.py:648-673 | The average times the number of counts is their sum |
| `Percentile.EmptySummary` | scripts/run_100_signal_real_llm_e2e.py:648-673 | Without counts every figure of theirs is 0 |
| `Roles.Console.RunCommand` | scripts/manage_actor_roles.py:163-293 | One run of the script changes grants and log exactly as the step function says, errors in the source's order |
| `Roles.Console.ListRoles` | scripts/manage_actor_roles.py:174-200 | A list is authorised, logged and returns the actor's active grants |
| `Roles.Console.GrantRole` | scripts/manage_actor_roles.py:204-250 | A grant is authorised, inserted unless active already, and logged, or nothing happens |
| `Roles.Console.RevokeRole` | scripts/manage_actor_roles.py:252-291 | A revoke is authorised, retires the active row if any, and is logged either way |
| `Roles.Console.AuthorizedForMutation` | scripts/manage_actor_roles.py:319-355 | An operator must hold an operator role; without one only an allowed bootstrap passes |
| `Roles.Console.EnsureBootstrapGrantAllowed` | scripts/manage_actor_roles.py:358-398 | The bootstrap guard: scope, both actors in the tenant, no active operator row |
| `Roles.StepMeaning` | scripts/manage_actor_roles.py:163-293 | A failed command changes nothing; a successful one appends exactly one entry that records it, is justified, and says what became of every grant |
| `RoleOutcomes.CommandOutcome` | scripts/manage_actor_roles.py:127-398 | A command reports the first of its checks that fails and changes nothing; when none fails, its answer, its log entry and every row are stated |
| `Roles.RunKeepsInv` | db/migrations/0014_access_control.sql:39-69 | Every run keeps the table's uniqueness, scope and reference constraints |
| `Roles.EveryEntryJustified` | scripts/manage_actor_roles.py:298-398 | Over every run each log entry was written by a command whose operator then held an admin or leadership role of the tenant, or was a bootstrap grant while nobody did |
| `Roles.LogCountsSuccesses` | scripts/manage_actor_roles.py:163-293 | The log grows by exactly the number of successful commands and never changes |
| `Roles.LogExplainsTable` | scripts/manage_actor_roles.py:163-293 | Replaying the log gives exactly the active grants, after every run |
| `Roles.BootstrapIff` | scripts/manage_actor_roles.py:358-398 | A well-formed bootstrap succeeds exactly when its actors belong to the tenant and nobody holds an operator role now |
| `Roles.BootstrapTwice` | scripts/manage_actor_roles.py:358-398 | Bootstrap is not once only: it opens again when the last operator gives up the role |
| `Roles.CanActIff` | scripts/manage_actor_roles.py:298-398 | Some command for a tenant can succeed exactly when one of its actors is an operator, or it has an actor and no operator row is active |
| `Roles.LockedOutForever` | scripts/manage_actor_roles.py:298-398 | When all active operator rows belong to other tenants' actors every later command for the tenant fails, in every run |
| `Roles.InsideGrantsNeverLockOut` | scripts/manage_actor_roles.py:298-398 | A tenant whose grants only go to its own actors never gets there |
| `Roles.CanLockOut` | scripts/manage_actor_roles.py:204-250 | Three successful commands that get there |
| `Roles.TenantsAreSeparate` | services/platform/access_control/roles.py:85-189 | A command for one tenant changes no grant and no listing of another |
| `RoleOutcomes.ListingIsExact` | services/platform/access_control/roles.py:168-189 | A listing is exactly the actor's active rows in the tenant, in order |

## Left out

- SQL text, the database driver, command-line parsing, printing, JSON, environment lookup and file reading.
- The reconciler's scoring, the neighbour search and the rule table: parameters of the duplicate backfill; their code is not part of this model, except the shared-evidence boost in the counterexample.
- ClientErrorCommitsPartialRun: that asyncpg refuses to encode a list as a uuid before sending the statement is a fact about the driver, which is not part of this model.
- UUIDs are numbered by the order of their string form; clocks are logical times.
- Floating-point rounding: scores, cosines and percentiles are exact reals, `math.sqrt` is a function assumed exact, and the auto-merge score bounds are compared as reals.
- CosineSimilarity: the `float()` conversion of the inputs is not modelled.
- PercentileRises: fractions outside [0, 1] are not modelled; the script only uses 0.5 and 0.9.
- PercentileBetween: the empty list gives 0 by definition of the function and has no bounds to prove.
- Breakdown dictionaries and cosine averages inside backfill reports.
- RunIsCommittedMerges: archiving is only the status change; the audit rows and edge cascades of the model repository are not part of this model.
- StepKeepsInv: the supervisor and its workers interleave, so the protocol is a machine of steps on values; the loop itself is a class for one uninterrupted pass. A process group is its leader; the wildcards of LIKE in the supervisor's query are not modelled, as ids they let through are filtered by the index parser.
- The supervisor's progress output and its count of pending rows, apart from the decision to stop.
- UninstallRetrySafe, and the results on dangling refs: about runs of commands on one row (`OneRowRun`); commands on other rows that share a secret ref or a provider key are not covered by them.
- The native watch clearing of the Google sources, the region selector of the aws source, and the contents of audit entries of the installation commands.
- Migrate: an UPDATE that misses its row because another session deleted it, and a put that fails after storing, are not modelled.
- ReportIsByPosition: node classes beyond `with`, calls, names and attributes are one generic node.
- The file loop around the SQL comment stripper, and line separators other than the line feed in it.
- FindDuplicates: the comparison with the required, forbidden and exact-value tables of the environment contract is not modelled.
- EveryEntryJustified: commands run one after the other; two concurrent bootstraps are not modelled.
- Numbers, digits and letters outside ASCII, and numerals of more than 4300 digits, in `int()` of worker ids.
- scripts/check_architecture_ratchets.py's migration file-name check and repeated field-list checks, the case summary of scripts/run_100_signal_real_llm_e2e.py, the BYOC scripts, schema-drift and debt reports, and scripts/manage_source_installations.py: set differences, counts and thin wrappers that would only add easy members.
