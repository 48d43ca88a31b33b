# Padawan: verified models of its measurement and coordination core

Padawan measures where a model's capability ends. This project models the parts of it that are
algorithms or protocols in their own right, and proves what its results rely on:

- **Boundary finding.** Exact Wilson intervals (`Wilson`), the weighted pool-adjacent-violators fit and
  the curve built from it (`Pava`, `PavaOptimality`, `Curve`), pass@k (`PassAtK`), fixed-denominator
  accounting of repeated trials (`Trials`, `RepeatedTrials`), the adaptive trial allocator as a state
  machine (`Allocator`, `AllocatorRuns`) and the stop rule (`StopRule`).
- **Finite permutation groups.** Breadth-first closure, orbits, conjugation, normalizers, cores, exact
  quotients of orders, and cycle types (`Permutations`, `Subgroups`, `Conjugates`, `PointOrbits`,
  `GroupFacts`, `Cycles`).
- **The draining dispatcher** as atomic steps between awaits, in any interleaving (`Dispatch`,
  `DispatchSafety`, `DispatchOutcomes`).
- **The content-addressed artifact store** with its crash points and collector (`Store`, `StoreRuns`), and
  the catalog whose transactions race with the collector (`ArtifactCatalog`, `References`).
- **Behavioural metrics.** Calibration and pairwise consistency (`Calibration`, `CalibrationReport`,
  `Consistency`).
- **Campaign budgets.** Reconciling condition ceilings, building the live plan, and checking it
  independently (`CampaignBudget`, `CampaignPlan`, `CampaignBuild`, `CampaignAccounts`).
- **The equation oracle** with its verdict (`Oracle`), and **quota-limited selection**, with the counts that
  decide whether it can fall short (`Scout`, `Quotas`, `ScoutShortage`, `ScoutLimits`).

`Prelude`, `Sorting`, `Reals`, `Finite` and `Contracts` hold shared definitions.

Code that works in loops over changing variables is a method with loop invariants; the dispatcher and
the store, which update shared state, are classes whose methods are proved against a step function, and
the properties over whole runs are proved of that function. Expressions are functions. Each function or
method is tied to a definition that does not mention its body: the pooled curve to least squares, the
interval to the score test it inverts, pass@k to counted subsets, orders of groups to counted cosets,
the oracle to the real solutions of the equation, the greedy selection to all other selections.

Modelling conventions:

- Floating-point numbers are exact reals. The square root and the normal quantile are parameters
  (`Wilson.Numerics`) of which only `Sound` is used.
- SHA-256 is an arbitrary function, assumed injective where a lemma says so. Content digests and
  identifiers that are only compared and sorted are numbers.
- `shuffle` returns any rearrangement. The clock never goes back, and a stop event is never cleared.
- A locked section of the store is atomic except for the crash points between its writes.
- `register` and `reference` verify the bytes and insert into their transaction, which nobody else sees, in
  one step; the commit is another step, and anything may happen in between. A savepoint or the whole
  transaction can be rolled back. References of deleted owners go (`padawan/interaction/store.py:549-558`).
- A record type's own validator is a type invariant or a precondition; every other error path of the
  functions modelled is a result.

## Model

| member | source | states |
|---|---|---|
| Wilson.IntervalIsUnclamped | padawan/atlas/boundary.py:28-51 | for every 0 <= s <= n, n > 0, the clamps never act: 0 <= lower <= s/n <= upper <= 1, and the width is positive and below 1 |
| Wilson.SwapReflects | padawan/atlas/boundary.py:28-51 | counting failures for successes maps (lower, upper) to (1 - upper, 1 - lower) |
| Wilson.IntervalIsScoreTest | padawan/atlas/boundary.py:42-51 | a rate x lies in the interval if and only if the score test keeps it: n (x - p)^2 <= z^2 x (1 - x) |
| Wilson.RefusesExactlyWhen | padawan/atlas/boundary.py:36-41 | each refusal if and only if its check is the first that fails |
| Pava.FitBlocks | padawan/atlas/boundary.py:315-333 | the stack loop leaves consecutive runs of the observed bins that conserve successes and trials, with no prefix above the block mean, and block means that never rise |
| Pava.MergeIsBlock | padawan/atlas/boundary.py:324-333 | pooling two adjacent violating blocks keeps counts and the prefix bound |
| PavaOptimality.PoolingIsBestFit | padawan/atlas/boundary.py:315-346 | the block means are the unique minimiser of the trial-weighted squared error to the raw rates among all non-increasing curves |
| PavaOptimality.UnchangedIffNoViolations | padawan/atlas/boundary.py:334-346 | the fit leaves the raw rates alone if and only if the count of monotonic violations is 0 |
| PavaOptimality.ViolationsAreRises | padawan/atlas/boundary.py:334-337 | the violation count is the number of observed bins with a higher rate than the observed bin before |
| Curve.SpreadBlocks | padawan/atlas/boundary.py:338-346 | every bin of a block gets the block's mean and Wilson interval, which contains that mean |
| Curve.InterpolatedBoundary | padawan/atlas/boundary.py:382-398 | on a fitted curve: none if and only if nothing is observed or the target is above the first or below the last value; otherwise every point below it reaches the target and none above exceeds it; it is the first exact hit or lies on the line between two neighbours |
| Curve.DuplicatesAreFound | padawan/atlas/boundary.py:312-314 | equal neighbours in the sorted order exist if and only if any two bins have the same difficulty |
| Curve.BuildCapabilityCurve | padawan/atlas/boundary.py:298-379 | the errors exactly when the code raises them, told by the bins given; otherwise points in strict order of difficulty carrying their pooled estimates, the unique best fit, the number of violations, and a separating boundary |
| PassAtK.CombCounts | padawan/atlas/boundary.py:150 | the binomial coefficient counts the k-element subsets |
| PassAtK.FormulaHolds | padawan/atlas/boundary.py:144-150 | both early returns agree with the binomial formula |
| PassAtK.IsSubsetFraction | padawan/atlas/boundary.py:144-150 | the estimate is the fraction of k-element subsets of the trials that contain a success |
| PassAtK.MonotoneInK | padawan/atlas/boundary.py:144-150 | a larger sample never lowers the estimate |
| PassAtK.MonotoneInSuccesses | padawan/atlas/boundary.py:144-150 | more successes never lower the estimate |
| Trials.LookupsCount | padawan/atlas/boundary.py:179-204 | looking every planned trial up in the keyed table counts each observation exactly once |
| Trials.KeysAreUnique | padawan/atlas/boundary.py:163-165 | no two observations share item and index if and only if there are as many keys as observations |
| Trials.ItemsCount | padawan/atlas/boundary.py:186-206 | the totals over declared items are the counts over the whole input |
| RepeatedTrials.SummaryOf | padawan/atlas/boundary.py:108-136 | per item: outcomes match their counts, observed and missing make the plan, and the missing categories add up with nothing negative |
| RepeatedTrials.EvidenceCounts | padawan/atlas/boundary.py:170-177 | the scored digests number exactly the observed trials |
| RepeatedTrials.DigestsAreUnique | padawan/atlas/boundary.py:170-177 | no digest is reused if and only if there are as many digests as observations that carry one |
| RepeatedTrials.AnalysisAccounts | padawan/atlas/boundary.py:179-267 | every field of every item and of the aggregate is the number of observations it is named for, and a pass@k estimate is given exactly for complete items |
| RepeatedTrials.RepeatedTrialAnalysis | padawan/atlas/boundary.py:153-267 | the first failing check, or an accounting that equals the input's counts per item and in total, with pass@k only for complete items and the interval of the total |
| RepeatedTrials.OrderIsIrrelevant | padawan/atlas/boundary.py:153-267 | acceptance and everything reported depend only on which observations there are, not on their order |
| Allocator.Choice | padawan/atlas/boundary.py:777-790 | the selected candidate is open and strictly ahead of every other open candidate |
| Allocator.ChoiceWins | padawan/atlas/boundary.py:781-790 | every other open candidate loses: unobserved first, then width times nearness, then width, then the larger digest |
| Allocator.RefusesExactlyWhen | padawan/atlas/boundary.py:761-779 | each of the eight refusals if and only if its check is the first that fails |
| Allocator.DecisionRecords | padawan/atlas/boundary.py:791-825 | the decision names the chosen candidate's next trial, its place in the sequence, and all candidates and prior results in canonical order |
| Allocator.UnobservedFirst | padawan/atlas/boundary.py:781-790 | an open candidate without an observed outcome is chosen before any observed one |
| Allocator.RankFollowsUncertainty | padawan/atlas/boundary.py:781-788 | at equal width the rate nearer the boundary ranks higher, at equal distance the wider interval |
| Allocator.OrderIsIrrelevant | padawan/atlas/boundary.py:748-825 | the whole decision, down to what its digest is computed from, does not depend on the order of the candidates |
| AllocatorRuns.RunsFollowThePlan | padawan/atlas/boundary.py:728-745 | over every run with any outcomes: no (item, trial index) repeats, the sequence number rises by exactly 1, and no candidate exceeds its plan |
| AllocatorRuns.StepKeepsGood | migrations/versions/c9e8f4a1d2b3_add_capability_atlas_registry.py:532-546 | one decision, carried out and recorded, keeps both uniqueness constraints of the allocation table |
| AllocatorRuns.SucceedsWhenAdmissible | padawan/atlas/boundary.py:761-779 | an allocation succeeds if and only if the suite, boundary and evidence are admissible and some budget is left |
| AllocatorRuns.RunsSpendTheBudget | padawan/atlas/boundary.py:777-791 | a run can go on if and only if fewer decisions were made than the budget remaining at its start |
| StopRule.PrecisionIsComplete | padawan/atlas/boundary.py:995-1000 | a stop for precision means every allocated trial was scored and the interval, narrow enough, contains the observed rate |
| StopRule.DecidesExactlyWhen | padawan/atlas/boundary.py:950-1014 | each error, and each decision if and only if its condition on the counts holds and none before it |
| StopRule.DecisionIsSymmetric | padawan/atlas/boundary.py:950-1014 | swapping successes with failures reflects the interval and leaves the decision alone |
| StopRule.ObeyingStopsInTime | padawan/atlas/boundary.py:966-994 | assessing after every trial and obeying never errs or exceeds the maximum, always continues before the minimum and always ends by the maximum |
| Permutations.Inverse | scripts/validate_graduate_algebra.py:18-19 | the tuple of first positions undoes the permutation on both sides |
| Permutations.ClosedIsGroup | scripts/validate_graduate_algebra.py:22-32 | a finite set of permutations closed under composition is closed under inverse |
| Permutations.Generated | scripts/validate_graduate_algebra.py:22-32 | the search terminates with exactly the subgroup generated: a group containing the generators and contained in every group that contains them |
| Subgroups.Lagrange | scripts/validate_graduate_algebra.py:66-74 | the order of a subgroup divides the order of the group, and the quotient counts the left cosets |
| GroupFacts.Quotient | scripts/validate_graduate_algebra.py:66-74 | each `//` on orders of a group and a subgroup is exact |
| Subgroups.IntersectionIsSubgroup | scripts/validate_graduate_algebra.py:68 | the intersection of two subgroups is one |
| Subgroups.ActionOrder | scripts/validate_graduate_algebra.py:53-71 | a group's order divided by that of the pointwise stabiliser of some points is the number of different permutations it makes of those points |
| GroupFacts.StabilizerQuotient | scripts/validate_graduate_algebra.py:53-71 | dividing by the order of the pointwise stabiliser of an orbit is exact and gives the order of the action on the orbit |
| Conjugates.NormalizerIsSubgroup | scripts/validate_graduate_algebra.py:54-74 | the normalizer is a subgroup of G that contains K as a subgroup |
| Conjugates.NormalizerMember | scripts/validate_graduate_algebra.py:46-54 | an element is counted if and only if x y inverse(x) lies in K exactly when y does |
| Conjugates.NormalizerIsLargest | scripts/validate_graduate_algebra.py:54 | the normalizer is the largest subgroup of G in which K is normal |
| Conjugates.CoreOf | scripts/validate_graduate_algebra.py:55-59 | stopping the intersection early, once it is trivial, still yields the intersection of all conjugates |
| Conjugates.CoreIsLargestNormal | scripts/validate_graduate_algebra.py:55-59 | that intersection is the largest normal subgroup of G inside K |
| PointOrbits.Orbits | scripts/validate_graduate_algebra.py:35-43 | the orbits of a group, each listed once in order, partition the points |
| PointOrbits.TogetherWhenCarried | scripts/validate_graduate_algebra.py:35-43 | two points share a list if and only if an element of the group maps one to the other |
| GroupFacts.FactsOf | scripts/validate_graduate_algebra.py:51-75 | every reported order, degree and orbit is the algebraic quantity it is named for; a closure order is the order of the action of K on the orbit |
| Cycles.WalkCloses | scripts/validate_graduate_algebra.py:81-87 | the inner walk ends at its start, having visited exactly one cycle |
| Cycles.CycleTypeOf | scripts/validate_graduate_algebra.py:78-89 | the sizes are those of the disjoint cycles, in order, and add up to the degree |
| Cycles.ConjugatesShareCycleType | scripts/validate_graduate_algebra.py:78-89 | a permutation and any conjugate of it have the same cycle type |
| Dispatch.Start | padawan/atlas/dispatch.py:31-41 | invalid bounds and repeated requests are refused, otherwise every job is queued with outcome `not_run` |
| Dispatch.DrainDispatch.WorkerLoopHead | padawan/atlas/dispatch.py:43-52 | one turn of a worker up to its await is one step of the machine |
| Dispatch.DrainDispatch.WorkerResumes | padawan/atlas/dispatch.py:52-72 | recording the end of a dispatch is one step of the machine |
| Dispatch.DrainDispatch.ControllerCancelled | padawan/atlas/dispatch.py:76-81 | a cancellation of the controller is one step of the machine |
| Dispatch.DrainDispatch.ControllerResumes | padawan/atlas/dispatch.py:76-82 | leaving the call is one step, with outcomes only when it was never cancelled |
| DispatchSafety.BoundedDispatch | padawan/atlas/dispatch.py:36-74 | in every interleaving: dequeued jobs are a duplicate-free prefix of the jobs, at most min(concurrency, jobs) are in flight, and at most that many ever end other than verified |
| DispatchSafety.NoAdmissionAfterStop | padawan/atlas/dispatch.py:43-46 | once stop is set or the deadline has passed nothing more is dequeued |
| DispatchSafety.OutcomesAreFinal | padawan/atlas/dispatch.py:48-72 | the outcome of a job that has ended is never overwritten and the job never runs again |
| DispatchOutcomes.OutcomesAreReported | padawan/atlas/dispatch.py:36-72 | over any run each job is `not_run` until the event that ends it, and from then on what that event says: the value its dispatch returned, `dispatch_cancelled`, or the kind of the failure |
| DispatchOutcomes.StoppedExactlyWhen | padawan/atlas/dispatch.py:41-79 | admission is stopped if and only if an earlier event stopped it: from outside, by the first cancellation, or by a job that ended other than verified |
| DispatchOutcomes.AdmitsExactlyWhen | padawan/atlas/dispatch.py:43-52 | a worker takes the first job left if and only if nothing stops it and one is left, and finishes otherwise |
| DispatchOutcomes.GoesOn | padawan/atlas/dispatch.py:52-72 | after its dispatch a worker returns to its loop unless it was cancelled |
| DispatchSafety.DrainsBeforeExit | padawan/atlas/dispatch.py:75-82 | with at most one cancellation the call is not left while an admitted job runs, and it returns if and only if there was none |
| DispatchSafety.SecondCancellationAbandons | padawan/atlas/dispatch.py:78-81 | a run with two cancellations that is left while a job is in flight |
| DispatchSafety.DrainsExactlyWhen | padawan/atlas/dispatch.py:75-82 | draining holds over all runs with at most so many cancellations if and only if that many is at most one |
| DispatchSafety.AbandonsExactlyWhen | padawan/atlas/dispatch.py:75-82 | in any run, the step that leaves the call leaves a job in flight if and only if it is a cancellation of the controller and a job was in flight; it is then at least the second |
| DispatchSafety.CompleteReturn | padawan/atlas/dispatch.py:42-82 | a return without stop, timeout or lost worker has run every job to a verified outcome |
| DispatchSafety.WorkersProgress | padawan/atlas/dispatch.py:43-74 | over any run, whatever the environment does, the workers take at most 3 * jobs + min(concurrency, jobs) steps |
| DispatchSafety.NeverStuck | padawan/atlas/dispatch.py:74-82 | every run not yet left can be completed by coroutine steps alone, at most one more than the work that is left; it then returns unless the controller had been cancelled |
| Store.LocalArtifactStore.PutBytes | padawan/artifacts/store.py:95-132 | the new contents and the outcome, at every crash point |
| Store.LocalArtifactStore.ReadBytes | padawan/artifacts/store.py:152-162 | which bytes or which error a read returns |
| Store.ReadSucceedsWhen | padawan/artifacts/store.py:152-162 | on any contents, damaged ones included: a read succeeds if and only if the stored metadata is the reference, the reader has the authorisation restricted or raw data needs, and the bytes have their size and digest |
| Store.ReadIsDeniedWhen | padawan/artifacts/store.py:152-162 | it is denied if and only if the digest has no metadata, or the stored classification needs an authorisation the reader lacks |
| Store.PutSucceedsWhen | padawan/artifacts/store.py:95-132 | on any contents: a put succeeds if and only if the media type says something and what is stored agrees with it; a refusal changes nothing |
| Store.PutDiesWhen | padawan/artifacts/store.py:95-132 | a crash takes effect only where a write is due, and leaves what was written before it |
| Store.LocalArtifactStore.CollectGarbage | padawan/artifacts/store.py:179-211 | the sweep, ended anywhere, removes exactly the collectable blobs it reached, and its report lists them in order |
| StoreRuns.RunsAreWellStored | padawan/artifacts/store.py:116-131 | in every reachable state each blob has metadata and hashes to its key |
| StoreRuns.MetadataIsPermanent | padawan/artifacts/store.py:119-126 | the metadata of a digest never changes or disappears |
| StoreRuns.PutOutcomes | padawan/artifacts/store.py:103-132 | a put succeeds if and only if the digest is new or classified the same, and a refusal changes nothing |
| StoreRuns.ReclassificationFails | padawan/artifacts/store.py:119-122 | after anything in between, crashes and collections included, putting the bytes under another classification fails and changes nothing |
| StoreRuns.MissingIffLost | padawan/artifacts/store.py:189-211 | over any run, a blob that was there is missing if and only if some collection took it away while unreferenced and old enough, and no put stored it since |
| StoreRuns.SparedBlobStays | padawan/artifacts/store.py:195-208 | a blob stays, unchanged, through any operations whose collections reference it, do not reach it, or have a cutoff before its modification time |
| StoreRuns.SparesExactlyWhen | padawan/artifacts/store.py:195-208 | an operation spares a blob if and only if it takes it away in no state of the store |
| StoreRuns.PutThenRead | padawan/artifacts/store.py:95-162 | after a put that returned a reference, at any later moment of the run: an authorised read of it returns the bytes that were put, unless a collection took the blob away and nothing stored it since, which operations that spare the blob rule out |
| StoreRuns.ReputDoesNotProtect | padawan/artifacts/store.py:127-131 | a deduplicated put changes nothing, so only the referenced set or the old modification time protects the blob |
| References.CatalogNeverConflicts | padawan/artifacts/store.py:309-330 | on every run the catalog's conflict check never fails: an artifact can be registered if and only if its bytes can be read |
| References.ReferencesStep | padawan/artifacts/store.py:348-374 | a reference is committed by the commit of a transaction that inserted it and stays until its owner is released |
| References.InsertionsStep | padawan/artifacts/store.py:348-374 | a transaction inserts a reference if and only if its bytes verify and it does not see it already |
| References.RegistrationsStep | padawan/artifacts/store.py:309-346 | a transaction inserts an artifact's row if and only if its bytes verify and it does not see the row already |
| References.RollbackUndoes | padawan/artifacts/store.py:309-374 | rolling back to a savepoint undoes exactly what was inserted since |
| References.ReferencedExactly | padawan/artifacts/store.py:376-385 | the digests passed to a collection are exactly those of artifacts with a committed reference |
| References.ReadableIffSpared | padawan/artifacts/store.py:189-385 | every referenced artifact reads back at every moment of a run if and only if no collection takes away a blob referenced at that time and every commit finds the blobs of the references it brings |
| References.ReadableIffNeededSpared | padawan/artifacts/store.py:189-385 | the same, of the collections alone: if and only if none takes away a blob that is referenced then, or claimed then by a transaction that goes on to commit the claim before the blob is stored again |
| References.GuardedStayReadable | padawan/artifacts/store.py:189-385 | it is enough that every collection is given, or has a cutoff before, each blob that is referenced or claimed by an open transaction |
| References.CollectionIsSafeIff | padawan/artifacts/store.py:195-208 | a full sweep keeps every referenced blob, whichever open transaction commits next, if and only if each referenced or claimed blob is in the given set or newer than the cutoff; the same condition decides for sweeps cut short anywhere |
| References.ReferencedStayReadable | padawan/artifacts/store.py:348-385 | when every collection gets the digests referenced at that time: every referenced artifact reads back throughout if and only if every commit finds its blobs, and it does if no transaction has claimed anything while a collection runs |
| References.CollectionHoldsIff | padawan/artifacts/store.py:195-208 | a full sweep keeps every blob with a committed reference if and only if each is in the given set or newer than the cutoff; the same condition decides for sweeps cut short anywhere |
| References.UncommittedReferenceIsLost | padawan/artifacts/store.py:313-374 | a run in which every collection is given the digests referenced at that time and takes away no referenced blob, and yet a referenced artifact is gone: it was verified before the collection and committed after it |
| References.StaleSnapshotLosesArtifact | padawan/artifacts/store.py:376-385 | an artifact referenced after the snapshot of referenced digests is lost to the collection |
| Calibration.ExactlyOneBin | padawan/atlas/analysis.py:252-261 | every confidence in [0, 1] falls into exactly one bin, for any bin count |
| Calibration.BinsPartition | padawan/atlas/analysis.py:250-286 | summing over the bins counts every answered observation once, whatever is summed |
| Calibration.ScoreInequalities | padawan/atlas/analysis.py:239-288 | the distance of accuracy and mean confidence is at most the ECE, and ECE^2 <= Brier <= 1 |
| Calibration.SelectiveTradeoff | padawan/atlas/analysis.py:290-308 | a higher threshold retains and covers no more, and threshold 0 gives the overall accuracy |
| CalibrationReport.ReportAccounts | padawan/atlas/analysis.py:232-321 | every number of the report read off the observations: counts, accuracy, mean confidence, Brier score, ECE, each bin and each selective point |
| CalibrationReport.ChecksFind | padawan/atlas/analysis.py:223-232 | the checks find exactly a repeated id, a threshold outside [0, 1], and a threshold not above the one before |
| CalibrationReport.CalibrationMetrics | padawan/atlas/analysis.py:215-321 | the errors exactly when raised; otherwise a report whose every number accounts for the observations, with bin counts that sum to the answered and the inequalities above |
| Consistency.PairsAreChoose2 | padawan/atlas/analysis.py:371-381 | m present responses make exactly m (m - 1) / 2 observed pairs |
| Consistency.AgreementIsByKey | padawan/atlas/analysis.py:371-382 | agreeing pairs are the sum over distinct keys of c (c - 1) / 2 |
| Consistency.Metrics | padawan/atlas/analysis.py:360-389 | both counts over all groups, in terms of the observations, and nothing missing is negative |
| CampaignBudget.UnitBudgetGrows | padawan/atlas/campaigns.py:1318-1338 | a more demanding condition never has a lower per-trial ceiling in any component |
| CampaignAccounts.UnitBudgetLevels | padawan/atlas/campaigns.py:1318-1338 | which factor levels give which per-trial ceiling, in each component |
| CampaignAccounts.TrialsAreDeclared | padawan/atlas/campaigns.py:1345-1349 | a condition's trials are items times trials per item, summed over the bindings as often as they list it |
| CampaignAccounts.ReconciledCeilings | padawan/atlas/campaigns.py:1350-1373 | each of the six ceilings is the declared trials times its own unit |
| CampaignBudget.ReconcileConditionBudgets | padawan/atlas/campaigns.py:1341-1373 | every condition gets exactly the ceilings of its declared trials, or the first one without trials is reported |
| CampaignBudget.SharesAreSpend | padawan/atlas/campaigns.py:1899-1922 | adding up by condition equals adding up by allocation, in all six components |
| CampaignPlan.ValidateLiveCampaignPlan | padawan/atlas/campaigns.py:1818-1922 | passes if and only if the plan is exact, and an error names the first check that fails |
| CampaignPlan.StagesPartition | padawan/atlas/campaigns.py:1830-1880 | the stages of an accepted plan are a true partition of the declared allocations |
| CampaignPlan.TotalsAreConserved | padawan/atlas/campaigns.py:1881-1922 | each of the six global totals of an accepted plan is the sum of the condition ceilings |
| CampaignBuild.LivePlan | padawan/atlas/campaigns.py:1565-1702 | builds the three stages whose ceilings pay for exactly their allocations, or fails on an unknown suite or condition |
| CampaignAccounts.StagesHold | padawan/atlas/campaigns.py:1565-1600 | which allocations the three stages hold: ready W8A16, the other W8A16, and the reference artifact |
| CampaignAccounts.LookupsFail | padawan/atlas/campaigns.py:1570-1585 | the lookups succeed if and only if every declared suite and condition is given |
| CampaignAccounts.SpendByComponent | padawan/atlas/campaigns.py:1601-1622 | each component of a stage's ceilings is its own sum over the stage's allocations |
| CampaignAccounts.StageIndices | padawan/atlas/campaigns.py:1635-1636 | the indices of a stage list, in order and once each, the conditions and the suites of its allocations |
| CampaignAccounts.StagesAreDistinct | padawan/atlas/campaigns.py:1825-1827 | stage ids are accepted if and only if there are as many as stages |
| CampaignBuild.BuiltPlanIsExact | padawan/atlas/campaigns.py:1565-1702 | the plan built from reconciled conditions is accepted if and only if coordinates are unique, every artifact has a stage, and no stage is empty |
| Oracle.Solve | scripts/prepare_pprl_pilot.py:31-61 | answers exactly the supported items, each with all real solutions, sorted and without repeats |
| Oracle.ParityDropsNothing | scripts/prepare_pprl_pilot.py:50-56 | the discriminant is odd, so both numerators are even and the parity test drops no root |
| Oracle.RootSatisfiesSquare | scripts/prepare_pprl_pilot.py:57-59 | only roots below the shift are removed; the squared equation always holds |
| Oracle.ExtraneousRoot | scripts/prepare_pprl_pilot.py:54-59 | the lower root is removed if and only if the discriminant is not 1, the higher root never |
| Oracle.SupportedHasSolution | scripts/prepare_pprl_pilot.py:31-61 | every supported item has a solution, and all of them are given by its coefficients |
| Oracle.VerifyCandidate | scripts/prepare_pprl_pilot.py:73-102 | malformed, infrastructure error or verdict, and correct if and only if the values are all the real solutions |
| Oracle.Answerable | scripts/prepare_pprl_pilot.py:84-97 | some answer is judged correct if and only if the item is supported and inequalities on its coefficients keep its solutions within -100 to 100 |
| Oracle.SupportedUnanswerable | scripts/prepare_pprl_pilot.py:88-97 | x = 101 is supported and has a solution, and no answer to it is judged correct |
| Scout.GreedyIsOptimal | scripts/prepare_atlas_coding.py:64-73 | no choice of candidates within the remaining quota is longer than a maximal greedy one |
| Scout.Choose | scripts/prepare_atlas_coding.py:62-73 | the loop yields the greedy choice of the order it is given, and the tallies follow |
| Scout.GreedyTakes | scripts/prepare_atlas_coding.py:62-73 | a row is chosen if and only if fewer than two of its contest came before it and the choice is not complete, and at the place its turn gives it |
| Scout.ChoiceIsGreedy | scripts/prepare_atlas_coding.py:62-73 | every choice within the quota is what the loop yields for the order that puts it first |
| Scout.OutcomeMeans | scripts/prepare_atlas_coding.py:59-75 | for any three orders: a scout, or the first difficulty for which no choice of enough rows fits what earlier ones left |
| Scout.SelectScout | scripts/prepare_atlas_coding.py:48-76 | returns the outcome of some three orders of the groups, and lists the excluded problems; hard falls short exactly when no 32 fit |
| Scout.ScoutIsBalanced | scripts/prepare_atlas_coding.py:59-76 | exactly 32 hard, 24 medium and 8 easy rows, all different and available, at most two of a contest overall |
| Quotas.SomeChoiceStarves | scripts/prepare_atlas_coding.py:62-75 | some n places within the hard counts leave fewer than `need` of the medium ones if and only if the closed-form worst loss says so |
| Quotas.CanLeaveIsExact | scripts/prepare_atlas_coding.py:59-75 | the contest-by-contest decision holds if and only if some joint hard and medium choice leaves exactly that much room for easy |
| ScoutShortage.HardShortage | scripts/prepare_atlas_coding.py:59-75 | hard falls short for every shuffle or for none: if and only if fewer than 32 places are offered |
| ScoutShortage.MediumShortage | scripts/prepare_atlas_coding.py:59-75 | some shuffles end with medium short if and only if 32 hard places are offered and the medium places, capped at two a contest, less the worst loss are fewer than 24 |
| ScoutShortage.EasyShortage | scripts/prepare_atlas_coding.py:59-75 | some shuffles end with easy short if and only if some joint hard and medium counts leave room for fewer than 8 |
| ScoutShortage.EasyIsSafe | scripts/prepare_atlas_coding.py:59-75 | easy never falls short when the closed-form worst loss of 56 places leaves 8 of its places |
| ScoutShortage.SomeShuffleSucceeds | scripts/prepare_atlas_coding.py:59-76 | some shuffles yield a scout if and only if some joint counts leave room for 8 easy rows |
| ScoutShortage.EveryShuffleSucceeds | scripts/prepare_atlas_coding.py:59-76 | every shuffle yields a scout if and only if a condition on the counts per contest holds |
| ScoutShortage.ShufflesDecide | scripts/prepare_atlas_coding.py:59-76 | whether a scout is found depends on the shuffles if and only if that condition fails and yet some joint counts leave room for 8 easy rows |
| ScoutLimits.ShortageDependsOnShuffle | scripts/prepare_atlas_coding.py:59-75 | on one input some shuffles yield a scout and others end with medium short |

## Left out

- Databases, sessions, migrations, HTTP clients, cloud control, Docker judges, process supervision: effects on systems the model does not contain.
- Floating-point rounding: exact reals stand for floats everywhere, so a comparison that rounding would tip is not modelled.
- Rasch ability estimation, the normal quantile and the logistic function: transcendental functions.
- Content identifiers, digests of identities, timestamps and descriptive text: only what they are computed from, where that matters, is kept.
- Parsing: JSON, regular expressions, contest names in problem ids and equation strings; the models start from parsed values.
- `finite_checks` of the algebra script: it applies the operations proved here to three fixed groups.
- File locks, permissions, fsync, path safety and foreign files among the blobs: a locked section is one step, or the steps between its crash points.
- Media types of white space other than space, tab, carriage return and line feed.
- The name of the storage backend in a catalog row: there is one store.
- Exceptions of a worker that are neither `Exception` nor `CancelledError`.
- Efficiency, self-correction and repeated-action metrics: sums over comprehensions.
- Titles, gates, command lines and evidence texts of campaign stages.
- The preparation of pilot projects and its rotating schedule: lists built by nested loops over an external generator.
- The activation and local run modules: their invariants depend on code that is not part of this model.
- References.ReferencedStayReadable: assumes the caller passes the digests committed as referenced at the time of the collection, because `StaleSnapshotLosesArtifact` shows it fails otherwise; that alone is not enough, as `UncommittedReferenceIsLost` shows and docs/pprl-reference-ingress-boundary.md:62 leaves unresolved, so the exact condition is `ReadableIffNeededSpared`.
- DispatchSafety.DrainsBeforeExit: assumes at most one cancellation of the controller, because `DrainsExactlyWhen` shows it fails otherwise.
