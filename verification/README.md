# A verified model of E2H

E2H turns recorded evidence (chat transcripts, OTLP traces) into task capsules with executable checks,
mutates and compares agent variants, and decides their promotion and rollback. Its documents are strict
and its procedures small, so several of them are decision procedures and protocols with exact
properties. This project models those cores in Dafny and proves the properties for all inputs, all runs
or all reachable states.

| file | models |
|---|---|
| `Prelude.dfy`, `Models.dfy` | shared vocabulary, the capsule schema |
| `McNemar.dfy`, `PromotionGate.dfy`, `PromotionComparison.dfy`, `PromotionLifecycle.dfy`, `PromotionRuns.dfy`, `GateMeaning.dfy` | the exact one-sided McNemar tail, the promotion gate, comparison to rollback, whole runs |
| `Failures.dfy`, `Runner.dfy`, `RunMeaning.dfy` | the failure taxonomy and summary, the check loop and its result validators |
| `JsonPointer.dfy`, `Oracles.dfy`, `OracleMeaning.dfy`, `Compiler.dfy` | JSON values and pointers, oracles and their mutations, verification and release of a proposal |
| `Genome.dfy`, `GenomeMeaning.dfy` | typed patches and their application in place |
| `LongHorizon.dfy`, `LongHorizonScore.dfy` | supersession, replay, scoring |
| `ContextBudget.dfy`, `ContextMeaning.dfy` | context assembly under a character budget |
| `AtomicWrite.dfy` | atomic publication as interleaved steps |
| `DockerVolume.dfy` | Docker volume preparation with ambiguous commands |
| `JsonGraph.dfy` | the bounded JSON check over a heap graph |
| `EnvTree.dfy`, `EnvOrder.dfy`, `EnvScan.dfy`, `EnvSeal.dfy`, `EnvMaterialized.dfy`, `EnvCopy.dfy`, `EnvReadBack.dfy`, `EnvMeaning.dfy` | environment trees: path order, the two scans, sealing, copying and reading back |
| `Transcript.dfy`, `GoalSelection.dfy`, `ImportMeaning.dfy` | transcript import, goal selection |
| `Otlp.dfy`, `OtlpTrace.dfy` | OTLP grouping and ordering |

The files named `...Meaning.dfy` say what the operations come to in terms of their inputs and outputs
alone: the fields of a patched capsule, what happened to each command, what is at a path. SHA-256 is a
function parameter; where it matters a lemma speaks of a collision between the two documents
at hand, and none assumes a digest without collisions. A document that Pydantic has validated is a value
satisfying a validity predicate; Python exceptions are `Result` or `Option` values. Scores and thresholds
are exact, as the code compares them with `Fraction`.

What the code does that its own documents do not say:

- An oracle can pass together with its own mutation, exactly when it demands no digest and its file
  hashes to sixty-four zeros (`Oracles.SurvivesOwnMutationIff`).
- A passing oracle is caught by its generated mutation exactly when the ambient environment does not
  define `E2H_ORACLE_MUTATION` (`Compiler.CaughtIffAmbientIsClean`).
- The p-value is documented as P(X >= candidate wins), but it is clamped to one whenever the candidate does
  not lead; the two agree exactly for a leading candidate or one without wins
  (`McNemar.DocumentedProbabilityIff`).
- A genome of valid patches can leave the capsule schema, exactly when an applied patch sets a negative
  exit code (`GenomeApplication.SchemaViolationIff`).
- A scanned source tree is listed by path components, but the lock wants joined paths sorted, so a
  directory `a` with a file beside a file `a.txt` scans and cannot be sealed
  (`EnvSeal.OrdinaryTreeCannotBeSealed`; `EnvSeal.SealSucceedsIff` is the exact condition).
- A failure between creating the temporary file and recording its identity leaves the file behind
  (`AtomicWrite.UnrecordedTemporaryStays`).
- An interruption during Docker cleanup can leave resources behind unreported
  (`DockerVolume.InterruptedCleanupLeaks`; `DockerVolume.LeaksExactlyWhenCutShort` is the exact gap).
- The `reject` overflow branch of the runtimes is unreachable for a validated context
  (`ContextBudget.ValidContextNeverOverflows`).
- A JSON document that is literally `null` is reported as a missing file by every JSON oracle, whatever its
  pointer and mode (`Oracles.NullDocumentLooksMissing`; `Oracles.LooksMissingIff` is the exact condition).

## Model

| member | source | states |
|---|---|---|
| McNemar.ExactOneSidedTail | src/e2h/promotion_lifecycle.py:342-354 | fails exactly on negative counts; otherwise the exact tail, above 0 and at most 1 |
| McNemar.UpperSumPascal | src/e2h/promotion_lifecycle.py:347-353 | upper binomial sums follow the Pascal recurrence in both arguments |
| McNemar.UpperSumSymmetry | src/e2h/promotion_lifecycle.py:347-353 | an upper sum and its reflection add up to 2^n |
| McNemar.TailMonotone | src/e2h/promotion_lifecycle.py:342-354 | the tail never rises with more candidate wins and never falls with more baseline wins |
| McNemar.TailHalf | src/e2h/promotion_lifecycle.py:342-354 | at most one half whenever the candidate won more often, and one exactly when it did not |
| McNemar.TailFloor | src/e2h/promotion_lifecycle.py:342-354 | at least 2^-n for n discordant pairs |
| McNemar.TailAtMostOne | src/e2h/promotion_lifecycle.py:342-354 | never exceeds one |
| McNemar.TailIsProbability | src/e2h/promotion_lifecycle.py:342-354 | for a leading candidate the tail is the fraction of all equally likely outcomes of n fair tosses with at least that many heads, every outcome enumerated once |
| McNemar.DocumentedProbabilityIff | src/e2h/promotion_lifecycle.py:357-361 | the tail is the documented binomial probability exactly when the candidate leads or has no wins |
| McNemar.TossesComplete | src/e2h/promotion_lifecycle.py:342-354 | the enumeration holds exactly the sequences of n tosses |
| McNemar.TossesDistinct | src/e2h/promotion_lifecycle.py:342-354 | and none of them twice |
| PromotionGate.PromotionChecks | src/e2h/promotion_decision_ops.py:26-115 | the loop over rules computes the gate's specification, errors included |
| PromotionGate.CollectReasons | src/e2h/promotion_decision_ops.py:60-97 | the collected reasons are exactly the violated conditions in source order, and none exactly when the rule passes |
| PromotionGate.CheckRulesMeaning | src/e2h/promotion_decision_ops.py:26-115 | every check judges its own rule, in order, on the one report of its role |
| PromotionGate.JudgedPasses | src/e2h/promotion_decision_ops.py:60-115 | a check passes exactly when its report meets the rule |
| PromotionGate.PassesMonotone | src/e2h/promotion_decision_ops.py:60-97 | a rule that passes keeps passing on any report at least as good in every cell, for every threshold |
| PromotionGate.MovesKeepPassing | src/e2h/promotion_decision_ops.py:60-97 | moving a case from neither to candidate-only, or from baseline-only to candidate-only, keeps a rule passing |
| PromotionGate.PassingNeedsEnoughPairs | src/e2h/promotion_decision_ops.py:60-97 | passing needs enough discordant pairs: 2^-n must not exceed the p-value ceiling |
| PromotionGate.LooseCeilingIsNoConstraint | src/e2h/promotion_decision_ops.py:60-97 | with a ceiling of one half or more the p-value condition adds nothing to a strict win |
| GateMeaning.PromotesIff | src/e2h/promotion_decision_ops.py:60-97 | a decision promotes exactly when each rule is met by a report of its role, with the scores cleared of division |
| GateMeaning.ReasonsTell | src/e2h/promotion_decision_ops.py:72-97 | each reason is given exactly when its condition fails, with its numbers |
| GateMeaning.CheckTells | src/e2h/promotion_decision_ops.py:98-114 | the numbers a check carries |
| PromotionComparison.CompareVariantPredictions | src/e2h/promotion_comparison.py:89-180 | succeeds exactly on comparable inputs; the four cells count the partition's examples by the two verdicts |
| PromotionComparison.CountCells | src/e2h/promotion_comparison.py:140-180 | each counter is the size of its cell and together they are the whole partition |
| PromotionComparison.PartitionFitsReport | src/e2h/promotion_comparison.py:61-86 | a full answer to a partition has exactly as many predictions as the partition has examples |
| GateMeaning.ComparableIff | src/e2h/promotion_comparison.py:61-137 | a comparison succeeds exactly for two different variants on one partition, each answering all of its examples with exactly the output fields |
| PromotionLifecycle.DecisionValidIffEvaluated | src/e2h/promotion_lifecycle.py:72-106 | a decision validates exactly when evaluating its own policy and proposal reproduces it |
| PromotionLifecycle.EvaluateFailsIffRolesDiffer | src/e2h/promotion_decision_ops.py:118-156 | evaluation fails exactly when policy and evidence cover different roles |
| PromotionLifecycle.PromoteMeansEveryRulePasses | src/e2h/promotion_decision_ops.py:118-156 | a valid decision promotes exactly when its own evidence meets every rule |
| PromotionLifecycle.PromotionMonotone | src/e2h/promotion_decision_ops.py:118-156 | better evidence never turns a promotion into a rejection |
| PromotionLifecycle.EveryReportIsWon | src/e2h/promotion_decision_ops.py:60-97 | a promoted candidate strictly won every report of its evidence |
| PromotionLifecycle.PlanBindsOneReceipt | src/e2h/promotion_lifecycle.py:189-229 | the digest of a rollback plan names one receipt, and so one decision, unless the digests of the two plans or the two decisions collide |
| PromotionLifecycle.RollbackIsAccountable | src/e2h/promotion_rollback.py:63-112 | a recorded event validates, goes from the promoted candidate to its baseline, and a declared trigger fired |
| PromotionLifecycle.RecordSucceedsIff | src/e2h/promotion_rollback.py:63-112 | the exact condition under which an event can be recorded, with the comparison of each operator spelled out |
| PromotionLifecycle.TriggeredIff | src/e2h/promotion_rollback.py:20-60 | when a trigger can be evaluated and when it fires |
| PromotionRuns.CellsCountExamples | src/e2h/promotion_comparison.py:139-180 | the cells of a report count the examples that one document answers with their labels and the other does not |
| PromotionRuns.RunsAreSound | src/e2h/promotion_decision_ops.py:118-205 | in every run of compare, evaluate, materialize and record the archived reports are those their archived inputs give, and every decision, receipt and event validates and rests on archived comparisons, decisions and receipts |
| PromotionRuns.ReportIsDetermined | src/e2h/promotion_comparison.py:139-180 | partition, documents and evidence id determine the report |
| PromotionRuns.EveryRollbackUndoesAWin | src/e2h/promotion_rollback.py:63-112 | for every event of every run and each policy rule, the run made a comparison whose report is in the evidence, on a verified partition with the commitment the report names; there the promoted variant alone was right on strictly more examples, with the score, margin and p-value asked for |
| PromotionRuns.PromotionsCanBeRolledBack | src/e2h/promotion_decision_ops.py:159-205 | any promotion a run has reached can be rolled back in two more steps |
| PromotionRuns.EventsAreReachable | src/e2h/promotion_rollback.py:63-112 | whatever the digests, a run of four steps reaches an event |
| Failures.SummarizeFailures | src/e2h/failures.py:450-476 | the summary counts exactly the failures present, by code and category, and names the primary one |
| Failures.CountAll | src/e2h/failures.py:450-476 | the counter loop counts every key exactly |
| Failures.Primary | src/e2h/failures.py:450-476 | the earliest code of the best rank |
| Failures.SummaryIsValid | src/e2h/failures.py:220-263 | every computed summary passes the summary's own validator |
| Failures.CodeTallies | src/e2h/failures.py:220-263 | counting through a counter is counting the codes |
| Failures.CategoryTotal | src/e2h/failures.py:220-263 | category counts add up to the total |
| Runner.RunChecks | src/e2h/bound_runner.py:120-262 | one result a check in order, aborting only on a rejected path or missing exit code, with the run status derived from what happened |
| Runner.SkipsAreConsistent | src/e2h/runner.py:146-193 | the result validator's loop accepts exactly skips that form a suffix blamed on the check just before it |
| Runner.CompletedRunIsValid | src/e2h/runner.py:146-193 | every completed run passes the result validator |
| Runner.StatusMatchesSummary | src/e2h/bound_runner.py:244-260 | ERROR exactly when the summary counts an infrastructure error, PASSED exactly when it is empty |
| Runner.PrimaryIsNotASkip | src/e2h/failures.py:450-476 | the primary failure of a run is never a skip |
| Runner.PrimaryIsEarliestWorst | src/e2h/failures.py:450-476 | it belongs to the earliest check among those of the worst impact |
| RunMeaning.JudgeTells | src/e2h/bound_runner.py:157-236 | the status, exit code and failure record of a check from what happened to its command |
| RunMeaning.RunTells | src/e2h/bound_runner.py:120-262 | each result, the halting check, the counts and the run status from the attempts alone: ERROR exactly when an attempted check had an infrastructure attempt |
| RunMeaning.RunReports | src/e2h/bound_runner.py:120-262 | and the primary failure is the first infrastructure attempt, or else the first check that did not succeed |
| RunMeaning.AbortsOver | src/e2h/bound_runner.py:157-171 | a run is given up only over a rejected path or a command that ended without an exit code |
| JsonValues.NothingEqualsItsWrapping | src/e2h/oracles.py:543-565 | no finite JSON value equals a value and that value wrapped in an object, under Python's equality |
| JsonPointer.DecodeEncode | src/e2h/privacy.py:247-249 | decoding undoes escaping on every sequence of keys |
| JsonPointer.EncodeDecode | src/e2h/oracles.py:458-476 | escaping undoes decoding on every valid pointer |
| JsonPointer.DecodeChild | src/e2h/privacy.py:247-249 | the child pointer decodes to the parent's segments and the key |
| JsonPointer.LookupChild | src/e2h/oracles.py:479-496 | looking up a child is one step after looking up its parent |
| JsonPointer.DecodePointer | src/e2h/oracles.py:458-476 | the two decoding loops compute the decoding |
| JsonPointer.LookupPointer | src/e2h/oracles.py:479-496 | the lookup loop is the walk along the decoded segments |
| Oracles.NullDocumentLooksMissing | src/e2h/oracles.py:624-634 | a JSON oracle, mutated or not, fails with a missing file exactly when nothing is there or the document is the literal null |
| Oracles.PresenceIsDecidedIff | src/e2h/oracles.py:623-643 | presence and absence of one pointer are complementary exactly on a readable document other than null; otherwise both fail |
| Oracles.SurvivesOwnMutationIff | src/e2h/oracles.py:543-565 | a template and its own mutation both pass exactly when it is digest-free and its file hashes to zeros |
| Oracles.OwnMutationIsCaught | src/e2h/oracles.py:568-686 | otherwise never, for every file state |
| Oracles.ZeroHashLetsTextOracleSurvive | src/e2h/oracles.py:24 | under a hash that gives zeros a text oracle passes together with its own mutation |
| JsonMeaning.EqualIffSameNormal | src/e2h/oracles.py:643 | two JSON values are equal exactly when they are the same once truth values and integers are read as numbers |
| JsonMeaning.IndexToken | src/e2h/oracles.py:487-494 | a token selects the array element whose index it writes in decimal, and no other |
| JsonMeaning.WalkIffPoints | src/e2h/oracles.py:479-496 | a lookup finds exactly the value that keys encoded by the pointer lead to |
| JsonMeaning.EscapesOfKeys | src/e2h/privacy.py:246-249 | the two escapes of RFC 6901 section 3 |
| OracleMeaning.PassesIff | src/e2h/oracles.py:568-686 | an unmutated oracle passes exactly when the entry at its path is what its kind and mode ask for |
| OracleMeaning.MutantPassesIff | src/e2h/oracles.py:543-565 | and under an operator, exactly when the entry is what the mutated demand asks for; a foreign operator never passes |
| OracleMeaning.CompiledCheckExits | src/e2h/oracles.py:219-236 | for a template that its rendering parses back to, the compiled command exits zero exactly in these cases |
| Compiler.MutatedChecks | src/e2h/compiler.py:535-549 | a check named by the mutation, or any check if it names none, gets its variables over its own and the two markers over everything; all others stay |
| Compiler.VerifyProposal | src/e2h/compiler.py:552-594 | the report carries one result a mutation, each from a run of its own mutated checks; strong exactly when the baseline passes and all are detected; without an attempt that aborts a run there is a report |
| Compiler.GeneratedMutationIsDetected | src/e2h/compiler.py:139-150 | with a clean environment every generated mutation of an oracle the baseline passes is detected, whatever the hand-written checks do |
| Compiler.OracleOnlySpecIsStrong | src/e2h/compiler.py:552-594 | for a spec of oracles only, the report is strong exactly when the baseline passes |
| Compiler.StrongIffOraclesPass | src/e2h/compiler.py:552-594 | on a host that runs every command to its end, such a spec verifies strongly exactly when the entry at each oracle's path is what the oracle asks for |
| Compiler.AssumptionsCanBeMet | src/e2h/compiler.py:139-150 | what these results ask of library, specification and files can be met together |
| Compiler.CaughtIffAmbientIsClean | src/e2h/compiler.py:139-150 | a passing oracle is caught by its generated mutation exactly when the ambient environment leaves the operator variable undefined |
| Compiler.ReleaseIsEarned | src/e2h/compiler.py:620-647 | unless the digests of the two collide, a released capsule is the verified one: approved last, its baseline passed and every mutation of its plan failed |
| Compiler.EarnedIsReleased | src/e2h/compiler.py:620-647 | and every such core is released |
| Compiler.ReleasedIff | src/e2h/compiler.py:620-647 | every guard of the release, under either requirement switched on or off |
| GenomePatches.SameKeyIffSameTarget | src/e2h/genome.py:104-244 | two valid patches have equal key strings exactly when they address the same field |
| GenomePatches.KeyInjective | src/e2h/genome.py:104-244 | key strings name one target each |
| GenomeFields.WriteLaws | src/e2h/genome.py:330-394 | reading after a write gives the value written there and leaves every other target alone |
| GenomeFields.ReadsDetermineCapsule | src/e2h/genome.py:330-394 | capsules that read alike everywhere are equal |
| GenomeFields.SucceedsIffEachApplicable | src/e2h/genome.py:415-430 | a list of patches with distinct targets applies exactly when each one applies to the base |
| GenomeFields.PatchedReads | src/e2h/genome.py:415-430 | exactly the declared targets change, each to its declared value |
| GenomeFields.OrderDoesNotMatter | src/e2h/genome.py:415-430 | any permutation of such patches fails too or gives the same capsule |
| GenomeFields.ResultDiffers | src/e2h/genome.py:325-327 | the result always differs from the base |
| GenomeMeaning.CarriesIff | src/e2h/genome.py:330-394 | a capsule carries a patch, field by field, exactly when the patched field reads the new value |
| GenomeMeaning.OnePatch | src/e2h/genome.py:330-394 | a patch fails exactly when its check is unknown or it is carried already, with the error of each case, and otherwise it is carried afterwards |
| GenomeMeaning.AllSucceedIff | src/e2h/genome.py:419-421 | a list of patches succeeds exactly when the base knows every check and carries none of the patches |
| GenomeMeaning.NothingElseChanges | src/e2h/genome.py:330-394 | a field differs afterwards only if a patch is about that field |
| GenomeApplication.Check.Assign | src/e2h/genome.py:342-383 | one field of the check object is assigned, or it is unchanged on error |
| GenomeApplication.TaskCapsule.ApplyPatch | src/e2h/genome.py:330-394 | the capsule's view becomes the patched document and carries the patch, or an error, one that is true of the capsule, leaves it as it was |
| GenomeApplication.TaskCapsule.ApplyToCheck | src/e2h/genome.py:342-383 | the addressed check object is assigned in place, or nothing changes on error |
| GenomeApplication.DeepCopy | src/e2h/genome.py:415 | a copy with the same view and no shared object |
| GenomeApplication.ApplyGenome | src/e2h/genome.py:397-430 | the application is the specification's, its capsule carries every patch and is otherwise the base, and the base capsule is not touched |
| GenomeApplication.ApplicationCarriesPatches | src/e2h/genome.py:397-430 | the resulting capsule has every patched field at the value its patch names and every other field as in the base |
| GenomeApplication.ApplicationSucceedsIff | src/e2h/genome.py:397-430 | for a fresh digest, exactly when an application succeeds |
| GenomeApplication.ApplicationRecords | src/e2h/genome.py:422-430 | the ids and digests of an application, in patch order |
| GenomeApplication.SchemaViolationIff | src/e2h/genome.py:421-430 | the patched document leaves the schema exactly when an applied patch sets a negative exit code |
| GenomeApplication.UnchangedMeansCollision | src/e2h/genome.py:421-430 | the unchanged-result error needs a patched capsule that differs from the base and collides with its digest |
| GenomeApplication.GenomeOrderDoesNotMatter | src/e2h/genome.py:397-430 | permuting a genome's patches changes neither success nor the resulting capsule |
| LongHorizon.CheckUpdate | src/e2h/long_horizon.py:154-181 | an update is accepted exactly when it has a fresh id, a declared key and supersedes the active update of its key, and the active dictionary stays exact |
| LongHorizon.ValidateTask | src/e2h/long_horizon.py:143-195 | accepts exactly the valid tasks |
| LongHorizon.ValidateProbes | src/e2h/long_horizon.py:183-194 | accepts exactly unique probes on declared turns in nondecreasing order |
| LongHorizon.SupersedesAnActiveUpdate | src/e2h/long_horizon.py:154-181 | whatever supersedes does so to an active update of its own key |
| LongHorizon.SupersededAtMostOnce | src/e2h/long_horizon.py:154-181 | each update is superseded at most once |
| LongHorizon.OneActivePerKey | src/e2h/long_horizon.py:154-181 | at every point at most one update of a key is active |
| LongHorizon.ReplayStep | src/e2h/long_horizon.py:393-399 | one replayed update keeps the state equal to the declarative reading of the history |
| LongHorizon.StateIsUnique | src/e2h/long_horizon.py:393-399 | the declarative reading determines the state |
| LongHorizon.ExpectedProbeStates | src/e2h/long_horizon.py:387-402 | every probe, and nothing else, gets the map of set-updates so far that no update so far supersedes |
| LongHorizonScore.EvaluatePredictions | src/e2h/long_horizon.py:405-469 | fails exactly on a digest mismatch, an unknown pair or an undeclared key; otherwise there is one exact score a task in order, the totals are exact and the report validates; whether the digests match is an input |
| LongHorizonScore.ScoreTask | src/e2h/long_horizon.py:438-460 | total, submitted and correct are the sizes of the task's probe pairs, the answered ones and those answered with exactly the active state |
| LongHorizonScore.TaskAddsItsPairs | src/e2h/long_horizon.py:435-460 | tasks contribute disjoint pairs, so the counts add up |
| LongHorizonScore.StatesByPair | src/e2h/long_horizon.py:418-433 | with unique pairs every prediction keeps its own entry |
| ContextBudget.ContextItems | src/e2h/anthropic_runtime.py:193-234 | the first refused item decides the error; otherwise the result is the closed form, with overflow rejected exactly under that policy |
| ContextBudget.RenderItems | src/e2h/gemini_runtime.py:200-217 | accepts exactly lists of items the runtime supports; only the OpenAI runtime takes items after the prompt |
| ContextBudget.Spend | src/e2h/openai_runtime.py:204-213 | the greedy loop gives each entry its share of what the entries before it leave |
| ContextBudget.SpendingIsAllotting | src/e2h/anthropic_runtime.py:218-227 | spending in sorted order gives every entry its closed-form share |
| ContextBudget.BudgetIsSpentExactly | src/e2h/anthropic_runtime.py:218-227 | on overflow the surviving texts have exactly max_chars characters |
| ContextBudget.ReturnedLength | src/e2h/anthropic_runtime.py:193-234 | the returned contents are together as long as all the caps, and exactly max_chars when the caps exceed it |
| ContextMeaning.AcceptedIffSupported | src/e2h/openai_runtime.py:186-198 | exactly literal items before the prompt, or after it for the OpenAI runtime, are accepted |
| ContextMeaning.HigherPriorityIsWhole | src/e2h/anthropic_runtime.py:218-227 | if any of an item survives, every item of higher priority, or of equal priority and declared earlier, is returned with its full capped text |
| ContextMeaning.BudgetGoesToThePriorities | src/e2h/anthropic_runtime.py:218-227 | for every threshold the items of at least that priority are returned with min(max_chars, their caps) characters |
| ContextMeaning.ReturnedInOrder | src/e2h/anthropic_runtime.py:229-230 | priorities never rise along the output and equal ones stay in declared order, or the whole output does |
| ContextBudget.TopEntriesKeepAllTheyCan | src/e2h/anthropic_runtime.py:218-227 | for every k the k highest-priority entries keep min(budget, their total) |
| ContextBudget.NoAllocationBeatsGreedy | src/e2h/anthropic_runtime.py:218-227 | no other cutting within the budget gives them more |
| ContextBudget.AtMostOneIsCut | src/e2h/anthropic_runtime.py:218-227 | above a survivor everything is whole, below a cut everything is gone |
| ContextBudget.SurvivorsAreThoseWithAShare | src/e2h/anthropic_runtime.py:227 | the survivors are exactly the entries with a share, each a prefix of its text |
| ContextBudget.OutputOrder | src/e2h/anthropic_runtime.py:229-230 | the output is in declared order, or strictly by priority and declaration |
| ContextBudget.ValidContextNeverOverflows | src/e2h/variants.py:239-248 | a validated context under the reject policy never overflows |
| ContextBudget.AssembledItemsAreValid | src/e2h/anthropic_runtime.py:213-234 | every output item is valid and a cut of one declared item, all else unchanged |
| AtomicWrite.OutputIsNeverPartial | src/e2h/atomic_write.py:157-224 | in every interleaving the temporary's inode is under the output name only if it held the whole payload when it got there |
| AtomicWrite.PublishingStep | src/e2h/atomic_write.py:199-204 | the step that publishes puts the complete file under the output name |
| AtomicWrite.UnpublishedIsPrivate | src/e2h/atomic_write.py:145-198 | before publication the inode has no other name |
| AtomicWrite.ReturnMeansPublished | src/e2h/atomic_write.py:205-216 | a normal return passed the check that the output names the written inode |
| AtomicWrite.ErrorWithdraws | src/e2h/atomic_write.py:110-142 | after an error with the identity recorded, undisturbed cleanup leaves no entry naming the inode and loses no other entry |
| AtomicWrite.ErrorsAreCleanedUp | src/e2h/atomic_write.py:217-224 | once the identity is recorded no error skips cleanup, not even after publication |
| AtomicWrite.UnrecordedTemporaryStays | src/e2h/atomic_write.py:182-186 | an error before the identity is recorded leaves the temporary entry |
| AtomicWrite.UnrecordedTemporaryCanHappen | src/e2h/atomic_write.py:182-186 | such a run exists |
| DockerVolume.PreparedWorkspaceVolume | src/e2h/docker_remote.py:266-355 | commands, final state and exit are those of the specification for any replies |
| DockerVolume.Populate | src/e2h/docker_remote.py:271-335 | the try block issues its commands until one is not accepted, with cleanup armed before each creation |
| DockerVolume.CleanUp | src/e2h/docker_remote.py:339-355 | every failed cleanup is counted and only an interruption stops it |
| DockerVolume.NothingRemainsUnreported | src/e2h/docker_remote.py:266-355 | on exit neither resource remains, or the exit reports a cleanup failure, unless cleanup was interrupted |
| DockerVolume.NothingIsSwallowed | src/e2h/docker_remote.py:339-355 | a report means exactly that a cleanup command failed, and the primary error is carried by the exit |
| DockerVolume.ContainerBeforeVolume | src/e2h/docker_remote.py:341-348 | the volume is removed with the container gone, or right after a failed attempt to remove it |
| DockerVolume.BodyRunsOnAReadyVolume | src/e2h/docker_remote.py:334-335 | the body runs on an existing volume with the container gone, after only accepted commands |
| DockerVolume.LeaksExactlyWhenCutShort | src/e2h/docker_remote.py:158-163 | the exact replies to cleanup, given the state it starts from, after which something remains unreported |
| DockerVolume.InterruptionSparesTheVolume | src/e2h/docker_remote.py:339-355 | interrupted before the volume's turn, cleanup leaves the volume as it was |
| DockerVolume.InterruptedCleanupLeaks | src/e2h/docker_remote.py:158-163 | replies exist under which it does |
| JsonGraph.ValidateDocument | src/e2h/document.py:118-171 | accepted exactly when the unfolding has every node at depth at most 128 and only allowed scalars and string keys; an error is true of a node it can be traced to |
| JsonGraph.Validate | src/e2h/document.py:118-171 | the recursive check accepts exactly the bounded values and restores the active set on every exit |
| JsonGraph.FineIffPlainUnfolding | src/e2h/document.py:118-171 | the bounded recursion and the statement about all paths agree |
| JsonGraph.CycleIsNotFine | src/e2h/document.py:139-156 | a value below itself is never within the bound |
| JsonGraph.AcceptedIsAcyclic | src/e2h/document.py:118-171 | an accepted graph has no cycle, whatever is shared |
| EnvScan.ScanEnvironment | src/e2h/benchmark_env.py:664-715 | the explicit-stack loop is the recursive walk, with its first error |
| EnvScan.PushListing | src/e2h/benchmark_env.py:674-689 | a reversed listing pushed on the stack makes its leaves the next ones |
| EnvScan.ScanSucceedsIff | src/e2h/benchmark_env.py:664-715 | succeeds exactly when every leaf is a regular file, there is one, and both limits hold, with one record a file in walk order and the exact byte total |
| EnvMeaning.RecordsAreTheFiles | src/e2h/benchmark_env.py:664-715 | the records of a scan are exactly the files found along paths of the tree, with joined path, digest, size and execute bit |
| EnvMeaning.NothingElseIsScanned | src/e2h/benchmark_env.py:687-696 | everything found in a tree that can be scanned is a file or a directory |
| EnvOrder.SiblingOrder | src/e2h/benchmark_env.py:677 | which of two paths parting at sibling names comes first as a joined string |
| EnvOrder.LeavesAreApart | src/e2h/benchmark_env.py:677 | no two files share a joined path |
| EnvSeal.AscendingIffTidy | src/e2h/benchmark_env.py:226-228 | the walk is in string order exactly when no populated directory has a populated sibling extending its name with a character below the slash |
| EnvSeal.SealSucceedsIff | src/e2h/benchmark_env.py:1336-1362 | a tree can be sealed exactly when it can be scanned and is tidy |
| EnvSeal.OrdinaryTreeCannotBeSealed | src/e2h/benchmark_env.py:226-228 | `a/x` beside `a.txt` scans and cannot be sealed |
| EnvMaterialized.ScanMaterialized | src/e2h/benchmark_env.py:767-837 | succeeds on exactly the same trees, with the string-sorted permutation of the same records |
| EnvMaterialized.SortedIsUnique | src/e2h/benchmark_env.py:832 | the sorted arrangement is determined |
| EnvMaterialized.ScansAgree | src/e2h/benchmark_env.py:767-837 | both scans of one tree hold the same records and total, and are equal exactly on tidy trees |
| EnvReadBack.CopyTree | src/e2h/benchmark_env.py:1128-1277 | a successful copy makes the destination equal to the source and returns the sorted scan of what is read back from it; it fails only on an unscannable tree or a mismatch with the expected files |
| EnvReadBack.ReadBelow | src/e2h/benchmark_env.py:767-837 | listing the destination with sorted names, directory by directory, gives back exactly the tree that was copied |
| EnvReadBack.AscendingIsUnique | src/e2h/benchmark_env.py:780 | a sorted listing is determined by its names |
| EnvCopy.CopyContents | src/e2h/benchmark_env.py:1190-1260 | creating and settling succeeds exactly on scannable trees |
| EnvCopy.Destination.Open | src/e2h/benchmark_env.py:407-455 | opens a directory that is there, creates the last missing part when asked, and changes nothing when not asked |
| EnvCopy.ParentsAreCreatedFirst | src/e2h/benchmark_env.py:1194-1241 | every directory is made before anything inside it |
| EnvCopy.MetadataIsSetLast | src/e2h/benchmark_env.py:1242-1260 | once a directory's metadata is set nothing is done to it or below it |
| EnvCopy.VisitsNeverGoBack | src/e2h/benchmark_env.py:1194-1241 | no later path leads to or through an earlier one |
| Transcript.ValidateMessages | src/e2h/ingest.py:165-185 | accepts exactly unique, time-ordered messages whose corrections are user messages about earlier assistant messages |
| Transcript.ImportDocument | src/e2h/ingest.py:494-589 | the loop builds the specified trace and correction records |
| Transcript.ImportedTraceIsValid | src/e2h/trace.py:139-170 | the imported trace passes the trace validator |
| Transcript.EventsAtPosition | src/e2h/ingest.py:535-575 | every message has one observation at its position, followed by its feedback if it corrects |
| Transcript.EventOfMessage | src/e2h/ingest.py:535-575 | and there are no other events |
| TranscriptMeaning.ImportedIs | src/e2h/ingest.py:515-575 | the fields of every event and correction record of an imported document, and that there are no others |
| GoalSelection.SelectCorrection | src/e2h/compiler.py:419-477 | the candidate loop and the maximum compute the specified goal or first error |
| GoalSelection.LatestCorrectionIsSelected | src/e2h/compiler.py:443-477 | on every imported document the last correcting message is the goal with its corrected message and feedback, failing exactly when there is none or it exceeds the limit |
| GoalSelection.LatestUserMessageIsSelected | src/e2h/compiler.py:433-441 | the last user message is the goal, under the same conditions |
| GoalMeaning.GoalIsTheLatestCorrection | src/e2h/compiler.py:443-477 | for any bundle: the goal comes from a correction record and its own three events, and no wanted record has a later message by time, trace id and sequence |
| GoalMeaning.GoalIsTheLatestUserMessage | src/e2h/compiler.py:433-441 | for any bundle: the goal is a user message and none is later in that order |
| Otlp.ParseOtlp | src/e2h/ingest.py:787-838 | succeeds exactly when resources, scopes and spans all parse, ids are unique in a trace, the limit holds and there is a span, and groups every span by its trace in order |
| Otlp.ImportableIsWellFormed | src/e2h/ingest.py:787-818 | an import that succeeds had no malformed resource or scope |
| OtlpTrace.TraceFromSpans | src/e2h/ingest.py:841-913 | the drafting loops and the sort compute the specified trace |
| OtlpTrace.TraceIsValid | src/e2h/trace.py:139-170 | sequence numbers 0..n-1, nondecreasing times, 2 plus the event count entries a span |
| OtlpTrace.SortIsStable | src/e2h/ingest.py:900 | entries with one key keep their drafting order |
| OtlpTrace.NothingIsLost | src/e2h/ingest.py:841-913 | the trace holds exactly the drafts of its spans |
| OtlpTrace.StartsBeforeItCompletes | src/e2h/ingest.py:841-913 | every span's start precedes its completion |
| OtlpTrace.ImportOtlp | src/e2h/ingest.py:916-948 | one trace a trace id, in order of ids |
| OtlpTrace.EachSpanInOneTrace | src/e2h/ingest.py:787-838 | the entries that name a span are in one trace, and there they are its start, its events and its completion, each as often as it has it |
| OtlpTrace.SpanEntries | src/e2h/ingest.py:851-896 | a span has entries at exactly its start, its event times and its end, with their timestamps and names |
| OtlpTrace.TraceOrder | src/e2h/ingest.py:897 | entries are in order of time, then start before event before completion, then span id |
| OtlpTrace.EntriesAreConserved | src/e2h/ingest.py:841-913 | altogether the traces hold two entries a span and one an event |

## Left out

- Command-line tools, servers, browser and editor clients, HTTP transports and provider error texts.
- Regular expressions of redaction, YAML, JSON and archive parsing, hashing internals, Docker version probes and argument lists.
- Provider archive normalizers, partitions, experiments, releases, captures, benchmark and optimizer adapters: mostly uniqueness and digest checks.
- Model routing and tool-policy checks of the runtimes: single comprehensions over a list.
- Texts of error messages, details of failure records, free-form metadata, clocks and rendered scores as floating-point numbers.
- String-keyed failure codes outside the taxonomy: the summary's maps are keyed by the taxonomy itself.
- Upper-casing of environment names is ASCII only, and pointer indices are ASCII digits.
- Attributes and payloads of imported events beyond ids, roles, names and content.
- Redaction of imported evidence: transcript and OTLP import are modelled with redaction off.
- Descriptor, `stat` and platform details: directories are maps, identities are inode numbers, and a tree being scanned or copied is quiet; names with a backslash and paths over 4096 characters are assumed away.
- The path-based fallbacks of atomic writing and of tree copying, and the removal of a partly copied tree after an error.
- `AtomicWrite.ErrorWithdraws`: assumes that an inode number is not reused by other processes while the writer runs.
- `DockerVolume.NothingRemainsUnreported`: a command's effect takes place before it returns or not at all; an effect that arrives later is not modelled.
- `Compiler.OracleOnlySpecIsStrong`: asks that the rendering of each oracle at hand parses back to it, because the JSON encoding of templates is a function parameter.
- `JsonGraph.ValidateDocument`: the scalars a document may hold are the kinds the check distinguishes; the document loader around it is not modelled.
- `OtlpTrace.TraceIsValid`: the conversion from nanoseconds to timestamps is any monotone function.
