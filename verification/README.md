# docling-system: verified models

Dafny models of five parts of docling-system, and of three of its data migrations, with proofs of what they promise. Each
loop or in-place update of the program is a method proved against a specification; the theorems are about the
specifications.

| files | part |
|---|---|
| `DiffParser` `DiffPrinter` `DiffRoundTrip` `DiffExactness` `DiffMeaning` `Numstat` | the unified-diff parser and its inverse, a diff printer over edit scripts; numstat lines |
| `HunkRecognizers` `AliasGrammar` `HotspotPolicy` `Classifier` `ClassifierDriver` `ClassifierTheorems` `Report` `PolicyValidation` `Gate` | the hotspot-prevention classifier, its policy, its report and its strict verdict |
| `OtherTables` `GovernanceLedger` `GovernanceTheorems` `GovernanceReach` `GovernanceDatabase` | frozen artifacts, the immutability ledger and the governance-event ledger over migrations 0044 to 0076, with the rows of other tables that decide whether a migration runs |
| `MethodResolution` `Linearize` `PythonResolution` `OverrideOrder` | the public surface of capability classes, and Python's own method resolution |
| `Ordering` `Hotspots` `Rebaseline` `Inspection` `Measurements` `Sums` | hotspot ranking, rebaseline candidates, architecture inspection and its measurement history |
| `ReleaseGate` | the release-gate runner |
| `WindowDedup` `ReplaySourceTypes` | migrations 0017, 0058, 0019 and 0076 |
| `Text` `Wrappers` | character classes and line shapes; option and result values |

`dafny verify dfyconfig.toml` checks the whole project.

## Where the code does less than it seems to promise

Each of these is a theorem with the exact condition.

- The diff parser skips a deleted line whose text begins `--` and an added line whose text begins `++`, which print as `---` and `+++`, and it loses white space at the end of a path (`DiffExactness.ParserInvertsPrinter`).
- A numstat rename is filed under a wrong path if anything follows the closing brace, but for one degenerate case, or if a directory before it has a brace in its name (`Numstat.RenameNormalizedExactlyWhen`).
- A reduction of a compact surface of which the parser sees no line, because every deleted one begins `--`, makes the whole report raise (`Gate.GateVerdict`, with the input in `Gate.DashedReductionRaises`).
- The `from ... import (` branch of the alias recogniser is shadowed by an earlier test unless `from` is followed by a tab or other whitespace (`AliasGrammar.BlockBranchReached`).
- A policy can pass validation and still fail to build: a falsy expiry such as `0` is skipped by the validator and parsed by the builder (`PolicyValidation.PolicyBuilds`).
- The downgrade of 0073 re-creates the CHECKs of two other tables and then deletes the events it introduced, and that of 0071 updates and deletes its own. The append-only trigger rejects both clean-ups whenever there is an event to clean up, so they never help: these downgrades run exactly when there is no such event and, for 0073, no judgment or hard negative from claim feedback (`GovernanceReach.DowngradeSucceeds`).
- One audit bundle of a training run makes 0049 irreversible for good: its downgrade re-creates a CHECK the bundle violates, and the bundle cannot be changed or deleted (`GovernanceTheorems.BundleRatchet`).
- The downgrade of 0062 does not restore the trigger of 0061: it leaves the five digest paths (`GovernanceReach.UpgradeThenDowngrade`).
- The capability collector resolves a name to the last base that leads to a definition, Python to the first; where no class is reached twice they agree exactly if the two definitions are the same (`PythonResolution.AgreesExactlyWhen`). In a diamond it can take a definition that another one overrides (`OverrideOrder.AgreesInOrder`, with the input in `OverrideOrder.OverriddenDefinitionWins`).
- A rule's default severity never reaches a report (`Inspection.DefaultSeverityInert`).
- An exception the release gate does not catch is reported as "passed", and one raised while collecting diagnostics leaves no report and the services running (`ReleaseGate.HonestExactlyWhen`).

## Assumptions

- A diff, a numstat listing and a history file are sequences of lines.
- A transaction that fails leaves the database as it was, and a migration command is one transaction (`alembic/env.py:41`). A transaction may also be rolled back for a reason outside the modelled tables.
- Row identifiers, which are UUIDs, are natural numbers; timestamps and digests are opaque numbers and texts.
- The kinds of artifacts and events are enumerations; their texts are those of the migrations. Each list in a migration's CHECK or trigger holds the kinds introduced up to that revision, which is how the lists read in the sources.
- The per-path rule tables of the classifier are an uninterpreted function of the rule, the file and the line.

## Model

| member | source | states |
|---|---|---|
| `DiffParser.ParseUnifiedDiff` | `app/hotspot_prevention_diff.py:36-76` | the line loop with its five running variables produces exactly the fold of one step function over the classified lines |
| `DiffPrinter.HeaderRead` | `app/hotspot_prevention_diff.py:33-54` | the hunk header git prints for any counts is read back as the new-file start, in the `-a,b +c,d` forms with and without a count |
| `DiffPrinter.TargetRead` | `app/hotspot_prevention_diff.py:79-90` | a printed `+++` header of any path without a tab, with the tab git adds after a path with a space, is read back as the path without the white space at its end, and `/dev/null` as no path |
| `DiffRoundTrip.ParserRecovers` | `app/hotspot_prevention_diff.py:36-76` | for every printable script without an added text that begins `++ `, the parser recovers each file under its path without white space at the end, with the added lines that do not begin `++`, their hunk ids, their numbers (each skipped line counts for nothing) and the deletions that do not begin `--` |
| `DiffPrinter.FalseHeaderRead` | `app/hotspot_prevention_diff.py:44-49` | an added text reads as a file header if and only if it begins `++ ` |
| `DiffExactness.ParserInvertsPrinter` | `app/hotspot_prevention_diff.py:36-76` | the parser inverts the printer if and only if, in files that still exist, no added text begins `++`, no deleted text begins `--` and no path ends with white space |
| `DiffExactness.DashDashDeletionLost` | `app/hotspot_prevention_diff.py:67-68` | a single deleted line whose text begins `--` already breaks the inverse |
| `DiffMeaning.ParsedFileMeaning` | `app/hotspot_prevention_diff.py:59-67` | the entry of every parsed file that adds no text beginning `++` lists exactly the texts the edit adds, each at the line of the new file where that text stands, numbers strictly increasing, and the counts explain the change in length |
| `DiffMeaning.ParsedFileOrdered` | `app/hotspot_prevention_diff.py:51-63` | whatever the parser skips, the lines it keeps of a file have increasing numbers, and hunk ids of that file alone |
| `DiffMeaning.HunkIdsNotShared` | `app/hotspot_prevention_diff.py:51-54` | hunk ids are never shared between files |
| `Numstat.ParseNumstat` | `app/hotspot_prevention_diff.py:93-107` | the numstat loop, short lines skipped, a count that is not a number raises |
| `Numstat.NumstatRoundTrip` | `app/hotspot_prevention_diff.py:93-107` | plain rows read back as git prints them, binary files included, the last row of a path winning |
| `Numstat.RenameNormalizedExactlyWhen` | `app/hotspot_prevention_diff.py:110-118` | a rename in brace form is recorded under the path git means if and only if nothing follows the closing brace and no directory before it has a brace in its name; or, degenerately, the directory before it is named `}`, the middle is dropped, and the rest does not end with a brace |
| `Numstat.SpacelessIsPrintable` | `app/hotspot_prevention_diff.py:110-118` | every rename of paths without white space is one the condition applies to, whatever surrounds the braces |
| `Numstat.DirectoryRenameLost` | `app/hotspot_prevention_diff.py:110-118` | the rename of a directory above a file, `a/{b => c}/d`, is recorded under another path than `a/c/d` |
| `HunkRecognizers.ScanAliasOnlyHunk` | `app/hotspot_prevention_classifier_support.py:241-277` | the nested scanner loops accept exactly what the recursive scan accepts |
| `AliasGrammar.AliasHunkIsGrammar` | `app/hotspot_prevention_classifier_support.py:241-277` | a hunk is alias-only if and only if its significant lines are a non-empty concatenation of single lines, import blocks and three-line assignments |
| `AliasGrammar.GroupsUnique` | `app/hotspot_prevention_classifier_support.py:241-277` | that decomposition is unique |
| `AliasGrammar.BlockBranchReached` | `app/hotspot_prevention_classifier_support.py:195-199` | the import-block branch is reached exactly by `from ... import (` lines whose `from` is followed by whitespace other than a plain space |
| `AliasGrammar.TabbedImportReached` | `app/hotspot_prevention_classifier_support.py:251-263` | a line that reaches it: `from`, a tab, a dotted name, ` import (` |
| `AliasGrammar.AliasNotForwarding` | `app/hotspot_prevention_classifier_support.py:280-318` | no hunk is both alias-only and forwarding |
| `HunkRecognizers.CollectForwardingBody` | `app/hotspot_prevention_classifier_support.py:281-300` | the first forwarding pass, with its signature flag, collects exactly the lines outside signatures |
| `HunkRecognizers.ScanForwardingHunk` | `app/hotspot_prevention_classifier_support.py:280-318` | the two passes accept a hunk with no rejected body line and at least one forwarding call |
| `HunkRecognizers.ForwardingHunkHasCall` | `app/hotspot_prevention_classifier_support.py:321-324` | every forwarding hunk contains a line the driver recognises as its call |
| `HunkRecognizers.ScanRegistryCompositionHunk` | `app/hotspot_prevention_classifier_support.py:331-355` | registry hunks: no rejected significant line and at least one marked one |
| `HunkRecognizers.ScanCompatibilityTestHunk` | `app/hotspot_prevention_classifier_support.py:214-227` | compatibility hunks: at least one test definition and only recognised names |
| `Classifier.HunkIdsMatching` | `app/hotspot_prevention_classifier_support.py:114-132` | grouping texts by hunk and testing each group yields the ids of exactly the passing hunks |
| `Classifier.StandardCallsFound` | `app/hotspot_prevention_classifier_support.py:280-324` | the real recognisers satisfy what the driver theorems assume about forwarding hunks |
| `ClassifierDriver.ClassifyLine` | `app/hotspot_prevention_classifier.py:97-216` | one turn of the loop advances the loop state as its hunk's strongest excuse says, for each of the five excuses and for a line judged on its own |
| `ClassifierDriver.ClassifyChangedFile` | `app/hotspot_prevention_classifier.py:59-242` | the driver, its early returns and its size check produce the declarative findings, its errors included |
| `ClassifierDriver.IgnoredUnion` | `app/hotspot_prevention_classifier.py:217-227` | the union of the five id sets is the set of hunks the specification ignores |
| `ClassifierTheorems.ExactlyOneReport` | `app/hotspot_prevention_classifier.py:97-201` | each excused hunk is reported by exactly one of its lines, under its strongest excuse |
| `ClassifierTheorems.FindingCount` | `app/hotspot_prevention_classifier.py:83-242` | one finding per excused hunk, one per individually classified line of the others, one more if and only if eight significant lines stay unclassified |
| `ClassifierTheorems.BlockedFindings` | `app/hotspot_prevention_classifier_support.py:448-460` | a file has a blocked finding if and only if it passes the early returns, no exception matches, and a line outside excused hunks is blocked or eight lines stay unclassified |
| `ClassifierTheorems.RaisesExactlyWhen` | `app/hotspot_prevention_classifier.py:65-82` | the driver raises if and only if a compact surface misses a count, or its counts read as a reduction (25 deleted, no more added, at most 600 left) of a file without an added line, or eight significant lines stay unclassified past both early returns under a rule that blocks nothing; a file of deletions alone never does |
| `ClassifierTheorems.NeverRaises` | `app/hotspot_prevention_classifier.py:229-241` | with counts from the parsed diff and a rule that blocks something, it never raises |
| `ClassifierTheorems.SizeCheckIsExact` | `app/hotspot_prevention_classifier_support.py:379-395` | with increasing line numbers the size check drops exactly the classified lines, never an equal-text neighbour |
| `HotspotPolicy.FallbackBlockCategory` | `app/hotspot_prevention_classifier_support.py:398-416` | the size block carries a category the rule blocks |
| `Report.BuildReport` | `app/hotspot_prevention.py:45-96` | the report loop over the policy, stopping at the first error |
| `Report.StrictVerdict` | `app/hotspot_prevention.py:71-96` | the strict gate fails if and only if some changed hotspot blocks; findings split into blocked, allowed and excepted |
| `Report.ReportRaisesExactlyWhen` | `app/hotspot_prevention_classifier.py:245-256` | under rules that block something and with any numstat, the report raises if and only if the counts fail a changed hotspot on a compact surface |
| `Report.AgreeingCountsReport` | `app/hotspot_prevention.py:189-210` | counts that agree with the diff, or are absent from numstat, never make it raise |
| `PolicyValidation.ValidatePolicyPayload` | `app/hotspot_prevention_policy.py:87-111` | the validator collects the declared issues in order, its loops over rules and exceptions appending to one list; the first non-iterable exceptions value raises |
| `PolicyValidation.ValidateRule` | `app/hotspot_prevention_policy.py:101-111` | one rule: its shape, the loop over its exceptions and its routing append exactly the rule's issues, in that order |
| `PolicyValidation.PayloadIssuesNone` | `app/hotspot_prevention_policy.py:87-251` | no issue is reported if and only if the payload is accepted, clause by clause |
| `PolicyValidation.BuildHotspotPolicy` | `app/hotspot_prevention_policy.py:254-277` | validation, then the building loop, in that order |
| `PolicyValidation.PolicyBuilds` | `app/hotspot_prevention_policy.py:254-308` | a policy is built if and only if the payload is accepted and no exception has a falsy expiry the date parser rejects; then every rule is usable and every exception can match |
| `PolicyValidation.ZeroExpiryAcceptedNotBuilt` | `app/hotspot_prevention_policy.py:79-84` | `expires_on: 0` with a follow-up condition is accepted and then fails to build |
| `Gate.BuiltPolicyReports` | `app/hotspot_prevention_policy.py:254-277` | for any diff and any numstat, under a policy that was built: the report raises if and only if the counts fail a changed hotspot, otherwise it fails if and only if one blocks; agreeing counts never raise |
| `Gate.SizeCheckOnParsedDiff` | `app/hotspot_prevention_classifier_support.py:379-395` | on a parsed diff, whatever the parser skips, the size check counts exactly the significant, unignored, unclassified lines |
| `Gate.GateVerdict` | `app/hotspot_prevention.py:33-96` | from edit script and payload to verdict, with the counts git gives: the gate raises if and only if some hotspot is a compact surface, on disk with at most 600 lines, whose edit deletes at least 25 lines and adds no more, every deleted one beginning `--` and every added one `++`; otherwise it fails exactly when a hotspot blocks on what the parser recovers |
| `Gate.UnambiguousVerdict` | `app/hotspot_prevention.py:33-96` | for an unambiguous script both halves hold of the script's own lines, with any numstat |
| `Gate.DashedReductionRaises` | `app/hotspot_prevention_classifier.py:65-69` | the input: deleting 25 lines that begin `--` from a compact surface makes the report raise, with the counts git gives |
| `GovernanceDatabase.Database.PreventFrozenMutation` | `alembic/versions/0068_claim_replay_fixture_corpus_governance.py:91-205` | the trigger body: one ledger row and the old row, or no row, on a protected kind; otherwise the attempted row |
| `GovernanceDatabase.Database.UpdateArtifact` | `alembic/versions/0068_claim_replay_fixture_corpus_governance.py:96-152` | an UPDATE through the trigger, key changes included, does what the transition function says |
| `GovernanceDatabase.Database.DeleteArtifact` | `alembic/versions/0044_prov_artifact_immutability.py:169-173` | a DELETE through the trigger, then the two referential actions |
| `GovernanceDatabase.Database.WriteOther` | `alembic/versions/0075_claim_feedback_append_only_links.py:19-126` | a write to one of the other tables passes exactly when its append-only trigger, its CHECK at this revision and its foreign key allow it |
| `GovernanceDatabase.Database.DeleteParent` | `alembic/versions/0045_semantic_governance_events.py:80-124` | a row an event names cannot be deleted; a task takes its artifacts with it or, if one is protected or a ledger names it, stays |
| `GovernanceDatabase.Database.CreateCheck` | `alembic/versions/0059_claim_support_policy_activation_governance.py:259-269` | re-creating the CHECK succeeds exactly when every existing row satisfies it |
| `GovernanceDatabase.Database.Upgrade` | `alembic/versions/0072_harden_readiness_db_gates.py:69-92` | each upgrade step: the CHECKs 0050 and 0072 add over existing rows, then the event CHECK, then the trigger |
| `GovernanceDatabase.Database.Downgrade` | `alembic/versions/0073_claim_retrieval_feedback_ledger.py:176-212` | each downgrade step: the other tables' rows and CHECKs first, the clean-up of events in 0071 and 0073, then the event CHECK and the trigger |
| `OtherTables.DowngradeFits` | `alembic/versions/0074_claim_feedback_set_kind.py:53-63` | the CHECKs a downgrade re-creates on other tables hold for the rows it leaves, and 0076 can write its summaries, exactly when none of the listed rows is there: training bundles at 0049, alert-corpus rows at 0069, claim-feedback rows at 0073 and 0074, unreadable summaries at 0076 |
| `GovernanceDatabase.Database.RunTransaction` | `alembic/env.py:37-43` | a transaction takes effect as a whole or not at all |
| `GovernanceTheorems.StatementKeepsConsistent` | `alembic/versions/0045_semantic_governance_events.py:42-140` | every statement keeps trigger, CHECK, references and keys consistent with the revision |
| `GovernanceTheorems.RunConsistent` | `alembic/versions/0045_semantic_governance_events.py:42-140` | so does every run of every mix of transactions |
| `GovernanceTheorems.RunFromEmpty` | `alembic/versions/0044_prov_artifact_immutability.py:106-225` | so every database grown from an empty one is consistent |
| `GovernanceTheorems.FrozenWhileProtected` | `alembic/versions/0068_claim_replay_fixture_corpus_governance.py:87-207` | a protected artifact keeps every column through every run whose committed transactions stay at or above the revision that introduced its kind |
| `GovernanceTheorems.FrozenPinsTask` | `alembic/versions/0044_prov_artifact_immutability.py:169-174` | nor can the task that owns a protected artifact be deleted meanwhile |
| `GovernanceTheorems.StoppedAttempt` | `alembic/versions/0044_prov_artifact_immutability.py:21-103` | an attempt on a protected kind, from either side, changes no artifact and leaves exactly one ledger row; no UPDATE moves a row into or out of a protected kind |
| `GovernanceTheorems.Ratchet` | `alembic/versions/0059_claim_support_policy_activation_governance.py:279-283` | once an event kind introduced at 0046 or later is recorded, no run visits an earlier revision, not even inside a transaction that rolls back, and the event never changes |
| `GovernanceTheorems.FrozenForever` | `alembic/versions/0059_claim_support_policy_activation_governance.py:272-283` | a recorded event freezes for good every artifact whose kind was protected no later |
| `GovernanceTheorems.BundleRatchet` | `alembic/versions/0049_retrieval_training_audit_bundles.py:88-107` | once an audit bundle of a training run is recorded it never changes, because 0039 made the table append-only, and no run visits a revision before 0049 |
| `GovernanceTheorems.BundleFreezes` | `alembic/versions/0039_audit_bundle_immutability.py:19-36` | so it freezes for good every artifact whose kind was protected by then |
| `GovernanceTheorems.LedgerPinsArtifact` | `alembic/versions/0044_prov_artifact_immutability.py:169-173` | an artifact named in the immutability ledger is undeletable, protected or not, while the ledger exists |
| `GovernanceTheorems.EventsNeverDecay` | `alembic/versions/0045_semantic_governance_events.py:21-124` | events are append-only and none of their nine references is ever nulled or left dangling: SET NULL is an UPDATE the trigger rejects, so the artifact, the earlier event and the rows of seven other tables they name stay |
| `GovernanceReach.DowngradeSucceeds` | `alembic/versions/0073_claim_retrieval_feedback_ledger.py:196-212` | a downgrade succeeds if and only if, past 0045, no event of the kind that revision introduced is recorded, the clean-ups of 0071 and 0073 being rejected, and no row of another table stops it |
| `GovernanceReach.UpgradeSucceeds` | `alembic/versions/0050_audit_bundle_source_consistency.py:34-39` | an upgrade below the head fails exactly when a row of another table violates a CHECK that 0050 or 0072 adds |
| `GovernanceReach.UpgradeThenDowngrade` | `alembic/versions/0062_claim_support_impact_replay_governance.py:199-224` | where the upgrade runs, the downgrade runs too and restores everything, except that from 0061 the downgrade of 0062 leaves a trigger with five digest paths instead of three |
| `GovernanceReach.DowngradeThenUpgrade` | `alembic/versions/0044_prov_artifact_immutability.py:198-225` | where the downgrade runs, the upgrade runs too, and restores the modelled tables exactly when no dropped table or column held anything, no claim-feedback run was rewritten by 0076, and 0059 did not run with the leftover trigger |
| `GovernanceReach.LeftoverPathsAreVisible` | `alembic/versions/0062_claim_support_impact_replay_governance.py:191-196` | the leftover trigger records a digest where the trigger of 0061 records none |
| `GovernanceReach.MutableExactlyWhen` | `alembic/versions/0059_claim_support_policy_activation_governance.py:272-283` | some run changes or removes an artifact if and only if every recorded event is of an original kind or came before the artifact's kind was protected, and, for kinds protected before 0050, no audit bundle of a training run is recorded |
| `GovernanceReach.RemovableExactlyWhen` | `alembic/versions/0045_semantic_governance_events.py:84-88` | some run removes an artifact if and only if the revision can go back to before both ledgers, or to before its kind was protected and neither ledger names it; links of claim feedback never decide it |
| `MethodResolution.PublicMethods` | `app/capability_contracts.py:189-216` | the recursive collector with its copied visited set computes the specification and terminates on every graph |
| `MethodResolution.StartIsDefined` | `app/capability_contracts.py:160-186` | with unique names the class the facade starts from is the one the definitions hold |
| `MethodResolution.SurfaceIsClosure` | `app/capability_contracts.py:189-216` | the collected names are exactly the public functions of all classes reachable through name bases, cycles and diamonds included |
| `MethodResolution.Winner` | `app/capability_contracts.py:202-215` | the collected definition is the first along its route, and every other route to a first definition takes an earlier base where they part |
| `MethodResolution.SecondBaseWins` | `app/capability_contracts.py:203-209` | the witness: of two unrelated bases that define a name the collector keeps the second one's |
| `PythonResolution.LinearizationIsPreorder` | `app/capability_contracts.py:202-209` | what the cited order of the collector is compared with: where no class is reached twice, Python's linearization is the depth-first order with bases from left to right |
| `PythonResolution.LeftmostRoute` | `app/capability_contracts.py:202-215` | what the cited overwriting is compared with: Python finds the first definition along its route, and every other route to a first definition takes a later base where they part, the mirror image of Winner |
| `PythonResolution.AgreesExactlyWhen` | `app/capability_contracts.py:189-216` | where no class is reached twice, the collector resolves a name as Python does if and only if the leftmost and the rightmost first definition are the same |
| `PythonResolution.AgreesExactlyWhenAlone` | `app/capability_contracts.py:189-216` | if definitions of different classes differ, that is exactly when only one class defines the name first |
| `PythonResolution.FirstBaseWinsInPython` | `app/capability_contracts.py:203-209` | on the witness Python takes the first base's definition and the collector the second one's |
| `OverrideOrder.AgreesInOrder` | `app/capability_contracts.py:189-216` | in any class Python can build, diamonds included: the collector resolves a name as Python does if and only if no class that defines it precedes, in Python's linearization, the one its rightmost route ends at |
| `OverrideOrder.RespectsOverridingExactlyWhen` | `app/capability_contracts.py:202-215` | where one definition overrides all the others Python takes it, and the collector does if and only if its rightmost route ends there |
| `OverrideOrder.OverriddenDefinitionWins` | `app/capability_contracts.py:198-209` | the input: in a diamond whose left side overrides a method of the root, the collector, walking the root again below the right side, takes the overridden one |
| `MethodResolution.ValidateFacade` | `app/capability_contracts.py:423-473` | the method checks find nothing if and only if both classes reach the same public names and every winning protocol definition is annotated |
| `Hotspots.ScoreIsNearest` | `app/architecture_quality_support.py:22-32` | the score is the one nearest number of hundredths: no tie exists |
| `Hotspots.ScoreMonotone` | `app/architecture_quality_support.py:11-32` | it is monotone in every input and zero only when all are zero |
| `Hotspots.BuildHotspots` | `app/architecture_quality_support.py:146-202` | the loop over files, the sort and the slice, negative limits included, compute the ranking that BestFiles characterises |
| `Hotspots.BestFiles` | `app/architecture_quality_support.py:199-202` | for a limit that is not negative the result is exactly the best files with a positive score, strictly ordered |
| `Hotspots.RankingIgnoresOrder` | `app/architecture_quality_support.py:154-202` | the order of the metrics dictionary does not matter, for any limit |
| `Hotspots.QualityCandidates` | `app/architecture_quality_hotspots.py:113-123` | the quality candidates are the prefix of the ranking with a sufficient score |
| `Rebaseline.AnnotateHotspots` | `app/architecture_quality_hotspots.py:36-79` | each hotspot carries its policy routing, or the active default |
| `Rebaseline.BuildCandidates` | `app/architecture_quality_support.py:55-143` | the nested loops with the keep-the-smaller-key branch compute the first candidate of each path, sorted |
| `Rebaseline.KeyDependsOnPath` | `app/architecture_quality_support.py:134-138` | a stored candidate is never replaced: two candidates for a path have the same key |
| `Rebaseline.ChosenExactly` | `app/architecture_quality_support.py:63-143` | a path is chosen if and only if nothing is selected and an eligible hotspot routes to it and it is long enough; its source is the highest-ranked such hotspot; no duplicates |
| `Rebaseline.CandidatesNeedRouting` | `app/architecture_quality_hotspots.py:46-77` | candidates appear only if every ranked hotspot is routed away from an active owner |
| `Inspection.Check` | `app/architecture_inspection_types.py:38-62` | a rule's check loop, stopping at the first violation of another contract or rule |
| `Inspection.ReportedViolations` | `app/architecture_inspection.py:84-105` | what is reported is sorted, never ignored, has the policy's severity and belongs to the rule and contract it names |
| `Inspection.DefaultSeverityInert` | `app/architecture_inspection_policy.py:53-77` | severities of checkers and default severities of rules have no effect on the report |
| `Measurements.BuildSnapshot` | `app/architecture_inspection_measurements.py:18-49` | the counting loops, from their seeds |
| `Measurements.TallyCounts` | `app/architecture_inspection_measurements.py:25-28` | each count is the number of violations with that key, and the keys are the seeds and the keys seen |
| `Measurements.SnapshotConserves` | `app/architecture_inspection_measurements.py:18-49` | rule and contract counts sum to the violation count; severity counts do exactly when nothing ignored was counted |
| `Measurements.PipelineConserves` | `app/architecture_inspection.py:84-105` | for reported violations all three sums equal the violation count |
| `Measurements.ContractCountsRollUp` | `app/architecture_inspection_measurements.py:37-41` | each contract's count is the sum of the counts of its rules |
| `Measurements.LoadHistory` | `app/architecture_measurements.py:99-118` | blank lines are skipped and the first malformed line raises with its number |
| `Measurements.HistoryFile.Append` | `app/architecture_measurements.py:94-95` | recording then loading gives the earlier records and the new one |
| `Measurements.SummaryConserves` | `app/architecture_measurements.py:134-180` | between two recorded snapshots the error, warning and info deltas, the rule deltas and the contract deltas each sum to the delta of the violation count |
| `Measurements.DeltasTelescope` | `app/architecture_measurements.py:168-180` | per-key deltas telescope over any history, keys that come and go included |
| `ReleaseGate.WaitForHealth` | `app/release_gate_cli.py:335-358` | the polling loop returns the first all-healthy answer, times out exactly when no round is conclusive, and lets the first error through |
| `ReleaseGate.RunGate` | `app/release_gate_cli.py:371-450` | the step loop, its two handlers and the final block have the specified effects |
| `ReleaseGate.ReportWrittenExactlyWhen` | `app/release_gate_cli.py:425-447` | the report is written once and the scratch directory removed unless writing it raises or collecting diagnostics after a failure does; whenever it is written the services are taken down once if and only if starting them was attempted |
| `ReleaseGate.ReportContents` | `app/release_gate_cli.py:390-442` | the recorded results are the steps that ran, in order, all passed but possibly the last |
| `ReleaseGate.HonestExactlyWhen` | `app/release_gate_cli.py:371-450` | the report says "passed" exactly for runs whose every step passed if and only if no exception escapes the runner |
| `WindowDedup.PolicyTable.Upgrade` | `alembic/versions/0058_claim_support_policy_activation.py:22-48` | the UPDATE from ranks taken before it, then the unique index |
| `WindowDedup.OneActiveLeft` | `alembic/versions/0058_claim_support_policy_activation.py:22-48` | each name keeps exactly its newest active policy, nothing else changed, and the index can always be created |
| `WindowDedup.PolicyTable.Write` | `alembic/versions/0058_claim_support_policy_activation.py:40-48` | the index keeps names of active policies unique in every later write |
| `WindowDedup.OneOutcomeLeft` | `alembic/versions/0017_agent_task_outcome_dedup.py:19-42` | each task, label and actor keeps exactly its oldest outcome, unchanged |
| `WindowDedup.OutcomeTable.Insert` | `alembic/versions/0017_agent_task_outcome_dedup.py:38-42` | the constraint keeps classes unique in every later insert |
| `ReplaySourceTypes.ReplayRuns.Upgrade19` | `alembic/versions/0019_search_replay_source_type.py:21-48` | the upgrade widens the CHECK and moves the marked rows |
| `ReplaySourceTypes.ReplayRuns.Downgrade19` | `alembic/versions/0019_search_replay_source_type.py:51-74` | the downgrade moves the rows first, so the narrower CHECK always holds |
| `ReplaySourceTypes.ReplayRuns.Upgrade76` | `alembic/versions/0076_claim_feedback_replay_source.py:38-58` | the upgrade widens the CHECK and changes no row |
| `ReplaySourceTypes.ReplayRuns.Downgrade76` | `alembic/versions/0076_claim_feedback_replay_source.py:83-100` | the downgrade moves the claim-feedback rows first, so the narrower CHECK always holds |
| `ReplaySourceTypes.RoundTrip19` | `alembic/versions/0019_search_replay_source_type.py:21-74` | down and up restores every source type if and only if no evaluation row carries the marker, which the upgrade establishes; and every column if and only if the moved rows carried it already |
| `ReplaySourceTypes.RoundTrip76` | `alembic/versions/0076_claim_feedback_replay_source.py:61-100` | the downgrade of 0076 turns claim-feedback rows into feedback rows and overwrites their summary's own source text, keeping every other column and every other row; nothing brings the source type back |
| `ReplaySourceTypes.RoundTripBoth` | `alembic/versions/0019_search_replay_source_type.py:21-74` | from the head down past 0076 and 0019 and up to 0019 again: claim-feedback rows end as feedback and every other source type is restored if and only if no evaluation row carries the marker |

## Left out

- Subprocesses, git, docker, file access, argument parsing and printing: their results are parameters.
- The per-path rule tables and schema facades of the classifier: prefix and regex tables, one uninterpreted function here.
- Raw text: splitting into lines, Unicode decimal digits in hunk headers, git's quoting of paths.
- The per-file statistics and line totals of the hotspot report, and its text rendering.
- A YAML timestamp with a time of day as an expiry: Python cannot compare it with a date.
- PolicyValidation.ValidatePolicyPayload: entries come in sorted order with text keys; sorting keys of mixed types, which raises in Python, is not modelled.
- Attempts, whose deletion nulls a column of artifacts; other tables that refer to the rows events name; TRUNCATE and disabled triggers.
- Other tables beyond the rows of `OtherTables`: none of the constraints and triggers they have decides whether a migration from 0044 to 0076 runs. References that are nulled or cascade when an artifact is deleted are modelled for claim feedback only, whose trigger rejects it; the others reach tables without such a trigger.
- OtherTables.DowngradeFits: a row holds only what the CHECKs read, one value per condition; the rest of its columns, and those 0047, 0052, 0054, 0055, 0057, 0061 and 0068 add and drop without a CHECK over older rows, are not modelled.
- PythonResolution.AgreesExactlyWhen: looks a name up among the public functions of defined classes; other attributes that hide a function and bases the files do not define are not part of this model. Classes reached twice are in `OverrideOrder`.
- ReplaySourceTypes.RoundTrip76: summaries are objects; that the downgrade fails on any other document is stated in `GovernanceReach.DowngradeSucceeds`.
- Report.ReportRaisesExactlyWhen: the six compact-surface paths are a parameter.
- Gate.GateVerdict: a script that adds a text beginning `++ `, which the parser reads as the header of another file, or two files whose paths differ in white space at the end, is covered by Gate.BuiltPolicyReports only, on what the parser returns.
- GovernanceDatabase.Database.InsertEvent: of several violated constraints the model names one; which one the database names first is not modelled.
- GovernanceDatabase.Database.Execute: statements touch one row each; a statement over several rows is a transaction of single ones.
- `_method_parameters`: parameters are given as the list it returns, the receiver already left out.
- The existence checks of a facade's classes and exported instance, and the comparison with the committed contract map.
- Floating-point rounding of risk scores: scores are exact hundredths.
- Hygiene finding details, titles and messages of hotspot rows and candidates, which are copied unchanged.
- Measurements.SummaryConserves: history values are whole numbers and severity counts have their shape; the quality metrics merged into a record are not part of this model.
- The list-steps option of the release gate, and exceptions raised while taking the services down.
- The evaluation-source rows that 0076 deletes on the way down.
- Cryptographic receipts, the service layer, schema-only migrations and thin command-line wrappers.
