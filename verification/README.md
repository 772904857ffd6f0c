# Governance compiler: a verified model

This project models the decision logic of the github-config governance compiler in Dafny and proves
what that logic is meant to guarantee. It covers four cores of the compiler.

**Reusable workflows** (`Workflows`, `CallGraph`, `CycleSearch`, `Permissions`, `WorkflowChecks`,
`WorkflowContract`, `PermissionTexts`, `WorkflowFindings`). A `uses` text resolves to a key of the workflow index. `CycleSearch.Search` is the three-colour
depth-first search with its colours, stack and report as mutable fields; ghost fields record the trails it
reports, the order in which workflows finish, and how often each job edge is followed. The checks of one
call at a time append violations to the same report. An empty report bounds whole call chains. `CallGraph`,
`PermissionTexts` and `WorkflowFindings` restate all of this by the texts of the files: which reference a text
spells, what it grants, and for what exactly a run is reported.

**Drift reports** (`Canonical`, `Normalization`, `KeyPaths`, `Drift`, `Differences`, `CappedDiff`, `DriftReports`,
`Alignment`, `Unions`, `Retry`, `Pagination`).
`Canonical` is a concrete printer of canonical JSON (two-space indentation, keys in byte order, strings
escaped as section 7 of RFC 8259 allows, a final line feed) that is proved injective; the sort order of
`normalize`, and so the meaning of equality after it, rests on that. `DriftReports.Report` compares two
normalised trees through a record with a cap; `Differences` says which entries there are, by the places where the
states differ, and `CappedDiff` which of them the cap leaves. `Retry` and `Pagination` model the bounded reads that
feed the comparison.

**Plan evidence** (`Pointers`, `PlanWalk`, `PlanLookup`, `PlanPaths`, `PlanView`, `PlanChanges`,
`PlanSummary`, `PlanLedger`, `PlanDecision`, `PlanTexts`, `WriteTexts`, `RiskTexts`, `DestructiveReview`,
`ChangeIds`). Paths are sequences of typed
steps; their text form follows sections 3 and 4 of RFC 6901, and the look-ups are proved to undo the
walkers. `PlanLedger.Ledger` holds what `summarizePlan` keeps in step in its loops. `PlanDecision` derives
what an eligible plan can contain, down to single values of single resources; `PlanTexts`, `WriteTexts` and
`RiskTexts` say by the text of `resource_changes` what the verdict is and what every part of the summary holds.

**Closed-world inventories** (`Attestations`, `Qualification`, `Inventory`, `ClosedWorld`, `Identities`). Loops with
seen-sets and size equalities, which succeed exactly for a bijection: what is attested, what is live and what the
catalogue asks for are the same.

`Text`, `Values`, `Ordering`, `Collections`, `Gathering`, `Permutations`, `Wrappers` and `Reports` are
shared vocabulary. Objects are Dafny maps; where the program iterates a Go map, the model takes the keys in
any order, and the contracts say that the order does not matter. Integers are mathematical, with the 64-bit
limit of decimal parsing written out. Numbers keep their source text, as `json.Number` does.

Parameters stand for what the model does not look into: the set of volatile keys, the sensitive-name rules
(`PlanWalk.Policy`), the digest of a value, the write lists of resource types (`PlanPaths.WriteList`), the
retirement addresses, the authority words and the catalogue matchers (`PlanChanges.Rules`), the checks of
action pins and output references (`WorkflowChecks.Context`), the reading of a JSON number as an integer, the
envelopes of attestations (validity window and digest), the server's answers and the clock (`Retry.Attempt`).
Results hold for all values of these parameters, with two conditions: `Alignment` needs `status` and `unknown` not
to be volatile keys, which they are not, and `DestructiveReview.Build` needs digests to have the form of a digest.

## Edges

Each of these is shown by a lemma at a concrete input, next to a lemma that gives the exact condition.

- A lone empty key at the top of a value is shown as `/`, which the look-ups read as the root
  (`PlanLookup.LoneEmptyKeyIsMissed`; exactly `PlanLookup.CollectedIsUnknown` and `PlanLookup.LookupUndoesWalk`).
- A padded list position such as `01` is followed by the look-ups although no walker writes it
  (`PlanLookup.PaddedIndexIsFollowed`; exactly `PlanLookup.UnknownAlongExactly`).
- A sensitivity marker behind an empty key is never read, so the value there is digested
  (`PlanView.EmptyKeyHidesMarker`; exactly `PlanView.MarkAtExactly`).
- Change identifiers have six digits only up to 999,999 changes; a document with a later removal fails its
  own validator (`DestructiveReview.MillionDeletesAreOutOfRange`; exactly `ChangeIds.ChangeIdMatchesExactly`
  and `DestructiveReview.Build`).
- The cap on drift entries is tested only where a comparison starts, so the list may outgrow it; whether a
  report is clean does not depend on it (`DriftReports.OneObjectOutgrowsCap`; exactly
  `DriftReports.OutgrowsCapExactly`).

The three unions of desired and legacy property values agree on every list the organization schema admits;
`Unions.UnionsAgreeExactly` also says what sets them apart outside it. The agreement is on the unions: the
drift projection is normalised afterwards, which sorts by canonical text.

## Model

| member | source | states |
|---|---|---|
| Workflows.PinnedKeyResolves | compiler/internal/workflowcontract/workflow_contract.go:683-704 | the key of any workflow, written behind the owner, resolves to itself from every caller |
| Workflows.PinnedIsExact | compiler/internal/workflowcontract/workflow_contract.go:690-703 | a pinned reference resolves only to a key with one path component per part and a full commit |
| Workflows.ResolvedIsPinned | compiler/internal/workflowcontract/workflow_contract.go:683-704 | whatever resolves is at the caller's own revision or at an exact commit |
| Workflows.LocalAndPinnedAgree | compiler/internal/workflowcontract/workflow_contract.go:684-690 | a local reference and the pinned reference to the same file resolve alike |
| Workflows.KeyIsInjective | compiler/internal/workflowcontract/workflow_contract.go:376-378 | different workflows have different keys |
| Workflows.ReusableInterface | compiler/internal/workflowcontract/workflow_contract.go:349-366 | the loops collect what a file offers to its callers |
| Workflows.InterfaceDeclares | compiler/internal/workflowcontract/workflow_contract.go:349-366 | a file offers exactly what its text declares under the call trigger: inputs, required or with a default, and secrets, required or not |
| CallGraph.ReferenceExactly | compiler/internal/workflowcontract/workflow_contract.go:683-704 | a `uses` text resolves to a key exactly when it spells it: a file beside the caller, or a file of one of the owner's repositories at a commit of forty hexadecimal digits; the lone name `/` counts as a file beside the caller |
| CallGraph.EdgeExactly | compiler/internal/workflowcontract/workflow_contract.go:663-669 | one workflow calls another exactly when the other is indexed under a key that some job of the first spells |
| CallGraph.NamedCycle | compiler/internal/workflowcontract/workflow_contract.go:649-658 | two workflows that name each other, or one that names itself, are a cycle |
| CallGraph.SelfCallIsCycle | compiler/internal/workflowcontract/workflow_contract.go:649-658 | so is a workflow with a job that says its own file name |
| CycleSearch.Search.Run | compiler/internal/workflowcontract/workflow_contract.go:641-681 | a violation is appended if and only if the call graph has a cycle, and always when some workflow names itself or two name each other; otherwise the finishing order ranks every callee strictly below its caller; every workflow finishes, every job edge is followed exactly once, the stack is restored, and the trails are a function of the index |
| CycleSearch.Search.Visit | compiler/internal/workflowcontract/workflow_contract.go:645-673 | one visit keeps the search valid, returns the stack as it was, keeps every earlier result and leaves its key reached |
| CycleSearch.Search.AddTrail | compiler/internal/workflowcontract/workflow_contract.go:649-658 | what is reported is the stack with the repeated key appended, in the report's own text |
| CycleSearch.ReportKeepsValid | compiler/internal/workflowcontract/workflow_contract.go:649-658 | every reported trail is a walk in the call graph whose last node occurs earlier in it |
| CycleSearch.LassoIsCycle | compiler/internal/workflowcontract/workflow_contract.go:649-658 | such a trail contains a cycle of the call graph |
| CycleSearch.RankedHasNoCycle | compiler/internal/workflowcontract/workflow_contract.go:641-681 | a finishing order of the whole index rules out every cycle |
| CycleSearch.TrailsInOrder | compiler/internal/workflowcontract/workflow_contract.go:660-680 | workflows are visited in the order of their keys, and the jobs of each in the order of their names |
| Permissions.RequiredPermissions | compiler/internal/workflowcontract/workflow_contract.go:580-600 | the result is the least upper bound of the default, job and step permissions, whatever order the jobs come in |
| Permissions.PermissionSet.Merge | compiler/internal/workflowcontract/workflow_contract.go:766-770 | merging in place takes the larger level in every scope, whatever order the scopes come in |
| Permissions.JoinIsUnique | compiler/internal/workflowcontract/workflow_contract.go:580-600 | there is only one least upper bound |
| Permissions.DominatesJoin | compiler/internal/workflowcontract/workflow_contract.go:462-471 | a caller dominates the requirement exactly when it dominates every part of it |
| PermissionTexts.JobGrantsExactly | compiler/internal/workflowcontract/workflow_contract.go:384-391 | a job has level 2 or 1 in a scope exactly when its own permissions text, or the file's when it has none, says `write` or `read` for the scope, or the shorthand for one of the eleven scopes; otherwise 0 |
| PermissionTexts.SemanticExactly | compiler/internal/workflowcontract/workflow_contract.go:602-619 | an action needs what the table of known actions says for its path and inputs, and nothing else |
| PermissionTexts.AskedIsRequired | compiler/internal/workflowcontract/workflow_contract.go:580-600 | what the text of a workflow asks for, by default, in a job or for a known action, is required of its callers |
| PermissionTexts.CeilingByText | compiler/internal/workflowcontract/workflow_contract.go:462-471 | after an empty report, whatever the text of a workflow at the end of any call chain asks for, the text that governs the outermost job gives |
| PermissionTexts.StepsByText | compiler/internal/workflowcontract/workflow_contract.go:561-578 | after an empty report, the text that governs a job gives what each of its own steps needs |
| WorkflowChecks.ValidateReusableCall | compiler/internal/workflowcontract/workflow_contract.go:412-472 | the report grows by exactly the violations of the call: pin, authority, resolution, declaration, secrets, parameters and ceiling |
| WorkflowChecks.ValidateParameters | compiler/internal/workflowcontract/workflow_contract.go:474-505 | unknown and missing parameters are reported in name order |
| WorkflowChecks.ValidateWorkflow | compiler/internal/workflowcontract/workflow_contract.go:380-410 | the report grows by exactly the violations of all jobs, steps and output references of the file, those of action pins and output references being whatever their checks report |
| WorkflowContract.IndexWorkflows | compiler/internal/workflowcontract/workflow_contract.go:368-374 | the loop builds the index of the files |
| WorkflowContract.IndexHoldsFiles | compiler/internal/workflowcontract/workflow_contract.go:368-374 | every file is found under its key, every entry is a listed file under its own key, and the last file under a key wins |
| WorkflowContract.KeyOfIsText | compiler/internal/workflowcontract/workflow_contract.go:376-378 | a key is repository, workflow directory, name and revision, in this text |
| WorkflowContract.CleanPassesParameters | compiler/internal/workflowcontract/workflow_contract.go:474-505 | a call without violations passes only declared parameters, omits none that is required and does not inherit secrets |
| WorkflowContract.CleanGrantsRequired | compiler/internal/workflowcontract/workflow_contract.go:462-471 | a call without violations grants, scope by scope, what the callee requires |
| WorkflowContract.CleanGrantsSteps | compiler/internal/workflowcontract/workflow_contract.go:561-578 | a job whose step raises no permission violation grants what the step is known to need |
| WorkflowContract.PermissionCeiling | compiler/internal/workflowcontract/workflow_contract.go:384-396 | local checks of calls give a global ceiling: along call chains of any length the outermost job grants what every workflow reached requires |
| WorkflowContract.ValidateFiles | compiler/internal/workflowcontract/workflow_contract.go:235-240 | the sorted report is a function of what loading reported, the files and the context, cycle trails included; it is empty exactly when nothing was reported before, every file passes its checks and the call graph has no cycle; it is not empty when a workflow names itself or two name each other |
| WorkflowContract.EmptyReportIsCeiling | compiler/internal/workflowcontract/workflow_contract.go:235-240 | an empty report bounds every chain of calls that starts in any validated file |
| WorkflowContract.SortedReportIsDetermined | compiler/internal/workflowcontract/workflow_contract.go:786-803 | reports that hold the same violations sort into the same report, whatever order maps were iterated in |
| WorkflowContract.KeyOrdersByFields | compiler/internal/workflowcontract/workflow_contract.go:797-802 | a report is ordered by repository, then workflow, job, code, callee, field and message |
| WorkflowFindings.CallExactly | compiler/internal/workflowcontract/workflow_contract.go:412-472 | a call is reported for exactly what its text shows: a reference that spells nothing, an unreviewed authority, a missing or undeclared callee, inherited secrets, unknown or missing parameters, a scope short of the callee's; each with its code, field and message |
| WorkflowFindings.NeedsExactly | compiler/internal/workflowcontract/workflow_contract.go:561-578 | a step is reported for exactly the scopes in which the governing text gives less than the action needs |
| WorkflowFindings.FileExactly | compiler/internal/workflowcontract/workflow_contract.go:380-410 | a file is reported for exactly what the texts of its jobs and steps show, besides what the checks of action pins and output references report |
| WorkflowFindings.RunExactly | compiler/internal/workflowcontract/workflow_contract.go:228-241 | a run reports exactly what loading reported, what the texts of the files show, and the trails of the search |
| Canonical.CanonicalTextIsInjective | compiler/internal/rendering/rendering.go:28-40 | different values have different canonical texts |
| Canonical.ReadUndoesEscape | compiler/internal/rendering/rendering.go:28-40 | a reader of JSON strings gets every string back from its escaped text |
| Canonical.ListLayout | compiler/internal/rendering/rendering.go:28-40 | the elements of a list stand on lines of their own, one level deeper, with commas between |
| Canonical.ObjectLayout | compiler/internal/rendering/rendering.go:28-40 | so do the fields of an object, in the order of their keys, with a colon and a space behind the key |
| Canonical.AtomsLayout | compiler/internal/rendering/rendering.go:28-40 | the words, empty containers, numbers and quoted strings, and the final line feed |
| Canonical.LineIsIndented | compiler/internal/rendering/rendering.go:32 | a line starts with two spaces for every level |
| Canonical.EscapesAre | compiler/internal/rendering/rendering.go:31 | which characters are escaped, and how; HTML characters are not |
| Values.NumberCharExactly | compiler/internal/diff/github_diff.go:65 | the characters a number may be written with |
| Normalization.NormalizeDecidesAlike | compiler/internal/diff/github_diff.go:400-424 | normal forms are equal exactly for values that differ only in list order, at any depth, and in volatile keys |
| Normalization.NormalizeIsIdempotent | compiler/internal/diff/github_diff.go:400-424 | normalising twice is normalising once |
| Normalization.NormalizeIsNormal | compiler/internal/diff/github_diff.go:400-424 | a normal form has no volatile key and only sorted lists |
| CappedDiff.CappedIsKept | compiler/internal/diff/github_diff.go:249-297 | the capped comparison reports exactly the entries of the full difference that come before the cap, and the missing or extra entries of objects whose comparison started before it |
| DriftReports.Compare | compiler/internal/diff/github_diff.go:249-297 | the record grows by exactly the capped difference, under the path of the values compared |
| Drift.Rebuild | compiler/internal/diff/github_diff.go:249-297 | replacing the observed state at every reported place by the desired value, and deleting extras, rebuilds the desired state |
| Drift.CleanExactly | compiler/internal/diff/github_diff.go:249-297 | nothing is reported exactly when the states are equal and no object reachable through object fields is unknown |
| Drift.UnknownExactly | compiler/internal/diff/github_diff.go:426-434 | an object is unknown exactly when its status is the word `unknown`, in whatever case, or its unknown flag is true |
| Text.FoldExactly | compiler/internal/diff/github_diff.go:433 | which characters the comparison without case takes for the same |
| Differences.DiffExactly | compiler/internal/diff/github_diff.go:249-297 | an entry is in the difference exactly when the two states differ in its way at its place: missing, extra, unknown or changed, with everything above compared; and it records what stands there |
| Differences.PlacesAreApart | compiler/internal/diff/github_diff.go:249-297 | no two entries stand at one place |
| DriftReports.Report | compiler/internal/diff/github_diff.go:110-143 | clean exactly when the states are alike and nothing observed is unknown, whatever the cap; the entries are the kept changes, published and sorted; every change is a difference of the canonical forms at its place, of its kind; below the cap the changes rebuild the desired state, and the four counts are the numbers of places missing, extra, changed and unknown |
| DriftReports.OutgrowsCapExactly | compiler/internal/diff/github_diff.go:250-252 | the list outgrows the cap exactly when, past the first ten thousand entries, there is a missing or extra entry of an object that has an entry among them |
| DriftReports.OneObjectOutgrowsCap | compiler/internal/diff/github_diff.go:250-252 | an object with 10,001 keys of which none is observed is reported in full |
| DriftReports.Count | compiler/internal/diff/github_diff.go:127-131 | the summary counts each kind exactly |
| DriftReports.SidesExactly | compiler/internal/diff/github_diff.go:110-119 | each side has exactly the keys of the managed projection or of the plain state, only the four critical ones at the critical scope, with their values |
| DriftReports.PublishedExactly | compiler/internal/diff/github_diff.go:299-318 | a sensitive change is published under a redacted path without digests; any other under its path, with the digest of each side it has, bound to path, kind and side |
| DriftReports.PathTextNames | compiler/internal/diff/github_diff.go:272-278 | the text of a path reads back as the keys that lead to the change |
| DriftReports.EntriesAreOrdered | compiler/internal/diff/github_diff.go:122-126 | entries are ordered by path, and at one path as changed, extra, missing, unknown |
| Alignment.AlignedReportsNoMissingOrExtra | compiler/internal/diff/github_diff.go:2444-2466 | compared with its own aligned observation a desired shape reports only changed or unknown entries |
| Alignment.AlignedAt | compiler/internal/diff/github_diff.go:2444-2466 | place by place: the aligned state has the observed value at every leaf of the shape, the unknown marker where the observation ends, is null at a leaf or is no object, and exactly the keys of the shape where both go on |
| Alignment.AlignedExactly | compiler/internal/diff/github_diff.go:2444-2466 | a shape without unknowns comes back exactly from the observations that agree with it at every place, with no null leaf |
| Alignment.ConvergedReportsNothing | compiler/internal/diff/github_diff.go:2444-2466 | when the observation agrees with the shape, whatever else it holds, the aligned comparison reports nothing |
| Alignment.CleanNarrows | compiler/internal/diff/github_diff.go:100-108 | a pair clean at full scope is clean at the critical scope |
| Unions.Dedupe | compiler/internal/diff/github_diff.go:1893-1899 | the loop that writes into the array it is reading keeps each value once, in order |
| Unions.Union | compiler/internal/diff/github_diff.go:1891-1899 | append, sort and dedupe yield the strictly increasing sequence of both sides |
| Unions.ProjectDesiredCustomProperty | compiler/internal/diff/github_diff.go:1889-1903 | in the preserve phase the allowed values are the desired together with the legacy ones; otherwise the picked keys are unchanged |
| Unions.EffectiveCustomPropertyDefinition | compiler/internal/validation/validation.go:2177-2197 | the same union, in an otherwise unchanged definition |
| Unions.EffectiveOrganizationPropertyAllowedValues | compiler/internal/evidence/plan_evidence.go:2814-2837 | the same union on well-formed lists, and what each malformed case returns |
| Unions.NormalizedStringList | compiler/internal/evidence/plan_evidence.go:3619-3639 | succeeds exactly on lists of distinct strings, with their increasing sequence |
| Unions.UnionsAgreeExactly | compiler/internal/evidence/plan_evidence.go:2814-2837 | in the preserve phase the three projections agree exactly when the desired values are distinct strings and the legacy values are too or are absent |
| Unions.CombinedExactly | compiler/internal/diff/github_diff.go:1885-1900 | the combined values are exactly those listed by the property's definition or, under its name, by the migration, each once, increasing |
| Unions.StringsInOrder | compiler/internal/diff/github_diff.go:2661-2670 | the strings of a list are read in order, and everything else is dropped |
| Unions.PreservesExactly | compiler/internal/diff/github_diff.go:1887 | the values are combined exactly when the migration says `preserve` |
| Retry.DoRead | compiler/internal/diff/github_diff.go:1142-1189 | at most six attempts; an answer that is not retryable is returned at once; waits obey backoff and server, end within the budget and total at most 90 s; giving up early has one of the stated reasons; a wait that is cut short takes no longer than until it was cut; without instructions and delays all six attempts are made with waits between 31 s and 46.5 s |
| Retry.RetryDelay | compiler/internal/diff/github_diff.go:1207-1224 | at least the backoff and the instructed delay; at most one and a half times the backoff unless the server instructed exactly that delay |
| Retry.UninstructedWaits | compiler/internal/diff/github_diff.go:1207-1224 | without instructions the waits lie between the summed backoffs and one and a half times them |
| Retry.PatientAffordsWait | compiler/internal/diff/github_diff.go:1171-1180 | with little time spent outside waits, the budget affords every wait before the sixth attempt |
| Retry.RetryableExactly | compiler/internal/diff/github_diff.go:1191-1205 | six answers are retried, a refusal when it is throttled, no other answer, and always the lack of one |
| Retry.InstructedExactly | compiler/internal/diff/github_diff.go:1226-1248 | seconds and dates of a Retry-After header come first, otherwise an exhausted limit waits for its reset; a moment in the past asks for no wait |
| Retry.BackoffExactly | compiler/internal/diff/github_diff.go:1208-1211 | the backoffs are 1, 2, 4, 8 and 16 seconds, then 30 |
| Retry.JitterReaches | compiler/internal/diff/github_diff.go:1212-1217 | the jitter reaches every delay up to half the backoff above it |
| Pagination.GetList | compiler/internal/diff/github_diff.go:1024-1042 | returns everything up to the first short page within ten pages, or fails |
| Pagination.ListedExactly | compiler/internal/diff/github_diff.go:1024-1042 | against a server that slices a list, returns it exactly when it has at most 999 items |
| Pagination.ListedIsPages | compiler/internal/diff/github_diff.go:1024-1042 | against any server, success is the concatenation of at most ten pages of which exactly the last is short |
| Pagination.PagesAreListed | compiler/internal/diff/github_diff.go:1024-1042 | and at most ten pages of which exactly the last is short are a success |
| Pagination.GetNestedListWithTotal | compiler/internal/diff/github_diff.go:1044-1079 | follows the page loop with its declared total; success returns the total as the length |
| Pagination.NestedExactly | compiler/internal/diff/github_diff.go:1044-1079 | against a server that slices a list and declares its length, returns it exactly when it has at most 1000 items |
| Pagination.NestedIsComplete | compiler/internal/diff/github_diff.go:1044-1079 | against any server, success is the concatenation of at most ten pages, each of which declared its length as the total |
| Pagination.NestedSucceedsExactly | compiler/internal/diff/github_diff.go:1044-1079 | against any server, the list succeeds with so many items exactly when full pages that declare the total leave some to come until a last page, the tenth at most, completes it |
| Pointers.UnescapeUndoesEscape | compiler/internal/evidence/plan_evidence.go:1736-1739 | unescaping undoes escaping for every key |
| Pointers.EncodePathSplits | compiler/internal/evidence/plan_evidence.go:1426-1427 | a look-up reads back exactly the names a walker encoded |
| Pointers.DisplayDeterminesNames | compiler/internal/evidence/plan_evidence.go:1741-1746 | shown paths coincide only for the root and a lone empty key |
| PlanLookup.PlanValueAtPath | compiler/internal/evidence/plan_evidence.go:1421-1446 | the loop finds the value the path's names lead to, or reports that there is none |
| PlanLookup.PlanUnknownAtPath | compiler/internal/evidence/plan_evidence.go:1448-1481 | the loop finds a true marker on the way the path's names lead |
| PlanLookup.LookupUndoesWalk | compiler/internal/evidence/plan_evidence.go:1421-1446 | the look-up returns the value the encoding walk visited, exactly unless the path is a lone empty key |
| PlanLookup.CollectTrueUnknownPaths | compiler/internal/evidence/plan_evidence.go:1292-1309 | the walker appends the shown paths of all true markers, in walking order |
| PlanLookup.UnknownPathsAreTrueMarkers | compiler/internal/evidence/plan_evidence.go:1292-1309 | the collected paths are exactly the positions of true markers |
| PlanLookup.UnknownExactly | compiler/internal/evidence/plan_evidence.go:1448-1481 | a canonically encoded path is unknown exactly when a collected path is a prefix of it |
| PlanLookup.UnknownAlongExactly | compiler/internal/evidence/plan_evidence.go:1457-1480 | for any path text, unknown exactly when a collected path is a prefix of the positions the look-up follows |
| PlanLookup.CollectedIsUnknown | compiler/internal/evidence/plan_evidence.go:1292-1309 | a collected path is unknown to the look-up exactly unless it is a lone empty key |
| PlanLookup.LoneEmptyKeyIsMissed | compiler/internal/evidence/plan_evidence.go:1448-1456 | a marker under a lone empty key is collected and shown as the root, where the look-up misses it |
| PlanLookup.PaddedIndexIsFollowed | compiler/internal/evidence/plan_evidence.go:1470-1475 | a padded list position is unknown to the look-up although no collected path is a prefix of it |
| PlanLookup.RootIsFound | compiler/internal/evidence/plan_evidence.go:1421-1425 | either text of the root leads to the root |
| Text.AtoiOfSigned | compiler/internal/evidence/plan_evidence.go:1398-1401 | a position is read as decimal digits behind at most one sign, within 64 bits |
| Text.AtoiRefuses | compiler/internal/evidence/plan_evidence.go:1398-1401 | and nothing else is |
| PlanWalk.NothingChanged | compiler/internal/evidence/plan_evidence.go:1320-1379 | no path is collected exactly when before equals after |
| PlanWalk.ChangedIsDifferent | compiler/internal/evidence/plan_evidence.go:1320-1379 | every collected path leads to a difference the walk could not descend into |
| PlanWalk.ChangedCovers | compiler/internal/evidence/plan_evidence.go:1320-1379 | every difference, anywhere, is at or below a collected path, or is a container with one inside |
| PlanPaths.CollectChangedPlanPaths | compiler/internal/evidence/plan_evidence.go:1320-1379 | the walker adds to the set exactly the shown paths of the changed positions |
| PlanPaths.NormalizedWalk | compiler/internal/evidence/plan_evidence.go:1393-1404 | a walked path keeps its tokens, with every decimal one replaced by a star |
| PlanPaths.PositionsNormalizeAlike | compiler/internal/evidence/plan_evidence.go:1393-1404 | the write list cannot tell list positions apart |
| PlanPaths.NormalizedRoot | compiler/internal/evidence/plan_evidence.go:1393-1396 | either text of the root stays the root |
| PlanPaths.KnownComputedUnknownPath | compiler/internal/evidence/plan_evidence.go:1406-1419 | holds exactly for a listed computed path that is null after and marked unknown |
| PlanPaths.ManagedChangedFieldsAllowed | compiler/internal/evidence/plan_evidence.go:1251-1279 | accepts exactly when every changed path is listed, or computed on a create, and every unknown path is computed, whatever order the paths come in |
| PlanPaths.AcceptedTouchesOnlyAllowed | compiler/internal/evidence/plan_evidence.go:1251-1279 | an accepted change of any action touches a scalar only where its own path is allowed, or below an allowed position whose container kind changed |
| PlanPaths.UpdateTouchesOnlyListed | compiler/internal/evidence/plan_evidence.go:1251-1279 | an accepted update changes a scalar only at a listed path, or below a listed position whose container kind changed |
| PlanPaths.CreateSetsOnlyListed | compiler/internal/evidence/plan_evidence.go:1251-1279 | an accepted create sets a scalar only at a listed path, or as a listed computed value that is null and marked unknown |
| PlanWalk.ViewCoversOnce | compiler/internal/evidence/plan_evidence.go:1543-1611 | every changed path has exactly one entry of the view at it or above it |
| PlanWalk.ViewHasNoNesting | compiler/internal/evidence/plan_evidence.go:1543-1611 | the entries of a view are pairwise non-nested |
| PlanWalk.ViewIsChanged | compiler/internal/evidence/plan_evidence.go:1543-1611 | every entry stands at or above a changed path |
| PlanWalk.ViewIsEmpty | compiler/internal/evidence/plan_evidence.go:1543-1611 | the view is empty exactly when nothing changed |
| PlanView.CollectChangedFields | compiler/internal/evidence/plan_evidence.go:1543-1611 | the walker appends one published field per entry of the view, with digests of both sides unless it is sensitive |
| PlanView.EntriesAreSensitiveExactly | compiler/internal/evidence/plan_evidence.go:1543-1551 | an entry is sensitive exactly when its own position is, and never lies below a sensitive position |
| PlanView.MarkAtExactly | compiler/internal/evidence/plan_evidence.go:1699-1720 | a position is marked exactly when a true marker stands at it or above it on a way without empty keys |
| PlanView.EmptyKeyHidesMarker | compiler/internal/evidence/plan_evidence.go:1704-1720 | a marker behind an empty key is ignored and the value digested |
| PlanView.EntriesAreShownApart | compiler/internal/evidence/plan_evidence.go:1524-1535 | different entries of a view are shown at different paths |
| PlanView.ChangedFieldProjection | compiler/internal/evidence/plan_evidence.go:1524-1535 | the published fields of the view, strictly increasing in path, and none exactly when nothing changed |
| PlanView.ProjectionOmitsNothing | compiler/internal/evidence/plan_evidence.go:1524-1611 | every changed path has exactly one published field at or above it, and one strictly above is sensitive without digests |
| PlanView.FieldsShow | compiler/internal/evidence/plan_evidence.go:1524-1611 | every published field shows one changed position that lies under no secret one: nothing of it when it is secret itself, and otherwise digests of what stood and what will stand there |
| PlanChanges.ClassifyChange | compiler/internal/evidence/plan_evidence.go:1783-2101 | classes and reasons are those of the findings, sorted; without findings the write is routine |
| PlanChanges.SoundChange | compiler/internal/evidence/plan_evidence.go:1792-1834 | a write without a fundamental class is a governed delete, or sets only listed fields of a managed type |
| PlanChanges.KindInAddress | compiler/internal/evidence/plan_evidence.go:4299-4306 | without a type of its own a change has that of the first component of its address with the provider's prefix, without any index |
| PlanChanges.NoKindInAddress | compiler/internal/evidence/plan_evidence.go:4299-4306 | an address without such a component has the unknown type |
| Text.LowerExactly | compiler/internal/evidence/plan_evidence.go:1173 | which characters lower-casing changes, and to what |
| PlanSummary.PairKeyOrders | compiler/internal/evidence/plan_evidence.go:1506-1511 | sorting by one encoded key is sorting by address and then by canonical text |
| PlanSummary.SortedResourceChangesForgetsOrder | compiler/internal/evidence/plan_evidence.go:1487-1517 | the sorted changes do not depend on the order of the input |
| PlanSummary.SortedResourceChangesHolds | compiler/internal/evidence/plan_evidence.go:1487-1517 | every change is read, and nothing else |
| PlanLedger.Ledger.ReadAll | compiler/internal/evidence/plan_evidence.go:1158-1205 | after the first loop counts, writes, high-risk entries, removals, sensitive count and addresses are those of all changes |
| PlanLedger.Ledger.AllWritesAreGoverned | compiler/internal/evidence/plan_evidence.go:1211-1225 | the second loop answers whether there is a write and every write is a governed delete |
| PlanLedger.Ledger.AddHighRiskClass | compiler/internal/evidence/plan_evidence.go:1748-1768 | the entry of the write gains the class and reason, sorted and without repeats, or a new entry is appended |
| PlanLedger.Ledger.DenyAll | compiler/internal/evidence/plan_evidence.go:1226-1234 | every write is denied in place, and has exactly one high-risk entry that carries the denial |
| PlanLedger.SummarizePlan | compiler/internal/evidence/plan_evidence.go:1148-1244 | the summary is a function of the sorted changes |
| PlanDecision.SummaryForgetsOrder | compiler/internal/evidence/plan_evidence.go:1148-1244 | the summary does not depend on the order of the resource changes |
| PlanDecision.EveryChangeIsCounted | compiler/internal/evidence/plan_evidence.go:1149-1172 | the action counts add up to the number of resource changes |
| PlanDecision.RemovalsAreListed | compiler/internal/evidence/plan_evidence.go:1178-1183 | deletes, replacements and forgets are listed exactly, each once, strictly increasing; and so are the replacements |
| PlanDecision.WritesAreTheChanges | compiler/internal/evidence/plan_evidence.go:1184-1233 | the writes are exactly the changes that write, with their classes, all denied when governed deletes stand beside other writes |
| PlanDecision.WritesShowEveryChange | compiler/internal/evidence/plan_evidence.go:1190-1198 | every changed path of every write has a published field of that write at it or above it, and one strictly above carries no digests |
| PlanDecision.FundamentalWritesAreListed | compiler/internal/evidence/plan_evidence.go:1190-1233 | every write with a fundamental class has a high-risk entry that carries the class |
| PlanDecision.DeniedExactly | compiler/internal/evidence/plan_evidence.go:359-372 | the plan is denied exactly when some write has a fundamental class of its own or a governed delete stands beside another write |
| PlanDecision.DenialIsMonotone | compiler/internal/evidence/plan_evidence.go:359-372 | adding resource changes to a denied plan never makes it undenied |
| PlanDecision.Decide | compiler/internal/evidence/plan_evidence.go:359-391 | eligible exactly when nothing is denied, adoption writes nothing, expansions are acknowledged, removals are acknowledged and analysed, and no acknowledgement is idle |
| PlanDecision.EligiblePlan | compiler/internal/evidence/plan_evidence.go:373-391 | an eligible plan writes governed deletes alone or listed creates and updates alone; its removals are acknowledged and backed by an accepted analysis; adoption writes nothing |
| PlanDecision.EligibleActions | compiler/internal/evidence/plan_evidence.go:1792-1811 | an eligible plan holds no replacement, no forget and no unknown action, and only governed deletes |
| PlanDecision.EligibleUpdateTouchesOnlyListed | compiler/internal/evidence/plan_evidence.go:1829-1834 | an update in an eligible plan changes a scalar only at a listed path, or below a listed position whose container kind changed |
| PlanTexts.CountsAreOfTexts | compiler/internal/evidence/plan_evidence.go:1165-1172 | each known action is counted as often as its text occurs among the entries, and everything else as unknown |
| PlanTexts.RemovalsByText | compiler/internal/evidence/plan_evidence.go:1178-1183 | the removals are the entries whose actions delete, forget or replace, under their numbers in the order of address and canonical text, and no others |
| PlanTexts.EligibleExactly | compiler/internal/evidence/plan_evidence.go:359-391 | the verdict by the text of the plan: eligible exactly when every entry that writes is a governed delete or keeps to the write list of its managed type, governed deletes stand alone, adoption writes nothing, expansions are acknowledged, removals are acknowledged and analysed, and nothing is acknowledged idly |
| PlanTexts.EligibleTexts | compiler/internal/evidence/plan_evidence.go:1792-1811 | an eligible plan only reads, creates, updates and deletes, acknowledges what it creates, and does nothing at all in adoption |
| PlanTexts.EligibleUpdateByText | compiler/internal/evidence/plan_evidence.go:1829-1834 | an entry that updates, in an eligible plan, changes a scalar only at a path listed for its type, or below a listed position whose container kind changed |
| WriteTexts.FoundExactly | compiler/internal/evidence/plan_evidence.go:1792-1834 | the findings of an entry, class and reason, are exactly what its actions, type, address, changed fields and unknown markers show, besides what the catalogue matchers find |
| WriteTexts.WritesByText | compiler/internal/evidence/plan_evidence.go:1184-1233 | the writes are the entries that write, under their numbers; each has the type, the actions, the classes found, the denial of a mixed plan, the grade of its classes, and shows every change and nothing secret |
| RiskTexts.RisksByText | compiler/internal/evidence/plan_evidence.go:1199-1234 | every write in which something is found, and every write of a mixed plan, has a high-risk entry with the classes and reasons found and the denial, and there are no others |
| RiskTexts.SensitiveAreCounted | compiler/internal/evidence/plan_evidence.go:1184-1186 | the sensitive count is the number of entries with a true marker somewhere in either marker tree |
| ChangeIds.ChangeIdIsInjective | compiler/internal/evidence/plan_evidence.go:1159 | different changes have different identifiers |
| ChangeIds.ChangeIdMatchesExactly | compiler/internal/evidence/plan_evidence.go:182 | the identifier pattern accepts exactly the first 999,999 changes |
| ChangeIds.ChangeIdReads | compiler/internal/evidence/plan_evidence.go:1159 | an identifier reads back as its number, with zeros in front up to six digits |
| DestructiveReview.MillionDeletesAreOutOfRange | compiler/internal/evidence/plan_evidence.go:1159 | a plan of a million deletes has a removal out of range, so the document built from it fails |
| DestructiveReview.ValidateDependencyAnalysis | compiler/internal/evidence/plan_evidence.go:873-943 | accepts exactly a document bound to the plan and the change reference with one well-formed entry per removal, and returns its digest |
| DestructiveReview.AcceptedAnalysisCovers | compiler/internal/evidence/plan_evidence.go:904-937 | an accepted analysis lists exactly the removals, in order, one entry each, with no repeated dependency |
| DestructiveReview.ExactObjectKeys | compiler/internal/evidence/plan_evidence.go:945-955 | as many keys as expected with every expected one present means exactly the expected keys |
| DestructiveReview.ValidDigestExactly | compiler/internal/evidence/plan_evidence.go:869-871 | a digest is the prefix and 64 lower-case hexadecimal digits |
| DestructiveReview.LineExactly | compiler/internal/evidence/plan_evidence.go:957-959 | a bounded text says something, on one line, in so many bytes of UTF-8 at most |
| Text.SpaceExactly | compiler/internal/evidence/plan_evidence.go:958 | the white space a text is trimmed of, by code point |
| DestructiveReview.ValidateDestructiveReviewEvidence | compiler/internal/evidence/plan_evidence.go:832-867 | passes exactly the documents whose identifiers, decision flags and bound digest are consistent |
| DestructiveReview.PassesExactly | compiler/internal/evidence/plan_evidence.go:832-867 | a document passes exactly when its parts are there, its identifiers have six digits, its flags say what it shows (removals, one valid digest in both places), and what is eligible and removes something is acknowledged and analysed |
| DestructiveReview.BuiltDocumentPassesExactly | compiler/internal/evidence/plan_evidence.go:382-424 | a built document passes the validator exactly when every removal has a six-digit identifier |
| DestructiveReview.EligibleRemovalsAreAnalysed | compiler/internal/evidence/plan_evidence.go:343-391 | an eligible plan that removes anything comes with an analysis that lists exactly its removals, each once, in order |
| DestructiveReview.Build | compiler/internal/evidence/plan_evidence.go:343-434 | fails exactly when a given analysis is not accepted; otherwise records in the document the verdict that the text of the plan calls for, the numbers of the entries that remove something, what was acknowledged and the digest of the analysis; the document passes the validator exactly when every removal is within the first 999,999 changes, and is eligible only if the analysis lists exactly the removals |
| Attestations.ValidatedIntegrationAttestation | compiler/internal/validation/validation.go:2471-2560 | accepts exactly an attestation bound to the catalogue entry, with its repositories, permissions and events, all without repeats, inside an accepted envelope |
| Attestations.UniquePermissionMap | compiler/internal/validation/validation.go:2582-2597 | succeeds exactly on nonempty lists with given, distinct names and given accesses |
| Attestations.ObjectsInOrder | compiler/internal/validation/validation.go:2226-2242 | the objects of a list are read in order, and everything else is dropped |
| Attestations.EqualStringMaps | compiler/internal/validation/validation.go:2630-2640 | as many entries and every entry found means equal maps, because no access is empty |
| Qualification.IntegrationQualified | compiler/internal/validation/validation.go:2291-2359 | succeeds exactly when readiness, attestation, identity, selection, repositories, permissions and events all hold |
| Qualification.PermissionsAreExact | compiler/internal/validation/validation.go:2333-2345 | the size-and-entries comparison holds exactly when the live permissions are the attested ones, none missing and none more |
| Qualification.EventsAreExact | compiler/internal/validation/validation.go:2346-2357 | the sorted comparison holds exactly when the events are the same, with repetitions |
| Qualification.QualifiedIsExact | compiler/internal/validation/validation.go:2291-2359 | a qualified integration is installed exactly as the catalogue has it: the same permissions, the same events, the same repositories under identifiers of their own |
| Qualification.QualifiedInstallation | compiler/internal/validation/validation.go:2301-2305 | a qualified integration is installed under the one identifier its attestation names |
| ClosedWorld.QualifiedExactly | compiler/internal/validation/validation.go:2291-2359 | an integration is qualified exactly when its documents show it ready, attested by the bootstrap authority from an exact source, and installed as catalogue and attestation have it: actor, installation, selection, repositories, permissions and events |
| Inventory.ValidateDispositions | compiler/internal/validation/validation.go:2393-2449 | the loop succeeds exactly when all dispositions match, slugs and installations are distinct, and the sizes agree |
| Inventory.ValidateInstallationInventoryQualification | compiler/internal/validation/validation.go:2363-2449 | succeeds exactly for a sealed bootstrap attestation over a complete live inventory whose dispositions are accepted |
| Inventory.DispositionsAreLive | compiler/internal/validation/validation.go:2395-2449 | success means the dispositions are exactly the live installations, each once, agreeing with them |
| Inventory.EveryIntegrationIsBound | compiler/internal/validation/validation.go:2422-2449 | success means every catalogue integration is bound by a qualified catalog disposition |
| Inventory.EveryIntegrationIsBoundOnce | compiler/internal/validation/validation.go:2399-2449 | success means every catalogue integration has exactly one catalog disposition |
| Inventory.EveryIntegrationIsExact | compiler/internal/validation/validation.go:2291-2449 | success means every catalogue integration is installed exactly as the catalogue has it, with its permissions, its events and its repositories |
| ClosedWorld.AcceptedExactly | compiler/internal/validation/validation.go:2393-2449 | the seen-sets and size equalities hold exactly when every live installation has one disposition that accounts for it, no installation identifier occurs twice, and every integration of the catalogue is claimed |
| ClosedWorld.ClosedWorldExactly | compiler/internal/validation/validation.go:2363-2449 | the inventory check succeeds exactly when the two documents show such a closed world under a qualified attestation of the bootstrap authority |
| Identities.ObservedOIDCIdentity | compiler/internal/validation/validation.go:1380-1430 | succeeds exactly on a complete observation in which the organization and every repository have a positive identifier, no two repositories the same, and reports those identifiers, whatever order the repositories come in |
| Identities.IdentitiesCompleteExactly | compiler/internal/validation/validation.go:1396-1428 | the identities are complete exactly when every repository of the catalogue is observed under its name with a positive identifier, and two have different ones |

## Left out

- Canonical.CanonicalTextIsInjective: the limit of 128 MiB on canonical text, past which the encoder fails and
  two values count as different.
- WorkflowContract.ValidateFiles: loading, checkouts and authority inventories, whose violations are a
  parameter; and the order within a report in which some text holds a NUL character.
- WorkflowChecks.ValidateWorkflow: the contents of the checks of action pins and output references, which may
  report anything.
- WorkflowChecks.ValidateReusableCall: a reported reference is cut after 256 characters, where the program counts
  bytes.
- Workflows.CanonicalReference: the characters a file system rejects; file names are strings.
- Text.ToLower and Text.EqualFold: letters beyond ASCII other than the Kelvin sign and the long s.
- DriftReports.Report: the sensitive-name rules and the redaction of a sensitive path are parameters.
- Unions.UnionsAgreeExactly: the normalisation of the drift projection after the union.
- Retry.DoRead: 64-bit overflow of a huge Retry-After value, the draining of response bodies and invalid
  request paths.
- Pagination.GetList: the text of page paths and errors.
- PlanChanges.ClassifyChange: the catalogue matchers and the field-by-field rules, which stand behind one
  parameter that may find anything; so do the words that make an unknown value an authority.
- DestructiveReview.Build: reading of files, identity, catalogue and observation bindings and their errors,
  the founder projection and its marking of high-risk entries, and the digest of the document.
- Inventory.ValidateInstallationInventoryQualification: the validity window and the digest of the attestation,
  which are a parameter.
- Attestations.ValidatedIntegrationAttestation: validity window and digest of the attestation, which are a
  parameter.
- Identities.ObservedOIDCIdentity: the texts of the issues, which name repositories in iteration order.
- Transport, decoding of JSON and YAML, schema validation, file reading, signatures and digests are inputs
  or parameters.
