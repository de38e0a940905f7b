# Verified model of the decisions of a code security service

The service scans a pull request, merges the reports of several scanners, lets a language model judge and patch the
findings, accepts a patch only if build, linter, tests and a rescan agree, and offers the verified patches as a pull
request. This project models the decisions in between, where nothing but the code itself keeps the promises, and proves
them for every input, every answer of the outside world and every run.

`dafny verify dfyconfig.toml` checks everything. One module per component:

| file | models |
|---|---|
| `Remediation.dfy` | the remediation subgraph: nodes, routers and state, as a total step function over oracle answers |
| `RemediationRuns.dfy` | what every run keeps (position, attempts) and that every run ends |
| `RemediationTrees.dfy` | what every run does to the working tree, and what was checked before it did |
| `RemediationProgress.dfy` | what drives a run: which service answers for which target, that a good patch repairs it, where every accepted file comes from |
| `RemediationScope.dfy` | which files a run can change |
| `RemediationStory.dfy` | the attempts of every target, what each retry is told, and why each result ended |
| `RemediationOutcomes.dfy` | results, lookups and statuses at the end of a run |
| `RemediationReplay.dfy`, `ReplayOrder.dfy` | the rows a run saves and their replay on a branch; what a list of fixes gives path by path, through the dictionary and in order |
| `Verification.dfy`, `RescanLaws.dfy`, `Masking.dfy` | the verification agent, working copies, the workspace registry; what a rescan decides case by case and why a patch fails; what correlating a rescan hides |
| `Store.dfy`, `PullRequest.dfy`, `Approval.dfy` | the remediation rows; the remediation branch; the approval that leads from one to the other |
| `TextSearch.dfy`, `Patching.dfy` | locating text, folding edits, the guardrails of a patch |
| `Upgrades.dfy`, `Targets.dfy` | dependency upgrades; which findings are remediated, in which order |
| `TokenLimiter.dfy`, `LlmClient.dfy` | the sliding-window limiter under interleaved settlements; retries, settlement, budget and cache |
| `GreedyMatching.dfy`, `Matching.dfy` | ground-truth matching against every one-to-one matching; counters and metrics |
| `Batching.dfy`, `Analyst.dfy`, `Discovery.dfy` | greedy batching against every split; the analyst and the discovery pass |
| `Grouping.dfy`, `Sorting.dfy`, `Correlator.dfy`, `CorrelatorLaws.dfy`, `Recorrelation.dfy` | grouping, stable sorting, maximal runs; the finding correlator; which member a merge speaks for and which neighbours it joins; correlating again |
| `ChangedLines.dfy` | zero-context diffs, printed and parsed back; the scope of findings |
| `Prelude.dfy`, `Text.dfy`, `Cwe.dfy`, `Findings.dfy` | shared vocabulary |

Code that the repository writes as updates of an object is a class here (`TokenLimiter`, `LlmClient`, `Counts`,
`Verifier`, `WorkspaceRegistry`, `RemediationStore`, `GitHub`), a loop is a method with a loop, and each is proved
against a function of its inputs or of its old state; the lemmas are about those functions. Expressions, comprehensions
and the graph nodes, which map a state to an update, are functions.

The outside world enters as values. The remediation machine takes one `Oracle` per step (baseline tests, the model's
answer, the tools' answers); a tool may answer anything or raise, which ends the run in the node `Broken`. The chat
client takes a reply for every attempt. The Python parser, the diff library, the regular expressions for test paths,
pins and fixed versions, hashing, code retrieval and redaction are given functions. Times are integer milliseconds,
metrics and prices exact reals, a file tree is a map from relative path to text.

## Where the code keeps less than it seems to promise

Each of these is stated in the model, with the condition under which the code does keep the promise.

- A search text whose count is one need not be unique: `str.count` skips overlaps. It is unique in every text exactly
  if it has no border (`TextSearch.CountOneIsUnique`).
- After an edit that empties a file the next edit starts again from the file on disk, because an empty text is false
  (`Patching.FoldIsSequential`, `Patching.RestartForgets`).
- The limit on changed lines does not count added lines that start with `++` and removed lines that start with `--`
  (`Patching.CountIsExact`).
- An added line that starts with `++ ` is read as a file header by the diff parser. Whatever the diff, a hunk is credited
  to the last name before it (`ChangedLines.CreditsAreExact`); a diff is read right up to every file boundary exactly if
  every hunk with new lines stands under a name of its own file (`ChangedLines.DiffIsRightExactly`).
- A rescan that still reports the original weakness passes exactly if other findings speak for the merged groups that
  hold those reports, and the baseline knows the speaker of every group that matters (`Masking.MissedExactly`); the case
  arises (`Masking.AbsorptionExample`).
- The limiter's windows stay within its limit throughout a run exactly if every settlement finds room: while its
  reservation is queued, the windows that hold it fit with the billed amount in its place; once it has left the deque,
  the amount passes the test that `reserve` makes and `settle` does not (`TokenLimiter.FitsExactly`). Without that the
  limit breaks, by an overrun or by a late settlement (`TokenLimiter.OverrunBreaksLimit`,
  `TokenLimiter.LateSettlementBreaksLimit`), and never by more than what is billed beyond the reservations
  (`TokenLimiter.WindowBound`).
- A second approval of a scan finds nothing left exactly if no fingerprint was verified twice (`Store.ApprovalDrains`).
- The dictionary of an approval keeps the verified rows as they are exactly if no fingerprint repeats
  (`Store.DictIsIdentity`); with repeated ones it replays, at each path, the newest fix of that fingerprint
  whose first fix came last, which agrees with the order of the rows exactly as `ReplayOrder.ReplayAgreesExactly` says
  (`RemediationReplay.ReplayEqualsTreeExactly` for whole runs).
- Analysing findings changes only their analysis exactly if an id determines its finding (`Analyst.OnlyAnalysisChanges`).
- A merge names every scanner behind its members exactly if no member brings a scanner from an earlier merge
  (`Correlator.MergeKeepsScanners`), and an output of the correlator names every scanner behind its inputs exactly as
  `Correlator.CorrelateKeepsScanners` says: of several merged fingerprints only the leading scanner of each counts.
- Correlating twice is the same as correlating once exactly if no finding of the result names a second scanner and no
  two neighbours in the order of place have become the same issue (`Recorrelation.IdempotentExactly`).
- A reply whose body cannot be decoded, or a request that fails other than in transport, leaves its reservation
  unsettled. A chat settles every reservation once exactly if no reply that it reads is of that kind
  (`LlmClient.SettlesExactly`, `LlmClient.CallSettlesExactly`).
- A later patch may bring back a finding that an earlier one fixed, because the baseline still contains it: the patch
  passes all the same exactly if that finding is not the same weakness as its own target
  (`Verification.BaselineFindingMayReturn`, `Verification.FixedFindingComesBack`).

## Model

| member | source | states |
|---|---|---|
| Remediation.FinishLoops | backend/graph/remediation.py:245-274 | the loops of `finish` mark each finding by the last result with its id and overlay the files of the results in order |
| RemediationRuns.RunControl | backend/graph/remediation.py:87-209 | in every state of every run the results are the first targets in order, one for each target passed; at every propose and verify the counted history entries are one less than the attempt number, which never exceeds max(1, max_attempts) |
| RemediationRuns.StepDecreases | backend/graph/remediation.py:276-309 | every step of an unfinished run lowers a measure over targets left, attempts left and node, whatever the model and the tools answer |
| RemediationRuns.EveryRunEnds | backend/graph/remediation.py:276-309 | no run takes more than 3 + targets * (2 * attempts + 2) steps |
| RemediationTrees.RunTrees | backend/graph/remediation.py:166-241 | in every state the accepted patches form a chain of copies from the scanned tree to the working tree, all vouched for by the tools, and the repaired results describe them one by one |
| RemediationTrees.TreeIsVerifiedFixes | backend/graph/remediation.py:87-95 | in every state of every run the working tree is the scanned tree overridden, in order, by exactly the files of the verified results, on every path a working copy holds; failed, rejected and declined attempts leave no trace; at the end the final files are those files |
| RemediationTrees.TipIsOverlay | backend/services/verification.py:90-102 | a chain of working copies shows what one overlay of all its patches on the first tree shows |
| RemediationTrees.VerifiedMeansChecked | backend/graph/remediation.py:166-202 | every tree that ever becomes the working tree was built, linted clean, tested (or had no tests while none were required) and rescanned without error, without its own finding and without any medium or worse finding unknown to the baseline fixed at the start |
| RemediationScope.OnlyRepairedFilesChange | backend/graph/remediation.py:166-202 | in every state of every run each file that is not the file of a repaired finding is as it was scanned, whatever the model proposed |
| RemediationScope.ResultsAreHonest | backend/graph/remediation.py:211-241 | in every state results that are not verified carry no files and verified results record every check as passed |
| RemediationStory.RunTells | backend/graph/remediation.py:100-209 | in every state of every run the history of the current target is a sequence of consecutively numbered attempts, each rejected or proposed and then failed, and the next proposal is told exactly why the last one failed and is made only if no error ruled a retry out and tests were not missing |
| RemediationStory.AttemptsAreCounted | backend/graph/remediation.py:217 | the number of attempts that a record counts is the number of attempts in the story of its target |
| RemediationStory.ResultsEndForAReason | backend/graph/remediation.py:159-209 | every recorded result ended for a reason: it passed in its last attempt; or it used up its attempts or lacked the required tests; or the model was unavailable or an error ruled a retry out |
| RemediationProgress.GoodPatchRepairs | backend/graph/remediation.py:100-209 | in every run: if the machine turns to a finding about code and the model offers a patch the guardrails allow, or to one about a package that can be upgraded, whatever the model says, and the tools confirm the copy with the patch, then two steps later the target is repaired and the third step records exactly those files |
| RemediationProgress.BadPatchIsRefused | backend/graph/remediation.py:140-165 | a rejected answer leaves the tree alone and the next proposal is told the objections; there is none if an error says that the model declined, gave no edits, or that no upgrade is possible (declined), or if the attempts are used up (failed) |
| RemediationProgress.SilentModelDeclines | backend/graph/remediation.py:105-127 | without an answer of the model a finding about code is declined at once |
| RemediationProgress.UnconfirmedPatchIsRetried | backend/graph/remediation.py:166-209 | a patch that the tools do not confirm leaves the tree alone, is booked as failed without files, and the next proposal is told why, unless required tests are missing or the attempts are used up |
| RemediationProgress.TargetIsRecorded | backend/graph/remediation.py:211-241 | recording a target adds one result with its whole story, the patch, the files of a repair, the last checks and the last reason, and books a row for it exactly if it was not repaired |
| RemediationProgress.AcceptedFilesHaveOrigin | backend/services/remediation.py:285-298 | in every run each accepted patch has files that the guardrails allowed on the tree just before it: out of a proposal offered during the run for a finding about code, out of the upgrade for one about a package |
| RemediationOutcomes.LookupsNeverMiss | backend/graph/remediation.py:31-32 | the lookup of the current target by id always finds a finding of the scan |
| RemediationOutcomes.EveryTargetIsRecorded | backend/graph/remediation.py:87-98 | a finished run has exactly one result per target, in order, and no recorded number of attempts exceeds the bound; the targets are all the selected ones, or none exactly if the project's own tests, where it has any, failed at the start |
| RemediationOutcomes.FinishMarksByResult | backend/graph/remediation.py:245-261 | with unique ids a finished run sets a finding to FIXED if its result is verified and to FIX_FAILED if it failed, and leaves declined targets and all other findings unchanged in every field |
| RemediationProgress.RunNumbersRows | backend/services/store.py:110-120 | in every run the rows of before stay as they are and the new ones take the next ids in order |
| RemediationProgress.RunKeepsStoreValid | backend/services/store.py:110-120 | so a run keeps the ids of the store increasing, which an approval supposes |
| RemediationReplay.RunBooks | backend/graph/remediation.py:181-192 | in every state of a persisted run the verified rows of the scan are the earlier ones followed by exactly the accepted patches, in order |
| RemediationReplay.ReplayReproducesTree | backend/services/pr_agent.py:86-98 | after one finished run over findings with distinct ids and fingerprints, writing the pending rows in order over the scanned tree gives the verified working tree on every path a working copy holds, and the written files are the final files |
| RemediationReplay.ReplayEqualsTreeExactly | backend/services/pr_agent.py:86-98 | after one finished run, whatever rows the scan had before (a retried scan keeps its id and its rows) and whatever ids and fingerprints repeat, the branch holds at each path what the deciding verified fix writes there, the working tree what the last accepted fix of the run writes, and the two agree exactly when these texts are equal |
| RemediationReplay.CorrelatedScanHasDistinctPrints | backend/services/correlator.py:54-71 | findings that come from the correlator meet the fingerprint condition of the replay |
| ReplayOrder.ReplayAt | backend/services/store.py:137-138 | replaying the dictionary of any list of fixes leaves at each path what the deciding fix writes: among the newest fixes of each fingerprint that write the path, the one whose fingerprint came first most recently |
| ReplayOrder.ReplayAgreesExactly | backend/services/store.py:137-138 | at each path the replay equals the fixes in their order exactly when no fix writes the path or the deciding fix and the last fix write the same text |
| RemediationReplay.RepeatedPrintReplaysOutOfOrder | backend/services/store.py:137-138 | the case arises: a fingerprint verified again after another fix of the same file moves the newer row to the front, and the replayed file differs |
| Verification.PassedExactly | backend/services/verification.py:122-203 | a patch passes exactly when build, linter, tests (or their permitted absence), scanners and both rescan conditions agree; then every check is recorded as passed; exactly missing required tests forbid a retry |
| Verification.ScansDecide | backend/services/verification.py:28-55 | the rescan passes exactly when no scanner failed, no correlated finding is the same weakness as the original, and every medium or worse one is the same weakness as a baseline finding |
| Verification.SameWeaknessIsTolerance | backend/services/verification.py:28-40 | being the same weakness is symmetric and reflexive |
| Verification.LeftAloneIsKnown | backend/services/verification.py:47-55 | a rescan that reports only findings of the baseline introduces nothing |
| Verification.BaselineFindingMayReturn | backend/services/verification.py:43-55 | a baseline finding that the rescan reports again counts against a patch exactly if it is the same weakness as its target; otherwise the other reports alone decide |
| Verification.FixedFindingComesBack | backend/services/verification.py:43-55 | if nothing but a finding fixed earlier is reported, the later patch passes exactly if that finding is another weakness than its target |
| RescanLaws.TargetDecides | backend/services/verification.py:28-44 | a rescan that reports one finding, known to the baseline, lets the patch fail exactly if that finding stands against the target: same file, same family, and the same package and advisory, or for secrets the same function and at most eight lines, or otherwise the same named function or at most eight lines |
| RescanLaws.BaselineDecides | backend/services/verification.py:47-55 | a medium or worse report away from the target passes exactly if it stands in that way against the baseline finding, and a milder one always |
| RescanLaws.StrangersPass | backend/services/verification.py:34-35 | reports of another file or another family never stand against the target |
| RescanLaws.PackageCase | backend/services/verification.py:36-37 | a vulnerable package is gone exactly if the report has another package or another advisory, whatever its line |
| RescanLaws.SecretCase | backend/services/verification.py:38-39 | a hard-coded secret is gone exactly if the report is nine or more lines away or in another function |
| RescanLaws.CodeCase | backend/services/verification.py:40 | any other weakness is gone exactly if the report is nine or more lines away and not in the same named function |
| RescanLaws.KnownCases | backend/services/verification.py:47-55 | a medium or worse report is known to the baseline in exactly the same cases |
| RescanLaws.FailureIsExact | backend/services/verification.py:129-199 | the verdict fails for the first check that does not agree, with the output of that check, the errors of the scanners, or the findings that remain or are new; it breaks exactly if a check that is due cannot be run |
| Cwe.FamilyExactly | backend/services/cwe.py:4-32 | two CWE numbers are of one family exactly if they are equal or listed together |
| Verification.VisibleOverride | backend/services/verification.py:90-102 | leaving ignored paths out distributes over writing a patch, so a chain of copies hides no more than one copy |
| Verification.HiddenExactly | backend/services/verification.py:90-98 | a path is left out of a copy exactly if one of its parts is `.git`, `__pycache__`, `.venv` or `node_modules` |
| Verification.BelowHiddenExactly | backend/services/verification.py:90-102 | and it cannot be written exactly if something follows such a part |
| Verification.Verifier.MakeCopy | backend/services/verification.py:90-102 | the write loop fails exactly if a patched path lies below an ignored directory, in whatever order the paths come; otherwise the copy holds each patched path with the patched text, each other visible path as the tree has it, and nothing else; the directory is remembered in either case |
| Verification.Verifier.Verify | backend/services/verification.py:122-203 | the verdict is about the copy that holds the patch, and on every way out, raised tools included, the workspace registry is as before |
| Verification.Verifier.Check | backend/services/verification.py:129-201 | the checks run in their order up to the first failure |
| Masking.VoiceSpeaks | backend/services/correlator.py:25-40 | every correlated finding stands at the place of one member of its group, the one of the richest scanner and then the highest severity |
| Masking.NoticedExactly | backend/services/verification.py:43-44 | the correlated rescan shows the original weakness exactly when that member of some group is the same weakness |
| Masking.PassesExactly | backend/services/verification.py:174-199 | the rescan passes exactly when every scanner ran, no group speaks for the original weakness, and every group with a medium or worse member speaks for a finding the baseline knows |
| Masking.MissedExactly | backend/services/verification.py:174-199 | a rescan passes although its raw reports show the weakness exactly when every such report is in a group that another member speaks for, and the groups that matter are known |
| Masking.AbsorbedReportPasses | backend/services/verification.py:174-199 | for every rescan of just two neighbouring reports of one family, in either order, of which only the one from the poorer scanner is the original weakness and the other is in the baseline, the raw reports show the weakness and the verification passes |
| Masking.AbsorptionExample | backend/services/verification.py:174-186 | the case arises and passes: a semgrep report eight lines below the target and a codeql report three lines further down that the baseline knows |
| Masking.UnmergedReportIsNoticed | backend/services/verification.py:43-44 | a report of the original weakness that is merged with no other always fails the check |
| Store.RemediationStore.Save | backend/services/store.py:110-120 | saving appends one row with the next id and keeps ids increasing |
| Store.RemediationStore.VerifiedRemediations | backend/services/store.py:123-138 | the query returns the verified rows of the scan through the dictionary keyed by fingerprint |
| Store.RemediationStore.MarkRemediations | backend/services/store.py:141-150 | the loop over the chosen rows changes status, approver and URL of exactly these rows |
| Store.DictHoldsLast | backend/services/store.py:137-138 | every row returned is the last verified row of its fingerprint |
| Store.DictIsIdentity | backend/services/store.py:137-138 | the query returns all verified rows in creation order exactly when no fingerprint repeats |
| Store.PendingExactly | backend/services/store.py:123-138 | the rows that wait for approval are exactly the newest verified ones of each fingerprint of the scan |
| Store.ApprovalDrains | backend/services/store.py:141-150 | after an approval exactly the superseded verified rows are still pending, and none are exactly when no fingerprint was verified twice |
| PullRequest.GitHub.CommitFix | backend/services/pr_agent.py:89-98 | committing a fix path by path, in any order, overrides the branch with its files |
| PullRequest.GitHub.OpenRemediationPr | backend/services/pr_agent.py:78-110 | the new branch ends as the scanned tree overridden by the fixes in order, no other branch changes, and without fixes or with the branch taken nothing happens |
| PullRequest.BranchIsNamed | backend/services/pr_agent.py:84 | the branch is `acsr/fix-` with the first eight characters of the scan id |
| Approval.ApproveRemediations | backend/api/dashboard.py:187-278 | an approval is refused for the first of six reasons that applies (writes disabled, nobody named, no such scan, a fork, nothing verified, branch taken) and then changes nothing; an accepted one opens the branch on the scanned tree and the pending fixes, against the head of the pull request or `main`, marks exactly these rows with the approver, and leaves exactly the superseded rows pending, none exactly when no fingerprint was verified twice |
| PullRequest.VerifiedShowsNoFailure | backend/services/pr_agent.py:27-43 | the pull request never shows a failing check for a verification that passed, and five passed ones if tests are required |
| PullRequest.MarksAreExact | backend/services/pr_agent.py:27-43 | build, linter and tests are shown as they came out, absent tests as neither, and everything that was not reached as failing |
| PullRequest.RescanMarksAreExact | backend/services/pr_agent.py:27-43 | the issue is shown as gone exactly if every scanner ran and none reports it, and no new findings exactly if every scanner ran and reports none |
| Patching.ValidatePatch | backend/services/remediation.py:122-205 | the two loops compute the fold of the edits and the review of the changed files |
| Patching.AcceptedExactly | backend/services/remediation.py:122-205 | a patch is accepted exactly when edits are offered, all of them apply, every changed file differs, parses and imports nothing unknown, and the counted lines are within the limit; any error means no patch |
| Patching.LoneEditExactly | backend/services/remediation.py:122-205 | a proposal of one edit must name, apart from dots and slashes in front, a file in scope that is no test and exists, and is told which of these fails; then the edit decides, and its text is accepted with its diff exactly if it changes the file, parses, imports nothing unknown and counts at most 40 changed lines |
| Patching.AcceptedTouchesOnlyItsFile | backend/services/remediation.py:131-142 | an accepted patch changes exactly the finding's own file, which is no test file, and changes it for real |
| Patching.FoldIsSequential | backend/services/remediation.py:133-170 | the edits apply one after the other exactly when the code accepts them and no edit meets a file that earlier edits emptied; then the results are equal |
| Patching.RestartForgets | backend/services/remediation.py:145 | after an edit that empties a file the next edit is applied to the file on disk and the earlier ones are lost |
| Patching.RestartExample | backend/services/remediation.py:145 | the case arises with two edits of a file that reads "a" |
| Patching.SearchEditIsLocal | backend/services/remediation.py:163-170 | a search edit splits the text into three parts and replaces the middle one; that part is the only counted occurrence of the search text or the only run of whole lines that matches it, and the edit is refused exactly when there is neither |
| Patching.LineEditIsLocal | backend/services/remediation.py:146-162 | a line edit is accepted exactly when its number is a line of the text and that line, without the blanks around it, begins with the given start, which is not blank; the text is then the same before and after that line, which becomes the new text without trailing newlines, ended by a newline exactly if the old line was |
| Patching.OtherLinesStay | backend/services/remediation.py:146-162 | so the lines of the result are those before, those of the new text and those after |
| Patching.RefusalSays | backend/services/remediation.py:148-169 | a refused line edit is told that its line does not exist or, if it does, how it does not begin, and a refused search that its text was not found once |
| Patching.ReviewIsExact | backend/services/remediation.py:174-199 | the review finds no error exactly when every changed file is acceptable |
| Patching.CountIsExact | backend/services/remediation.py:174-201 | the line count compared with the limit never exceeds the changed lines, and equals them exactly when no changed line looks like a file header |
| TextSearch.SplitKeepFlatten | backend/services/remediation.py:147-160 | the kept lines joined are the text |
| TextSearch.CountOneIsUnique | backend/services/remediation.py:104-109 | a count of one means exactly one occurrence, in every text, exactly for search texts without a border |
| TextSearch.FindUniqueLocates | backend/services/remediation.py:104-119 | what is located is an occurrence of the search text such that no other is counted, or else the one run of whole lines that matches without trailing space while no other run does; nothing is located exactly when no part of the text is either |
| Upgrades.TargetIsNewest | backend/services/remediation.py:208-237 | the chosen version fixes some finding of the package in that file, and none of them names one that is larger in the first number in which they differ |
| Upgrades.UpgradeIsExact | backend/services/remediation.py:223-256 | an upgrade is offered exactly when a fix is known and the package is pinned once in a requirements file; otherwise there is no patch and one reason, no fix before no such file; the file is rewritten with the newest named version |
| Upgrades.UpgradeKeepsRest | backend/services/remediation.py:223-256 | when pins are parts of the text, an accepted upgrade changes that one file only, and only the version within it, to the newest named one |
| Targets.SelectTargets | backend/graph/remediation.py:35-54 | the selection loop keeps the first candidate of each package and file, up to the cap |
| Targets.TargetsAreCandidates | backend/graph/remediation.py:35-54 | targets are eligible findings (true positives of at least 0.8 confidence, without those marked as existing if only new ones count), most urgent first, within the cap, at most one per package of a file |
| Targets.TargetsByUrgency | backend/graph/remediation.py:39-44 | of two targets the earlier has the smaller priority number or, with equal priorities, no less confidence |
| Targets.PassedOverForUrgency | backend/graph/remediation.py:35-54 | a candidate is passed over only if its package already has a target at least as urgent, or if the cap cuts the list and every target is at least as urgent |
| TokenLimiter.WindowBound | backend/services/llm.py:80-105 | in every run and for every instant the tokens billed in the last minute exceed the limit by at most what was billed beyond the reservations |
| TokenLimiter.WithinExactly | backend/services/llm.py:99-105 | the excess over the limit that this bound allows is nothing in every window exactly when every settlement of the run comes while its reservation is queued and bills at most that, or comes late and bills nothing |
| TokenLimiter.FitsExactly | backend/services/llm.py:80-105 | in every run, no window exceeds the limit at any moment exactly when every settlement has room: a queued one in every window that holds its reservation, a late one in the window that ends now |
| TokenLimiter.WindowWithinLimit | backend/services/llm.py:80-105 | in particular, if every settlement comes while its reservation is queued and bills at most that, or comes late and bills nothing, no window ever exceeds the limit |
| TokenLimiter.OverrunBreaksLimit | backend/services/llm.py:99-105 | for every limit a run in which one queued call is billed one token more breaks it |
| TokenLimiter.LateSettlementBreaksLimit | backend/services/llm.py:99-105 | for every limit a run of two calls, each billed exactly its reservation, reaches twice the limit if the first settles after its reservation has left the deque |
| TokenLimiter.AdmissionFits | backend/services/llm.py:85-93 | right after an admission the window with the new reservation is within the limit, whatever was billed before |
| TokenLimiter.UsedIsWindowSum | backend/services/llm.py:80-83 | the pruned deque adds up to the whole history filtered by time, under every interleaving of checks and settlements |
| TokenLimiter.FailedCheckHasOldest | backend/services/llm.py:86-97 | a failed check never reads the oldest entry of an empty deque |
| TokenLimiter.WaitingIsBounded | backend/services/llm.py:85-97 | from every reached state a waiting reservation fails fewer than 60 plus queue-length checks, whatever settlements of queued reservations come between the checks and however late it wakes |
| TokenLimiter.TokenLimiter.Used | backend/services/llm.py:80-83 | the pruning loop returns the window sum of the ledger |
| TokenLimiter.TokenLimiter.TryReserve | backend/services/llm.py:88-97 | one turn admits exactly if the clamped request fits and otherwise says how long to sleep |
| TokenLimiter.TokenLimiter.Reserve | backend/services/llm.py:85-97 | alone, a reservation returns after at most 60 plus queue-length sleeps, however late it wakes |
| TokenLimiter.TokenLimiter.Settle | backend/services/llm.py:99-105 | settling replaces the queued reservation or appends a late bill, as the state machine says |
| LlmClient.ChatAccounts | backend/services/llm.py:145-200 | one chat posts at most its retries, settles every reservation exactly once unless it ends in a leak, drops JSON mode at most once, and adds to the usage exactly what it settles |
| LlmClient.ChatEndsAsDecided | backend/services/llm.py:161-200 | over the replies: a chat ends as the first reply says that is neither transient nor the first refusal of JSON mode, and is charged exactly the counts of that reply if it can be decoded; if there is none within the retries it fails and is charged nothing |
| LlmClient.SettlesExactly | backend/services/llm.py:161-199 | over the replies: every reservation is settled exactly once exactly unless some reply within the retries breaks the request other than in transport or is a success that cannot be decoded, and every reply before it is transient or the first refusal of JSON mode |
| LlmClient.ChatSurvivesTransients | backend/services/llm.py:161-199 | if a reply within the retries holds an answer and all before it are transient (broken connection, server error, a pause of at most 300 s), the chat returns that answer after exactly so many posts and is charged for it alone |
| LlmClient.OnlyTransientsExhaust | backend/services/llm.py:161-200 | if all replies are transient, exactly the allowed posts are made, the chat fails and the usage is unchanged |
| LlmClient.JsonModeRetry | backend/services/llm.py:178-187 | after a refused JSON mode the next post is made without it and its answer is returned |
| LlmClient.PostsAskForJson | backend/services/llm.py:150-187 | each post of a chat asks for JSON mode exactly if no reply before it has refused it |
| LlmClient.CallReserves | backend/services/llm.py:149-163 | every reservation of the first chat is for the estimate of the first prompt, and of the second for that of the second |
| LlmClient.CompleteAccounts | backend/services/llm.py:202-235 | a JSON call posts at most twice the retries, settles likewise, and makes its last charge from below the budget |
| LlmClient.CallReturnsExactly | backend/services/llm.py:202-235 | over the replies: a JSON call returns a text exactly if the cache answers with it, or else the budget is open and the chat says it and it fits, or the chat says one that does not fit, the budget is still open, and the second chat says it and it fits |
| LlmClient.ReturnedTextFits | backend/services/llm.py:215-235 | a returned text always fits, and what the model returns is stored under the key of the call, where nothing else changes |
| LlmClient.CallSettlesExactly | backend/services/llm.py:202-235 | a JSON call settles every reservation exactly once exactly unless it is not answered from the cache, the budget is open, and its first chat breaks in that way or gives an unfit answer that leaves the budget open for a second chat that does |
| LlmClient.BudgetHolds | backend/services/llm.py:145-200 | over any sequence of calls, on any cache or none and whatever others write to it in between, the total never exceeds the budget by the last charged reply, and equals what was settled |
| LlmClient.SessionIsPriced | backend/services/llm.py:195-198 | over any sequence of calls and on any cache the cost is the price of the counted tokens |
| LlmClient.CachedCallIsFree | backend/services/llm.py:215-234 | a call that succeeded is answered from the cache afterwards with the same text, no request and no tokens |
| LlmClient.LlmClient.Chat | backend/services/llm.py:145-200 | the retry loop does what the trace of its replies says |
| LlmClient.LlmClient.CompleteJson | backend/services/llm.py:202-235 | the two rounds and the cache do what the trace says |
| GreedyMatching.GreedyIsHalfOptimal | backend/bench/matching.py:49-64 | every one-to-one matching that respects the rule has at most twice as many pairs as greedy finds |
| GreedyMatching.GreedyIsMaximal | backend/bench/matching.py:49-64 | each truth takes a nearest fit among the predictions the earlier truths left, and a missed truth fits nothing that is free at the end |
| GreedyMatching.GreedyConserves | backend/bench/matching.py:49-64 | counted with multiplicity the predictions are split between pairs and free |
| GreedyMatching.GreedyMatch | backend/bench/matching.py:49-64 | the loop over the truths, with removal from the free list, is that assignment |
| Matching.MatchCase | backend/bench/matching.py:33-64 | truths are paired or missed, predictions paired or free, pairs match, and nothing left over could still be paired |
| Matching.MatchesExactly | backend/bench/matching.py:28-46 | a prediction matches a truth exactly if, apart from dots and slashes in front, it names its file, it is of its family or both are container weaknesses of a Dockerfile, and the file is a configuration file or the lines are at most six apart |
| Matching.HalfIsTight | backend/bench/matching.py:49-64 | the factor two is reached by two predictions and two truths of one file |
| Matching.TruePositivesAreHalfOptimal | backend/bench/matching.py:76-87 | over any list of cases the true positives are at least half of what any one-to-one scoring could count |
| Matching.ScoreConserves | backend/bench/matching.py:76-87 | over any list of cases tp + fn is the number of truths and tp + fp the number of predictions |
| Matching.ScoreTabulates | backend/bench/matching.py:76-87 | the table holds for every class its matched and missed truths, and its columns add up to tp and fn |
| Matching.F1ClosedForm | backend/bench/matching.py:89-100 | F1 is 2tp / (2tp + fp + fn), zero without true positives, and lies between precision and recall |
| Matching.ScoresOfCases | backend/bench/matching.py:89-100 | over any list of cases precision is the share of the predictions that were matched, recall that of the truths, and F1 the share of twice the matches in both together; without any each is zero |
| Matching.Counts.AddCase | backend/bench/matching.py:76-87 | adding a case updates every counter by what the matching of that case gives |
| Batching.GreedyIsOptimal | backend/services/analyst.py:105-118 | no split into blocks that may be sent has fewer blocks than the greedy one |
| Batching.GreedyStaysAhead | backend/services/analyst.py:105-118 | the first k greedy blocks cover at least as much as the first k blocks of any other split |
| Batching.CappedPrefixIsLongest | backend/services/discovery.py:138 | the first calls of the discovery pass review the longest prefix that so many batches can reach |
| Analyst.Batches | backend/services/analyst.py:105-118 | the loop gives the greedy split: blocks in order, within the limits or single, none of which could have taken the next item |
| Analyst.AnalyzeFindings | backend/services/analyst.py:134-172 | every finding keeps its place and no lookup misses; shown to the model, in greedy batches of at most five items and 9000 characters, are exactly the first findings the tools do not decide, up to the cap; with distinct ids each of them gets what the last item with its id in the reply to its batch says, as far as the shown lines bear it out, and without one stays open; the others get what the tools say or are marked as skipped; the warnings name the skipped findings and the failed batches |
| Analyst.TheRestIsSkipped | backend/services/analyst.py:141-153 | there is one warning for each finding that the tools do not decide after the first ones up to the cap, in order |
| Analyst.WeighsItsCode | backend/services/analyst.py:111 | an item weighs 500 more than all the code shown for it |
| Analyst.OnlyAnalysisChanges | backend/services/analyst.py:141-172 | only the analysis of each finding changes exactly when equal ids mean equal findings |
| Analyst.DistinctIdsExplain | backend/services/analyst.py:141-172 | with distinct ids each finding gets its own analysis, the tools' if they decide and else a grounded one |
| Discovery.Batches | backend/services/discovery.py:86-102 | the loop gives the greedy split by text size |
| Discovery.WeighsItsLines | backend/services/discovery.py:94 | a file weighs as much as all its lines |
| Discovery.Accept | backend/services/discovery.py:160-184 | every new finding says what a claim of the reply says that can be checked: its file was shown, its line and a cited line are lines of it, the model is at least half sure, and a claim about missing authorization needs code that knows it; it has the number, the severity and the text of the claim, and is definite from three quarters on; none is within three lines of a known finding of its family; and every such claim of the reply is that near to a known or accepted finding |
| Discovery.DiscoverFindings | backend/services/discovery.py:125-185 | every finding says what such a claim of some reviewed batch says and repeats no known finding, every such claim of a reviewed batch is represented, the warnings name the failed batches, and reviewing stops early only for the budget |
| Correlator.Correlate | backend/services/correlator.py:54-71 | the dictionary, sort and merge loops compute the correlated list |
| Correlator.CorrelatePartitions | backend/services/correlator.py:54-71 | counted with multiplicity every input belongs to exactly one output, no fingerprint to two, and each output sums its members up: largest severity, extent and evidence, and exactly their rules |
| Correlator.CorrelateDistinct | backend/services/correlator.py:54-71 | output fingerprints are pairwise distinct |
| Correlator.CorrelateConservesRules | backend/services/correlator.py:25-40 | the rules known before and after are the same |
| Correlator.CorrelateSorts | backend/services/correlator.py:71 | the result is ordered by severity, file and line |
| Sorting.TextLeqExactly | backend/services/correlator.py:63-71 | texts are ordered by the first character in which they differ, and a text is not less than its beginnings |
| Correlator.RunsAreHomogeneous | backend/services/correlator.py:43-51 | a group merged by proximity has one file, one CWE family that is neither unknown nor that of secrets, code analyzers only, and neighbours within the line window |
| Correlator.MergeSummarizes | backend/services/correlator.py:25-40 | a merge has the largest severity, extent and evidence of its group, evidence and fingerprint of members, and exactly their rules |
| Correlator.MergeKeepsBestRanked | backend/services/correlator.py:17-40 | a merge keeps the identity of a member of the richest scanner and, among those, of the highest severity |
| Correlator.MergeKeepsCwe | backend/services/correlator.py:31-34 | a merge has a CWE exactly if some member has one, and then it is that of a member |
| Correlator.MergeListsScanners | backend/services/correlator.py:29-36 | besides its own scanner a merge lists exactly the scanners of its members |
| CorrelatorLaws.MergeTakesPreferred | backend/services/correlator.py:14-35 | a merge has the identity of a member whose scanner no other is ahead of in the order codeql, semgrep, trivy, gitleaks, others, and which is the most severe of that scanner |
| CorrelatorLaws.MergeTakesCwe | backend/services/correlator.py:31-34 | its CWE is that of the preferred member among those that have one |
| CorrelatorLaws.MergeTakesOwasp | backend/services/correlator.py:35 | and so is its OWASP category |
| CorrelatorLaws.MergeLists | backend/services/correlator.py:29-37 | its two lists are in order and hold exactly the other scanners and the other rules of its group |
| CorrelatorLaws.JoinsExactly | backend/services/correlator.py:43-69 | in the order of places exactly those neighbours are joined that have the same file and the same known family other than secrets, both come from semgrep or codeql, and of which the second starts at most three lines below the end of the first |
| CorrelatorLaws.PlacesAreSorted | backend/services/correlator.py:63 | the order of places is by file, then by family, then by line |
| Correlator.MergeKeepsScanners | backend/services/correlator.py:29-36 | a merge names every scanner behind its members exactly when no member brings one from an earlier merge |
| Correlator.CorrelateNames | backend/services/correlator.py:25-71 | an output names exactly the scanners that reported the inputs behind it if these share a fingerprint, and otherwise exactly those that lead a fingerprint group |
| Correlator.CorrelateKeepsScanners | backend/services/correlator.py:25-71 | an output names every scanner known for the inputs behind it exactly when each of these scanners reported one of them itself and, where fingerprints were merged, leads a group |
| Correlator.RecorrelationForgetsScanners | backend/services/correlator.py:29-36 | every finding that a second correlation merges with nothing leaves it without its other scanners |
| Recorrelation.IdempotentExactly | backend/services/correlator.py:54-71 | correlating the result again gives it back exactly when no finding in it names a second scanner and no two neighbours in the order of place are the same issue |
| Recorrelation.TwoScannersExample | backend/services/correlator.py:29-36 | the case arises: two neighbouring reports from different scanners are correlated into a finding that changes when correlated again |
| Sorting.RunsAreMaximal | backend/services/correlator.py:64-69 | the pass over neighbours yields maximal runs of the sorted list |
| Sorting.MaximalRunsUnique | backend/services/correlator.py:64-69 | a list has only one split into maximal runs, so the groups are exactly those |
| Grouping.GroupsCover | backend/services/correlator.py:56-59 | the groups of distinct keys that cover a list are a permutation of it |
| ChangedLines.ParseChangedLines | backend/services/workspace.py:49-62 | the line-by-line loop is the fold of the line reader |
| ChangedLines.HeaderRoundTrip | backend/services/workspace.py:46 | a printed hunk header is read back as the span of its new side, an omitted count included |
| ChangedLines.CreditsAreExact | backend/services/workspace.py:49-62 | for every printed diff the parser gives each path exactly the ranges of the hunks credited to it, in order: each hunk goes to the last name before it, be it the file's own or one an added line seems to give |
| ChangedLines.FileIsRightExactly | backend/services/workspace.py:53-61 | all paths get the right ranges of a file exactly when each of its hunks with new lines stands under a name of that file |
| ChangedLines.DiffIsRightExactly | backend/services/workspace.py:49-62 | parsing a printed diff gives the right ranges up to every file boundary exactly when that holds for all its files |
| ChangedLines.DiffRoundTrip | backend/services/workspace.py:49-62 | parsing a printed zero-context diff gives for every path exactly the ranges of the hunks of its files with lines on the new side, if each such hunk stands under a name of its file |
| ChangedLines.UndisguisedIsRight | backend/services/workspace.py:53-61 | in a file without an added line that starts with `++ ` every hunk stands under the name of its file |
| ChangedLines.DisguisedLineStealsHunk | backend/services/workspace.py:53-61 | after an added line `++ b/` with a path the next hunk is credited to that path |
| ChangedLines.NewIffHunkIsMet | backend/services/workspace.py:109-117 | a finding is NEW exactly when some hunk of its file has a line at or below its first and a line at or above its last, an omitted count meaning one line, if the diff is read right |
| ChangedLines.PathIsPlain | backend/models/finding.py:35-36 | paths are compared with slashes for backslashes and without `./` and then slashes in front |

## Left out

- RemediationTrees.TreeIsVerifiedFixes: equality is on the paths a working copy holds; `copytree` drops `.git`, `__pycache__`, `.venv` and `node_modules`, so on those paths the verified tree really differs from the scanned one.
- RemediationReplay.ReplayReproducesTree: findings with distinct ids and fingerprints and no earlier verified rows; `ReplayEqualsTreeExactly` covers all other cases path by path. Runs of one scan that overlap in time are not modelled.
- TokenLimiter.TokenLimiter.Reserve: is about a caller that no other task disturbs.
- TokenLimiter.WaitingIsBounded: settlements of queued reservations may come between the failed checks; other callers that are admitted meanwhile, or late settlements, add entries and can delay a waiting caller further.
- LlmClient.ChatAccounts: a usage entry whose counts are null or not numbers counts as a reply that cannot be decoded.
- Patching.ValidatePatch: which texts parse, what they import, how they differ and which paths are tests are given functions; symbolic links that leave the workspace are not in the file tree.
- TextSearch.SplitKeepFlatten: lines end at `\n` only; Python also splits at other line separators. White space is that of ASCII with the four separators U+001C to U+001F, and lower-casing is ASCII.
- Upgrades.UpgradeIsExact: the patterns for pins and for fixed versions are given functions; `UpgradeKeepsRest` supposes of them that a match and what is around it make up the text.
- ChangedLines.DiffRoundTrip: digits are ASCII, and paths that git would quote are printed as they are.
- PullRequest.GitHub.OpenRemediationPr: of the errors of the hosting service only an existing branch is modelled; after any other error the commits made so far remain.
- `fp_rate_safe_cases`, prompts, redaction, plans, audit records, telemetry and metrics: they decide nothing that is proved here.
- Scanner adapters, HTTP, queues, sessions, the sandbox, git subprocesses, the web interface and the content of model replies: plumbing or given values.
- Hashing: fingerprints are arbitrary values.
- Truncation of texts (`[:600]` and the like) in stored failures and reasons.
- Concurrency of several chats on one client: usage and budget are stated for sequential use; the limiter is stated for all interleavings. A cache shared with others may change between calls, not during one.
