# A verified model of the deployment authority, its workers and its tools

This project models, in Dafny, the parts of the repository whose correctness is
hardest to see from the code, and proves what they are for.

| part | files |
|---|---|
| the fuzzy matcher shipped with the public book: prefilter, flat-array dynamic program with backtrace, two-pass matcher | `Fzf*.dfy` |
| the audit of the authority bucket's policy, against a semantics of S3 requests | `Patterns.dfy`, `Bucket*.dfy` |
| the walks over object graphs: the cached proxy check, the budgeted check, the snapshot | `JsHeap.dfy`, `ProxyWalk.dfy`, `InspectionBudget.dfy`, `Snapshot*.dfy` |
| the proof dispatcher over its queue, store and workflow engine | `DispatchMachine.dfy`, `ProofDispatcher.dfy` |
| mutation ownership of a Terraform root | `MutationOwner.dfy` |
| publication of the deployment status, and its timestamps | `Timestamps.dfy`, `AppStatus.dfy`, `StatusPublication.dfy`, `StatusPublisher.dfy` |
| the verification worker on a batch | `VerificationWorker.dfy` |
| the life of a finalization and the finalization writer | `FinalizationLifecycle.dfy`, `FinalizationEvents.dfy`, `FinalizationWriter.dfy` |
| content identity of the static frontend | `Utf8.dfy`, `StaticManifest.dfy` |
| the CSV reader and the licence comparison | `Csv.dfy`, `LicenseRecords.dfy` |
| ISO weeks, and the calendar under them | `Decimals.dfy`, `Calendar.dfy`, `IsoWeek.dfy` |
| two graph closures | `Graphs.dfy`, `AffectedPackages.dfy`, `BrowserBoundary.dfy` |

`dafny verify dfyconfig.toml` checks all of it.

## How protocols are modelled

A protocol is a state machine: a datatype of states, one action for each atomic
effect of any participant, `Enabled` and `Apply`, and runs as sequences of actions.
Invariants are proved over every run. Where the source is a handler that sequences
reads and writes, it is also written as a method over a shared object whose field is
the machine's state: between any two of its effects the method `Others` lets everyone
else take any number of steps, and the method's contract says that all of it is a run
of the machine. So what is proved of runs holds of the handler, under every
interleaving.

Stores, queues and services appear only by what they promise: object versions are
never reused; a conditional write compares entity tags, and equal tags mean equal
bodies; a queue delivers late, repeatedly and to several invocations; an execution
name starts at most one execution, and starting it again with the same input while it
is open succeeds without a second one. Digests and canonical JSON texts are
represented by what they are computed from. Clocks, failures of calls and the order of
events are arbitrary.

## What the code does that its promises do not say

* `formatIsoWeek` is wrong for the years 0 to 99 and for 1 to 3 January of year 100,
  since a year below 100 is read as one of the twentieth century, and right for all
  other days (`IsoWeek.FormatIsoWeek`). It does not pad the year.
* The start and the positions that the two-dimensional matcher reports can depend on
  what an earlier search left in its slab, since the flag that decides ties may read a
  cell that no row has written (`FzfStale.StartDependsOnSlab`).
  `FzfStale.AnswerForEverySlab` says exactly when they do not.
* The backward scan of the two-pass matcher does not strip diacritics, so its window
  can be wider than needed (`FzfGreedy.AccentedIsNotTight`);
  `FzfGreedy.TightAnswerExactly` says exactly when it is tight.
* A final CSV line without a line ending that is a single empty field is dropped
  (`Csv.ParseUnterminated`).
* Lone surrogates in paths are replaced before hashing, so that two different
  manifests can have one identity (`StaticManifest.LoneSurrogatesCollide`).
  `StaticManifest.StreamTellsEntries` says exactly which lists share a stream.
* The policy for pointers admits `If-Match: *`, which section 13.1.1 of RFC 9110 lets
  match any current version, so that a replacement names the version it replaces exactly
  when its header is not `*` (`BucketRuns.PointerRuns`). A policy that the audit accepts lets such a put through
  (`BucketAccepted.StarReplacesUnderAudit`).

## Model

| member | source | states |
|---|---|---|
| `FzfText.ScanDecidesSubsequence` | public-book/fzf.umd.js:500-509 | the greedy left-to-right scan completes a prefix of the pattern within a prefix of the text exactly when the one is a subsequence of the other |
| `FzfPrefilter.AdmitsCoversFold` | public-book/fzf.umd.js:307-317 | looking for a character and for its upper-case twin finds everything that folds to it, and for a folded pattern nothing else |
| `FzfPrefilter.TrySkip` | public-book/fzf.umd.js:307-317 | the first admitted position from a given one on, or -1 when there is none |
| `FzfPrefilter.IsAscii` | public-book/fzf.umd.js:318-321 | true exactly when every character is below 128 |
| `FzfPrefilter.AsciiFuzzyIndex` | public-book/fzf.umd.js:322-332 | on ASCII text with a folded pattern it rejects exactly when the pattern is not a subsequence of the folded text; its start never skips the first match, and it never rejects a text that matches |
| `FzfSlab.Take` | public-book/fzf.umd.js:269-282 | a window of the wanted size in bounds that shows what the slab held there, behind every window taken earlier and so disjoint from it, or a fresh zeroed array when the slab is full |
| `FzfScore.BestIsUnique` | public-book/fzf.umd.js:435-435 | the best score and the place where it is reached are determined by the query alone, so neither depends on what the slab held |
| `FzfScore.GapLoses` | public-book/fzf.umd.js:426-426 | in the recursive score, a character that does not match never raises the score and lowers a positive one |
| `FzfScore.PeakIsMatch` | public-book/fzf.umd.js:447-453 | a positive cell that its left neighbour does not beat is a match, and gains a full match over its diagonal |
| `FzfScore.FirstOccurrenceScores` | public-book/fzf.umd.js:372-372 | where a prefix of the pattern is first completed the cell is a match, its row is empty before it, and it beats its diagonal |
| `FzfScore.RowFallsBehind` | public-book/fzf.umd.js:394-394 | past the last occurrence of a pattern character its row only falls, so cutting the rows there loses no maximum |
| `FzfScore.GridCell` | public-book/fzf.umd.js:421-434 | every cell of row b is at most 24(b+1)+8 and follows from its left and diagonal neighbours by the gap and match rules |
| `FzfFirstPass.RowZeroCell` | public-book/fzf.umd.js:375-384 | what the first pass writes at a position is row 0 of the recursive score there |
| `FzfFirstPass.NoteOccurrence` | public-book/fzf.umd.js:372-372 | the recorded first occurrences and the last one are those of the greedy scan, one position further |
| `FzfFirstPass.KeepBest` | public-book/fzf.umd.js:435-435 | the running maximum takes in one more position, with ties going to the left or to the right as asked |
| `FzfFirstPass.KeepSingle` | public-book/fzf.umd.js:379-381 | for a single-character pattern the early stop at a boundary loses nothing: the maximum is already that of the whole row |
| `FzfFirstPass.Visit` | public-book/fzf.umd.js:362-385 | one iteration folds and classifies one character, stores its cell of row 0 and its bonus, and leaves every other stored cell alone |
| `FzfFirstPass.FirstPass` | public-book/fzf.umd.js:349-386 | the windows hold the folded text, row 0 and the bonuses, and the pattern is completed exactly when the greedy scan completes it |
| `FzfRows.GridRunStart` | public-book/fzf.umd.js:429-430 | a run of matches reaches back no further than the first match, so the bonus read at its start is in bounds |
| `FzfRows.ComputeCell` | public-book/fzf.umd.js:422-434 | score, run and gap computed from stored neighbours are those of the recursive score |
| `FzfRows.FillCell` | public-book/fzf.umd.js:421-435 | one iteration stores one cell of both tables and leaves all rows before it as they were |
| `FzfRows.FillRow` | public-book/fzf.umd.js:408-437 | a row filled from its first occurrence equals the recursion, and on the last row the kept maximum is the row's |
| `FzfBacktrace.FillRows` | public-book/fzf.umd.js:406-437 | all rows after the first are those of the recursive score, the maximum is that of the last row, and the cells of runs left of first occurrences keep what they held |
| `FzfWalk.WalkStep` | public-book/fzf.umd.js:447-453 | the walk back stops at a first occurrence always, and elsewhere only on a match |
| `FzfWalk.WalkPlaces` | public-book/fzf.umd.js:438-460 | whatever the table of runs held, the walk places every pattern character up to its own on a character that folds to it, in order |
| `FzfWalk.SameForEveryContent` | public-book/fzf.umd.js:444-459 | the walk from the best cell is the same whatever the table of runs held exactly when no tie is met right after the tie flag was decided by a cell that no row has written |
| `FzfBacktrace.ReadAround` | public-book/fzf.umd.js:445-458 | the three cells the walk compares are the recursion's, read in bounds, and the tie flag is that of the walk function: the recursion's runs where a row was written, what the table held where none was |
| `FzfBacktrace.Backtrace` | public-book/fzf.umd.js:438-460 | the loop ends and collects exactly the positions of the walk function for what the unwritten cells hold, one for each pattern character, from the start to the best cell |
| `FzfV2.SizeGuard` | public-book/fzf.umd.js:337-337 | a pattern that passes the size guard has at most 320 characters, so no 16-bit cell overflows |
| `FzfV2.StartTables` | public-book/fzf.umd.js:393-405 | both tables start with the part of row 0 between the first and the last match |
| `FzfV2.FillTables` | public-book/fzf.umd.js:393-437 | the two tables are taken apart from every live window and hold all rows of the recursion; left of first occurrences the runs are what the slab held before the search |
| `FzfV2.MatchRows` | public-book/fzf.umd.js:393-461 | rows and backtrace together give the best score of the recursion, its place, and the positions of the walk for what the slab held |
| `FzfV2.FuzzyMatchV2` | public-book/fzf.umd.js:333-462 | within the size guard: found exactly when the pattern is a subsequence, with the maximum of the last row as score, the place where it is reached as end, and as start and positions those of the walk back for the cells the slab held before the call; beyond it: the answer of the two-pass matcher |
| `FzfStale.AnswerIsDetermined` | public-book/fzf.umd.js:333-462 | the answer is a function of the query, the direction and what the slab held |
| `FzfStale.AnswerForEverySlab` | public-book/fzf.umd.js:393-461 | with positions asked for, all slabs of a length lead to one answer exactly when the table of runs does not fit the slab or no tie is met right after an unwritten cell decided the flag |
| `FzfStale.StartDependsOnSlab` | public-book/fzf.umd.js:444-459 | for the pattern " bc" in the text "  bxc" two contents of the matcher's slab lead to the starts 0 and 1 |
| `FzfV1.AsciiFoldsAgree` | public-book/fzf.umd.js:500-503 | on ASCII text both matchers fold alike, so that they accept the same patterns |
| `FzfV1.ReversedSubsequence` | public-book/fzf.umd.js:255-257 | reading text and pattern backwards keeps the subsequence relation |
| `FzfV1.ScanForward` | public-book/fzf.umd.js:495-509 | the first match, and the earliest end at which the pattern is complete |
| `FzfV1.ScanBackward` | public-book/fzf.umd.js:510-522 | on the text it sees, the latest start from which the pattern still fits before that end, or the first match where nothing fits |
| `FzfGreedy.TightExactly` | public-book/fzf.umd.js:495-526 | the window of the two scans is the shortest one that ends at the earliest possible end exactly when the same ends of the scanned stretch hold the pattern with and without diacritics |
| `FzfGreedy.ScoreWindow` | public-book/fzf.umd.js:463-491 | the greedy pass takes each pattern character where the scan of the window takes it, and its score is that of the alignment it made plus the margins |
| `FzfGreedy.TightEitherWay` | public-book/fzf.umd.js:523-526 | the window, mapped back when the scan ran backwards, loses the pattern when either of its ends is dropped |
| `FzfGreedy.FindWindow` | public-book/fzf.umd.js:495-526 | both scans together: no window exactly when the pattern is no subsequence; otherwise the earliest end, and the latest start on the text as the backward scan reads it |
| `FzfGreedy.FuzzyMatchV1` | public-book/fzf.umd.js:492-531 | found exactly when the pattern is a subsequence of the folded text, with the window of the two scans and the score and positions of its greedy alignment |
| `FzfGreedy.GreedyAnswerIsUnique` | public-book/fzf.umd.js:492-531 | that answer is a function of the query and the options |
| `FzfGreedy.TightAnswerExactly` | public-book/fzf.umd.js:510-526 | the reported window is tight exactly when the diacritics that the backward scan forgets to strip make no difference to which ends of the scanned stretch hold the pattern |
| `FzfGreedy.TightIsFilled` | public-book/fzf.umd.js:527-528 | in a tight window the scored alignment places the whole pattern and touches both ends |
| `FzfGreedy.AsciiIsFilled` | public-book/fzf.umd.js:495-531 | on ASCII text the reported window is always tight: the scored alignment places the whole pattern, from one end of the window to the other |
| `FzfGreedy.AsciiIsShortest` | public-book/fzf.umd.js:495-526 | on ASCII text no occurrence of the pattern is complete before the reported one, seen in the direction of the scan, and none that is complete as soon is shorter |
| `FzfGreedy.AccentedIsNotTight` | public-book/fzf.umd.js:510-522 | for the pattern "ab" in the text of an a, an accented a and a b, the window is reported from 0 although the pattern fits from 1 |
| `BucketRequests.ExactIsSame` | packages/deployment-authority/src/authority-bucket-policy.js:59-71 | two lists that the audit takes for exactly equal hold the same values |
| `BucketRequests.DeletesDenied` | packages/deployment-authority/src/authority-bucket-policy.js:152-191 | under an accepted policy every delete of a protected object is denied, for every principal |
| `BucketRequests.RequiredConditions` | packages/deployment-authority/src/authority-bucket-policy.js:222-289 | what the three required conditions mean for the headers of a request, including that a negated operator holds for a missing header |
| `BucketRequests.ImmutablePutsCreate` | packages/deployment-authority/src/authority-bucket-policy.js:222-249 | a put on an immutable object that is not denied says `If-None-Match: *` |
| `BucketRequests.PointerPutsAreGuarded` | packages/deployment-authority/src/authority-bucket-policy.js:250-289 | a put on a pointer that is not denied says either `If-None-Match: *` or some `If-Match`, never both |
| `BucketRequests.OutsidersDenied` | packages/deployment-authority/src/authority-bucket-policy.js:295-323 | a put by a principal outside a restriction's configured ARNs is denied, for configurations without wildcards |
| `BucketAccepted.RetiredStaysClosed` | packages/deployment-authority/src/authority-bucket-policy.js:324-361 | under an accepted audit of a built specification a put on a retired object outside the current namespaces is denied, on the closed-namespace branch and on the enumerated one |
| `BucketRuns.ImmutableForever` | packages/deployment-authority/src/authority-bucket-policy.js:152-249 | in every run of requests that an accepted policy does not deny, an object under an immutable prefix never changes or disappears once it exists |
| `BucketRuns.PointerRuns` | packages/deployment-authority/src/authority-bucket-policy.js:250-289 | in every such run a pointer never disappears, is created only by `If-None-Match: *`, and is replaced only by a put with `If-Match`, which names the entity tag it replaces exactly when it is not `*` (sections 13.1.1 and 13.1.2 of RFC 9110) |
| `BucketAccepted.StarPutIsUndenied` | packages/deployment-authority/src/authority-bucket-policy.js:250-289 | the statements the release audit asks for do not deny a put with `If-Match: *` by the publisher of a pointer |
| `BucketAccepted.StarReplacesUnderAudit` | packages/deployment-authority/src/authority-bucket-policy.js:367-581 | under a document that the release audit accepts, such a put replaces whatever version the pointer has without naming it |
| `BucketRequired.RequiredIsAccepted` | packages/deployment-authority/src/authority-bucket-policy.js:152-366 | every well-posed specification is met by the policy made of the statements it asks for, so that accepted policies exist |
| `BucketBuilt.BuiltIsWellPosed` | packages/deployment-authority/src/authority-bucket-policy.js:392-513 | each specification built for a target whose names are apart has lists without repetition, restrictions on different objects, and publishers the audit can compare |
| `BucketAccepted.PolicyReadsBack` | packages/deployment-authority/src/authority-bucket-policy.js:367-386 | a policy document written from statements is read back as these statements |
| `BucketAccepted.BuiltIsAccepted` | packages/deployment-authority/src/authority-bucket-policy.js:527-564 | for every built specification there is a policy document that its audit accepts |
| `BucketDevelop.DevelopNamesApart` | packages/deployment-authority/deployment-targets.json:4-233 | the names of the development target are apart |
| `BucketDevelop.DevelopNamesPlain` | packages/deployment-authority/deployment-targets.json:4-233 | the release bucket and the pointer role of the development target are named without wildcards, as the result about the star put asks |
| `BucketInventory.BelowPrefix` | packages/deployment-authority/src/authority-bucket-policy.js:392-513 | a pattern below a prefix lies inside the pattern of everything under the prefix |
| `BucketInventory.BuiltProtectsItself` | packages/deployment-authority/src/authority-bucket-policy.js:392-513 | every built specification protects its own immutable objects and pointers from deletion |
| `BucketInventory.AuditedRuns` | packages/deployment-authority/src/authority-bucket-policy.js:367-581 | the guarantee of an accepted audit: for every built specification, over every run, immutable objects stay and pointers are guarded |
| `ProxyWalk.ReachesThroughChild` | packages/deployment-authority/src/descriptor-snapshot.js:23-34 | a proxy is reachable from a node exactly when it is from a child without coming back, which is why the walk may skip nodes on its stack |
| `ProxyWalk.CachedReach` | packages/deployment-authority/src/descriptor-snapshot.js:4-6 | everything reachable from a cached node is cached, frozen and no proxy |
| `ProxyWalk.ImmutableByChildren` | packages/deployment-authority/src/descriptor-snapshot.js:23-35 | an object is an immutable tree exactly when it is frozen, has data properties only, and all of its children are immutable trees |
| `ProxyWalk.CycleIsMutable` | packages/deployment-authority/src/descriptor-snapshot.js:20-21 | a value met on the stack is no immutable tree, so that answering "mutable" for it is exact |
| `ProxyWalk.EvolutionKeepsCache` | packages/deployment-authority/src/descriptor-snapshot.js:4-6 | program steps that leave frozen objects alone never invalidate the cache |
| `ProxyWalk.Inspector.Walk` | packages/deployment-authority/src/descriptor-snapshot.js:16-40 | on any shared or cyclic graph the walk ends and throws exactly when a proxy is reachable without passing the stack; otherwise it reports immutable exactly of immutable trees, and has cached those |
| `ProxyWalk.Inspector.WalkProperties` | packages/deployment-authority/src/descriptor-snapshot.js:23-35 | every data property is walked, accessors spoil immutability; the node is cached exactly on an immutable outcome, and the outcome is immutable exactly when the whole tree below the node is |
| `ProxyWalk.Inspector.RejectProxyTree` | packages/deployment-authority/src/descriptor-snapshot.js:16-40 | a call from outside throws exactly when a proxy is reachable, reports and caches exactly immutable trees, whatever earlier calls have cached |
| `ProxyWalk.Session` | packages/deployment-authority/src/descriptor-snapshot.js:4-40 | over any sequence of calls and mutations, the cached walk throws and reports immutability as an uncached one would |
| `InspectionBudget.UnfoldingIsUnique` | packages/deployment-authority/src/app-execution-authority.js:55-66 | a value has at most one finite unfolding |
| `InspectionBudget.CycleNeverUnfolds` | packages/deployment-authority/src/app-execution-authority.js:59-59 | a value that is its own descendant has no finite unfolding, so rejecting cycles rejects nothing else |
| `InspectionBudget.ChildExceeds` | packages/deployment-authority/src/app-execution-authority.js:205-211 | when the next child does not fit what is left of the budget, neither does the whole value |
| `InspectionBudget.Inspection.RejectProxies` | packages/deployment-authority/src/app-execution-authority.js:55-66 | accepts exactly the values with a proxy-free finite unfolding of at most 100,000 values, 64 MiB and depth 64 in what is left of the budget, and charges exactly that unfolding |
| `InspectionBudget.Inspection.InspectChildren` | packages/deployment-authority/src/app-execution-authority.js:213-238 | the same for an object after its keys are bounded: every key name and every data property is charged |
| `InspectionBudget.Inspect` | packages/deployment-authority/src/app-execution-authority.js:55-66 | the same from outside, with the whole budget |
| `SnapshotTree.DataIsUnique` | packages/deployment-authority/src/descriptor-snapshot.js:177-187 | the captured tree is determined by the value |
| `SnapshotTree.CycleIsNoData` | packages/deployment-authority/src/descriptor-snapshot.js:302-305 | a cyclic value is no finite data |
| `SnapshotCopy.HoldsStays` | packages/deployment-authority/src/descriptor-snapshot.js:177-188 | a copy is not disturbed by anything written at other addresses |
| `SnapshotCopy.HoldsIsSealed` | packages/deployment-authority/src/descriptor-snapshot.js:79-95 | a copy is a run of new objects that refer only to each other, each frozen unless it is a byte array |
| `SnapshotCapture.Capture.SnapshotData` | packages/deployment-authority/src/descriptor-snapshot.js:177-188 | succeeds exactly on finite plain data and returns a frozen copy of it made of new objects; it reaches a proxy only where no proxy-free finite unfolding exists |
| `SnapshotCapture.Capture.SnapshotElements` | packages/deployment-authority/src/descriptor-snapshot.js:309-315 | the elements of a dense array are captured in order into a new list, which is frozen when it is complete, exactly when all are plain data |
| `SnapshotCapture.Capture.FreezeRecord` | packages/deployment-authority/src/descriptor-snapshot.js:157-170 | the fields of a record are captured in order into a new record, which is frozen when it is complete, exactly when all are plain data |
| `SnapshotCapture.SnapshotDataTree` | packages/deployment-authority/src/descriptor-snapshot.js:93-95 | from outside: a detached copy, frozen except for its byte arrays, exactly of finite plain data |
| `SnapshotCapture.InspectAndCapture` | packages/deployment-authority/src/app-execution-authority.js:69-71 | after the inspection accepted, the capture reaches no proxy; it returns a detached copy exactly when the value is within the budget and plain data |
| `SnapshotBudget.DataIsBounded` | packages/deployment-authority/src/app-execution-authority.js:69-71 | captured data has no more values than the inspected unfolding, and is no deeper |
| `SnapshotBudget.InspectedIsBounded` | packages/deployment-authority/src/app-execution-authority.js:38-41 | what passes inspection and capture has at most 100,000 values, bytes counted singly, and bounded depth |
| `DispatchMachine.SettledStays` | infra/lambdas/proof-dispatcher/handler.ts:145-150 | once a message's execution exists or its finalization no longer waits, nothing that anyone does makes it wait again |
| `DispatchMachine.PassedIsSettled` | infra/lambdas/proof-dispatcher/handler.ts:253-313 | an invocation moves past a message only when that message is settled |
| `DispatchMachine.InvAlways` | infra/lambdas/proof-dispatcher/handler.ts:253-362 | the invariant of records, messages, executions and invocations holds after every interleaving |
| `DispatchMachine.NoLostWork` | infra/lambdas/proof-dispatcher/handler.ts:145-313 | in every reachable state a finalization that is current, pending and enqueued has an unacknowledged message or a started execution |
| `DispatchMachine.OneExecutionEach` | infra/lambdas/proof-dispatcher/handler.ts:278-313 | no finalization id ever gets two executions, and each execution runs on an input that was sent for it |
| `DispatchMachine.OnlySettledBatchesAreDeleted` | infra/lambdas/proof-dispatcher/handler.ts:360-364 | a batch is acknowledged only when each of its messages parsed and is settled; one unreadable body keeps all of it |
| `ProofDispatcher.World.AcknowledgeExistingExecution` | infra/lambdas/proof-dispatcher/handler.ts:172-224 | re-read and describe, with anyone's steps in between: acknowledged only past a message, otherwise the invocation fails |
| `ProofDispatcher.World.DispatchProverRecord` | infra/lambdas/proof-dispatcher/handler.ts:253-313 | one record moves on or fails the invocation, also where a request took effect and its answer was lost, and all of it is a run of the system |
| `ProofDispatcher.World.Handle` | infra/lambdas/proof-dispatcher/handler.ts:315-365 | the handler together with everyone else is a run; it returns only when every message of the batch is settled, and only then is any of them deleted |
| `MutationOwner.BodiesAreDistinct` | packages/deployment-authority/src/mutation-owner.js:44-59 | no owner body is ever written twice, since the plan in it names the version it replaces |
| `MutationOwner.TagNamesVersion` | packages/deployment-authority/src/mutation-owner.js:34-42 | comparing entity tags is enough: the object met by the conditional write is the version that was read |
| `MutationOwner.HistoryIsChain` | packages/deployment-authority/src/mutation-owner.js:44-59 | in every run the owner history is a chain in which each owner's plan had fixed the exact version it replaced |
| `MutationOwner.WriteTakesOver` | packages/deployment-authority/src/mutation-owner.js:44-69 | a write takes over exactly when nothing was written since its plan's observation, and then its plan passes |
| `MutationOwner.AtMostOnePasses` | packages/deployment-authority/src/mutation-owner.js:61-69 | two plans that pass the continuation check in one state are the same plan |
| `MutationOwner.PassingIsAnInterval` | packages/deployment-authority/src/mutation-owner.js:61-69 | the times at which a plan passes are contiguous: an owner that was replaced never comes back |
| `Timestamps.CanonicalIsMoment` | packages/deployment-authority/src/app-deployment-status.js:111-121 | a text is a canonical timestamp exactly when it has the pattern and names a day and a time that exist |
| `Timestamps.StringOrderIsTimeOrder` | packages/deployment-authority/src/app-deployment-status.js:111-121 | string order on canonical timestamps is time order (section 5.1 of RFC 3339) |
| `Timestamps.PrintedIsCanonical` | packages/deployment-authority/src/app-deployment-status.js:111-130 | what `toISOString` prints of a moment before year 10000 is canonical and names that moment |
| `Timestamps.StaleAfterThirtyDays` | packages/deployment-authority/src/app-deployment-status.js:124-130 | the expiry is the canonical timestamp thirty days later, and fails exactly past year 9999 |
| `AppStatus.SourceIsCommit` | packages/deployment-authority/src/app-deployment-status.js:141-157 | the commit link and the short digest fit together exactly when the source is a full commit id |
| `AppStatus.ProjectionSucceeds` | packages/deployment-authority/src/app-deployment-status.js:180-256 | exactly which checkpoints can be projected |
| `AppStatus.ProjectionTimes` | packages/deployment-authority/src/app-deployment-status.js:232-256 | a projection carries the checkpoint's acceptance time and expires thirty days later |
| `StatusPublication.InvAlways` | packages/deployment-authority/src/app-deployment-status-publication.js:33-61 | the invariant of statuses and publishers holds after every interleaving |
| `StatusPublication.AcceptancesIncrease` | packages/deployment-authority/src/app-deployment-status-publication.js:19-25 | acceptance times of successive statuses increase as strings |
| `StatusPublication.StatusAdvances` | packages/deployment-authority/src/app-deployment-status-publication.js:33-61 | in every run successive statuses have strictly increasing acceptance times, each the projection of the checkpoint that was current at its publisher's second read |
| `StatusPublication.StatusNeverFallsBack` | packages/deployment-authority/src/app-deployment-status-publication.js:15-25 | where checkpoints are accepted in order, the status never falls back to an earlier checkpoint |
| `StatusPublisher.Store.ReadCheckpointFor` | packages/deployment-authority/src/app-deployment-status-publication.js:32-42 | the delivery goes on only with the projection of the current checkpoint, and is superseded exactly when that one is of another execution or source |
| `StatusPublisher.Store.Compare` | packages/deployment-authority/src/app-deployment-status-publication.js:47-50 | the status read must be older or the same, and the checkpoint read again must be the one observed |
| `StatusPublisher.Store.PublishCurrentAppDeploymentStatus` | packages/deployment-authority/src/app-deployment-status-publication.js:31-61 | one delivery among everyone's steps is a run, whichever request throws and also where the answer to the write was lost; a status that it writes, or finds written, is the projection of a checkpoint of its own execution and source; it writes only a later acceptance than the one it replaces, and an equal body is not written |
| `VerificationWorker.Store.CompleteVerificationResult` | packages/aws-adapters/src/store/session-command-store.ts:74-80 | each attempt is recorded with its key, its completion and whether it threw; one that does not throw needs a finalization that succeeded, retains a terminal result, and otherwise leaves the one it was given |
| `VerificationWorker.Store.RetainOrComplete` | packages/aws-adapters/src/store/session-command-store.ts:74-80 | exactly when the conditional write throws, retains or stores, and what the store then holds |
| `VerificationWorker.PrintedCountReadsBack` | infra/lambdas/verification-worker/handler.ts:424-431 | a receive count that was printed in decimals is read back |
| `VerificationWorker.ResolveDisposition` | infra/lambdas/verification-worker/handler.ts:447-464 | work is skipped only when it is settled, and only work that was not terminal is processed |
| `VerificationWorker.ProcessFresh` | infra/lambdas/verification-worker/handler.ts:514-549 | work that returns leaves its key settled; the verifier runs at most once, for this key only and never when the key was terminal, and nothing but the answer of that run is offered to the store |
| `VerificationWorker.WorkOn` | infra/lambdas/verification-worker/handler.ts:514-573 | a record whose key was seen does nothing; the failure of exhausted retries is offered to the store exactly after a failed third delivery, as its last attempt, and the key is then terminal unless that attempt threw |
| `VerificationWorker.CoveredStays` | infra/lambdas/verification-worker/handler.ts:575-611 | a key stays settled or returned as later records are handled |
| `VerificationWorker.RecordAdvances` | infra/lambdas/verification-worker/handler.ts:580-610 | one more record keeps what is known of all earlier ones |
| `VerificationWorker.HandleSqsEvent` | infra/lambdas/verification-worker/handler.ts:575-611 | after every answered batch each key issued before the batch is settled or one of its records is returned (or bore no message id), and its third delivery ends terminal unless the recorded attempt to complete it threw; unreadable bodies are returned and nothing outside the batch is; over the batch the verifier ran at most once for each key and never for one that was terminal |
| `FinalizationLifecycle.AdmissionsAreStarts` | infra/lambdas/finalization-writer/handler.ts:391-425 | every admission in force comes from a RUNNING update of the same session, finalization and queue time that was applied at that point of the run |
| `FinalizationLifecycle.SuccessNeedsAdmission` | infra/lambdas/finalization-writer/handler.ts:391-425 | in every run a finalization that succeeded, current or superseded, had an earlier start with the same identity and queue time that was applied, and carries the start time admitted then |
| `FinalizationLifecycle.SuccessIsKept` | packages/application/src/finalize/finalization-transition-policy.ts:479-516 | a committed success is never changed by any transition or commit, not even once nothing points to it; it can only expire |
| `FinalizationEvents.ProjectKeeps` | infra/lambdas/finalization-writer/handler.ts:164-189 | the projection keeps every field an update of the status may have, and no other |
| `FinalizationEvents.DirectPayload.NormalizeFailedEventError` | infra/lambdas/finalization-writer/handler.ts:191-215 | an error is replaced by its code, a message and, for a failed prover task only, possibly a category, and an error without a code is dropped; only that task's marker can make it throw |
| `FinalizationEvents.DirectPayload.RestoreSucceededEventBundle` | infra/lambdas/finalization-writer/handler.ts:217-288 | for every answer of the bundle store: a refused key throws, a missing one or a definitively broken bundle becomes a failure with its own code at the completion time, a transiently unavailable bundle throws for redelivery and is no update, and a restored one is carried on with its result, key and upload time |
| `FinalizationEvents.NormalizeDirectEvent` | infra/lambdas/finalization-writer/handler.ts:352-389 | a direct event becomes an update of its own status, with only that status's fields and the time that the event, its ISO text, the prover or the payload gives in that order, or a success becomes what its bundle decides; it throws for redelivery exactly when a success without a result has a bundle that cannot be had now; anything else is passed on |
| `FinalizationWriter.Parse` | packages/aws-adapters/src/finalize/finalizationStateUpdateAdmission.ts:193-214 | what parses is an admitted command of the same identity and queue time with its times in order |
| `FinalizationWriter.StartedAtIsBound` | infra/lambdas/finalization-writer/handler.ts:409-425 | a bound success parses to the bound start time, whatever the event said |
| `FinalizationWriter.Store.BindAdmittedStartedAt` | infra/lambdas/finalization-writer/handler.ts:391-425 | a success goes on only with a start time that the store holds for the same identity and queue time, be it the current finalization or a superseded one |
| `FinalizationWriter.Store.ApplySucceeded` | packages/application/src/finalize/finalization-state-update.ts:164-218 | a success that is answered ends in a commit of exactly its session, identity and times that the store does not refuse, or in the failure of a result without a canonical journal |
| `FinalizationWriter.ParsedIsForEvent` | infra/lambdas/finalization-writer/handler.ts:450-532 | what the normalized event parses to is an update for that event: its identity, its queue time, and the start, completion or failure time the event gives, a success only where its result is there or was restored |
| `FinalizationWriter.Store.HandleDirectCallback` | infra/lambdas/finalization-writer/handler.ts:427-532 | one callback among everyone's steps is a run; it asks for redelivery exactly when a success needs a bundle that cannot be had now, and then leaves no step; a refused key or a missing completion time fails; an applied update has the event's identity, queue time and times, and its step is the transition it asks for or, for a success, the commit of just that session, identity and times |
| `Utf8.EncodeIsInjective` | packages/deployment-authority/src/static-frontend-manifest.js:104-104 | well-formed paths with the same UTF-8 bytes are the same |
| `Utf8.EncodedLength` | packages/deployment-authority/src/app-execution-authority.js:205-208 | counting UTF-8 bytes agrees with encoding |
| `StaticManifest.BigEndianIsInjective` | packages/deployment-authority/src/static-frontend-manifest.js:12-16 | a length frame determines its number |
| `StaticManifest.AdmitFileReadMaximum` | packages/deployment-authority/src/static-frontend-manifest.js:60-68 | a file may be read up to a bound that covers what was observed and keeps both limits |
| `StaticManifest.DistinctSortAscends` | packages/deployment-authority/src/static-frontend-manifest.js:95-98 | distinct paths sort into strictly ascending order |
| `StaticManifest.AscendingIsUnique` | packages/deployment-authority/src/static-frontend-manifest.js:95-95 | an ascending list is determined by its entries |
| `StaticManifest.HasDuplicatePaths` | packages/deployment-authority/src/static-frontend-manifest.js:96-98 | reports exactly the lists with a path twice |
| `StaticManifest.SortKeepsTotal` | packages/deployment-authority/src/static-frontend-manifest.js:99-110 | the total does not depend on the order of the entries |
| `StaticManifest.HashEntries` | packages/deployment-authority/src/static-frontend-manifest.js:99-110 | the loop streams the frames in order, and its running total never passes the bound |
| `StaticManifest.DeriveDigestEntryIdentity` | packages/deployment-authority/src/static-frontend-manifest.js:73-112 | succeeds exactly on accepted lists, with their number, stream and sum of sizes |
| `StaticManifest.FrameIsPrefixFree` | packages/deployment-authority/src/static-frontend-manifest.js:103-108 | one frame can be read off the front of a stream in one way only, up to what UTF-8 does not tell apart |
| `StaticManifest.StreamTellsEntries` | packages/deployment-authority/src/static-frontend-manifest.js:73-112 | for all accepted lists: the streams are equal exactly when the lists, sorted by path, agree entry by entry on size, digest and on the path with lone surrogates replaced |
| `StaticManifest.StreamDeterminesEntries` | packages/deployment-authority/src/static-frontend-manifest.js:73-112 | two accepted lists with well-formed paths give the same stream exactly when they are permutations of each other |
| `StaticManifest.LoneSurrogatesCollide` | packages/deployment-authority/src/static-frontend-manifest.js:24-39 | without well-formed paths this fails: two different paths of one lone surrogate each give the same stream |
| `Csv.Parser.ConsumeQuotedCharacter` | scripts/docs/check-license-metadata-freshness.ts:324-336 | a quoted character, or a doubled quote, keeps what the rest of the text parses to |
| `Csv.Parser.Run` | scripts/docs/check-license-metadata-freshness.ts:361-383 | the state machine computes the parse of the text or its error |
| `Csv.ParsePrinted` | scripts/docs/check-license-metadata-freshness.ts:307-383 | every table reads back from its printed lines, whatever its fields hold and however they are quoted and ended (section 2 of RFC 4180) |
| `Csv.ParseUnterminated` | scripts/docs/check-license-metadata-freshness.ts:377-382 | a last line without an ending reads back exactly when it is not a single empty field, which is lost |
| `LicenseRecords.SplitOfJoined` | scripts/docs/check-license-metadata-freshness.ts:752-752 | splitting undoes joining when no part holds the separator |
| `LicenseRecords.PnpmCsvRecords` | scripts/docs/check-license-metadata-freshness.ts:745-760 | the loop over rows and versions collects exactly the records of the table, or fails on the first empty cell |
| `LicenseRecords.PrintedRecordsReadBack` | scripts/docs/check-license-metadata-freshness.ts:737-760 | metadata printed as CSV reads back as the records of its JSON form |
| `LicenseRecords.ComparePnpmCsv` | scripts/docs/check-license-metadata-freshness.ts:762-780 | nothing is reported exactly when both record sets are equal |
| `Calendar.DayNumberIncreases` | scripts/showcase/public-weekly-monitor.ts:390-397 | day numbers follow the calendar |
| `Calendar.DateIsUnique` | scripts/showcase/public-weekly-monitor.ts:390-397 | dates and day numbers correspond one to one |
| `IsoWeek.ThursdayDecides` | scripts/showcase/public-weekly-monitor.ts:393-396 | the Thursday of a week lies in the year its week is numbered in, and counting from that year's start gives the week |
| `IsoWeek.FormatIsoWeek` | scripts/showcase/public-weekly-monitor.ts:390-397 | the label is the ISO week date exactly for the days outside of the years 0 to 99 and the first three days of year 100 |
| `IsoWeek.WeekIsUnique` | scripts/showcase/public-weekly-monitor.ts:390-397 | a day belongs to one week of one year only, so that a right label is the only one |
| `IsoWeek.SameLabelSameMonday` | scripts/showcase/public-weekly-monitor.ts:390-397 | two days share a label exactly when they share a Monday, and labels are ordered as Mondays are |
| `IsoWeek.WeeksAreNumbered` | scripts/showcase/public-weekly-monitor.ts:396-397 | weeks run from 1 to 52 or 53 without a hole across year ends, and 4 January is in week 1 |
| `IsoWeek.TextIsInjective` | scripts/showcase/public-weekly-monitor.ts:397-397 | different labels print differently |
| `IsoWeek.FourDigitYears` | scripts/showcase/public-weekly-monitor.ts:397-397 | the text has eight characters and starts with a digit exactly for the years 1000 to 9999 |
| `AffectedPackages.AddDependents` | tooling/workspace/workspace-metadata.ts:305-314 | a pass adds only affected packages, and adds none only when the set is closed |
| `AffectedPackages.FixpointIsAffected` | tooling/workspace/workspace-metadata.ts:303-315 | at the fixpoint the set is exactly that of the affected packages |
| `AffectedPackages.SelectAffectedWorkspacePackages` | tooling/workspace/workspace-metadata.ts:289-319 | exactly the packages from which a changed one is reachable by dependencies; unknown names fail |
| `BrowserBoundary.TargetsAreFollowed` | scripts/frontend/check-browser-import-boundary.ts:305-331 | a file is pending after a visit exactly when some followed import of the visited file resolves to it |
| `BrowserBoundary.FindingsAreFaults` | scripts/frontend/check-browser-import-boundary.ts:305-331 | a reason is reported of a file exactly when one of its imports has that fault |
| `BrowserBoundary.FrontierAdvances` | scripts/frontend/check-browser-import-boundary.ts:341-359 | visiting a file keeps the worklist exactly between what is visited and what is reachable |
| `BrowserBoundary.CheckBrowserImportBoundary` | scripts/frontend/check-browser-import-boundary.ts:333-362 | exactly the files reachable by followed imports are visited, each once, and the findings are exactly the faults of these files |

## Left out

- FuzzyMatchV2: the folded text is read from the query instead of its copy in the slab where the two are equal.
- FuzzyMatchV2: characters above ASCII are folded and classified by tables that are parameters of a query; Unicode case folding and normalization are not modelled.
- OutsidersDenied: the administrator pattern with `?` placeholders is outside the statement, as are other wildcards in configured ARNs.
- OutsidersDenied: a condition is required to have records as values of all its operators, where the source stops at the first operator that decides; everything the source accepts is accepted here.
- BuiltIsAccepted: that the names of the production target are apart is not stated.
- AuditedRuns: bucket lifecycle, versioning administration and replication are not requests of the model.
- SnapshotCapture.Capture.SnapshotData: where a proxy is met without the inspection before it, the capture ends with an outcome of its own, since what the proxy's traps do is not modelled; `SnapshotCapture.InspectAndCapture` shows that the authority never gets there. The final check of the captured record's keys is left out.
- ProxyWalk.Inspector.Walk: functions are leaves of this walk, callable proxies among them, as in the source.
- DispatchMachine.NoLostWork: messages do not expire and a dead-letter queue counts as the queue; a finalization id is not stored again after its session was removed; execution names are not reused after the engine's retention.
- MutationOwner.HistoryIsChain: the sizes, patterns and canonical form that `parseMutationOwner` checks are not modelled, nor the rest of a plan package.
- StatusPublication.StatusAdvances: the byte bound of a status body and the native build observations that admit a publisher are not modelled.
- VerificationWorker.HandleSqsEvent: that a key is settled or returned, and that its third delivery ends terminal, is said of keys that were issued before the batch; a key that no finalization had yet can be skipped as superseded and is neither. A session does not expire while its work is under way; invocations with a direct payload are left out.
- FinalizationLifecycle.SuccessNeedsAdmission: successes that do not come through the writer (direct success of a local store), scenario contexts and the evidence attached to a commit are not modelled; an item or a pointer that expired counts as deleted at once; a start for an unknown finalization is always invalid, since the writer sends no context.
- FinalizationEvents.NormalizeDirectEvent: texts are opaque tokens; which instant a text names, which bundle key belongs to a session and finalization, and what fetching it comes to are parameters. The wording of error messages is not modelled.
- FinalizationWriter.Parse: the table of error codes and the admission of a proof result are not modelled; an error and a result only have to be there.
- SelectAffectedWorkspacePackages: the final order of the result by name is not modelled.
- CheckBrowserImportBoundary: reading, parsing and resolving imports are given as data for each file.
- IsoWeek.FormatIsoWeek: the range of a JavaScript date, some 270,000 years to either side, is not modelled.
- Terraform drift, release ledger, catalog and contract admission records: long lists of independent checks, each a single branch.
- The zkVM guest, the Merkle code and the stores' persistence are not part of this model.
- The heuristic linters over source text have no crisp specification.
- The algebra of `verifier-service/src/lib.rs` closes by a short case analysis.
