# Verified model of the quantagent harness

A Dafny model of the state machines, protocols and text algorithms at the core of the `quantagent` agent harness, with proofs of
what they keep over whole runs. Check it with `dafny verify dfyconfig.toml`.

Each component has a module of value-level functions that say what one operation does. Where the program changes things step by
step there is a method or a class beside them, with the program's loops and branches, whose postcondition equates the new state
and the answer with those functions. The theorems are about these functions, for all inputs or over all runs.

| Files | Component |
|---|---|
| `Supervisor*.dfy` | the sub-agent supervisor: launching along dependencies, repair nodes, verdicts |
| `AsyncLock.dfy` | the promise-chain lock (JavaScript kept as text in `agent_planner.py`) |
| `RateLimiter*.dfy` | the fixed-window rate limiter |
| `Yamlish*.dfy` | the indentation parser for front matter |
| `JsonPointer.dfy`, `BalancedJson.dfy`, `JsFunction*.dfy`, `LineSpli*.dfy` | text algorithms of the planner |
| `Gateway*.dfy` | pairing codes and channel bindings |
| `CodingBench*.dfy` | the benchmark runner with its tamper and scope checks |
| `AgentLoop*.dfy`, `AgentPlans.dfy` | the agent loop, its trajectory and its verdict, and the plans it builds |
| `FileTree.dfy` | files and directories, with the operations that fail on a mix-up of the two |
| `Checkpoint*.dfy`, `Isolation.dfy`, `ApplyGate*.dfy` | checkpoints, applying a review, and the gated apply with rollback |
| `ContextPack.dfy` | greedy packing under a character budget |
| `Text.dfy`, `Literals.dfy`, `Sequences.dfy`, `Numbers.dfy`, `Wrappers.dfy` | shared strings, string literals, sequences, bounds and option types |

## What turned out false, and what holds instead

- The supervisor can deadlock. `LOST` is never handled, and neither is `QUEUED`: a run is stalled exactly when nothing runs,
  nothing has failed for good and some original node has one of these statuses (`StalledIff`, `LostStalls`). It stays stalled
  for good exactly when no node is queued (`StalledForGoodIff`).
- A FAILED verdict is not always final: over all later refreshes it is exactly when nothing is queued and no failed node still
  lacks its repair (`FailedIsFinalIff`, `FailedLaunchIsReopened`).
- Eviction breaks the limiter's sliding bound: over all runs of a set of client keys it holds exactly when there are at most
  `max_entries` of them (`BoundHoldsIff`). Without eviction the bound is exact (`SlidingBoundIsSharp`).
- A pairing code is one-time except after a success at time 0, because a stored 0 reads as "not used" (`ReusableIff`). Issuing a
  code again never revives it: the first issue decides for good (`ReissueChangesNothing`).
- A test file of a benchmark task on an ignored path is not protected against the test command itself: over all agents and test
  commands the fixture text is sure in a solved run exactly for the guarded files on other paths (`ProtectedIff`, `MayChangeIff`).
- The agent loop can say ok although a required step failed, when an earlier step of the same name is not required. The verdict is
  sound for exactly the plans without such a pair (`VerdictSoundIff`); the plans that the loop builds itself have none
  (`BuiltPlansAreSound`).
- A PASSED verdict is final exactly when no node is queued, which only a node that is not required can be (`PassedIsFinalIff`).
- Restoring a checkpoint can stop half-way: it completes if and only if no listed path has become a directory and none that was a
  file lies below a file now (`RestoreAfterAnything`, `RestoreStopsAt`). Even when it completes it does not keep Windows line ends,
  since snapshots are read as text: a listed path comes back exactly as it was if and only if it held no file with a carriage return
  (`RestoredExactlyIff`, `LineEndsAreLost`, `RollbackRestoresIff`).
- Applying a review can stop half-way and is then not rolled back. It completes exactly when the workspace holds a file for every
  changed and new path and no file of the project stands above the place of one; otherwise the copies before the first such path
  stay (`ApplyMeans`, `StoppedApplyStays`, `LostSecondFile`). A file that became a directory is such a case, as deletions come after
  copies (`FileBecomesDirectory`, `DirectoryForFile`).
- A test command that takes too long or cannot be started ends a gated apply with an error and no rollback, even if one was asked for
  (`RaisedTestStays`, `SlowTest`). A failing gated apply is rolled back exactly when that was asked for, the test command ended by
  itself or was blocked, and every listed path can be put back (`RolledBackIff`).
- The context text can exceed its character budget: joining newlines are not counted. The exact excess grows with the number of
  items, and with headers of up to 193 characters the budget is sure for at most 7 (`PackBound`, `BudgetHoldsIff`).

## Model

| member | source | states |
|---|---|---|
| Supervisor.LaunchReadyNodes | quantagent/agent_supervisor.py:404-444 | the launch loop: extends the launches as the specification says, a launch made in the loop being seen by the nodes after it |
| Supervisor.RefreshSupervisor | quantagent/agent_supervisor.py:259-322 | one refresh: statuses copied, one repair appended for each failed required node, ready nodes launched, the table and the verdict computed |
| SupervisorRuns.AddRepairsKeepsShape | quantagent/agent_supervisor.py:267-285 | repairs keep node names distinct, are only made for required failed originals, and never for repairs |
| SupervisorRuns.LaunchLoop | quantagent/agent_supervisor.py:404-444 | the loop only appends, launches a node at most once and only with all dependencies passed, and leaves no launchable node behind |
| SupervisorRuns.RawStable | quantagent/agent_supervisor.py:568-581 | a decided status is read the same by every later refresh |
| SupervisorRuns.EffectiveOkStable | quantagent/agent_supervisor.py:553-565 | a node that has passed, itself or through its repair, has passed for good |
| SupervisorRuns.PlannedRunStarts | quantagent/agent_supervisor.py:205-238 | the first refresh of a run that was only planned is its first launch, so that all theorems over runs cover it |
| SupervisorRuns.InvOverRuns | quantagent/agent_supervisor.py:193-322 | the invariant of plan and launches holds in every reachable state |
| SupervisorTheorems.SafetyOverRuns | quantagent/agent_supervisor.py:259-285 | over all runs: no node launched twice, dependencies of launched nodes passed, one repair per node, repairs never repaired, plan and launches within twice the original plan |
| SupervisorTheorems.RefreshOnlyAppends | quantagent/agent_supervisor.py:267-296 | a refresh only appends to plan and launches, and takes back no decided status and no passed dependency |
| SupervisorTheorems.StalledIff | quantagent/agent_supervisor.py:492-514 | deadlock freedom, exactly: for required nodes with acyclic dependencies a run is neither running nor terminal if and only if nothing runs or failed for good and some node is LOST or QUEUED (or the plan is empty) |
| SupervisorTheorems.StalledForGoodIff | quantagent/agent_supervisor.py:259-322 | a stalled run stays stalled over all later refreshes exactly when no node is queued |
| SupervisorTable.LaunchedIffDependenciesDone | quantagent/agent_supervisor.py:404-444 | in every reachable state a node is launched exactly when each of its dependencies has passed on record, itself or through a repair |
| SupervisorTable.BrokenIsRepaired | quantagent/agent_supervisor.py:267-285 | a refresh leaves a repair, under its own name and the same dependencies, for every required original node whose record it reads as failed, aborted or blocked or whose start raised |
| SupervisorTable.TableOverRuns | quantagent/agent_supervisor.py:517-534 | in every reachable state the table has just the nodes of the plan: one not launched waits, one whose repair passed is repaired, and any other shows the status on record of its sub-agent, running if there is no record yet, launch_failed if its start raised |
| SupervisorTable.VerdictOverRuns | quantagent/agent_supervisor.py:492-514 | in every reachable state the verdict, read off launches and records: running while something is in progress, then passed if all required nodes are done, then failed if a required one is broken and not repaired, else running |
| SupervisorTheorems.QuietIsFixpoint | quantagent/agent_supervisor.py:259-322 | with nothing in progress and nothing to repair, later refreshes launch nothing, repair nothing and repeat the verdict |
| SupervisorTheorems.PassedIsFinalIff | quantagent/agent_supervisor.py:492-514 | a PASSED verdict is kept by all later refreshes exactly when no node is queued |
| SupervisorTheorems.PassedIsFinal | quantagent/agent_supervisor.py:492-514 | in a plan of required nodes PASSED is always kept, and a refresh then only reads statuses again |
| SupervisorTheorems.FailedIsFinalIff | quantagent/agent_supervisor.py:492-514 | a FAILED verdict is kept by all later refreshes exactly when nothing is queued and no failed node is still without its repair |
| SupervisorTheorems.QueuedMayRun | quantagent/agent_supervisor.py:447-467 | a queued node may run at the next refresh, which then has no final verdict |
| SupervisorTheorems.RepairMayStart | quantagent/agent_supervisor.py:267-296 | a refresh adds and launches a missing repair, and if its start succeeds the verdict is open again |
| SupervisorTheorems.BuiltPlanIsSound | quantagent/agent_supervisor.py:97-190 | every plan the supervisor builds is acyclic, closed and made of required nodes, as the other theorems ask |
| SupervisorTheorems.BuiltPlanRuns | quantagent/agent_supervisor.py:97-190 | its runs make at most eight launches and stall only on a LOST or QUEUED node |
| SupervisorExamples.LostStalls | quantagent/agent_supervisor.py:492-514 | one LOST sub-agent can stall a run |
| SupervisorExamples.FailedLaunchIsReopened | quantagent/agent_supervisor.py:267-296 | a failed launch gives a FAILED verdict that later refreshes repair into PASSED |
| AsyncLock.Lock.WithLock | quantagent/agent_planner.py:1451-1456 | a call takes the promise before it and puts its own in front of the next |
| AsyncLock.Lock.PassAwait | quantagent/agent_planner.py:1457-1459 | a caller enters when the promise before it is resolved |
| AsyncLock.Lock.Finally | quantagent/agent_planner.py:1460-1462 | leaving, by return or throw, resolves the caller's own promise |
| AsyncLock.MutualExclusion | quantagent/agent_planner.py:1448-1465 | in every reachable state at most one caller is inside |
| AsyncLock.AdmittedInCallOrder | quantagent/agent_planner.py:1448-1465 | callers enter in the order of their calls |
| AsyncLock.StepTowards | quantagent/agent_planner.py:1448-1465 | while a caller waits, a new call costs it nothing and every other step brings it exactly one nearer |
| AsyncLock.AdmittedAfterExactly | quantagent/agent_planner.py:1448-1465 | a waiting caller has entered after an exact number of steps, whether earlier functions return or throw |
| AsyncLock.LineMoves | quantagent/agent_planner.py:1448-1465 | as long as somebody waits, the first caller that has not left can take its next step |
| AsyncLock.AdmittedOverRuns | quantagent/agent_planner.py:1448-1465 | in every reachable state, a caller that joins a line of n gets in after at most 2n + 1 steps |
| RateLimiter.RateLimiter.ConsumeAt | quantagent/control_plane_policy.py:70-100 | one request on the bucket dictionary: decision and new table |
| RateLimiter.RateLimiter.InsertBucket | quantagent/control_plane_policy.py:120-125 | a new key evicts the oldest entry of a full table |
| RateLimiter.RateLimiter.PruneStale | quantagent/control_plane_policy.py:102-111 | deletes exactly the stale buckets, in order, and counts them |
| RateLimiter.RateLimiter.Reset | quantagent/control_plane_policy.py:113-115 | empties the table |
| RateLimiterRuns.TableStaysSmall | quantagent/control_plane_policy.py:120-125 | over any run the table has at most max_entries buckets |
| RateLimiterRuns.AllowedWithinPotential | quantagent/control_plane_policy.py:70-100 | the requests still allowed in an interval are bounded by what the bucket has left of it |
| RateLimiterRuns.SlidingBound | quantagent/control_plane_policy.py:70-100 | with a non-decreasing clock and no eviction or reset, at most 2 * max_requests - 1 requests in any half-open interval of one window's length, and max_requests if that is one millisecond |
| RateLimiterRuns.SlidingBoundIsSharp | quantagent/control_plane_policy.py:70-100 | some run reaches that bound, for every configuration |
| RateLimiterRuns.BoundHoldsIff | quantagent/control_plane_policy.py:120-125 | over all runs of a set of client keys without resets, every key stays within the bound if and only if there are at most max_entries keys |
| RateLimiterRuns.ManyKeysBreakBound | quantagent/control_plane_policy.py:120-125 | with one key too many, a key is let through 2 * max_requests times at one moment |
| RateLimiterRuns.RetryAfterIsExact | quantagent/control_plane_policy.py:84-92 | a denial changes nothing, and the same request is denied before its retry_after_ms and allowed at it |
| RateLimiterRuns.RemainingIsExact | quantagent/control_plane_policy.py:93-100 | the reported remaining count is the number of further requests allowed at once |
| RateLimiterRuns.PruningIsInvisible | quantagent/control_plane_policy.py:102-111 | while capacity is not reached, pruning at any moments gives the decisions of never pruning |
| RateLimiterTable.NormalizedKeys | quantagent/control_plane_policy.py:128-132 | white space around a name makes no other client, and all clients without a name are one |
| RateLimiterTable.TableIsLine | quantagent/control_plane_policy.py:120-125 | over any requests the table is a first-in first-out line of clients, in which neither requests nor the end of a window move anybody |
| RateLimiterTable.PruneMeans | quantagent/control_plane_policy.py:102-111 | pruning takes away just the buckets older than max_stale_ms, counts them, and leaves the others as they are and in order |
| Yamlish.ParseNode | quantagent/agent_profiles.py:593-603 | the mutually recursive parse of one node, equal to the specification; terminates |
| Yamlish.ParseMap | quantagent/agent_profiles.py:606-639 | the map loop |
| Yamlish.ParseList | quantagent/agent_profiles.py:642-685 | the list loop |
| Yamlish.ParseBlockScalar | quantagent/agent_profiles.py:688-701 | the block scalar loop |
| Yamlish.SkipYamlishBlank | quantagent/agent_profiles.py:704-710 | skipping blank lines and comments |
| YamlishTheorems.NodeContained | quantagent/agent_profiles.py:593-603 | a call at indent k stays within the input and consumes only blank lines, comments and lines indented at least k |
| YamlishTheorems.MapExtent | quantagent/agent_profiles.py:606-639 | a map call reads exactly up to the first line that ends it, no matter what is nested inside |
| YamlishTheorems.ListContained | quantagent/agent_profiles.py:642-685 | a list call stays at its indentation and stops at the end or at a line that is no item of it |
| YamlishTheorems.CallsAdvance | quantagent/agent_profiles.py:593-685 | a map or list call on a line that fits it strictly advances |
| YamlishTheorems.MapIsScan | quantagent/agent_profiles.py:606-639 | the map call, which jumps over what nested calls read, gives the entries of a plain scan of the lines at its indent |
| YamlishTheorems.MapMeans | quantagent/agent_profiles.py:606-639 | for every key the result is the value of its last entry line before the map ends, if there is one |
| YamlishTheorems.ListIsScan | quantagent/agent_profiles.py:642-685 | a list call returns one value for each item line at its indentation, in order |
| YamlishTheorems.UpdateMeans | quantagent/agent_profiles.py:677-681 | what follows an item with a key adds to its mapping and wins where both have a key |
| YamlishText.ReadsText | quantagent/agent_profiles.py:688-701 | a text printed line by line below a key is read back without its trailing line feeds after a bar, and as its stripped non-empty lines with single spaces between them after a greater-than sign |
| YamlishRoundTrip.PrintThenParse | quantagent/agent_profiles.py:587-701 | reading back what was printed gives the same value, for every nesting of mappings and lists over plain keys, plain texts, and block texts of both kinds, list items that begin with a key included |
| JsonPointer.ReadJsonPointer | quantagent/agent_planner.py:1321-1352 | walks the value along the decoded tokens, or fails at the first that does not exist |
| JsonPointer.DecodeEncode | quantagent/agent_planner.py:1307-1318 | decoding undoes encoding for every token (section 4 of RFC 6901) |
| JsonPointer.OrderMatters | quantagent/agent_planner.py:1307-1311 | decoding ~0 before ~1 would not |
| JsonPointer.EncodeDecodeIff | quantagent/agent_planner.py:1307-1318 | encoding undoes decoding exactly on the strings that an encoder can have written |
| JsonPointer.PointerRoundTrip | quantagent/agent_planner.py:1307-1328 | printing a non-empty token list as a pointer, splitting and decoding gives the same list (sections 3 and 4 of RFC 6901) |
| JsonPointer.ReadsWhatWasPointedAt | quantagent/agent_planner.py:1321-1352 | the pointer printed for a path that exists in a value reads the value at its end |
| JsonPointer.ReadIff | quantagent/agent_planner.py:1321-1352 | a pointer reads a value exactly when it starts with a slash and its tokens lead there, by the names of fields and the numbers of elements |
| JsonPointer.ParseIntMeans | quantagent/agent_planner.py:1332-1337 | a token names an element by white space, a sign, zeros and a number, whatever follows that is no digit, and names none without a digit there |
| BalancedJson.ExtractBalancedJsonPrefix | quantagent/agent_planner.py:1217-1255 | the scan with its delimiter stack and string state |
| BalancedJson.ExtractBalancedJsonFragments | quantagent/agent_planner.py:1258-1274 | the loop over slices gives the fragments of the whole text at absolute indices, and terminates |
| BalancedJson.ExtractInSuffix | quantagent/agent_planner.py:1262-1270 | working on a slice and adding the offset is working on the text |
| BalancedJson.ScanDelimits | quantagent/agent_planner.py:1225-1254 | the scan ends where the delimiter stack first empties, and finds nothing exactly when it never does |
| BalancedJson.FragmentsSound | quantagent/agent_planner.py:1258-1274 | every fragment is an exact slice from an opener to its own closer; fragments are ordered and disjoint, with no opener in the gaps |
| BalancedJson.NothingLeft | quantagent/agent_planner.py:1258-1274 | after the last fragment no opener follows, or the next one is never closed |
| BalancedJson.ExtractsGroup | quantagent/agent_planner.py:1217-1255 | a bracketed group of a balanced-text grammar, after text without openers and before anything, is extracted exactly |
| BalancedJson.ExtractedIff | quantagent/agent_planner.py:1217-1255 | a fragment is found exactly when the first opener begins a group of the grammar, and it is this group; closers of the other kind and anything inside literals are text |
| JsFunction.MatchDelimiter | quantagent/agent_planner.py:1832-1857 | the string-aware depth scan |
| JsFunction.JavascriptFunctionBodyStart | quantagent/agent_planner.py:1826-1864 | finds the first `function name(` and the brace after its parameter list |
| JsFunction.ReplaceJavascriptFunction | quantagent/agent_planner.py:1867-1895 | the in-place replacement, or nothing |
| JsFunctionGrammar.ReplacesFunction | quantagent/agent_planner.py:1826-1895 | a function with nested parentheses and braces, and literals in all three quotes with escapes, is replaced by exactly the replacement, if its marker does not occur before |
| JsFunctionGrammar.ReplacesNamedFunction | quantagent/agent_planner.py:1826-1895 | for names without a parenthesis it is enough that the text before has no marker in it |
| JsFunctionGrammar.ReplacedIff | quantagent/agent_planner.py:1826-1895 | a text is rewritten exactly when a function of the grammar stands at the first occurrence of its marker, and then only this function is replaced |
| JsFunction.KeepsTheRest | quantagent/agent_planner.py:1867-1895 | all text before the function and after its matching brace is kept |
| JsFunction.LastReplacementWins | quantagent/agent_planner.py:1867-1895 | replacing by one function of that name and then by anything is replacing once |
| JsFunction.ReplaceIdempotent | quantagent/agent_planner.py:1867-1895 | replacing twice by the same single function is replacing once |
| LineSplice.SpliceInPlace | quantagent/agent_planner.py:3379-3381 | the loop that assigns list slices in descending order |
| LineSplice.MergeFileBundle | quantagent/agent_planner.py:3367-3382 | the first routine, with each new text as one list element |
| LineSplice.ReplaceTopLevel | quantagent/agent_planner.py:3481-3488 | the second routine, with each new text line by line |
| LineSplice.SplitThenConcat | quantagent/agent_planner.py:3379-3382 | splitting into lines and joining loses nothing |
| LineSplitting.SplitMeans | quantagent/agent_planner.py:3379-3382 | each line but the last ends where the next begins, at one of the ten line boundaries, and nowhere else; a carriage return with its line feed is one boundary |
| LineSplice.BottomUpIsSimultaneous | quantagent/agent_planner.py:3379-3381 | for disjoint ranges given in any order, replacing bottom-up replaces all ranges of the original at once |
| LineSplice.RoutinesAgree | quantagent/agent_planner.py:3472-3488 | both routines write the same text for the same replacements, in whatever order each gets them |
| Gateway.Gateway.CreatePairingCode | quantagent/channel_gateway.py:75-109 | a new entry with its expiry, or the error for a missing owner or an empty code |
| Gateway.Gateway.PairSender | quantagent/channel_gateway.py:132-174 | the loop over the codes: the first entry with the hash decides, and a success marks it and updates the binding |
| Gateway.Gateway.UpsertBinding | quantagent/channel_gateway.py:607-622 | updates the owner of an existing binding and keeps its agent, or appends a binding |
| Gateway.Gateway.FindBinding | quantagent/channel_gateway.py:600-604 | the first binding for a channel and sender |
| Gateway.Gateway.BindSenderAgent | quantagent/channel_gateway.py:248-284 | sets the agent of an existing binding, or asks for pairing |
| GatewayRuns.AnswerFromHistory | quantagent/channel_gateway.py:154-174 | after any run an attempt is answered from its first issue and from whether it was spent: success means issued, not spent, not expired, and a matching or empty channel |
| GatewayRuns.OneTime | quantagent/channel_gateway.py:154-174 | a code pairs at most once at a time other than 0, however often it is issued |
| GatewayRuns.ReusableIff | quantagent/channel_gateway.py:158-160 | a success leaves the code usable again exactly when it happened at time 0 |
| GatewayRuns.ReissueChangesNothing | quantagent/channel_gateway.py:97-109 | issuing a known code again changes no answer |
| GatewayRuns.SuccessesAreUsedEntries | quantagent/channel_gateway.py:154-174 | without attempts at time 0 the number of successes is the number of used entries |
| GatewayRuns.IssueAnswers | quantagent/channel_gateway.py:75-109 | a request for a code is answered with the code it puts into circulation and an expiry at least one millisecond ahead, or refused without an owner or a code and changes nothing |
| GatewayRuns.BindAnswers | quantagent/channel_gateway.py:248-284 | binding an agent answers with the owner the sender is bound to, or asks for a pairing |
| GatewayRuns.LastTimes | quantagent/channel_gateway.py:600-622 | a binding is as old as the first success of its sender, and each later success or bind updates it |
| GatewayRuns.BindingsAreUnique | quantagent/channel_gateway.py:607-622 | in every reachable state at most one binding exists for a channel and sender |
| GatewayRuns.BoundIffPaired | quantagent/channel_gateway.py:154-174 | a binding exists exactly when some attempt of that sender on that channel succeeded |
| GatewayRuns.OwnerIsLatest | quantagent/channel_gateway.py:607-611 | its owner is the one of the latest successful pairing |
| GatewayRuns.AgentIsFirstPaired | quantagent/channel_gateway.py:607-622 | its agent is the first one paired, while none is bound after that |
| GatewayRuns.AgentIsLatestBound | quantagent/channel_gateway.py:260-284 | otherwise its agent is the latest one bound after a pairing |
| CodingBench.RunCodingBenchTask | quantagent/coding_bench.py:386-512 | the whole run: baseline, agent, tamper check, scope check, validation, scope check again, up to the attempt limit |
| CodingBench.OutOfScopeMeans | quantagent/coding_bench.py:1014-1041 | the reported files are exactly those that changed outside ignored paths and allowed files |
| CodingBench.ChecksMean | quantagent/coding_bench.py:430-452 | both checks are silent exactly when protected files are untouched and all changes are in scope |
| CodingBench.FixtureTextAfter | quantagent/coding_bench.py:395-417 | the two hash baselines chained: a clean attempt leaves the fixture text in place after validation |
| CodingBench.RunIsSound | quantagent/coding_bench.py:386-547 | every status is sound: each command ran where the one before it ended, with the last output in the failure file; solved, failed after exactly the limit, invalid fixture, and cheated by the agent or by the test command, blaming exactly the files that strayed |
| CodingBenchTheorems.TestFileMeans | quantagent/coding_bench.py:827-831 | a file is taken for a test exactly if its name starts with "test_", the stem of its name ends in "_test", or a part of its path is "test" or "tests", in any letter case, spelled letter by letter |
| CodingBenchTheorems.IgnoredMeans | quantagent/coding_bench.py:1044-1055 | the paths that no check looks at, spelled out |
| CodingBenchTheorems.SolvedIsSound | quantagent/coding_bench.py:386-512 | solved means the baseline failed, only the last validation passed, all changes outside ignored paths are to task files that are no tests and not named by the command, and those that are hold their fixture text; attempts within the limit |
| CodingBenchTheorems.ValidatedAgainstFixture | quantagent/coding_bench.py:430-470 | the validation that passed saw every guarded file with its fixture text, except files below __pycache__, which it did not see |
| CodingBenchTheorems.ProtectedIff | quantagent/coding_bench.py:818-831 | over all agents and test commands, a path is sure to be as the task has it in a solved run exactly when it is a task file that is a test by name or named by the test command, outside ignored paths |
| CodingBenchTheorems.MayChangeIff | quantagent/coding_bench.py:1033-1041 | a path can differ from the baseline in some solved run exactly when it is ignored or another task file |
| AgentLoop.AgentTrajectory.AddStep | quantagent/agent_step_record.py:98-104 | appends a record |
| AgentLoop.AgentTrajectory.FindStepIndex | quantagent/agent_step_record.py:153-167 | the first position with the id |
| AgentLoop.AgentTrajectory.StepsAfter | quantagent/agent_step_record.py:169-183 | the records after that position, or none |
| AgentLoop.MissingPostEditVerification | quantagent/agent_loop_core.py:262-290 | in build and repair mode, exactly when some change of files is followed by no satisfying verification |
| AgentLoop.ExecuteStep | quantagent/agent_loop_core.py:517-615 | one round: a running record replaced by a finished one, failure class, mode switch, and whether to stop |
| AgentLoop.RunPlan | quantagent/agent_loop_core.py:466-615 | the loop under step limit and deadline |
| AgentLoop.RunAgentLoop | quantagent/agent_loop_core.py:404-673 | the run with its verdict, hook, answer guard and status |
| AgentLoopTheorems.RunShape | quantagent/agent_loop_core.py:466-580 | over every run the trajectory is one finished record per executed step in order, never more than max_steps, and other observations are mode transitions, or a limit as the last |
| AgentLoopTheorems.RecordsSay | quantagent/agent_loop_core.py:526-580 | what the record of each executed step says: phase, action, command, files, summary, verification result and status |
| AgentLoopRuns.RunTells | quantagent/agent_loop_core.py:466-615 | every run told from its observations: each step ran in its own or the active mode on what was observed before; after each failed required step the failure class is that of the observations so far and the route decides the mode, unless the goal is in conflict; a switch of the mode is observed right after it; and how the run ended |
| AgentLoopRuns.StopsExactly | quantagent/agent_loop_core.py:582-615 | no step runs after a required failure with the goal in conflict, after any with stop_on_required_failure, after a rejection by the planner, or beyond a limit; without these the whole plan is executed |
| AgentLoopTheorems.OkIff | quantagent/agent_loop_core.py:617-672 | ok exactly when no limit was hit, no failed observation has a required name, changes of files were verified in build and repair mode, and neither hook nor guard objects |
| AgentLoopTheorems.StatusIff | quantagent/agent_loop_core.py:617-673 | the status and the failure class of a finished run: which of the classes of the loop, the hook and the guard wins, when it counts as blocked or needs approval, and when a missing verification is observed |
| AgentLoopTheorems.RequiredIsFirst | quantagent/agent_loop_core.py:1170-1171 | the first step of a name decides whether it is required |
| AgentLoopTheorems.OkAccomplishes | quantagent/agent_loop_core.py:630-635 | with no shadowed required step, ok means that the whole plan was executed and every required step passed |
| AgentLoopTheorems.VerdictSoundIff | quantagent/agent_loop_core.py:1170-1171 | the verdict has that meaning, whatever the steps do, for exactly the plans without a shadowed required step |
| AgentPlans.BuiltPlansAreSound | quantagent/agent_loop_core.py:117-167 | for every plan the loop builds itself, with its unit test steps added or replaced, the verdict has that meaning |
| AgentPlans.AugmentKeepsDistinct | quantagent/agent_loop_core.py:304-336 | adding or replacing unit test steps keeps the step names different |
| AgentPlans.PlanHolds | quantagent/agent_loop_core.py:117-167 | a built plan has just the steps wanted for mode and task, each with its kind, command, mode and whether it is required |
| AgentPlans.PlanIsOrdered | quantagent/agent_loop_core.py:117-167 | its steps come in the fixed order of the names |
| AgentPlans.AugmentMeans | quantagent/agent_loop_core.py:304-336 | unit tests found in the project add a step before the final review, or node tests replace the default ones; every other step stays |
| Checkpoints.ResolvesInside | quantagent/checkpoints.py:139-160 | a resolved path lies in the project without "..", and the stored relative path leads back to it |
| Checkpoints.ReadSameIff | quantagent/checkpoints.py:139-145 | reading a file as text keeps it exactly when it holds no carriage return |
| CheckpointReading.PathMeans | quantagent/checkpoints.py:148-160 | a ".." takes away the name before it, and nothing at the top |
| CheckpointReading.LineEndsRead | quantagent/checkpoints.py:139-145 | reading gives every line end, however written, as one line feed and keeps everything else |
| FileTree.WriteMeans | quantagent/checkpoints.py:99-100 | writing a file with the directories above it fails exactly on a file above or a directory in its place, and then changes nothing |
| Checkpoints.Project.CreateCheckpoint | quantagent/checkpoints.py:42-63 | snapshots the text of every listed path, as read, and writes the record, or stops at a path that escapes or is a directory |
| Checkpoints.Project.RestoreCheckpoint | quantagent/checkpoints.py:93-103 | the loop that writes and deletes, or the error of a missing record, an escaping path, or a file and directory mixed up |
| Checkpoints.CreateRefusedIff | quantagent/checkpoints.py:42-63 | refused exactly when some listed path escapes the project or is a directory, or the record cannot be written; and then nothing is |
| Checkpoints.RestoreAfterAnything | quantagent/checkpoints.py:93-103 | after any writes and deletes, restoring completes if and only if no listed path is a directory and none that was a file has a file above it; then every listed path has its text as read, and nothing else changes but directories made again |
| Checkpoints.RestoreStopsAt | quantagent/checkpoints.py:93-103 | a restore that stops leaves the paths listed before restored, and all other files as they are |
| Checkpoints.UntouchedRestorableIff | quantagent/checkpoints.py:42-63 | right after a checkpoint everything can be put back exactly when no listed path lies above its record |
| Checkpoints.RestoredExactlyIff | quantagent/checkpoints.py:93-103 | after a restore that completes, a listed path is exactly as it was if and only if it held no file with a carriage return |
| Checkpoints.LineEndsAreLost | quantagent/checkpoints.py:139-145 | restoring changes an untouched file with Windows line ends |
| Checkpoints.RestoreStaysInside | quantagent/checkpoints.py:93-103 | whatever a record says, restoring changes no file outside the project |
| ApplyGate.EvaluateApplyGate | quantagent/apply_gate.py:83-150 | allowed exactly under the stated conditions, and exactly when no finding is an error |
| ApplyGate.FindingsMean | quantagent/apply_gate.py:110-140 | a finding is reported exactly for the reason it names |
| ApplyGate.DiagnosticsShown | quantagent/apply_gate.py:119-130 | diagnostics that are errors are reported up to eight times |
| ApplyGate.AllowedIff | quantagent/apply_gate.py:141-150 | the gate allows a review exactly when no finding is an error |
| ApplyGate.CheckFindingsMean | quantagent/apply_gate.py:251-277 | source checks block exactly when one fails that is not advisory |
| ApplyGate.ChangedPathsMean | quantagent/apply_gate.py:301-302 | the checkpoint list holds each changed, new and deleted path once |
| Isolation.ApplyIsolationReview | quantagent/worktree_isolation.py:465-501 | the loops that copy and delete one path at a time, up to the first that cannot be copied, and the review marked applied |
| Isolation.CopyFileMeans | quantagent/worktree_isolation.py:471-477 | one copy succeeds exactly when the workspace has a file and no file of the project stands above its place, and then writes that one file |
| Isolation.CopyIntoDirectory | quantagent/worktree_isolation.py:471-477 | a file copied onto a directory lands in it under its own name |
| Isolation.WhyNotCopied | quantagent/worktree_isolation.py:471-477 | which error stops a copy, and why |
| Isolation.ApplyMeans | quantagent/worktree_isolation.py:465-501 | applying completes if and only if that holds for every changed and new path before it starts; the file it leaves at every path in both cases |
| ApplyGate.ApplyReviewWithGate | quantagent/apply_gate.py:153-211 | gate, checkpoint, apply, test and rollback in sequence, with the errors that end it early |
| ApplyGateTheorems.GateProtectsFiles | quantagent/apply_gate.py:185-211 | a gate that blocks or refuses changes no file but a new preview; a rollback leaves every path of the review with its text as read, and all other files as the test command left them |
| ApplyGateTheorems.StoppedApplyStays | quantagent/apply_gate.py:188-190 | an apply that stops half-way is not rolled back: exactly the copies before the path that stopped it stay |
| ApplyGateTheorems.HalfAppliedStays | quantagent/worktree_isolation.py:471-477 | of two changed files, the second missing from the workspace: the first stays overwritten, rollback or not |
| ApplyGateTheorems.FileBecomesDirectory | quantagent/worktree_isolation.py:471-481 | with "a" deleted and "a/b" new, applying stops with an error before any file is changed |
| ApplyGateTheorems.RaisedTestStays | quantagent/tools.py:98-105 | a test command that raises leaves the review applied, whether a rollback was asked for or not |
| ApplyGateTheorems.RolledBackIff | quantagent/apply_gate.py:194-201 | a failing gated apply is rolled back exactly when asked to, the test command ended or was blocked, and every listed path can be put back |
| ApplyGateExamples.SlowTest | quantagent/apply_gate.py:194-201 | a whole project on which `sleep 300` as test command leaves the review applied although a rollback was asked for |
| ApplyGateExamples.LostSecondFile | quantagent/worktree_isolation.py:471-477 | a whole project on which the first of two files stays overwritten |
| ApplyGateExamples.DirectoryForFile | quantagent/worktree_isolation.py:471-481 | a whole project on which a file has become a directory and the gate ends with an error |
| ApplyGateTheorems.PlainIsAligned | quantagent/worktree_isolation.py:618-629 | relative paths without "..", as reviews are made with, lie alike in the project and in the workspace |
| ApplyGateTheorems.UnlistedUntouched | quantagent/worktree_isolation.py:471-481 | applying touches only files of the review and its record, whether it completes or not |
| ApplyGateTheorems.RollbackRestoresIff | quantagent/apply_gate.py:196-201 | if testing touches only files of the review, the file at a path is as before after a rollback if and only if it is no file of the review that held a carriage return (the checkpoint, review and preview records aside) |
| ApplyGateTheorems.GateOutcome | quantagent/apply_gate.py:168-211 | ends with an error exactly when the review or preview cannot be loaded or saved, or the gate opens and the checkpoint is refused, a path cannot be copied, the preview is deleted, the test command raises, or a due rollback cannot be made; applied exactly when allowed; ok and rolled back exactly as stated |
| ApplyGateTheorems.GateErrors | quantagent/apply_gate.py:168-211 | which error ends a gated apply |
| ContextPack.PackLines | quantagent/context_pack.py:289-295 | the packing loop |
| ContextPack.BuildContextText | quantagent/context_pack.py:238-297 | the final text |
| ContextPack.ChunkFits | quantagent/context_pack.py:147-155 | what one item leaves of a budget above 500 |
| ContextPack.ChunkShows | quantagent/context_pack.py:147-155 | an item is shown as its heading and its body: within the limit up to the white space at its end, else the beginning of the body and the mark |
| ContextPack.TextShows | quantagent/context_pack.py:289-297 | the text is the preamble and then each item in order, each in the room the ones before leave, until at most 500 characters are left; joined and without white space at its end |
| ContextPack.JoinLength | quantagent/context_pack.py:297 | each line costs its length and one more for joining |
| ContextPack.PackBound | quantagent/context_pack.py:238-297 | with n items and a last header of h characters at most char_budget + n - 1 + max(-6, h - 199) characters; char_budget + n - 7 for headers of up to 193 |
| ContextPack.PackBoundIsSharp | quantagent/context_pack.py:289-297 | whatever the sections and titles, and however the bodies begin, some bodies and some budget reach that bound |
| ContextPack.BudgetHoldsIff | quantagent/context_pack.py:134-155 | whatever the sections, titles and beginnings, the text stays within every budget exactly when the excess is none: with a last header of up to 193 characters, for at most 7 items |
| ContextPack.PreambleOnly | quantagent/context_pack.py:289-297 | without room for an item the text is no longer than the preamble |

## Left out

- File system, file locks, subprocesses, clocks, random ids and JSON encoding: files are maps from paths to contents, and times, ids and command effects are inputs. Symbolic links are not modelled, paths resolve lexically, and errors of the file system other than mixing up files and directories (permissions, space) do not occur. Text files are taken to be valid UTF-8, since undecodable bytes would not survive a checkpoint, and writing text keeps line feeds, as it does outside Windows.
- Hashing is injective, and an absent file has a hash of its own.
- Supervisor: the sub-agent store is the environment. New launches start as RUNNING under an id not used before or raise, and passed, failed, blocked, aborted and lost records stay so, by that store's contract. Instruction texts, warnings and summaries are not modelled.
- AsyncLock: promises and the event loop are steps; a function that never settles keeps its caller inside.
- RateLimiter: the lock around the dictionary and the scope lookups beside the class.
- Yamlish: scalar parsing (numbers, quotes, inline JSON) is opaque, and so is splitting the front matter off a profile.
- YamlishRoundTrip.PrintThenParse: the reference printer indents by two columns and writes no blank lines or comments between entries; what these do is stated by `MapIsScan`, `MapMeans` and `ListIsScan`.
- JsFunction: comments, regular expression literals and template substitutions are text to the scanner, as in the source.
- LineSplice: the line ranges come from Python's parser, and are given here as non-empty and disjoint; the decorator and signature checks are not modelled. The parser's line numbers and `splitlines` can differ on form feeds and Unicode separators.
- Gateway: names arrive normalized and lifetimes in whole milliseconds, the event log is not modelled, and a damaged state file is not read.
- CodingBench: which task files the test command names is an input, as are the texts of commands and failures; task file names are taken as normalized paths, and a directory in the place of a task file, on which hashing raises, does not occur. Patch metrics, evidence packets and the failure class are left out.
- AgentLoop: limits arrive validated; executing steps, failure classes, routing and the deadline are functions of the environment. The guard that only reports, memory, evidence, summaries, and the file list in the missing-verification observation are left out; a hook's failure class is taken as already in lower case.
- ApplyGate: the order of the sorted checkpoint paths, the texts of findings, and the event log. Where the review and the preview are kept are inputs, a review does not change the preview's text, and copying does not write into the isolated workspace, which reviews leave out. Directories made by applying stay after a rollback; the theorems about it speak of files.
- ContextPack: collecting, scoring and sorting the items; the preamble is a parameter whose last line is empty, as in the source. Hooks may replace the budget before packing.
- Rendering, the chat interface, `approvals.py`, `consensus.py`, mode tables, the code index and the repair heuristics of `agent_planner.py`: long case lists or easy folds.
