# Verification of the middleware runtime

Dafny models of the parts of `proc_mw` where the reasoning is hard, with proofs over every input, every
run or every interleaving. Nothing here executes the crate: each model restates in Dafny what the cited
lines do, and the lemmas are about that model. `dafny verify dfyconfig.toml` checks everything.

## What is modelled

* **Chains** (`Integers`, `Onion`, `Dispatch`, `Opaque`, `AsyncChain`, `AsyncRecovery`, `Precompiled`, `Parallel`,
  `BuiltinSummary`, `Slots`). `Onion` is the shape all executors share: enters in order, the core, exits in reverse
  on success only. The i32 chain and the type-erased chain are imperative methods proved against functional
  specifications, which are then shown to be instances of the onion. The async chain is the state machine
  that an executor polls; a timer may cancel it at any suspension point.
* **Migration** (`HandlerLang`, `Migration`, `MigrationMeaning`, `MigrationText`, `MigrationSamples`). A small Rust
  fragment with an evaluator (scopes, a clock, i32 arithmetic, early return, panics), the rewriting of the
  migration tool on it, the theorem that rewriting keeps the value of a handler, the text of the code in which the
  tool searches, and its sample files.
* **Admission, breaker, limiter** (`Admission`, `CircuitBreaker`, `RateLimit`, `Timeline`). Each is a class
  with the fields of the source, plus a state machine whose steps are the atomic operations or lock sections,
  interleaved in any order, cancellation of a call included.
* **Sandbox** (`SandboxWire`, `SandboxSystem`, `SandboxText`, `SandboxDirect`,
  `Decimal`). The byte protocol on both sides,
  first as whole reads, then as two processes that move one byte at a time while either may stop at any
  moment; and the older line protocol.
* **Compile cache** (`Hashing`, `CachePublish`, `CacheNaming`, `CacheSharing`, `Eviction`, `Diagnostics`, `Text`). Keys
  and fingerprints, publication by concurrent builders, eviction, and the parser of compiler diagnostics.

## Where the code and its description disagree

The model follows the code. In each case a member below gives the input or the exact condition.

* A precompiled chain exits in forward order, the dynamic chain in reverse. They agree for every chain drawn
  from given stages exactly when the stages' exits commute (`Precompiled.OrderIrrelevantIffCommute`).
* The error path of the concurrency limit releases even if a node before the limiter refused the call. Each such
  release may let one more caller in (`Admission.LimitHoldsIff`, `Admission.AdmissionBoundIsTight`).
* A wrapped call whose future is dropped keeps its slot for good. Once as many are dropped as the threshold
  allows, everybody is refused (`Admission.ShutOutIff`, `Admission.DropsShutOut`).
* A breaker with threshold 0 behaves as one with threshold 1 (`CircuitBreaker.HistoryDeterminesState`).
* Half-open is said to let one trial through. With N callers up to threshold - 1 + N failing calls pass before the
  breaker opens again, so one does exactly for a threshold of at most 1 and a single caller
  (`CircuitBreaker.OneTrialIff`).
* `exec_timeout_rollback` restores the request on every error, although its description speaks of timeouts
  (`AsyncRecovery.RollbackIsAtomic`).
* The migration tool recognises handlers by name, one parameter and an `i32` somewhere in the return type. Its
  output type-checks only for a function that is not `const`, has the signature `(input: i32) -> i32`, holds no
  `return`, and has no name `ctx` of its own where the tool inserts one
  (`MigrationMeaning.MigrationPreservesMeaning`, `MigrationMeaning.OwnCtxBreaks`).
* Migrating a migrated file wraps every handler once more, without changing what it computes
  (`MigrationMeaning.MigratingAgain`); it defines `mw_timing` twice exactly when new timing code was added to a
  handler (`Migration.DefinedTwiceIff`).
* `run_bytes` casts the length to `u32`, so longer payloads are cut (`SandboxWire.CarriedIffShort`).
* `run` takes the answer -999 for a refusal, reports a plugin that breaks as success and skips the plugin's exit
  hook, so the sample plugin gives 50 where a chain gives 150 (`SandboxText.TextIsFaithfulIff`,
  `SandboxText.ExitIsSkipped`), and an answer cut short by a crash may read as another number
  (`SandboxText.CutAnswerIff`).
* `extract_diagnostics` panics on a line that opens `error[` and does not close it (`Diagnostics.PanicsIff`).
* The hit counter is increased before the request counter, so hits may exceed requests for a moment
  (`CachePublish.RequestsAreHitsPlusMisses`).
* Temporary names are unique within a process only: publication is atomic in every run exactly when no two
  processes that share the cache directory build one plugin name (`CacheSharing.AtomicIffNamesApart`).
* The text hashed for a build with dependencies does not always determine source and dependencies
  (`Hashing.DepsTextAmbiguousIff`), and a build without any may share its text and so its cached file with one
  that has some, exactly when its source contains the separator (`Hashing.PlainSharesTextIff`).

## Model

| member | source | states |
|---|---|---|
| Onion.LoopsAreNesting | src/dispatch.rs:217-239 | the two-loop executor equals the recursive nesting of hooks around the core, for all hooks, cores and states |
| Onion.RunAppend | src/dispatch.rs:214-239 | running `a + b` around a core is running `a` around "`b` around the core" |
| Onion.TraceLaw | src/dispatch.rs:214-239 | with every call logged, the log is all enters, the core, all exits in reverse; or a prefix of the enters, or enters and core, with no exit, when something stops the run |
| Integers.Wrap32 | src/dispatch.rs:141-144 | release arithmetic: an i32 congruent to the exact sum modulo 2^32, and the sum itself when it fits |
| Dispatch.EnterNode | src/dispatch.rs:138-185 | the in-place enter of each of the four slots, builtins included, equals its specification on context, shared state, clock and verdict |
| Dispatch.ExitNode | src/dispatch.rs:190-211 | the in-place exit of each slot equals its specification; only Cap, plugins with an exit and open nodes change anything |
| Dispatch.ChainExecCtx | src/dispatch.rs:217-239 | the two loops with early return compute exactly the specified final context, shared state and result |
| Dispatch.ExecIsOnion | src/dispatch.rs:214-239 | the i32 executor is the generic onion over its nodes' hooks |
| Dispatch.ChainAppend | src/dispatch.rs:217-239 | splitting a chain into an outer and an inner chain changes nothing, the context being threaded through |
| Dispatch.ChainTrace | src/dispatch.rs:217-239 | exits run in exactly reverse order when the result is Ok and not at all when an enter stops or the core fails |
| BuiltinSummary.ComposeMeans | src/dispatch.rs:138-170 | composing two summaries accepts, and shows the core, what one after the other does |
| BuiltinSummary.ComposeAssoc | src/dispatch.rs:138-170 | summaries form a monoid, so a chain may be summarised in any bracketing |
| BuiltinSummary.SummarizeAppend | src/dispatch.rs:138-170 | the summary of an appended chain is the composition of the summaries |
| BuiltinSummary.SafeRangeExact | src/dispatch.rs:141-149 | an input lies in the interval computed by a fold iff every Add of the list, executed or not, fits i32 |
| BuiltinSummary.SafeRangeDecides | src/dispatch.rs:141-157 | inside that interval no executed Add overflows, and on inputs the chain accepts that is the case only inside it |
| BuiltinSummary.EntersSummary | src/dispatch.rs:138-170 | whenever no executed Add overflows, the enters give the verdict and the context that the constant-size summary predicts, refusals in front of an overflow included |
| BuiltinSummary.ExitsSummary | src/dispatch.rs:190-202 | the exits of any builtin chain clamp the output by the least cap |
| BuiltinSummary.BuiltinChainSummary | src/dispatch.rs:217-239 | whenever no executed Add overflows, a builtin chain accepts iff x >= lo, the core sees min(x + A, C), and the result is the core's output under the least cap |
| BuiltinSummary.OverflowBreaksSummary | src/dispatch.rs:141-144 | where an executed Add overflows it wraps around and the summary fails |
| BuiltinSummary.DeadlineDecides | src/dispatch.rs:158-165 | with a deadline, under any clock: the enters of a builtin chain time out iff a deadline check is reached at a reading that is the deadline or later, and otherwise do what the summary says, with one reading for each check |
| BuiltinSummary.DeadlineChainSummary | src/dispatch.rs:217-239 | on an accepted input and a clock that does not run backwards the run times out iff the last reading is the deadline or later, and otherwise gives the core's value under the least cap |
| Slots.FnPtrAround | src/dispatch.rs:171 | a plain function around a core: what the core sees and what ends the run, in terms of that function |
| Slots.ExternAround | src/dispatch.rs:172-182 | a plugin around a core: it sees input and output, its code decides, its exit sees the core's value |
| Slots.DynAround | src/dispatch.rs:183 | stateful middleware around a core: context and shared state on both ways, and what is left of them |
| Slots.FreshContext | src/dispatch.rs:214-239 | a run starts from the input, output 0, no deadline and no trace id |
| Slots.GuardedCall | src/rate_limit.rs:46-62 | a chain with the rate limiter at its head refuses exactly when the limiter does, and is otherwise the rest of the chain |
| Slots.GuardedCallsAreRare | src/rate_limit.rs:46-62 | of the calls of such a chain at most (k + 1) * limit get past the limiter in any k windows |
| Precompiled.Expansion | src/precompiled.rs:22-41 | the straight-line expansion computes enters in order, the core, and exits in forward order |
| Precompiled.PrecompiledAgrees | src/precompiled.rs:22-41 | when exits commute pairwise, precompiled and dynamic chain agree on every input, core and error |
| Precompiled.OrderIrrelevantIffCommute | src/precompiled.rs:36-38 | forward and reverse exits agree for every chain drawn from a set of stages iff those stages' exits commute pairwise |
| Precompiled.BuiltinsAgree | examples/d2_precompiled.rs:62-68 | every list of builtins may be precompiled, not only the sampled one |
| Precompiled.PrecompiledMayDiffer | src/dispatch.rs:233-236 | a concrete chain, with an exit that doubles and one that clamps, on which the two differ |
| Opaque.OpaqueChain.Add | src/opaque.rs:118-122 | the new chain is the old one with the node at the end |
| Opaque.OpaqueChain.Remove | src/opaque.rs:125-131 | removes exactly that position, and ignores one beyond the end |
| Opaque.OpaqueChain.Set | src/opaque.rs:134-143 | replaces exactly that position, or reports that there is none and changes nothing |
| Opaque.OpaqueChain.Run | src/opaque.rs:157-180 | the loops over the snapshot, changing the request in place, compute the specified request, shared state and return code |
| Opaque.OpaqueChain.RunRetry | src/opaque.rs:274-292 | the retry loop with a clone per attempt equals the recursive specification, attempts counted |
| Opaque.ExecIsOnion | src/opaque.rs:157-180 | the return-code chain is the onion, so its exits too run in reverse on success and never otherwise |
| Opaque.RetryIsAtomic | src/opaque.rs:267-292 | on Err the request is the original and all n attempts failed; on Ok it is the result of the first successful attempt from the original; shared state accumulates |
| Opaque.RetryFailsIff | src/opaque.rs:267-292 | a retry fails iff every attempt fails, and otherwise ends with the first that does not |
| Opaque.CodesDecide | src/opaque.rs:157-180 | around one node: on code 0 core and exit run, any other code is returned and neither runs |
| Opaque.ExecCountsOnce | src/opaque_gov.rs:44-52 | a metrics node at the head counts one call per execution, and one success iff it is Ok |
| Opaque.RetryIsMetered | src/opaque_gov.rs:44-52 | over a retry it counts one call per attempt, and one success iff the retry succeeds |
| AsyncChain.ExecFuture.Enters | src/async_opaque.rs:120-137 | one poll runs the enters in place from the await where it stood to the next pending one, as specified |
| AsyncChain.ExecFuture.Exits | src/async_opaque.rs:139-146 | the second loop leaves the state that the onion's exits leave |
| AsyncChain.ExecFuture.Poll | src/async_opaque.rs:120-148 | a whole poll equals its specification, in which core and exits come only after the last await |
| AsyncChain.AsyncRefinesSync | src/async_opaque.rs:117-148 | for every chain and every pattern of pending polls, a finished future has the state and verdict of the synchronous onion |
| AsyncChain.DriveCompletes | src/async_mw.rs:73-84 | suspending never changes what the rest of the run will give |
| AsyncChain.AdvanceEntersOnly | src/async_mw.rs:141-151 | at every pending point the state is what the enters so far made of the start |
| AsyncChain.TimeoutMeansNoCore | src/async_opaque.rs:327-343 | a timeout leaves a state that only enters up to some await produced, so core and exits never ran; any other end is the synchronous run |
| AsyncChain.RaceIsDecided | src/async_opaque.rs:335-343 | with the timer first due at wake-up k, the polls before k, and at k if the chain is polled first, decide the race: if they get the future ready, the result is exactly its state and verdict; if not, a timeout with the state they left, or a race still on |
| AsyncChain.TimesOutIff | src/async_opaque.rs:335-343 | a race times out iff the timer comes due and none of those polls gets the future ready |
| AsyncRecovery.RunTimeout | src/async_opaque.rs:327-343 | the race as a loop over wake-ups equals its specification, the cancelled request included |
| AsyncRecovery.RunTimeoutRollback | src/async_opaque.rs:290-304 | on any error the request is the snapshot, on success the result of the race |
| AsyncRecovery.RollbackIsAtomic | src/async_opaque.rs:287-304 | an error of either kind leaves the request as it was; Ok is exactly the synchronous run, and a chain error is the synchronous one |
| AsyncRecovery.DueTimerEnds | src/async_opaque.rs:250-262 | a race whose timer comes due ends, even if the chain never does |
| AsyncRecovery.RunRetryTimeout | src/async_opaque.rs:252-271 | the loop with a clone and a timer per attempt equals the recursive specification |
| AsyncRecovery.TimedRetryIsAtomic | src/async_opaque.rs:250-271 | however each attempt is scheduled: Err leaves the request untouched after all n attempts, Ok is one synchronous run from the original |
| AsyncRecovery.TimedRetryOkIff | src/async_opaque.rs:250-271 | the retry fails iff in none of its n attempts the chain gets through before its timer, and otherwise stops with the first in which it does |
| Parallel.ScheduleIndependent | src/chain.rs:80-99 | with middleware that shares no state, every schedule of the threads gives each request what running it alone gives |
| Parallel.Join | src/chain.rs:93-97 | all values in request order, or the error of the lowest-numbered request that failed |
| Parallel.ExecParallel | src/chain.rs:82-99 | under every schedule that finishes the threads the result is the sequential map in request order, or the error of the first request that fails when run alone |
| Parallel.ExactlyTheRestPass | src/opaque_gov.rs:89-105 | n requests racing for one limiter inside a window: in every order exactly min(n, limit - count) pass |
| Migration.WrapHandler | labs/d8_migrate/src/main.rs:79-107 | the rewritten function, signature kept, and the list of extracted concerns are the specified ones, for plain and for wrapped bodies; `timing` is in the list iff it was, or the body mentions timing, `logging` likewise, and no label twice |
| Migration.SourceFile.Migrate | labs/d8_migrate/src/main.rs:137-161 | every candidate is wrapped where it stands, all other items are untouched, the timing function is appended iff some candidate mentions timing, and the report lists the wrapped names |
| Migration.MigratedInPlace | labs/d8_migrate/src/main.rs:140-161 | item by item: a candidate is wrapped with its signature kept, anything else is as it was, and one timing function follows iff some candidate mentions timing |
| Migration.NamesInOrder | labs/d8_migrate/src/main.rs:140-147 | the report names exactly the candidates, in the order of the file |
| Migration.StripIsRetain | labs/d8_migrate/src/main.rs:66-75 | descending into nested blocks removes nothing more: stripping is the retain of the outermost block, and leaves no mention of timing |
| Migration.RetainCommutesWithRename | labs/d8_migrate/src/main.rs:80-83 | stripping and renaming may be exchanged |
| Migration.TimingNodeIffStripped | labs/d8_migrate/src/main.rs:82-96 | the timing node is inserted exactly when a statement was stripped |
| MigrationText.HandlerIff | labs/d8_migrate/src/main.rs:33-45 | a handler is recognised iff its name is `handle_` and something, it has one parameter, and its return type is some text around `i32` |
| MigrationText.MentionsIsText | labs/d8_migrate/src/main.rs:53-63 | looking into the tree of an expression finds timing or logging iff its text, white space removed, contains `Instant::now` or `elapsed`, or `println`: no occurrence arises across tokens |
| MigrationText.BlockMentionsIsText | labs/d8_migrate/src/main.rs:53-63 | the same for the block on which concerns are detected |
| MigrationText.StripKeepsUntimed | labs/d8_migrate/src/main.rs:66-75 | stripping keeps, in order, exactly the statements whose text contains neither pattern |
| MigrationText.UntimedIsKept | labs/d8_migrate/src/main.rs:79-107 | a handler whose text mentions no timing keeps every statement, gets no timing node, and keeps its meaning under the conditions on signature, `return` and names alone |
| MigrationSamples.LegacyMigrates | labs/d8_migrate/samples/legacy.rs:5-20 | the first sample file: two handlers wrapped, one freed of its two timing statements, the helper untouched, the timing function added |
| MigrationSamples.SecondFileMigrates | labs/d8_migrate/samples/legacy2.rs:3-13 | the second: two handlers wrapped, nothing stripped or added |
| MigrationSamples.SamplesCompute | labs/d8_migrate/tests/migrated_behavior.rs:5-13 | on every input the four migrated handlers give input + 1, input * input, input * 2 and input - 1 in i32 |
| Migration.TimingFnIffUsed | labs/d8_migrate/src/main.rs:150-161 | a file nobody migrated before comes out closed: it defines the timing function iff some migrated handler refers to it |
| Migration.DefinedTwiceIff | labs/d8_migrate/src/main.rs:150-161 | a file with at most one timing function ends up with two iff it had one and some candidate mentions timing |
| MigrationMeaning.StrippingIsInvisible | labs/d8_migrate/src/main.rs:65-75 | deleting dead timing statements, unit expressions in mid-block included, keeps the result of a well-typed block, under any two clocks |
| MigrationMeaning.EvalRenamed | labs/d8_migrate/src/main.rs:19-30 | replacing the parameter by the context field keeps every value, scope and panic of code that keeps no return, does not rebind `input` and has no `ctx` of its own where one is inserted |
| MigrationMeaning.ChainIsTransparent | labs/d8_migrate/src/main.rs:89-106 | the wrapped body gives what its core gives, unless the core holds a return, means another `ctx`, or has no i32 value, and so does not type-check; chain, timing node and `unwrap_or_default` add nothing |
| MigrationMeaning.MigrationPreservesMeaning | labs/d8_migrate/src/main.rs:77-107 | for every recognised candidate whose timing statements are dead and that keeps no rebinding of `input`, the migrated function has the original value or panic on every input iff it is not `const`, its signature is `(input: i32) -> i32`, it keeps no return, and no `input` stands in the scope of a local `ctx` and no function `ctx` is called |
| MigrationMeaning.RebindingBreaks | labs/d8_migrate/src/main.rs:22-29 | without the condition on rebinding: a handler whose value changes |
| MigrationMeaning.UncoveredBindingBreaks | labs/d8_migrate/src/main.rs:68-74 | without the condition on stripped bindings: a handler whose value changes |
| MigrationMeaning.StrippedValueBreaks | labs/d8_migrate/src/main.rs:68-74 | without the condition on the value of the block: a handler that is left without a value |
| MigrationMeaning.StrippedEffectBreaks | labs/d8_migrate/src/main.rs:68-74 | without the condition on effects: a handler whose assignment is stripped and whose value changes |
| MigrationMeaning.UnfitBreaks | labs/d8_migrate/src/main.rs:97-106 | no candidate that keeps a return, executed or not, or a clash with the name `ctx` type-checks after migration |
| MigrationMeaning.OwnCtxBreaks | labs/d8_migrate/src/main.rs:24-26 | `let ctx = 5; input + ctx`: well-typed before on every input, ill-typed after |
| MigrationMeaning.MigratingAgain | labs/d8_migrate/src/main.rs:77-107 | migrating a migrated handler nests one more chain, so migration is not idempotent, and keeps value, panic and ill-typedness on every input |
| MigrationMeaning.NoInputLeft | labs/d8_migrate/src/main.rs:22-29 | renaming reaches every occurrence of the parameter, in bodies wrapped before, too |
| MigrationMeaning.EarlyReturnBreaks | labs/d8_migrate/src/main.rs:97-106 | such a handler, well-typed before, on inputs for which it does not return early |
| Admission.ConcurrencyLimiter.SetMax | labs/scales/medium/src/bin/s02_concurrency_limit.rs:39-41 | changes the threshold and nothing else |
| Admission.ConcurrencyLimiter.Enter | labs/scales/medium/src/bin/s02_concurrency_limit.rs:47-54 | counts the caller modulo 2^32 and refuses with 2 iff that exceeds the threshold |
| Admission.ConcurrencyLimiter.Release | labs/scales/medium/src/bin/s02_concurrency_limit.rs:42-44 | uncounts one caller modulo 2^32 |
| Admission.ConcurrencyLimiter.Call | labs/scales/medium/src/bin/s02_concurrency_limit.rs:79-96 | a wrapped call returns the right code, and brings the counter back iff the nodes in front of the limiter let it through |
| Admission.AdmissionBound | labs/scales/medium/src/bin/s05_load_shed.rs:57-70 | in every interleaving of add, check, subtract and cancellation, with the threshold changing: callers past the check <= largest threshold ever set + stray releases, dropped calls not loosening it |
| Admission.CounterLaw | labs/scales/medium/src/bin/s02_concurrency_limit.rs:47-54 | in every run the counter is callers in flight plus dropped calls minus strays, modulo 2^32 |
| Admission.LimitHolds | labs/scales/medium/src/bin/s05_load_shed.rs:57-70 | without strays and dropped calls the threshold is a limit, the counter is the number in flight, and it is 0 when all are done |
| Admission.QuiescentIff | labs/scales/medium/src/bin/s02_concurrency_limit.rs:85-94 | with nobody in flight the counter is 0 iff dropped calls minus strays is a multiple of 2^32 |
| Admission.AdmissionBoundIsTight | labs/scales/medium/src/bin/s02_concurrency_limit.rs:91-94 | for every threshold, 0 included, and every number of strays some run lets in threshold + strays callers |
| Admission.LimitHoldsIff | labs/scales/medium/src/bin/s02_concurrency_limit.rs:42-54 | for every threshold: over all runs with a given number of strays it is a limit iff that number is 0 |
| Admission.ThresholdInForce | labs/scales/medium/src/bin/s02_concurrency_limit.rs:39-54 | in every run a caller is let past the check iff what it counted is within the threshold set last |
| Admission.CounterComesBack | labs/scales/medium/src/bin/s02_concurrency_limit.rs:85-94 | after any run without strays and dropped calls everybody, refused callers included, can finish, and the counter is then 0 |
| Admission.ShutOutIff | labs/scales/medium/src/bin/s05_load_shed.rs:66-69 | with everybody idle after a run without strays, somebody can still get in iff fewer calls were dropped than the threshold; otherwise everybody is refused from then on |
| Admission.DropsShutOut | labs/scales/medium/src/bin/s05_load_shed.rs:66-69 | for every threshold a run with that many dropped calls and nobody in flight, after which nobody gets in |
| CircuitBreaker.CircuitBreaker.Reset | src/circuit_breaker.rs:24-28 | closes the breaker and forgets the failures |
| CircuitBreaker.CircuitBreaker.FirstSection | src/circuit_breaker.rs:48-58 | refuses iff open and not cooled down; a cooled-down breaker is closed and its count restarted |
| CircuitBreaker.CircuitBreaker.SecondSection | src/circuit_breaker.rs:59-72 | success clears the count and leaves the deadline; a failure counts, and opens from the threshold on |
| CircuitBreaker.CircuitBreaker.Call | src/circuit_breaker.rs:77-108 | a call is the two sections around the chain, and returns the refusal or the chain's own result |
| CircuitBreaker.HistoryDeterminesState | src/circuit_breaker.rs:42-73 | after any calls and resets the state is a function of the history: the failures of the current streak modulo the threshold, and open iff the streak is a nonzero multiple of it |
| CircuitBreaker.RefusedIff | src/circuit_breaker.rs:48-57 | a call is refused iff the streak of failures is a positive multiple of the threshold and now is before the last failure plus cooldown |
| CircuitBreaker.FailingCallsAreRare | src/circuit_breaker.rs:42-73 | while every execution fails, an interval of length L holds at most threshold * (L / cooldown + 1) executions |
| CircuitBreaker.ConcurrentBound | src/circuit_breaker.rs:48-72 | with at most N calls between the two sections, every reachable state has failures + in flight <= threshold - 1 + N, and not open implies failures < threshold |
| CircuitBreaker.ConcurrentBoundIsTight | src/circuit_breaker.rs:48-72 | for every threshold and N some run reaches that many failures |
| CircuitBreaker.ResetAdmits | src/circuit_breaker.rs:24-28 | after a reset in any interleaving the breaker admits at any time, with no failures on record and the calls in flight untouched |
| CircuitBreaker.RefusalChangesNothing | src/circuit_breaker.rs:48-52 | while the breaker is open any number of calls may be refused, which leaves breaker and calls in flight as they were |
| CircuitBreaker.FailingCallsAreRareTogether | src/circuit_breaker.rs:48-72 | with at most N calls in flight, interleaved in any way, all failing and never reset, an interval of length L lets at most (threshold - 1 + N) * (L / cooldown + 1) calls through |
| CircuitBreaker.PassedAreAll | src/circuit_breaker.rs:48-72 | the calls counted there are all that were let through: those finished and those in flight |
| CircuitBreaker.AtMostTrialsIff | src/circuit_breaker.rs:53-55 | in every run an open breaker is tried by at most k failing calls before it opens again, iff k >= threshold - 1 + N |
| CircuitBreaker.OneTrialIff | src/circuit_breaker.rs:53-55 | by at most one, iff the threshold is at most 1 and N = 1 |
| RateLimit.RateLimiter.Reset | src/rate_limit.rs:39-43 | opens a fresh window now |
| RateLimit.RateLimiter.TryEnter | src/rate_limit.rs:47-60 | rolls the window if it is over, then admits and counts, or rejects |
| RateLimit.RunHasEpochs | src/opaque_gov.rs:89-105 | every reset-free run divides its admissions into windows of at most `limit`, each more than a window length after the one before |
| RateLimit.AdmissionsAreRare | src/rate_limit.rs:47-60 | any closed interval of k windows admits at most (k + 1) * limit requests |
| RateLimit.RejectionIsJustified | src/rate_limit.rs:47-60 | with resets allowed, behind every rejection at t lie exactly `limit` admissions of its window, all within the window length before t |
| SandboxWire.LengthOnWire | src/sandbox.rs:114-116 | the four length bytes read back as the length modulo 2^32, so as the length iff it is below 2^32 |
| SandboxWire.Sandbox.ReadExact | src/sandbox.rs:119-131 | delivers exactly n bytes and keeps the rest, or fails with the stream used up |
| SandboxWire.Sandbox.RunBytes | src/sandbox.rs:112-137 | writes the framed request and decodes one response, with the right error for every place where the stream may end |
| SandboxWire.Sandbox.Greet | src/sandbox.rs:64-78 | sends the handshake and succeeds iff the next byte is the acknowledgement |
| SandboxWire.RequestAtOnce | src/bin/mw_exec.rs:77-96 | the byte-by-byte executor answers a whole request with the plugin's response and is then back at its loop, whatever follows |
| SandboxWire.ByteMode | src/bin/mw_exec.rs:56-97 | the read/transform/write loop writes, for every input, exactly what the byte machine writes |
| SandboxWire.ResponseReadsBack | src/sandbox.rs:119-136 | a response read back is the direct call, and leaves what follows it |
| SandboxWire.CutResponse | src/sandbox.rs:119-136 | a response cut short is an error that says how far it came: nothing, less than the five bytes of the header, or less than the payload |
| SandboxWire.GreetingBytes | src/bin/mw_exec.rs:63-74 | three bytes are acknowledged with 0xB2 iff they start with 0xA1 and 1 |
| SandboxWire.LowestFirst | src/sandbox.rs:114-116 | lengths travel with their lowest byte first |
| SandboxWire.LongIsCut | src/sandbox.rs:114-116 | a payload of 2^32 bytes or more comes back cut to its length modulo 2^32 |
| SandboxWire.CarriedIffShort | src/sandbox.rs:106-137 | the protocol carries a payload faithfully for every plugin iff it is shorter than 2^32 bytes |
| SandboxSystem.StepKeeps | src/bin/mw_exec.rs:63-96 | every byte step of either side, every crash and every restart keeps the conservation law: read, in the pipe and still to come is exactly the expected response |
| SandboxSystem.SandboxIsFaithful | src/sandbox.rs:106-137 | in every run with crashes and restarts the calls are answered in order, each with the direct result or a report of the loss, never a shortened Ok; between calls both queues are empty, or the executor is dead with nothing left to read |
| SandboxSystem.SandboxRefinesPlugin | src/sandbox.rs:54-137 | while nobody kills the executor, the finished calls are exactly the calls made with the direct results, rejections included |
| SandboxSystem.RestartRestores | src/sandbox.rs:139-173 | after any run, deaths included, and a restart: while the new executor is not killed, the calls finished or under way since are exactly those made since, each finished one has the direct result, earlier answers stay, and an idle host finds the pair clean |
| SandboxSystem.RestartThenCall | src/sandbox.rs:139-173 | from every reachable idle state a restart, its handshake and a call can be carried through by protocol steps, and the call gives the direct result |
| SandboxSystem.DeathIsForGood | src/sandbox.rs:106-137 | without a restart every call after a death between calls is reported as lost |
| SandboxSystem.CrashMidCall | src/sandbox.rs:106-137 | a death at any byte of a call: the call still ends, with the direct result or a report of the loss |
| SandboxSystem.FailsAsRead | src/sandbox.rs:112-137 | the error of a call on a dead executor is that of the failed write, or what the read loop makes of the bytes that came |
| SandboxSystem.NeverStuck | src/sandbox.rs:112-137 | a host that waits can always proceed, or the executor can |
| SandboxSystem.WorkShrinks | src/sandbox.rs:112-173 | every protocol step lowers a measure, so every call and every restart ends under any schedule |
| SandboxText.Serve | src/bin/mw_exec.rs:36-50 | the answer to one line: 0 for input that does not parse, the value for a plugin that continues or breaks, the sentinel for any other code |
| SandboxText.TextMode | src/bin/mw_exec.rs:31-51 | the loop writes one answer per input line, in order |
| SandboxText.TextSandbox.Run | src/sandbox.rs:88-104 | writes the number as a line or fails with nothing changed, reads one line, and judges it |
| SandboxDirect.DirectIsChain | src/runtime.rs:82-89 | the direct call, against which the protocol is measured, is the i32 executor on the plugin's node, exit hook included |
| SandboxText.TextIsFaithfulIff | src/bin/mw_exec.rs:43-46 | a call is the direct call iff the plugin does not return code 1 and, if it continues, its value is not -999 and its exit hook leaves that value alone |
| SandboxText.ExitIsSkipped | labs/d6_plugin/src/lib.rs:16-25 | the sample plugin on 5: 50 for the host, 150 for a direct caller |
| SandboxText.BreakReportedAsSuccess | src/bin/mw_exec.rs:43-46 | a plugin that writes 7 and breaks: success with 7 for the host, a halted chain for a direct caller |
| SandboxText.SessionInOrder | src/sandbox.rs:88-104 | over a whole session every call gets the report for its own input, and nothing is left over |
| SandboxText.CutAnswerIff | src/sandbox.rs:92-101 | an answer cut short by a crash reads like the whole one iff at most its newline is missing |
| SandboxText.CutAnswerMisread | src/sandbox.rs:94-100 | a cut answer that reads as success with another number |
| SandboxText.GarbageIsZero | src/bin/mw_exec.rs:41 | a line that holds no number is answered as a 0 is |
| SandboxText.JudgeCases | src/sandbox.rs:92-101 | end of stream, no number, `-999` and any other number are told apart |
| Decimal.ParsesBack | src/compile.rs:189 | a printed number parses back, iff it is within the bound |
| Decimal.ParsesBackSigned | src/bin/mw_exec.rs:41 | every i32 printed and parsed is itself |
| Decimal.ParsesIff | src/bin/mw_exec.rs:41 | a text parses as an i32 iff it is an optional sign and at least one digit, in range, and then as that number |
| Text.WhiteIs | src/compile.rs:171 | white space is the 25 characters of the Unicode property, listed |
| Text.EitherLineEnd | src/compile.rs:170 | a line ends at a newline, with or without a carriage return in front of it |
| Hashing.Fnv1a64 | src/compile.rs:296-303 | the loop computes the hash of the whole input |
| Hashing.RoundBijective | src/compile.rs:299-300 | a round is a bijection on u64 in the hash for a fixed word, with its inverse given |
| Hashing.RoundBijectiveInWord | src/compile.rs:299-300 | and in the word for a fixed hash |
| Hashing.RoundInjective | src/compile.rs:299-300 | so different hashes stay different under one word, and different words separate one hash |
| Hashing.OneWordChanged | src/compile.rs:296-303 | inputs of equal length that differ in one place never collide |
| Hashing.CommonSuffix | src/compile.rs:296-303 | a common suffix neither makes nor hides a collision |
| Hashing.LayoutFingerprintOf | src/runtime.rs:132-141 | the nested loop hashes offset, size and alignment of every field in order |
| Hashing.OneFieldChanged | src/runtime.rs:125-141 | field lists differing in one offset, size or alignment never have the same fingerprint |
| Hashing.LayoutFingerprintInjective | src/runtime.rs:120-122 | with alignments below 2^32, equal plain fingerprints mean equal alignment and equal size modulo 2^32 |
| Hashing.CacheKeyInjective | src/compile.rs:322-323 | for one source the key determines the toolchain fingerprint, and for one toolchain the source hash |
| Hashing.ToolchainSwapsHalves | src/compile.rs:322-323 | the toolchain fingerprint enters the key with its halves exchanged |
| Hashing.KnownHash | src/compile.rs:296-303 | one zero byte hashes to the value FNV-1a has for it |
| CacheNaming.SameFileIff | src/compile.rs:322-324 | under one toolchain two requests share a cached file iff names and source hashes agree |
| CacheNaming.OneByteEdit | src/compile.rs:322-324 | changing one byte of a source changes its file |
| CacheNaming.ToolchainsApart | src/compile.rs:322-324 | no file of one toolchain serves a request under another |
| Hashing.DepsTextAmbiguousIff | src/compile.rs:142-143 | the hashed text belongs to a second pair with a shorter source iff the separator can be found in source plus newline |
| Hashing.DepsTextInjective | src/compile.rs:142-143 | between sources without it, the text determines source and dependencies |
| Hashing.PlainSharesTextIff | src/compile.rs:142-144 | the text of a build without dependencies is also that of one with dependencies iff it contains the separator |
| CachePublish.Pipeline.BuildPluginCached | src/compile.rs:307-346 | alone: the path returned is named after the request's name and the hash of its source; a hit changes no file; a miss compiles and publishes the request's artifact there; hit or miss, it is the request's own artifact if no other source has that hash; other keys stay; the counters move accordingly |
| CachePublish.PublicationIsAtomic | src/compile.rs:334-341 | however builders interleave, fail, or lose files to cleanup, a cached path is absent or a whole artifact for its key, and no two builders write to one file; for one process, and for several that share no plugin name |
| CacheSharing.AtomicIffNamesApart | src/compile.rs:334-341 | for any jobs: in every world, from every sound directory and every state of the counters, all runs keep cached paths whole, iff jobs of different processes have different names |
| CacheSharing.TwoProcessesTear | src/compile.rs:337-341 | two jobs of one name in processes that have counted equally far, among any others: a run that publishes a partial copy and returns it as success |
| CacheSharing.TornWriteLeavesGap | src/compile.rs:338-339 | once another process has reopened the copy, the next write of the first leaves zeros where its earlier bytes were |
| CachePublish.OneBuildAtATime | src/compile.rs:67 | the build lock: at most one builder of a process is inside cargo |
| CachePublish.RequestsAreHitsPlusMisses | src/compile.rs:278-283 | in every process requests = hits + misses, except for builders between the two increments of a hit, exactly |
| CachePublish.HitsMayExceedRequests | src/compile.rs:326-330 | a reachable state with more hits than requests |
| CachePublish.PathsDifferIff | src/compile.rs:322-324 | two requests have different cached paths iff they differ in name or in the hash of their source |
| CachePublish.ReturnsNameArtifacts | src/compile.rs:326-346 | under the same condition, and unless cleanup interferes, a successful return names a whole artifact under the name and source hash of the request, its own if no other source has that hash |
| CachePublish.SmoothRunSucceeds | src/compile.rs:307-346 | if every compilation succeeds, no file operation fails and cleanup does not interfere, no builder returns an error, and when none can move all have returned their path |
| CachePublish.PieceCopied | src/compile.rs:339 | the copy may proceed in pieces of any size, each leaving a longer prefix of the artifact |
| CachePublish.FailureLeavesFiles | src/compile.rs:315-341 | making the directory, starting cargo and every step of the copy may fail, which leaves directory and counters as they were |
| CachePublish.RejectionReleases | src/compile.rs:67-110 | when the compiler rejects the source, the build lock is free again, the directory as it was, and the call an error |
| CachePublish.EvictionForcesMiss | src/compile.rs:326-330 | a look-up hits iff the path is there, and misses once it was evicted |
| CachePublish.WaitsOnlyForTheLock | src/compile.rs:67 | a builder that has not returned has a step of its own, or waits for the build lock, whose holder then has the step that releases it |
| CachePublish.EveryScheduleCompletes | src/compile.rs:307-346 | under every schedule the builders take a bounded number of steps, and none can take another iff all have returned |
| Eviction.SortDetermined | src/compile.rs:366 | the sort is the only ordering by age that keeps files of one age in their order |
| Eviction.AgeOrder | src/compile.rs:366 | ages form a total order in which a file without a time is the oldest |
| Eviction.CacheDir.Cleanup | src/compile.rs:349-377 | deletes exactly the specified files, even when deletes fail, and returns how many; its loop keeps the total equal to the bytes in the directory and terminates |
| Eviction.MinusHolds | src/compile.rs:371-373 | exactly the named files are gone |
| Eviction.EvictedIsShortestPrefix | src/compile.rs:369-375 | when every delete succeeds, what goes is the shortest oldest-first prefix that fits the budget, or all but the newest |
| Eviction.NewestStays | src/compile.rs:369-375 | the newest file is never deleted, nor is one whose delete fails counted |
| Eviction.CleanupFitsIff | src/compile.rs:366-376 | afterwards the directory fits the budget iff the newest file and the older undeletable ones do |
| Diagnostics.ExtractDiagnostics | src/compile.rs:168-199 | the loop over lines equals the recursive parser, panic included |
| Diagnostics.PanicsIff | src/compile.rs:173-176 | there is no result iff some trimmed line has `error[` with no closing bracket after it |
| Diagnostics.UnclosedPanics | src/compile.rs:173-176 | in particular for a line such as `error[E0308`, whatever the code |
| Diagnostics.HeaderReadsBackIff | src/compile.rs:173-181 | a printed header gives code and message back iff the code holds no bracket and the message is not empty, ends in no white space and does not start with a colon and space |
| Diagnostics.LocationRead | src/compile.rs:186-193 | the line number of any `path:line:column` is read back iff it fits u32, colons in the path included |
| Diagnostics.TwoColonsNeeded | src/compile.rs:186-193 | with fewer than two colons there is no line number |
| Diagnostics.HeaderBehind | src/compile.rs:173-181 | a header behind other text is found where it starts and read as if it stood alone |
| Diagnostics.ParsingInvertsPrinting | src/compile.rs:167-199 | any list of diagnostics printed as headers with locations among ignorable lines is parsed to the same list, each with its first location |

## Left out

Not modelled:

- Cargo and rustc, `toolchain_report`, target directory cleanup and file contents: a build is a function from request to artifact, or a failure.
- dlopen, symbols, ABI versions, `PluginRegistry`, raw pointers and unload protection: a plugin is a function on the request that returns a code.
- Clocks, wakers, thread spawning and pipe capacity: time is a parameter that does not run backwards, wake-ups and schedules are arbitrary, pipes are unbounded byte queues with an end of stream.
- Mutex poisoning, `catch_unwind` and the `exec_catch` primitives; a panic of the core is an outcome of the i32 chain and of the handler fragment only.
- Debug builds: where i32 or u32 arithmetic overflows, release wrap-around is modelled. `COUNTER` and the failure and window counters are unbounded, so wrap-around after 2^32 increments is not seen.
- `exec_or`, `exec_fallible`, deadline and trace pre-checks: one match around a modelled executor. `src/chain.rs` has `add` and `set` as the type-erased chain has them; its `remove` panics past the end, and its retry writes nothing back.
- `src/config.rs`, `src/metrics.rs`, `src/migrate.rs`, `src/generic.rs`, `src/async_generic.rs`: lookups, or near copies of modelled code.
- Documentation stripping, `.bak` files, printing of the migrated source and the bodies of macros such as `println!`; `render_diags` and shared type injection.

Form:

- Syntax trees, context values, hooks and items are values, and user code (middleware, cores, plugins) is a function on values: aliasing inside user code is not captured. Where the source rewrites a tree in place, the file's item list is the field that changes.
- The handler fragment has let, assignment, if, blocks, i32 arithmetic, calls of total functions and methods, and return; types are checked as code is executed, returns and clashes of names in the generated closure before. Loops, references, closures, macros, nested items and patterns other than a name are outside it. String literals are outside it, so a pattern can only occur in a name; in the middle of a block only an `if` or a block stands without a semicolon, as the grammar has it.
- Of a function's qualifiers only `const` is recorded. Items of the file whose names meet those of the template (`input`, `ctx`, `mw_timing`, `proc_mw`, `Ok`) are not seen.
- The number of awaits of a node is fixed: nodes that await in a loop over data are outside the async chain. No other task changes the shared state while a future is suspended.
- The line protocol is compared with a chain around a core that returns its input; the byte protocol with the plugin's `call` alone. A plugin keeps no state between calls and does not crash in the line protocol except by cutting the stream.
- Node exits of the precompiled chain are those of the dynamic chain's nodes.
- The directory that eviction lists has distinct names and does not change while it is being cleaned.
- Cleanup of the cache directory appears in the publication model as the removal of any one file at any moment; the shared target directory is not cleaned while a builder copies from it.

Weaker than one might expect:

- BuiltinSummary.BuiltinChainSummary: says nothing once an executed Add has overflowed, since two wrap-arounds may cancel out.
- MigrationMeaning.MigrationPreservesMeaning: the conditions on timing statements and on rebinding are sufficient; each has a counterexample without it, but a handler may violate one and still be lucky. A type alias for i32 is not seen through.
- Parallel.ScheduleIndependent: middlewares without shared state, and threads that do not panic; shared state is treated for one rate limiter in `Parallel.ExactlyTheRestPass`.
- Admission.AdmissionBound: fewer than 2^32 callers and dropped calls together, so that they alone do not wrap the counter around. `Admission.CounterLaw` has no such limit.
- CachePublish.ReturnsNameArtifacts: with cleanup interfering, a path may be gone by the time it is returned; `CachePublish.PublicationIsAtomic` still excludes partial files.
