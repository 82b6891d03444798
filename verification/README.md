# Foundry, modelled in Dafny

This project models the parts of Foundry whose behaviour is hardest to see from the code and proves what
they promise:

- the `expectEmit` tracker, a queue of expectations that emitted logs fill, count, match and rotate
  (`ExpectEmit.dfy`, `ExpectEmitProperties.dfy`, `ExpectEmitMatching.dfy`, `ExpectEmitTurns.dfy`,
  `ExpectEmitHashOrder.dfy`, `ExpectEmitScenarios.dfy`);
- the EVM version probe, a code generator, against a straight-line EVM interpreter after Appendix H of the
  Ethereum Yellow Paper (`Evm.dfy`, `EvmVersionProbe.dfy`);
- Anvil's block producer and the service that drives it (`BlockProducer.dfy`);
- the stable fork snapshot, read from an endpoint that may be reset between any two requests: the endpoint
  (`ForkEndpoint.dfy`), the read protocol as a relation (`ForkReads.dfy`), what every run of it guarantees
  (`ForkProperties.dfy`, `ForkContents.dfy`, `ForkMixing.dfy`), the retry loop that runs it
  (`ForkSnapshot.dfy`) and the two checks of another endpoint (`ForkChecks.dfy`); and the preimage of a fork
  source id (`SourceId.dfy`);
- the push and polled log streams (`LogStreams.dfy`);
- RLP items: the frame-stack decoder, the printer with its own stack and the drop loop (`Rlp.dfy`,
  `RlpRoundTrip.dfy`, `RlpErrors.dfy`, `RlpText.dfy`, `RlpValues.dfy`), with the header layer of Appendix B
  of the Yellow Paper;
- the conversion of a `callTracer` frame tree into a trace arena (`TraceOrdering.dfy`, `TraceArena.dfy`,
  `TraceReadBack.dfy`);
- the call-argument splitter (`CallArgs.dfy`) and numbers in four bases (`NumberBase.dfy`).

Code that updates state is imperative here too: classes for the tracker, the block producer, the miner, the
service, the log streams and the arena, loops with invariants for the generators, decoders, printers,
scanners and retries. Each method is proved against a specification, and the specification's meaning is
proved beside it.

The environment enters as follows. CREATE and CALL are answered by any functions of the history. A mining
task may take its lock, finish with any outcome or panic, and requests to pause, resume or switch the mining
mode may come, at every poll; the mode may have any transactions ready. A fork endpoint moves through epochs between requests and may
fail any request; it never reuses an instance id, and only a reset replaces blocks. Notifications arrive at
any time, and block storage may hold an announced block, with any contents, or not. The order in which
a hash map is iterated is a nondeterministic choice. Library number readers are any that read plain numerals
correctly and take no sign.

Five promises turn out to have limits, each stated exactly:

- Hash order never decides whether a call passes: all runs over a trace agree at the call end
  (`CallEndsAgree`), which passes exactly when the expectations take their matches in turn, one of several
  logs from any emitter taking them from a single emitter (`CallPassesIff`). But where it fails, hash order
  decides which failure is reported (`FailureReported`), and it decides the verdict of the root end, which
  compares no counts. Runs agree on that exactly when the expectation names its emitter or expects at most
  one log (`VerdictsAgreeIff`); for a given trace, some run passes it exactly when some single emitter sent
  enough (`SomeRunPassesIff`), and every run exactly when right after some matching log everyone who had
  sent a match had sent enough (`EveryRunPassesIff`).
- Expectations wait in the order of their declaration exactly as long as found entries stand at the back of
  the queue (`DeclaredIsLastIff`), and pushing a prefilled expectation, as the logo-URI cheatcode does, keeps
  that exactly when nothing has been found yet (`PushBackKeepsSuffixIff`). Afterwards a later declaration
  overtakes it (`PrefilledIsOvertaken`), and the logs are required in the opposite order
  (`PrefilledRequirementOrder`).
- A fork snapshot without an instance id may mix endpoint epochs: exactly when its identity can be read
  before and after an epoch whose block no epoch with that identity has (`MixingIff`). Some endpoint brings
  that about exactly when the configuration can read an identity in one epoch that it cannot read in another
  (`MayMixIff`, and by the options set, `TellsApartIff`).
- Two log streams with the same notifications may deliver different logs, depending on what the storage
  answers them. The notifications alone decide exactly when the filter accepts no log of a block with the
  hash and number of a new block among them (`DecidesIff`).
- A number survives printing and parsing exactly when its sign flag agrees with its bits or is not printed
  (`RoundTripIff`); every number the code can make has that property (`MadeNumbersAgree`).

Check the whole project with `dafny verify dfyconfig.toml`.

## Model

| member | source | states |
|---|---|---|
| ExpectEmit.Tracker.ObserveLog | crates/cheatcodes/src/expected_emit.rs:91-208 | one log takes the queue to a state the step relation allows: early returns, zero-count failure, fill in place, anonymous drop, count, verdict for any hash order, requeue at back or front |
| ExpectEmit.Tracker.Expect | crates/cheatcodes/src/test/expect.rs:919-947 | a new expectation goes before the first matched one |
| ExpectEmit.Tracker.ExpectLogoUriUpdated | crates/cheatcodes/src/test/expect.rs:494-515 | a prefilled expectation of one log from the token goes to the very back |
| ExpectEmit.Tracker.CheckCallEmits | crates/cheatcodes/src/expected_emit.rs:553-604 | the call-end verdict over the whole queue, and clearing only when there is none |
| ExpectEmit.Tracker.FirstUnmetRootEmit | crates/cheatcodes/src/expected_emit.rs:610-631 | marking zero-count entries and retaining the unmatched leaves exactly the pending entries, and the failure says whether any is left |
| ExpectEmit.LogCountMap.ComputeCount | crates/cheatcodes/src/expected_emit.rs:260-271 | the sum over all counted logs, or zero for a log that fails the checks, in whatever order the map is walked |
| ExpectEmit.ComputeFinalCount | crates/cheatcodes/src/expected_emit.rs:567-584 | the count compared at call end: the emitter's, or the sum over all emitters |
| ExpectEmit.Decide | crates/cheatcodes/src/expected_emit.rs:169-195 | the verdict is one that some hash order gives |
| ExpectEmit.EqualWhereChecked | crates/cheatcodes/src/expected_emit.rs:273-295 | a log is the expected one if and only if both are equal in all that the checks let through: the number of topics, each checked topic, and the data if it is checked |
| ExpectEmitMatching.MatchingIsComplete | crates/cheatcodes/src/expected_emit.rs:91-208 | from fresh filled expectations that do not depend on hash order, every run over any trace matches all of them if and only if the permitted logs contain, as a subsequence, count matches of the first, then of the second, and so on |
| ExpectEmitMatching.RunIsGreedy | crates/cheatcodes/src/expected_emit.rs:120-205 | over every trace, counting, matching and rotating leave exactly what greedy subsequence matching of the permitted logs leaves |
| ExpectEmitMatching.GreedyIsComplete | crates/cheatcodes/src/expected_emit.rs:91-208 | taking the earliest match each time succeeds whenever any in-order choice of matches exists |
| ExpectEmitTurns.CallPassesIff | crates/cheatcodes/src/expected_emit.rs:553-604 | for every queue of fresh filled expectations, whatever the hash order, a call at a tracked depth passes and clears the tracker if and only if each expectation in turn finds its count of matches after those of its predecessor, the first matches of one of several logs from any emitter all coming from one emitter; without such expectations, if and only if the permitted logs contain the requirements in order |
| ExpectEmitTurns.CallEndsAgree | crates/cheatcodes/src/expected_emit.rs:553-604 | all runs over a trace agree on whether the call end passes |
| ExpectEmitTurns.RunTakesTurns | crates/cheatcodes/src/expected_emit.rs:91-208 | from every filled queue that keeps the invariant, whatever was counted before, over every trace and hash order: the queue a trace leaves can pass as it is exactly when the pending expectations before it could take the permitted logs in turn, and what was settled had the right counts |
| ExpectEmitScenarios.GivenEmitterPassesIff | crates/cheatcodes/src/expected_emit.rs:91-208 | for an expectation of a given emitter and any trace, the call passes if and only if that emitter sent at least the expected number of logs equal to the template where checked; with everything checked, if and only if the trace holds that very log so many times |
| ExpectEmitScenarios.CallEndClearsIff | crates/cheatcodes/src/expected_emit.rs:559-604 | a call end clears the tracker if and only if it is at a tracked depth, not static, with nothing left over and no count off; otherwise it changes nothing, and a static one or one at another depth reports nothing |
| ExpectEmitScenarios.BystandersTakenOut | crates/cheatcodes/src/expected_emit.rs:559-563 | taking the ends of static calls and of calls at other depths out of any run leaves a run to the same state |
| ExpectEmitScenarios.TestPassesIff | crates/cheatcodes/src/expected_emit.rs:553-604 | from the empty tracker, declaring and filling any list of expectations, then any trace, with the ends of static calls and of calls at other depths anywhere in between, then the end of a call passes if and only if the expectations take their matches in turn, in the order of declaration |
| ExpectEmitScenarios.MismatchReported | crates/cheatcodes/src/expected_emit.rs:169-184 | an expectation still pending after a trace is reported with how the last unexpected log differed: in what is checked of it, or else in its emitter |
| ExpectEmitProperties.CallEndVerdicts | crates/cheatcodes/src/expected_emit.rs:587-604 | in every reachable state, mixed queues included, a call end reports the first unmatched expectation, reports a wrong count only for an expectation of several logs from any emitter, and clears the tracker otherwise |
| ExpectEmitProperties.OnlyHashOrderMiscounts | crates/cheatcodes/src/expected_emit.rs:565-585 | with nothing pending, every miscounted expectation has no address and a count above one |
| ExpectEmitProperties.StepKeepsInvariant | crates/cheatcodes/src/expected_emit.rs:102-205 | every log keeps all entries behind a found one filled, counts exact and zero-count expectations unmatched, and found entries a suffix if they are one |
| ExpectEmitProperties.ReachableInvariant | crates/cheatcodes/src/expected_emit.rs:91-208 | the invariant holds in every state of every run of declarations, prefilled expectations, logs, call ends and root ends |
| ExpectEmitProperties.FoundEntriesFrozen | crates/cheatcodes/src/expected_emit.rs:120-135 | a found entry is never examined again: the found entries stay as they were, counters included, in order, and a newly found one comes last |
| ExpectEmitMatching.RunFreezesFound | crates/cheatcodes/src/expected_emit.rs:197-205 | the same over whole traces |
| ExpectEmitProperties.StepConservesDeclarations | crates/cheatcodes/src/expected_emit.rs:137-205 | a log leaves the multiset of declarations as it was, but for the one at the index to fill, which gets its template, or is dropped alone; the anonymous-event failure comes exactly in the last case, the zero-times failure exactly on a forbidden log |
| ExpectEmitProperties.ExactCounts | crates/cheatcodes/src/expected_emit.rs:154-195 | in every reachable state an emitter-bound expectation is found exactly when its counter stands at the expected count, which it never exceeds |
| ExpectEmitProperties.ZeroCountSoundness | crates/cheatcodes/src/expected_emit.rs:102-118 | in every reachable state the zero-times failure comes exactly on a log that matches a filled zero-count expectation, changes nothing, and no such expectation is ever found |
| ExpectEmitProperties.DeclareThenFill | crates/cheatcodes/src/expected_emit.rs:137-152 | declaring an expectation and emitting its template appends the filled expectation behind the unmatched ones and changes nothing else |
| ExpectEmitProperties.PushBackKeepsSuffixIff | crates/cheatcodes/src/test/expect.rs:494-515 | a prefilled expectation pushed at the back keeps the found suffix exactly when nothing has been found |
| ExpectEmitProperties.DeclaredIsLastIff | crates/cheatcodes/src/test/expect.rs:937-944 | a new expectation waits behind all others exactly when found entries form a suffix |
| ExpectEmitProperties.PrefilledIsLast | crates/cheatcodes/src/test/expect.rs:513-513 | a prefilled expectation always waits behind all others |
| ExpectEmitProperties.PrefilledIsOvertaken | crates/cheatcodes/src/test/expect.rs:494-515 | in a reachable state, after one expectation was met, a prefilled expectation is overtaken by a later declaration |
| ExpectEmitMatching.PrefilledRequirementOrder | crates/cheatcodes/src/test/expect.rs:494-515 | after a prefilled expectation and a later filled one, the logs are required in the order of declaration if nothing had been found, and in the opposite order otherwise |
| ExpectEmitProperties.PassingMeansOneEmitter | crates/cheatcodes/src/expected_emit.rs:565-604 | in any run, an expectation of any emitter that passes a call end had all its counted logs from one single emitter |
| ExpectEmitProperties.RootPassesIff | crates/cheatcodes/src/expected_emit.rs:610-631 | the root end passes exactly when nothing that expects a log is left unmatched |
| ExpectEmitMatching.RunExists | crates/cheatcodes/src/expected_emit.rs:137-138 | every trace can be observed from every queue: removal is always at a valid index |
| ExpectEmitHashOrder.CallEndPassesIff | crates/cheatcodes/src/expected_emit.rs:565-604 | for an expectation of any emitter, any trace and any run over it, the call end passes if and only if right after some matching log a single emitter has sent the expected number of matches and nobody else any |
| ExpectEmitHashOrder.FailureReported | crates/cheatcodes/src/expected_emit.rs:587-604 | where the call end fails, a run that found the expectation reports a wrong count and any other an unmatched expectation |
| ExpectEmitHashOrder.VerdictsAgreeIff | crates/cheatcodes/src/expected_emit.rs:186-195 | all runs over every trace from one filled expectation end in the same verdict of the root end if and only if it names its emitter or expects at most one log |
| ExpectEmitHashOrder.SomeRunPassesIff | crates/cheatcodes/src/expected_emit.rs:610-631 | for an expectation of any emitter and any trace, some run passes the root end if and only if some single emitter sent the expected number of matches |
| ExpectEmitHashOrder.EveryRunPassesIff | crates/cheatcodes/src/expected_emit.rs:610-631 | every run passes the root end if and only if right after some matching log everyone who had sent a match had sent the expected number |
| ExpectEmitHashOrder.ContestedVerdict | crates/cheatcodes/src/expected_emit.rs:190-193 | for every expectation of several logs from any emitter some trace passes the root end in one run and fails it in another, while at the call end the one reports a wrong count and the other an unmatched expectation |
| EvmVersionProbe.ProbeCode | crates/cast/src/evm_version.rs:95-129 | the generator loop emits header, one block per probe, footer and the initcodes, each block with the offset of its initcode |
| EvmVersionProbe.DeployCode | crates/cast/src/evm_version.rs:132-140 | the prefix that copies and returns, then the runtime |
| EvmVersionProbe.ProbeCodeComputesMask | crates/cast/src/evm_version.rs:95-129 | for every list of at most 8 short runtimes and every environment, executing the bytes deploys and calls each probe once, in order, and returns a word whose bit i is set exactly when probe i was created and its call succeeded, with no higher bit |
| EvmVersionProbe.DeployCodeReturnsRuntime | crates/cast/src/evm_version.rs:132-140 | executing the initcode returns exactly the runtime |
| EvmVersionProbe.ProbeDetectsVersion | crates/cast/src/evm_version.rs:49-88 | for every environment the client reads back the version whose rank in release order is the number of probes that succeeded without a gap |
| Evm.ExecRuns | crates/cast/src/evm_version.rs:106-127 | executing bytes that hold an assembled program runs that program, instruction by instruction |
| Evm.BitsOfAnd | crates/cast/src/evm_version.rs:117-118 | the interpreter's AND, which joins success and creation, works bit by bit |
| Evm.BitsOfOr | crates/cast/src/evm_version.rs:119-120 | so does its OR, which adds a probe to the mask |
| BlockProduction.BlockProducer.PollNext | crates/anvil/src/service.rs:181-255 | between polls exactly one of idle backend and task; a ready poll settles exactly the oldest work with what its own task saw and returned, and clearing on failure drops nothing |
| BlockProduction.BlockProducer.Happen | crates/anvil/src/service.rs:198-206 | a task that takes the mining lock sees the pause epoch of that moment, once, whatever requests come before and after |
| BlockProduction.NodeService.Poll | crates/anvil/src/service.rs:80-125 | over any answers of task and mining mode and any requests and lock steps in between, works are taken in order, every accepted work is settled, in flight or queued once, each comes out as it should, the miner hears, in order, of exactly the works that were never paused, had something left and whose mining erred, and work is left only for a task in flight, a pause or a mode with none ready |
| BlockProduction.NodeService.Advance | crates/anvil/src/service.rs:87-98 | polls until pending, failed or panicked, and says which; every poll uses one answer and settles one candidate, but for a last one that is pending |
| BlockProduction.BlockProducer.Enqueue | crates/anvil/src/service.rs:102-107 | work enters an idle producer only |
| BlockProduction.StaleIffPauseChanged | crates/anvil/src/eth/miner.rs:176-198 | a candidate is stale exactly when some request since its selection changed the pause state, even if changed back |
| BlockProduction.PausedIffOdd | crates/anvil/src/eth/miner.rs:176-193 | mining is running at first and then as the last request about it said, and the parity of the epoch tells so |
| BlockProduction.OutcomeIff | crates/anvil/src/service.rs:197-246 | a candidate is skipped if and only if mining was paused at some moment from its selection to its task's mining lock or nothing it selected is left; otherwise the first ready transactions, as many as were selected, are mined, and it is mined with the number, or failed with its own generation, exactly as that came out |
| BlockProduction.GenerationStaysIff | crates/anvil/src/eth/miner.rs:107-188 | the generation is the same at two moments if and only if no request between them changed the pause state or the mode |
| BlockProduction.Miner.HandleFailedCandidate | crates/anvil/src/eth/miner.rs:118-138 | a failed candidate counts as current if and only if nothing changed since its selection |
| BlockProduction.Miner.Poll | crates/anvil/src/eth/miner.rs:144-158 | nothing is selected while paused; what is selected carries the pause epoch and the generation of its moment |
| BlockProduction.Miner.SetPaused | crates/anvil/src/eth/miner.rs:176-188 | epoch and generation move on exactly the requests that change the pause state |
| BlockProduction.Miner.SetMiningMode | crates/anvil/src/eth/miner.rs:107-115 | a switch of the mode moves the generation and leaves the pause epoch |
| ForkSnapshot.StableForkSnapshot | crates/anvil/src/config.rs:1836-1882 | the loop makes a run of the read protocol; an accepted snapshot with an instance id has its whole identity, its block, its replay block and its gas price from one epoch; its block is the chosen one, its identity and price hold what was reported, and it is marked mutable exactly when the endpoint may be Anvil; the endpoint is given up as changed only after three disagreeing attempts |
| ForkProperties.SnapshotIsAtomic | crates/anvil/src/config.rs:1836-1882 | over every run of the protocol, every interleaving of resets with the requests included, an accepted snapshot with an instance id is that of one epoch within the run |
| ForkProperties.QuietRunAccepts | crates/anvil/src/config.rs:1836-1882 | an endpoint that answers, can be identified and is not reset is accepted at the first attempt |
| ForkProperties.QuietIsAccepted | crates/anvil/src/config.rs:1841-1876 | an attempt at an endpoint that answers and is not reset never disagrees, and is accepted exactly when the endpoint is identified and the block derived |
| ForkProperties.ChangedOnlyAfterThree | crates/anvil/src/config.rs:1842-1881 | the endpoint is reported as changed only after three attempts whose readings disagreed |
| ForkMixing.MixingIff | crates/anvil/src/config.rs:1729-1742 | for every configuration, history, identity without an instance id and block number, some run accepts a snapshot of that identity with a block that no epoch with that identity has, if and only if the identity can be read before and after such an epoch |
| ForkMixing.ReadingsMayStraddle | crates/anvil/src/config.rs:1774-1792 | a snapshot may be accepted whose identity no single epoch has, its chain id and node info being read in different epochs |
| ForkMixing.MayMixIff | crates/anvil/src/config.rs:1729-1742 | for every configuration, some endpoint that never reuses an instance id lets a mixed snapshot through if and only if the configuration can read an identity in one epoch that it cannot read in another |
| ForkMixing.TellsApartIff | crates/anvil/src/config.rs:1774-1792 | that is never with the chain id overridden and node info skipped, with the chain id overridden exactly when two node infos identify the endpoint differently, and otherwise as soon as any endpoint can be identified |
| ForkMixing.NothingToTellApart | crates/anvil/src/config.rs:1774-1784 | with the chain id overridden and node info skipped no accepted snapshot mixes epochs in that sense |
| ForkChecks.ForkContextMatches | crates/anvil/src/config.rs:1884-1918 | the loop makes a run of up to three checks, and the answer is that of the last; a positive one for an identity with an instance id means that the epoch it ended in had that identity and that block |
| ForkChecks.QuietContextMatchesIff | crates/anvil/src/config.rs:1884-1918 | an endpoint that answers, can be identified and is not reset matches exactly when it has the expected identity and holds the block, and is refused exactly when its source chain differs |
| ForkChecks.ReplacementForkProvider | crates/anvil/src/config.rs:1794-1834 | the loop makes a run of up to three checks, and the result is that of the last; an accepted endpoint is not the node itself, has the expected context, and had it and the fork block in one epoch |
| ForkChecks.QuietReplacesIff | crates/anvil/src/config.rs:1794-1834 | an endpoint that answers, can be identified and is not reset is accepted exactly when it is not the node itself, has the expected context and holds the block, and refused as the node's own exactly when it is |
| ForkChecks.AgreementIsAtomic | crates/anvil/src/config.rs:1804-1829 | over every interleaving of resets with the requests, checks that agree on an identity with an instance id end in an epoch with that identity and that block |
| ForkChecks.QuietDecides | crates/anvil/src/config.rs:1884-1918 | an endpoint that answers and is not reset is never found changed: the first check decides |
| ForkChecks.ChangedAfterThree | crates/anvil/src/config.rs:1803-1833 | the endpoint is found changed exactly when every check found it so, after three of them, and there are never more |
| ForkChecks.StopsEarly | crates/anvil/src/config.rs:1804-1809 | an endpoint that cannot be identified or is the node itself is asked nothing more |
| ForkSnapshot.ResolveIdentity | crates/anvil/src/config.rs:1680-1792 | the requests made, in which epoch each is served, and the identity and probe they give; node info and metadata may come from different epochs |
| ForkContents.IdentifiedIff | crates/anvil/src/config.rs:1709-1771 | node info and metadata give an identity if and only if its execution chain is the reported one, its source chain the override, else the forked chain, else the reported one, its instance and fork block are the reported ones, and its profile and hardfork are those of the reported names |
| ForkContents.IdlessReadingIs | crates/anvil/src/config.rs:1687-1742 | an identity without an instance id has the overriding or reported chain as both chains, no fork block, and a hardfork only from node info |
| ForkContents.SnapshotIdentity | crates/anvil/src/config.rs:1836-1882 | over every run, the identity of an accepted snapshot holds what one epoch reported or, without an instance id, what the chain id and node info of two epochs make of it, and its source chain is supported |
| ForkContents.SnapshotPrice | crates/anvil/src/config.rs:1861-1865 | over every run, the gas price is the given one, else the reported one of its epoch, and the initial price only if the request failed |
| ForkContents.MutableIff | crates/anvil/src/config.rs:164-190 | over every run, a snapshot is marked mutable if and only if the endpoint was known to be Anvil or some reading was not clearly told that it is not |
| ForkContents.ReadingFailsIff | crates/anvil/src/config.rs:1680-1792 | a reading fails exactly for want of a chain id, for an endpoint known to be Anvil that denies it or has an error, for a metadata error, or for a source chain that is not supported |
| ForkContents.DerivationFailsIff | crates/anvil/src/config.rs:2386-2488 | no block is derived exactly when a request failed, the transaction is not mined, its block is missing, or the transaction is not in it once and where reported |
| ForkContents.RunFailsFor | crates/anvil/src/config.rs:1842-1881 | a run that fails, but for a changed endpoint, fails for a reading, the derivation or the block request of its last attempt |
| ForkProperties.AgreeingIdentity | crates/anvil/src/config.rs:1841-1868 | two equal readings make the identity that of one epoch, though the first node info may be older |
| ForkProperties.EqualSnapshotsOneEpoch | crates/anvil/src/config.rs:1836-1882 | two snapshots of one endpoint with equal identities are of one epoch, and hold the same block at the same number, whenever and however configured they were taken |
| ForkMixing.NoInstanceIdNoGuarantee | crates/anvil/src/config.rs:1729-1742 | for every configuration that forks the latest block and can place a chain, an endpoint reset to another chain and back lets a snapshot of the one chain with a block of the other through |
| ForkProperties.OnceIdentifiedStrict | crates/anvil/src/config.rs:164-190 | once a run has seen Anvil's node info, in either reading of any attempt or before it started, no later reading takes the endpoint for anything else unless its request timed out |
| ForkSnapshot.DeriveBlockAndReplay | crates/anvil/src/config.rs:2386-2432 | the requests made and the block number and replay they give |
| ForkProperties.DerivedIsChosen | crates/anvil/src/config.rs:2386-2432 | the number is the fixed one, or counted back from the reported head as an unsigned 64-bit number, or the first block found back from the reported head, the ones before it being passed over, or the parent of the reported block of the fork transaction, in which it occurs once |
| ForkProperties.SnapshotIsChosen | crates/anvil/src/config.rs:1844-1855 | over every run, an accepted snapshot has the block number and replay that the replies of its accepted attempt stand for |
| ForkEndpoint.ReplayIff | crates/anvil/src/config.rs:2434-2488 | a replay is accepted exactly when the transaction's location is the fetched block, that block has a parent, and the transaction occurs in it once, at the reported index if there is one |
| ForkSnapshot.FindLatestForkBlock | crates/anvil/src/config.rs:2651-2669 | walks back at most two blocks, passing one over only when it is missing or has no hash |
| SourceId.Preimage | crates/anvil/src/config.rs:213-223 | the nested loops build the length-prefixed encodings of both lists |
| SourceId.PreimageIsInjective | crates/anvil/src/config.rs:213-223 | equal preimages if and only if equal URL lists and equal header lists |
| BlockLogs.FilterLogs | crates/anvil/src/pubsub.rs:212-258 | the accepted logs of the flattened receipts with their metadata |
| BlockLogs.BlockLogIndices | crates/anvil/src/pubsub.rs:233-257 | the result is exactly the matching logs in order, each with its flat position as log index (modulo the 32-bit counter) and its receipt as transaction index |
| BlockLogs.KeepIsSubsequence | crates/anvil/src/pubsub.rs:264-275 | filtering keeps exactly the accepted logs in order, removed logs as they are |
| LogStreams.LogsSubscription.Poll | crates/anvil/src/pubsub.rs:46-86 | while notifications arrive, responses grow by one log and stay the in-order concatenation of each notification's filtered logs; Pending only when the receiver was pending and everything was emitted; the branch at line 82 is never taken |
| LogStreams.LogsFilter.Poll | crates/anvil/src/filter.rs:225-242 | all batches together are the historic logs once and then the same concatenation, with nothing left pending |
| LogStreams.SameStream | crates/anvil/src/filter.rs:225-242 | a drained subscription and a polled filter with the same notifications, and the same answers of the storage where the notifications alone do not decide, deliver the same logs after the historic prefix |
| LogStreams.DecidesIff | crates/anvil/src/pubsub.rs:55-67 | the notifications alone decide what is delivered if and only if the filter accepts no log of a block with the hash and number of any new block among them |
| LogStreams.StorageDecides | crates/anvil/src/pubsub.rs:55-67 | for every log of an announced block that the filter accepts, two streams with the same notifications differ when only one finds the block stored |
| LogStreams.DeliveryOrder | crates/anvil/src/pubsub.rs:55-77 | each notification's logs stand in one piece, in order of arrival |
| Rlp.Decode | crates/cast/src/rlp_converter.rs:26-60 | the frame-stack loop terminates and equals the recursive decoder on every byte string, error for error |
| RlpRoundTrip.DecodeInvertsEncode | crates/cast/src/rlp_converter.rs:17-60 | decoding the encoding of any item gives the item and leaves what follows |
| RlpRoundTrip.EncodeInvertsDecode | crates/cast/src/rlp_converter.rs:26-60 | whatever decodes is the encoding of the item it decodes to: no second encoding is accepted |
| RlpRoundTrip.EncodingsArePrefixFree | crates/cast/src/rlp_converter.rs:17-24 | encoding is injective and prefix-free |
| RlpErrors.TooShortIff | crates/cast/src/rlp_converter.rs:26-60 | an item's header is reported as too short if and only if it is wrong and more bytes could make it right, or its length was cut before its leading zero could be objected to |
| RlpErrors.OtherErrors | crates/cast/src/rlp_converter.rs:26-60 | the other errors come exactly on a prefixed single byte below 0x80, a length with a leading zero, and a length of at most 55 in the long form |
| RlpErrors.ErrorStays | crates/cast/src/rlp_converter.rs:26-60 | any error but a short input stays, whatever follows |
| RlpText.Display | crates/cast/src/rlp_converter.rs:94-121 | the printer with its own stack writes the text of the recursive printer for every item |
| RlpText.PrintParseRoundTrip | crates/cast/src/rlp_converter.rs:76-121 | reading the printed JSON back and converting it gives the same item |
| RlpText.ValueReadsBack | crates/cast/src/rlp_converter.rs:76-90 | converting the JSON value an item prints as gives the item |
| RlpValues.ConvertsIff | crates/cast/src/rlp_converter.rs:76-90 | a JSON value converts to an item if and only if it stands for it: null for no bytes, a number below two to the 256 for its minimal big-endian bytes, a string for the bytes its hex digits spell in either case, a list for the items of its values, and nothing else |
| RlpValues.NumberReadsBack | crates/cast/src/rlp_converter.rs:80-82 | every such number written in decimal converts to bytes that read back as it, and no larger one converts |
| RlpText.PrintingIsInjective | crates/cast/src/rlp_converter.rs:94-121 | two items with the same text are the same item |
| RlpText.Drop | crates/cast/src/rlp_converter.rs:62-73 | the drop loop terminates, pops every item below the root exactly once, and frees each only after its children were moved out |
| TraceOrdering.Interleave | crates/cast/src/rpc_trace.rs:157-171 | the bucket passes compute the merge of calls and logs |
| TraceOrdering.OrderingIsStableMerge | crates/cast/src/rpc_trace.rs:157-171 | every call and every log once, calls ascending, logs at one position in original order |
| TraceOrdering.StableMergeIsOrdering | crates/cast/src/rpc_trace.rs:157-171 | no other sequence is such a merge |
| TraceOrdering.LogComesAfterItsCalls | crates/cast/src/rpc_trace.rs:159-171 | each log comes after exactly the smaller of its position and the number of calls |
| TraceArena.Arena.PushFrame | crates/cast/src/rpc_trace.rs:77-176 | pushing, recursing and back-patching append exactly the preorder of the frame's subtree |
| TraceArena.Arena.FromRoot | crates/cast/src/rpc_trace.rs:32-44 | the arena of the root, with the missing root address filled in |
| TraceArena.ArenaIsFaithful | crates/cast/src/rpc_trace.rs:32-176 | for every frame tree and root address: as many nodes as frames, index equals position, parents and children agree with depths one apart, and following child links rebuilds the tree with only a missing root address filled in |
| TraceReadBack.FramesReadBack | crates/cast/src/rpc_trace.rs:32-229 | every frame tree can be read back from its arena: type, sender, recipient, value, gas, input, output and logs of each frame, with defaults where something was left out, gas capped at 64 bits, and the destroyed contract, its beneficiary and balance for a selfdestruct |
| TraceReadBack.CompleteTreeReadsBack | crates/cast/src/rpc_trace.rs:32-229 | a tree that leaves nothing out comes back as it was, but for the words of its failures |
| TraceReadBack.ArenaTells | crates/cast/src/rpc_trace.rs:83-198 | at every depth the arena tells whether a frame failed, with which status, and shows its data or else, in UTF-8, the words of its failure, and every log comes after as many calls as its position says |
| TraceReadBack.WordsReadBack | crates/cast/src/rpc_trace.rs:104-110 | the words of a failure can be read off the bytes shown for them |
| TraceArena.SubtreeIsContiguous | crates/cast/src/rpc_trace.rs:138-150 | every position starts the contiguous preorder of one frame of the tree |
| TraceArena.FailuresAreShown | crates/cast/src/rpc_trace.rs:77-198 | the arena of any tree shows exactly as many failed calls, none as a plain return, as the tree has failed frames at any depth |
| CallArgs.SplitCallArgs | crates/cast/src/call_spec.rs:152-195 | the scan cuts at exactly the top-level commas and trims |
| CallArgs.SplitRoundTrip | crates/cast/src/call_spec.rs:152-195 | trimmed arguments that close what they open and have no top-level comma come back from their comma-join, whatever whitespace each is padded with |
| CallArgs.TrimTakesEnds | crates/cast/src/call_spec.rs:181-193 | an argument is cleared of whitespace at both ends, of all of it and of nothing else |
| CallArgs.PiecesCharacterised | crates/cast/src/call_spec.rs:152-195 | before trimming, the split is the one separable list whose join is the text |
| CallArgs.DepthIsBalance | crates/cast/src/call_spec.rs:172-179 | without quotes the depth is the bracket balance above its lowest point so far |
| CallArgs.QuotedIsOpaque | crates/cast/src/call_spec.rs:160-171 | whatever a quoted value holds, the scanner comes out where it went in |
| CallArgs.ValueStartIff | crates/cast/src/call_spec.rs:159-189 | outside quotes, the scanner takes a value to start exactly at the beginning of the text and after an opening bracket or a comma, whitespace aside |
| CallArgs.QuoteOpensIff | crates/cast/src/call_spec.rs:167-189 | after any text, a quote opens a quoted value exactly there |
| CallArgs.AgreesWithLegacyIff | crates/cast/src/call_spec.rs:84-96 | the split equals the plain comma split exactly when no comma stands inside brackets or quotes |
| CallArgs.AgreesOnPlainText | crates/cast/src/call_spec.rs:84-96 | in particular on every text without brackets and quotes |
| CallArgs.ParseArgs | crates/cast/src/call_spec.rs:84-96 | the legacy split is kept exactly when it differs, that is when some comma is nested |
| NumberBase.RoundTripIff | crates/cast/src/base.rs:120-223 | for every 256-bit value, sign and base, printing with prefix and parsing with detection gives the same bits and base if and only if the sign agrees with the bits or is not printed |
| NumberBase.MadeNumbersAgree | crates/cast/src/base.rs:144-197 | numbers from signed, unsigned and parsed values, moved to any base, have an agreeing sign |
| NumberBase.SignedRoundTrip | crates/cast/src/base.rs:144-223 | every signed value survives in every base, zero and the minimum included |
| NumberBase.ParsedRoundTrip | crates/cast/src/base.rs:162-223 | so does every parsed number |
| NumberBase.ReadsSigned | crates/cast/src/base.rs:162-200 | a sign or none, the prefix of a base in either case and any digits of it give that number in that base; a negative one below the minimum is out of range |
| NumberBase.ReadsUnsigned | crates/cast/src/base.rs:184-200 | the same without a sign; any sign is rejected |
| NumberBase.ReadsBareHex | crates/cast/src/base.rs:56-70 | digits that are none in decimal are read as hexadecimal |
| NumberBase.MadeNumbersHold | crates/cast/src/base.rs:144-158 | numbers made from signed and unsigned values hold them |
| NumberBase.PrintsSigned | crates/cast/src/base.rs:120-130 | a signed value is printed as its sign and digits in decimal, and as its two's complement behind the prefix in other bases |
| NumberBase.ReadsDecimal | crates/cast/src/base.rs:56-70 | decimal digits are detected as decimal although they are hexadecimal digits too |
| NumberBase.ReadsNegative | crates/cast/src/base.rs:167-181 | a negative decimal is read as its two's complement, and rejected past the minimum |
| NumberBase.DisagreeingSignIsLost | crates/cast/src/base.rs:120-130 | the number one marked negative prints as a text that reads as different bits |
| NumberBase.DigitsValue | crates/cast/src/base.rs:215-223 | the printed digits have the number as their value in the base |

## Left out

- EvmVersionProbe.ProbeCodeComputesMask: gas, JUMPDEST analysis and the availability of opcodes per fork are part of the CREATE and CALL answers; the runtimes of the concrete probe table are one instance of the parameter.
- ForkSnapshot.ResolveIdentity: which profile and hardfork a reported name stands for is a function of the configuration, decided by code outside this model.
- RlpText.PrintParseRoundTrip: the JSON reader covers arrays and strings without escapes or whitespace, which is all the printer writes.
- LogStreams.LogsSubscription.Poll: waker registration is not modelled.
- BlockLogs.FilterLogs: the log counter wraps at 32 bits, as in a release build; a debug build stops instead.
- NumberBase.RoundTripIff: width and fill of the formatter are not modelled, nor what the library readers accept beyond plain numerals.
- BlockProduction.NodeService.Poll: the fee-history task, filter eviction and the wake-ups that lead to a poll are not modelled; a panic of the mining task ends the service; a request that comes between a task's outcome and its report counts as coming after the report.
- The text of `expectEmit` mismatch messages and event decoding.
- The 64-bit width of expectation counts and log counters.
- `CallSpec::parse` outside its argument fields: address, value and calldata fields.
- `resolve`, which tries the legacy split before the new one when encoding arguments.
- Header, pending-transaction and receipt subscriptions, and filter deadlines.
- The miner's modes, pool ordering and the retry after a failed candidate.
- Reset, node metadata and the other users of a fork snapshot.
