# codex-lb protocols in Dafny

A Dafny model of the parts of codex-lb whose correctness is a matter of
interleavings, crashes, graphs or grammar, with proofs of what they promise.
Each module stands for one protocol, analysis or parser:

- `Shutdown`, `FailedStop`, `ExplicitDeadline`, `DrainState`, `DrainWaits`: the drain and shutdown deadline. A
  signal handler may commit shutdown between any two steps of any call, nested;
  the class holds the module globals and its methods are the uninterrupted runs.
- `RunState`, `SidecarWriter`: the SQLite run-state sidecar under power loss,
  failing file operations and repeated process lifetimes.
- `Teardown`: bounded session teardown with a fence, a registry and a deferred close.
- `RevisionGraph`, `MigrationTopology`, `GraphShape`, `BranchFork`: the guard over
  the Alembic revision graph. `MigrationLedger`: the ledger repairs before an upgrade.
- `OutcomeAnalysis`: the (fallthrough, retry) analysis against the executions it stands for.
- `Text`, `QuotedSplit`, `ForwardedHeader`, `ForwardedRoundTrip`, `ForwardedMeaning`, `ClientAddress`:
  the `Forwarded` header (sections 4 and 6 of RFC 7239) and the client address.
- `UpgradeOffer`, `UpgradeReplay`: declined upgrade offers (sections 5.3 and 7.8 of RFC 9110).
- `ArchiveQueue`, `ArchiveWriter`, `ArchiveStall`: the conversation archive's producers and writer.
- `IdentityLocks`, `ApiKeyCache`, `SessionRetag`: ordered advisory locks, the
  versioned key cache, provider retagging.

A protocol is a state, the events enabled in it and the state after each; a run
is a list of events, and a theorem about runs holds for every list. Code that
updates things in place is a class or a method with loops, proved against a
specification function about which the theorems are stated.

Seven promises turned out not to hold as one might read them. Each has a
counterexample and, beside it, the exact condition under which it does hold:

- A drain deadline handed out by `begin_drain` can be extended by a `stop_drain`
  that then reports failure, when the signal lands after the clear
  (`FailedStopExtends`). Exactly: it holds throughout a run if and only if no stop
  clears it uncommitted in that run (`DrainDeadlineIff`), and such a stop fails if and
  only if a commit comes before its return (`StopFailsIffCommitted`).
- An abandoned teardown can be joined by a second driver
  (`UnfencedSessionIsDrivenTwice`). Exactly: unless its fence was written, or it is
  a close that has ended (`FenceDecides`).
- Unreachable revisions need not imply a cycle (`RepeatedIdHidesUnreachable`).
  Exactly: they do unless, without a cycle, some revision is named only by
  overridden entries (`UnreachableMeansCyclicIff`).
- The fork check can be silent on a fork and report where there is none
  (`MergeHidesFork`, `UnrelatedLineageHidesFork`, `MergeRepairsReportedFork`).
  Exactly: `WrongVerdicts`, for any two comparable graphs; and with no added merge it
  is right if and only if the branch shares anything with the base (`SilentIffOneHead`).
- The outcome analysis misses a break in a loop's else block and an exception
  swallowed by a with-block (`LoopElseBreakIsMissed`, `SwallowingWithIsMissed`).
  Exactly: it is sound at every statement it looks at if and only if those are
  guarded (`GuardedIff`).
- Consensus and priority order can disagree on the client address
  (`DisagreementsHappen`). Exactly: they agree if and only if no blank header comes
  first and no single-valued one is repeated (`ConsensusMeetsPriority`).
- A producer waiting for archive bytes can be left with nobody to wake it
  (`StallIsReached`). Exactly: when fewer producers have yet to make sure of the
  writer than it needs restarts (`BlockedUntilReleased`).

## Model

| member | source | states |
|---|---|---|
| Shutdown.ReadStepOk | app/core/shutdown.py:26-34 | reading the effective deadline step by step, while handlers add candidates, never finds it missing once there is one and never returns more than its value |
| Shutdown.BeginStepOk | app/core/shutdown.py:117-155 | every atomic step of a begin keeps the program-point invariant, cannot hit an assert and leaves interrupted frames valid |
| Shutdown.CommitStepOk | app/core/shutdown.py:158-198 | the same for every atomic step of a commit, nested at any depth |
| Shutdown.StopStepOk | app/core/shutdown.py:205-224 | the same for every atomic step of a stop |
| Shutdown.InvKept | app/core/shutdown.py:117-224 | calls, steps, nested signals and resets all keep the whole-process invariant |
| Shutdown.InitSafe | app/core/shutdown.py:117-224 | over every interleaving from the start no assert ever fails |
| Shutdown.NoStepCrashes | app/core/shutdown.py:117-224 | no step that any run comes to fails an assert or reads a deadline that is not there |
| Shutdown.DeadlineNeverLater | app/core/shutdown.py:117-224 | no step moves the effective deadline later, except a stop clearing it while uncommitted |
| Shutdown.UncommittedClearWithdraws | app/core/shutdown.py:205-224 | the exception is exact: a clear changes nothing when committed and otherwise leaves no deadline |
| Shutdown.CommittedDeadlineHolds | app/core/shutdown.py:158-198 | once a commit returned d, in every run without a reset shutdown stays committed and the deadline defined and at most d |
| Shutdown.DrainDeadlineHolds | app/core/shutdown.py:117-155 | once a begin returned d, the deadline stays at most d in every run in which no uncommitted clear happens |
| Shutdown.CommittedNeverWithdraws | app/core/shutdown.py:205-224 | after a commit no run without a reset contains an uncommitted clear |
| Shutdown.DrainDeadlineIff | app/core/shutdown.py:117-224 | in a run without a reset, the deadline a begin returned holds in every state of the run if and only if no stop clears it uncommitted in that run |
| Shutdown.StopFailsIffCommitted | app/core/shutdown.py:205-224 | in every run from after its clear to its return, a stop returns False if and only if shutdown was committed at the clear or some commit marks it so before the return |
| ExplicitDeadline.ExplicitDeadlineHolds | app/core/shutdown.py:100-198 | in every interleaving, a begin or a commit given an explicit deadline returns that deadline or an earlier one |
| FailedStop.FailedStopExtends | app/core/shutdown.py:205-224 | a reachable run in which a stop returns False and the deadline a begin returned was extended |
| DrainState.BeginAlone | app/core/shutdown.py:117-155 | uninterrupted, the steps of a begin end in one computed state and return its effective deadline |
| DrainState.CommitAlone | app/core/shutdown.py:158-198 | the same for a commit, whose candidates then cover the reversible deadline |
| DrainState.BegunIsEarlier | app/core/shutdown.py:117-155 | what an uninterrupted begin leaves has an effective deadline, no later than before, covered by the candidates once committed |
| DrainState.BegunIsEarliest | app/core/shutdown.py:100-155 | an uninterrupted begin publishes the earliest of now plus the timeout, the explicit deadline and the deadline in force; one that finds a drain started and has no explicit deadline publishes the one in force |
| DrainState.CommittedIsEarliest | app/core/shutdown.py:100-198 | the same for a commit |
| DrainState.StopAlone | app/core/shutdown.py:205-224 | uninterrupted, a stop clears everything and returns True, or changes nothing when committed |
| DrainState.Drain.ResetState | app/core/shutdown.py:37-53 | every modelled global returns to its initial value |
| DrainState.Drain.EffectiveDeadline | app/core/shutdown.py:26-34 | none exactly when there is neither a reversible deadline nor a candidate; otherwise one of them, and no later than any of them |
| DrainState.Drain.BeginDrain | app/core/shutdown.py:117-155 | the new globals are those of the uninterrupted steps; the result is the effective deadline, never later than before, and exactly the earliest of now plus the timeout, the explicit deadline and the one in force |
| DrainState.Drain.CommitShutdown | app/core/shutdown.py:158-198 | likewise; afterwards committed, with candidates covering the reversible deadline |
| DrainState.Drain.StopDrain | app/core/shutdown.py:205-224 | succeeds exactly when uncommitted and changes nothing otherwise |
| DrainWaits.RunPrestop | app/core/prestop.py:120-174 | terminates, and the clock, the agreed deadline and the replies decide its outcome, the time it ends, and every request and sleep: the first round that does not go on gives the answer, a refused request or a status that is not draining raises, bad parameters raise before anything is sent |
| DrainWaits.PollUntilOver | app/core/prestop.py:156-174 | the polling loop terminates at the first round that does not go on, with that round's verdict and exactly the rounds before it |
| DrainWaits.ActionsInTime | app/core/prestop.py:146-174 | every request budget and every sleep of the hook ends by the shared deadline |
| DrainWaits.ClockAddsUp | app/core/prestop.py:146-174 | the clock at each round is the start plus every reading lag, reply and sleep before it, and nothing else |
| DrainWaits.WaitForInFlightDrain | app/core/shutdown.py:278-300 | terminates by the initial deadline, by max(d, t + poll) for a deadline d published at t, and reports drained exactly when nothing is in flight; it looks at once and after every sleep, and gives up without an abort only at a deadline given to it |
| DrainWaits.SleepCountsDown | app/core/prestop.py:157-174 | a sleep of the poll interval or of the time left, with the deadline only moving earlier, brings the number of sleeps left down |
| RunState.WriteKept | app/db/sqlite_utils.py:464-549 | each step of a sidecar write, failing or not, keeps: recorded means that record alone survives a power loss, removed means no record survives |
| RunState.WriteAdds | app/db/sqlite_utils.py:495-549 | a write adds to what may survive only its own record, by the rename, or the absence of one |
| RunState.CleanWriteKept | app/db/session.py:497-525 | writing the clean record after disposal keeps the lifetime invariant at every step |
| RunState.InvKept | app/db/session.py:1082-1160 | starts, steps, kills, power losses and changes of the database file keep: any clean record that may survive was earned by the last process past startup |
| RunState.RecordedMeansInPlace | app/db/session.py:497-525 | the history the skip rests on is right: it says a clean record was put in place only at the step that does |
| RunState.SkipIsEarned | app/db/session.py:426-458 | over every sequence of lifetimes and faults, with the checks on startup skips the scan only if the last process past startup disposed its engines, drained everything and recorded clean for the present file identity; any other start scans |
| RunState.SkipNeedsEvidence | app/db/session.py:1087-1136 | in every run a start skips only if it has itself read a clean record and then its own durable running record, both for exactly the file that is there now |
| RunState.ServingIsCleared | app/db/session.py:1082-1160 | in every run a process serves only if, since it started, it decided with the checks off, decided on an earned clean record, or scanned and the scan passed |
| RunState.FailedScanEnds | app/db/session.py:1135-1158 | a failed scan ends the process |
| RunState.ServingIsMarked | app/db/session.py:487-494 | while a process serves, no clean record can survive a power loss |
| RunState.CleanRestartSkips | app/db/session.py:1082-1160 | and the skip is reached: after a clean record and no fault, startup gets to its gate having skipped the scan |
| RunState.CleanRoundSkips | app/db/session.py:497-525 | a served file that is shut down without a fault is left with a clean record of its own, alone and durable, and the next start does not scan it |
| RunState.FineStartServes | app/db/session.py:1082-1160 | a start that meets no fault serves, whatever record it finds |
| SidecarWriter.WriteRunOutcome | app/db/sqlite_utils.py:495-549 | a whole write under any faults ends recorded, removed or raised, with exactly the surviving records that outcome promises |
| SidecarWriter.WriteVerdict | app/db/sqlite_utils.py:464-549 | under any faults the outcome is decided by which operations failed: recorded, else removed, else raised |
| SidecarWriter.Directory.Invalidate | app/db/sqlite_utils.py:464-492 | the method does what the stepwise write does from the removal on |
| SidecarWriter.Directory.CleanUp | app/db/sqlite_utils.py:532-549 | the method does what the stepwise write does from the failure branch on |
| SidecarWriter.Directory.WriteRunstate | app/db/sqlite_utils.py:495-549 | refines the stepwise write; True exactly when every step went well, with that record alone surviving, False exactly when then the removal went well, with none surviving, and an error otherwise |
| Teardown.TidyKept | app/db/session.py:707-946 | for each session by itself, every step that does not abandon it without a fence keeps: a live task of the session is the one driver it names; nothing that happens to other sessions matters |
| Teardown.FencedIsLeftAlone | app/db/session.py:882-937 | no step starts a task on a fenced session whose abandoned task still runs |
| Teardown.RegisteredKept | app/db/session.py:721-851 | every abandoned task and deferred close stays registered until it is done |
| Teardown.TeardownSafe | app/db/session.py:534-946 | over every run from the start, a session has at most one live driver unless it was itself abandoned without a fence while its task ran or was a rollback; registration holds always |
| Teardown.FenceDecides | app/db/session.py:721-851 | abandoning a session's task keeps every continuation to one driver of that session if and only if the fence was set, or the task is a close that has ended |
| Teardown.UnfencedSessionIsDrivenTwice | app/db/session.py:721-822 | a run from the start in which a failed fence leads to two live drivers |
| Teardown.AbortedNeverDrains | app/db/session.py:721-822 | in every run, once a reclaim is cut short between registering its task and attaching the callbacks, that task stays registered for good and shutdown never reports a full drain |
| Teardown.DrainedMeansQuiet | app/db/session.py:1263-1300 | in every run, at that step no abandoned task and no deferred close is alive |
| Teardown.ReportsDrainedIff | app/db/session.py:1263-1300 | in every run shutdown reports a full drain if and only if the registry was empty at both checks that decided |
| Teardown.QuietShutdownDrains | app/db/session.py:1263-1300 | with nothing registered shutdown runs to its end and reports a full drain, however the clock stands |
| Teardown.DeferredCloseFollows | app/db/session.py:824-851 | in every run a rollback that was abandoned, fenced or not, and has ended has its deferred close or is due to get one, live and registered |
| Teardown.TeardownCompletes | app/db/session.py:882-937 | a teardown that ends within its bound leaves its session idle and nothing registered |
| Teardown.GraceCompletes | app/db/session.py:707-720 | and so does one that ends well within its grace |
| Teardown.AbandonedRollbackEnds | app/db/session.py:721-851 | a rollback that outlives both, fenced or not, can still be brought to its end with its deferred close done and the registry as before |
| MigrationTopology.InvertEdges | scripts/check_migration_topology.py:215-219 | the child lists hold each child as often as it names the parent, repeated names included |
| MigrationTopology.LowerChildren | scripts/check_migration_topology.py:223-226 | degrees fall once per mention and each child that reaches zero is queued once |
| MigrationTopology.PeelingStep | scripts/check_migration_topology.py:221-226 | peeling one revision keeps: degrees count unpeeled parents, zero means queued exactly once, queued revisions come after their parents |
| MigrationTopology.StuckReachesCycle | scripts/check_migration_topology.py:203-227 | a revision left with a positive degree reaches a cycle |
| MigrationTopology.PeeledNeverCycles | scripts/check_migration_topology.py:203-227 | a peeled revision reaches none |
| MigrationTopology.PeelingFinished | scripts/check_migration_topology.py:203-227 | so the leftover set is exactly the revisions that reach a cycle, empty if and only if a topological order exists |
| MigrationTopology.CyclicRevisions | scripts/check_migration_topology.py:203-227 | returns exactly the revisions from which following known parents reaches a cycle; empty if and only if the graph has a topological order |
| GraphShape.Explore | scripts/check_migration_topology.py:230-241 | depth-first search finds exactly the known revisions reachable from the start, dangling and cyclic parents included |
| GraphShape.Ancestors | scripts/check_migration_topology.py:334-343 | exactly the known revisions reachable from a parent of the given one |
| GraphShape.UnreachableRevisions | scripts/check_migration_topology.py:230-241 | exactly the revisions no head descends from |
| GraphShape.UnreachableMeansCyclicIff | scripts/check_migration_topology.py:203-241 | for every list, unreachable revisions imply a cycle if and only if there is a cycle or no revision is named as a parent by overridden entries alone |
| GraphShape.UnreachableMeansCyclic | scripts/check_migration_topology.py:203-241 | with unique ids an unreachable revision implies a cyclic one, dangling parents or not |
| GraphShape.RepeatedIdHidesUnreachable | scripts/check_migration_topology.py:230-241 | a graph with a repeated id that has an unreachable revision and no cycle |
| GraphShape.DuplicateErrors | scripts/check_migration_topology.py:247-253 | one error for each id that occurs more than once and no other |
| GraphShape.DanglingErrors | scripts/check_migration_topology.py:255-261 | one error for each unknown parent of each revision and no other |
| GraphShape.HeadAndBaseErrors | scripts/check_migration_topology.py:268-289 | reports several heads, none, or a number of bases other than one, exactly when so |
| GraphShape.CycleErrors | scripts/check_migration_topology.py:294-307 | reports the cyclic and the unreachable revisions exactly when there are any |
| GraphShape.CheckGraphShape | scripts/check_migration_topology.py:244-308 | the report holds an error if and only if the graph violates it |
| GraphShape.CleanIffSingleLineage | scripts/check_migration_topology.py:244-308 | a clean report if and only if ids are unique, parents known, the graph acyclic and every revision lies between the single base and the single head |
| BranchFork.CheckBranchFork | scripts/check_migration_topology.py:556-587 | reports exactly the added revisions that name a shared revision other than the base head |
| BranchFork.OneUnionHeadIff | scripts/check_migration_topology.py:556-587 | for two clean graphs that agree on what they share, merges and new lineages included, the union has one head if and only if nothing is added or something added names the base's head |
| BranchFork.WrongVerdicts | scripts/check_migration_topology.py:556-587 | so silence is wrong exactly when something is added and nothing added names the base's head, and a report is wrong exactly when something added does |
| BranchFork.SilentIffOneHead | scripts/check_migration_topology.py:556-587 | with no added merge, the check is silent exactly when the union has one head, if and only if the branch shares any revision with the base |
| BranchFork.UnrelatedLineageHidesFork | scripts/check_migration_topology.py:573-576 | a branch that is one new lineage: clean, silent, no merge, and two heads in the union |
| BranchFork.MergeHidesFork | scripts/check_migration_topology.py:556-587 | with an added merge the check can be silent on a union with two heads |
| BranchFork.MergeRepairsReportedFork | scripts/check_migration_topology.py:556-587 | and can report on a union with one head |
| OutcomeAnalysis.BlockPossibleExact | scripts/check_cancellation_safety.py:158-207 | a compositional computation equals the executions: an outcome is computed possible if and only if some execution ends in it |
| OutcomeAnalysis.AnalysisSound | scripts/check_cancellation_safety.py:158-207 | on guarded blocks, where no loop's else can break or continue and a swallowing with-block falls through anyway, normal ends imply the fallthrough bit and breaks or continues the retry bit |
| OutcomeAnalysis.SoundBeforeIffGuarded | scripts/check_cancellation_safety.py:172-207 | a loop, or a with-block over a guarded body, is analysed soundly before every guarded rest if and only if it is guarded |
| OutcomeAnalysis.GuardedIff | scripts/check_cancellation_safety.py:158-207 | for every statement tree, the guards hold if and only if the analysis is sound at each statement it looks at |
| OutcomeAnalysis.UnguardedLoopIsMissed | scripts/check_cancellation_safety.py:205-206 | any loop whose else can break or continue is analysed unsoundly before a raise |
| OutcomeAnalysis.UnguardedWithIsMissed | scripts/check_cancellation_safety.py:189-190 | any swallowing with-block whose body is not seen to fall through is analysed unsoundly |
| OutcomeAnalysis.SoundIffCovered | scripts/check_cancellation_safety.py:158-207 | soundness on one block is decidable, by comparing the bits with the computed possibilities |
| OutcomeAnalysis.HandlerVerdictExact | scripts/check_cancellation_safety.py:221-223 | on handlers without swallowing with-blocks whose loops can only complete, the verdict holds if and only if some execution can go round the loop |
| OutcomeAnalysis.LoopElseBreakIsMissed | scripts/check_cancellation_safety.py:172-207 | a block that can break through a loop's else and has neither bit |
| OutcomeAnalysis.SwallowingWithIsMissed | scripts/check_cancellation_safety.py:172-207 | a block that can fall through a swallowing with-block and has neither bit |
| OutcomeAnalysis.SequenceOutcome | scripts/check_cancellation_safety.py:158-169 | the two-flag loop, which stops at the first statement that does not fall through, computes the bits of the block |
| OutcomeAnalysis.StatementOutcome | scripts/check_cancellation_safety.py:172-207 | the branch-by-branch computation equals the bits of the statement, try and finally included |
| OutcomeAnalysis.CasesOutcome | scripts/check_cancellation_safety.py:182-188 | falls or retries if and only if some case does |
| OutcomeAnalysis.HandlersOutcome | scripts/check_cancellation_safety.py:194-199 | what the body contributes, or what some handler does |
| QuotedSplit.SplitForwarded | app/core/request_locality.py:226-256 | the scanning loop computes the split: unbalanced quotes and empty parts are errors |
| QuotedSplit.PiecesJoin | app/core/request_locality.py:226-256 | joining the raw pieces gives the value back, so nothing is lost or invented |
| QuotedSplit.PartsBalanced | app/core/request_locality.py:226-256 | every part of a successful split is quote-balanced |
| QuotedSplit.SecondSplitFailsOnlyOnEmpty | app/core/request_locality.py:366-371 | splitting a part again fails if and only if it has an empty piece, never for its quotes |
| QuotedSplit.SplitOfJoin | app/core/request_locality.py:226-256 | splitting whole pieces joined by the delimiter gives the stripped pieces |
| ForwardedHeader.UnquoteForwarded | app/core/request_locality.py:276-297 | the character loop computes the unquoting, with every error case |
| ForwardedHeader.UnquoteQuoted | app/core/request_locality.py:276-297 | unquoting a quoted value gives it back, for every allowed character |
| ForwardedHeader.UnquoteYieldsQuotable | app/core/request_locality.py:263-297 | what unquoting accepts is always made of allowed characters, so it can be quoted again |
| ForwardedHeader.ParsePrintedPair | app/core/request_locality.py:351-363 | parsing a printed parameter gives its name, value and quoting back |
| ForwardedMeaning.ParsePairIff | app/core/request_locality.py:351-363 | a text is parsed as a parameter if and only if it is its name in any case, an equals sign and a token or a quoted string that spells its value |
| ForwardedMeaning.NameInAnyCase | app/core/request_locality.py:355-355 | a parameter name is read as its lower case |
| ForwardedMeaning.UpperCaseName | app/core/request_locality.py:355-355 | so a name with any of its letters in upper case is read as the name |
| ForwardedMeaning.UnquoteIff | app/core/request_locality.py:276-297 | a quoted body is unquoted to a value if and only if it spells it, each character plain or behind a backslash |
| ForwardedMeaning.ParseNodeIff | app/core/request_locality.py:300-348 | a node is parsed to an address if and only if it is that IPv4 address bare, or in quotes that IPv6 address in brackets or that IPv4 address with a port; unknown, obfuscated and scoped nodes and wrong ports or families are errors |
| ForwardedHeader.DecimalConcat | app/core/request_locality.py:300-304 | the port number of a digit string is its decimal value |
| ForwardedMeaning.ParseElementIff | app/core/request_locality.py:369-380 | an element is parsed to an address if and only if all its parameters parse, none comes twice and its for parameter is that address |
| ForwardedMeaning.RepeatedIsRejected | app/core/request_locality.py:373-374 | a parameter that comes twice, whatever the case of its names, is an error |
| ForwardedMeaning.ParseChainIff | app/core/request_locality.py:366-381 | a header is parsed to a chain if and only if each of its elements is the address in its place |
| ForwardedHeader.ParseForwardedElement | app/core/request_locality.py:369-380 | the parameter loop computes the element's hop: repeated names, missing or bad hops are errors |
| ForwardedHeader.ParseForwardedForChain | app/core/request_locality.py:366-381 | the element loop computes the chain, failing on the first bad element |
| ForwardedRoundTrip.SplitPrintedElement | app/core/request_locality.py:226-256 | the semicolon split of a printed element gives its printed parameters, whatever is inside quotes |
| ForwardedRoundTrip.SplitPrintedChain | app/core/request_locality.py:226-256 | the comma split of a printed chain gives its printed elements |
| ForwardedRoundTrip.ParsePrintedChain | app/core/request_locality.py:351-381 | parsing a printed chain of any valid elements gives what their parameters say, errors included |
| ForwardedRoundTrip.BracketedParses | app/core/request_locality.py:307-348 | a quoted bracketed address, with any valid port or none, parses to the address |
| ForwardedRoundTrip.PortedParses | app/core/request_locality.py:300-348 | a quoted IPv4 address with any valid port parses to the address |
| ForwardedRoundTrip.HopsRoundTrip | app/core/request_locality.py:366-381 | parsing the printed form of any chain of canonical addresses, each with or without a port, gives the hops back in order |
| ClientAddress.ResolvedEntry | app/core/request_locality.py:192-202 | the walk ends at the rightmost untrusted entry of hops plus socket, or the leftmost if all are trusted |
| ClientAddress.ResolveClientIpFromHops | app/core/request_locality.py:192-202 | the loop returns that entry, which is unique |
| ClientAddress.LeftOfUntrustedIrrelevant | app/core/request_locality.py:192-202 | whatever stands left of an untrusted entry never changes the result |
| ClientAddress.HeaderResolves | app/core/request_locality.py:180-202 | a header resolves to an address if and only if it names it: a chain its rightmost untrusted entry with the peer counted last, a single-valued header the address it holds |
| ClientAddress.PriorityIsAnswer | app/core/request_locality.py:134-173 | the priority order answers with an address if and only if no single-valued header is repeated and the first header with a value names it |
| ClientAddress.ConsensusIsAnswer | app/core/request_locality.py:50-110 | the consensus answers with an address if and only if no single-valued header that says something is repeated, the first header that says something names it and all others name the same |
| ClientAddress.ForgedEntriesIrrelevant | app/core/request_locality.py:50-202 | replacing what stands left of an untrusted entry of a chain changes neither answer |
| ClientAddress.ResolveConnectionClientIp | app/core/request_locality.py:113-174 | an untrusted or unknown peer is itself the client whatever its headers say; a trusted one's headers answer by priority or consensus |
| ClientAddress.CollectHeaders | app/core/request_locality.py:65-102 | fails if and only if some header present does not resolve, and otherwise collects the addresses in order |
| ClientAddress.RepeatedSingleton | app/core/request_locality.py:56-63 | true if and only if a single-valued header is repeated with a value that is not blank |
| ClientAddress.ResolveProxyHeaderConsensus | app/core/request_locality.py:50-110 | returns exactly the address all headers that say something name, and none on any bad, repeated or differing one |
| ClientAddress.ResolvePriority | app/core/request_locality.py:134-173 | returns exactly the address the first header with a value names |
| ClientAddress.ConsensusMeetsPriority | app/core/request_locality.py:50-174 | a consensus address equals the priority result if and only if no single-valued header is repeated and no blank header is presented before the first readable one |
| ClientAddress.NoBlanksMeansAgreement | app/core/request_locality.py:50-174 | so with no blank value the two always agree |
| ClientAddress.BlankHeaderHidesAgreement | app/core/request_locality.py:50-174 | with a blank X-Forwarded-For the priority result is lost |
| ClientAddress.RepeatedBlankHidesAgreement | app/core/request_locality.py:50-174 | and with a single-valued header repeated, which then holds blanks alone |
| ClientAddress.DisagreementsHappen | app/core/request_locality.py:50-174 | for every address parser that rejects the empty text, every accepted address, every peer and every trust rule: a request of each kind with that address as consensus and no priority result |
| UpgradeOffer.CombinedUpgradeOffer | app/core/http_protocol.py:74-99 | the loop over the fields computes the combined offer: WebSocket wherever it is offered, and none exactly without an upgrade option or a protocol |
| UpgradeOffer.WebSocketIsPreferred | app/core/http_protocol.py:97-98 | with an upgrade option in some Connection field and WebSocket in some Upgrade field, in any case and place, the offer is WebSocket |
| UpgradeOffer.LowerInAnyCase | app/core/http_protocol.py:91-94 | a token with any of its letters in upper case is lowered to it |
| UpgradeOffer.FirstIsOffered | app/core/http_protocol.py:99-99 | without WebSocket the offer is the first protocol that is not empty, lowered |
| UpgradeOffer.NoOfferIff | app/core/http_protocol.py:95-96 | there is no offer if and only if no Connection field has the upgrade option or no Upgrade field names a protocol |
| UpgradeOffer.RepeatedFieldsCombine | app/core/http_protocol.py:74-99 | repeating a field or joining its values with a comma never changes the offer (section 5.3 of RFC 9110) |
| UpgradeOffer.WithoutUpgradeHeaders | app/core/http_protocol.py:108-121 | the loop computes the sanitized headers |
| UpgradeOffer.ConnectionOptionsKept | app/core/http_protocol.py:108-121 | after sanitizing, the Connection members are the kept ones of before in order, and no Upgrade member remains |
| UpgradeOffer.KeptSurvive | app/core/http_protocol.py:114-120 | rewriting a Connection value and reading it back gives exactly the kept members |
| UpgradeOffer.SanitizedOffersNothing | app/core/http_protocol.py:108-121 | sanitized headers carry no offer |
| UpgradeOffer.OtherHeadersKept | app/core/http_protocol.py:108-121 | all other headers stay, in order |
| UpgradeOffer.OwnHeadersGo | app/core/http_protocol.py:108-121 | no Upgrade or HTTP2-Settings header is left, no Connection list names either, and every other header left was there |
| UpgradeOffer.KeptExactly | app/core/http_protocol.py:114-119 | a Connection member is kept if and only if it is not empty and names neither |
| UpgradeOffer.SanitizingIsIdempotent | app/core/http_protocol.py:108-121 | sanitizing twice is sanitizing once |
| UpgradeReplay.Replayed | app/core/http_protocol_httptools.py:168-189 | putting the sanitized head in place of a declined one delivers the same and leaves one offer fewer |
| UpgradeReplay.SanitizedRequestHead | app/core/http_protocol_httptools.py:191-204 | the replayed head is the request's own target followed by every header but the upgrade ones, in order |
| UpgradeReplay.RenderedRead | app/core/http_protocol_httptools.py:168-204 | feeding the rendered head to a parser between requests completes exactly that request and leaves nothing begun |
| UpgradeReplay.ItemsConcat | app/core/http_protocol_httptools.py:138-166 | parsing two stretches one after the other, the second from where the first left off, parses their concatenation |
| UpgradeReplay.Protocol.DataReceived | app/core/http_protocol_httptools.py:138-166 | from any half-read head the replay loop terminates, appends exactly what the segment completes and keeps what it leaves begun, and leaves HTTP exactly on a WebSocket offer or malformed data |
| UpgradeReplay.EveryRequestOnce | app/core/http_protocol_httptools.py:138-204 | without a WebSocket offer or malformed data each request of the stream is delivered exactly once, in order, with sanitized headers |
| UpgradeReplay.DeliveredOffersNothing | app/core/http_protocol_httptools.py:138-204 | and no delivered request carries an offer |
| UpgradeReplay.Receive | app/core/http_protocol_httptools.py:138-166 | however the stream is cut into segments, inside request heads too, the connection delivers what the whole stream would |
| UpgradeReplay.ConversationServed | app/core/http_protocol_httptools.py:138-204 | a conversation of any requests without a WebSocket handshake is served whole: each request in order with its whole body, its declined offer removed and nothing else changed |
| UpgradeReplay.HandshakeEndsHttp | app/core/http_protocol_httptools.py:138-166 | a WebSocket handshake after it is handed off with all that follows, or without WebSocket support served as a request with an empty body |
| UpgradeReplay.JunkEndsHttp | app/core/http_protocol_httptools.py:138-166 | malformed data after it is answered with an error and ends HTTP |
| ArchiveQueue.BudgetKept | app/core/conversation_archive.py:252-327 | every step of any producer or the writer keeps: the counter equals the bytes reserved, queued and in the batch, and is within the limit or exactly one oversized record is outstanding |
| ArchiveQueue.OrderKept | app/core/conversation_archive.py:302-362 | every step keeps: each file holds records queued for it, each once and in enqueue order |
| ArchiveQueue.ArchiveSafe | app/core/conversation_archive.py:252-362 | both hold over every run of any number of producers and the writer |
| ArchiveQueue.ReleaseNeverClips | app/core/conversation_archive.py:410-414 | in every run the counter covers what is released, so it is never clipped at zero |
| ArchiveQueue.LeavingTakesNothing | app/core/conversation_archive.py:302-328 | once the writer has taken a stop mark or crashed, in every run it takes nothing more until it has gone |
| ArchiveQueue.FlushedMeansHandedOver | app/core/conversation_archive.py:248-249 | when no task is open nothing is queued or pending in the writer |
| ArchiveQueue.NothingLost | app/core/conversation_archive.py:302-362 | with no failed append each file holds exactly the records handed over for it, in enqueue order |
| ArchiveStall.BlockedUntilReleased | app/core/conversation_archive.py:252-328 | in every run, for a producer that cannot reserve: the threads present can get bytes released if and only if as many producers have yet to make sure of the writer as it needs restarts before it takes a record |
| ArchiveStall.StalledForGood | app/core/conversation_archive.py:252-328 | with fewer such producers, no run of the threads present ever releases a byte |
| ArchiveStall.StallIsReached | app/core/conversation_archive.py:266-284 | for every queue size and every byte limit above one such a state is reached from the start: a record on the queue, a producer waiting for bytes, and the writer gone |
| ArchiveWriter.GroupRecords | app/core/conversation_archive.py:341-343 | the dictionary groups hold exactly each file's records in batch order, with the files by first appearance |
| ArchiveWriter.Archive.TryReserve | app/core/conversation_archive.py:386-407 | reserves exactly when the machine's reserve step is enabled, with its effect |
| ArchiveWriter.Archive.ReleaseBytes | app/core/conversation_archive.py:410-414 | gives the bytes back, exactly when the counter covers them |
| ArchiveWriter.Archive.AppendRecords | app/core/conversation_archive.py:335-362 | files are taken by first appearance up to the first disk-pressure failure; each has got exactly as much of its group as its own append writes, appended in order; without disk pressure a file whose own append succeeds is whole whatever happens to the others |
| ArchiveWriter.OwnAppendIsWhole | app/core/conversation_archive.py:335-362 | one file's failure, short of disk pressure, costs no other file a record |
| ArchiveWriter.Archive.TakeBatch | app/core/conversation_archive.py:304-321 | taking a batch is a run of the machine up to writing or stopped |
| ArchiveWriter.Archive.WriterPass | app/core/conversation_archive.py:302-328 | a pass of the writer loop is a run of the machine that ends idle or stopped, and the append in that run is of the batch taken, as far as the appends' own outcomes go |
| IdentityLocks.LockKeys | app/db/account_identity_lock.py:30-38 | strictly ascending, and exactly the keys of the identities that are present and not empty |
| IdentityLocks.InvKept | app/db/account_identity_lock.py:22-56 | arrivals, grants, commits and aborts keep: no lock has two holders |
| IdentityLocks.LockedIdentitiesAreDisjoint | app/db/account_identity_lock.py:22-56 | in every run two transactions past their locking name no identity in common |
| IdentityLocks.NeverDeadlocked | app/db/account_identity_lock.py:22-56 | in every reachable state with an unfinished transaction some transaction can go on without an abort |
| IdentityLocks.StepsRunOut | app/db/account_identity_lock.py:48-52 | every step but an arrival brings the remaining work down |
| IdentityLocks.EveryoneFinishes | app/db/account_identity_lock.py:22-56 | from every reachable state some run without an abort ends every transaction, each with all its locks taken |
| IdentityLocks.LocksByIdentity | app/db/account_identity_lock.py:30-52 | all locks are granted if and only if each named identity's lock is free and granted |
| IdentityLocks.LockTable.LockIdentities | app/db/account_identity_lock.py:22-56 | takes all locks or, on a refusal, none; other databases take none |
| ApiKeyCache.Oldest | app/core/auth/api_key_cache.py:41-41 | an entry that expires no later than any other |
| ApiKeyCache.Cache.Get | app/core/auth/api_key_cache.py:30-34 | a value only for a cached key before its expiry, and that key's; nothing only for a key not cached or expired |
| ApiKeyCache.Cache.Set | app/core/auth/api_key_cache.py:36-43 | stores only under the current version, keeps every other entry but an oldest one when full; raises exactly when full and empty |
| ApiKeyCache.StoredKeeps | app/core/auth/api_key_cache.py:36-43 | storing sets the one entry, removes at most one other and only when full, and keeps the rest as they are |
| ApiKeyCache.Cache.Invalidate | app/core/auth/api_key_cache.py:45-48 | removes the key alone and raises the version |
| ApiKeyCache.Cache.Clear | app/core/auth/api_key_cache.py:50-52 | removes everything and raises the version |
| ApiKeyCache.InvKept | app/core/auth/api_key_cache.py:26-52 | changes, invalidations, clears and loaders keep: a cached value, or one a loader may still store, is current or awaits an invalidation |
| ApiKeyCache.CacheNeverStale | app/core/auth/api_key_cache.py:26-52 | that holds over every interleaving of writers and loaders |
| ApiKeyCache.QuietLookupIsCurrent | app/core/auth/dependencies.py:153-172 | in every run, once a key's changes have invalidated, whatever a lookup returns is the store's value |
| ApiKeyCache.LoadIsServed | app/core/auth/dependencies.py:153-172 | an undisturbed load puts the store's value in the cache and a lookup finds it until it expires |
| ApiKeyCache.ChangesSettle | app/core/auth/api_key_cache.py:45-52 | from every state invalidating once for each change settles them all, leaves the store alone and removes exactly the changed keys |
| ApiKeyCache.CacheBounded | app/core/auth/api_key_cache.py:36-43 | the cache never exceeds its limit, and stays empty when the limit is not positive |
| MigrationLedger.ContiguousPrefixCount | app/db/migrate.py:252-259 | the length of the longest applied prefix of the legacy order |
| MigrationLedger.RemapPreservesMeaning | app/db/migrate.py:486-493 | the remapped ledger covers exactly what its rows, under their old or current names, say was applied |
| MigrationLedger.RemapKeepsRows | app/db/migrate.py:486-493 | only the repair point may go, and only beside the legacy branch and a descendant |
| MigrationLedger.BootstrapStampsLast | app/db/migrate.py:271-337 | the bootstrap stamps the revision of the last contiguously applied name, and only a database without a ledger table, with the older history and with its tables |
| MigrationLedger.RemapNeverRefuses | app/db/migrate.py:956-989 | with remapping on an upgrade is refused if and only if the schema is from a newer build or the target cannot be resolved |
| MigrationLedger.SkippedMeansNothingPending | app/db/migrate.py:960-973 | an upgrade is skipped only when nothing of its target is pending, and then changes nothing |
| MigrationLedger.PendingIsApplied | app/db/migrate.py:960-1001 | with remapping on, a supported database with something of a resolvable target pending is upgraded |
| MigrationLedger.ReconciledCoversDrop | app/db/migrate.py:858-914 | with the sentinel and known ids, the reconciled ledger covers the credential drop |
| MigrationLedger.StampAddsOnlyDrop | app/db/migrate.py:858-914 | the stamp adds the drop and its ancestors to what the ledger covers, and takes nothing away |
| MigrationLedger.StampReplacesLine | app/db/migrate.py:858-914 | of the rows the drop implies only the drop is left, and all other rows are as they were |
| MigrationLedger.SentinelBlocksReplay | app/db/migrate.py:948-1001 | with the sentinel, no path from any ledger applies the drop or any of its ancestors |
| MigrationLedger.DropIsWarned | app/db/migrate.py:789-834 | the sentinel keeps the warning away, and the drop is planned without a warning only when there was neither a ledger nor a schema |
| MigrationLedger.PlanIsExact | app/db/migrate.py:734-1001 | from any ledger an upgrade applies exactly the target's revisions that neither a row, under its old or current name, nor the sentinel says were applied |
| MigrationLedger.TopmostPreservesMeaning | app/db/migrate.py:948-1001 | keeping only the topmost rows covers the same revisions |
| MigrationLedger.FinishedLeavesNothing | app/db/migrate.py:948-1001 | after a finished upgrade nothing of its target is pending |
| MigrationLedger.DropNeverReplayed | app/db/migrate.py:948-1001 | over every sequence of upgrades, interrupted or not, with the ledger rewritten in between, once the drop was applied neither it nor an ancestor is applied again |
| MigrationLedger.RowsAlwaysHaveTable | app/db/migrate.py:948-1001 | over every sequence of upgrades there are never ledger rows without the ledger table |
| MigrationLedger.HistoryIsComplete | app/db/migrate.py:948-1001 | the history that law speaks of has one entry for each upgrade of the run, with what it applied |
| MigrationLedger.Closure | app/db/migrate.py:847-855 | exactly the revisions at or above a row of the ledger |
| MigrationLedger.Database.BootstrapLegacyHistory | app/db/migrate.py:271-337 | stamps the revision of the last contiguous legacy migration, only without a ledger table and with the required tables |
| MigrationLedger.Database.RemapLegacyRevisions | app/db/migrate.py:460-514 | refuses exactly on an unsupported id and otherwise rewrites the ledger as remapped |
| MigrationLedger.Database.ReconcileRetiredLedger | app/db/migrate.py:858-914 | stamps exactly when the sentinel is present, ids are known and the drop is not covered |
| MigrationLedger.Database.PendingRevisions | app/db/migrate.py:734-769 | exactly the target's revisions that the ledger does not cover |
| MigrationLedger.Database.RepairLedger | app/db/migrate.py:983-995 | the repairs in order: bootstrap, remap, reconcile |
| MigrationLedger.Database.RunUpgradeLocked | app/db/migrate.py:948-1001 | the repairs lead to the planned upgrade with its warning, a refusal or a skip, as the lemmas above say of the plan |
| SessionRetag.RetagMovesRecord | app/codex_sessions_retag.py:276-303 | a record counted for the source comes to count for the target and is changed; any other keeps its count even when its payload is rewritten |
| SessionRetag.RetagTouchesOnlyProvider | app/codex_sessions_retag.py:290-303 | rewriting puts the target in the place of the source, once, and leaves everything else of the record and its payload |
| SessionRetag.RetagBackIff | app/codex_sessions_retag.py:290-303 | rewriting back restores the record if and only if its own provider field was not the target already |
| SessionRetag.RetagsIff | app/codex_sessions_retag.py:290-303 | a record is rewritten if and only if it names the source where the tool looks |
| SessionRetag.FilesCountCounts | app/codex_sessions_retag.py:406-429 | a provider's count over the files is the number of lines that name it |
| SessionRetag.DbsCountCounts | app/codex_sessions_retag.py:406-429 | and over the databases the number of rows of usable ones that hold it |
| SessionRetag.MatchingCounts | app/codex_sessions_retag.py:88-120 | the number of matched files is the number with a line that names the source |
| SessionRetag.RetaggedFileIs | app/codex_sessions_retag.py:222-262 | a file is rewritten line by line if some line names the source, and is otherwise left alone |
| SessionRetag.RetaggedDbIs | app/codex_sessions_retag.py:333-342 | in a usable database exactly the rows of the source change; an unusable one is left alone |
| SessionRetag.ProviderCounts | app/codex_sessions_retag.py:406-429 | the dictionary holds, for every provider, its records in all files plus its rows in all usable databases |
| SessionRetag.RetagJsonlFile | app/codex_sessions_retag.py:226-262 | rewrites line by line, keeps other lines as they are, and changes every matched file |
| SessionRetag.UpdateSqliteProvider | app/codex_sessions_retag.py:333-342 | moves every row of the source and counts exactly those |
| SessionRetag.FileMoves | app/codex_sessions_retag.py:222-262 | one file's counts after retagging: source none, target both, others unchanged |
| SessionRetag.RetagConservesCounts | app/codex_sessions_retag.py:88-120 | over all stores the source ends with nothing, the target with both earlier counts and every other provider with what it had |
| SessionRetag.Home.RetagFiles | app/codex_sessions_retag.py:111-113 | every matched file is updated, every other left alone, and the number reported is the number matched |
| SessionRetag.Home.RetagSessions | app/codex_sessions_retag.py:64-143 | rejects unsupported or equal providers; a dry run changes nothing; a real run updates every match and reports the true counts before and after |

## Left out

- Revision ids and file paths are plain values: results of the graph guard are sets or lists of errors, not sorted tuples and message texts.
- The timestamp-prefix, filename and git parts of the migration guard, and parsing of revision files.
- `except*` is treated as `except` by the analysis; asynchronous generators, alias discovery and the rest of the cancellation lint are not part of this model.
- Non-finite deadlines and floating-point rounding: times are real numbers.
- Draining setters other than the modelled globals, lifespan preparation, the post-drain cleanup reserve and `wait_for_tasks_to_drain`.
- DrainWaits.RunPrestop: requests take any time they like, so the hook may return after the deadline when a request overruns its budget; only its own sleeps and budgets are bounded.
- DrainWaits.WaitForInFlightDrain: assumes a positive poll interval and a clock that moves only by the sleeps.
- The Windows branch of the directory sync, decoding of malformed sidecar payloads beyond "no record", and the SQLite lifetime lock itself: one process at a time is part of the run model.
- Integrity pragmas, backups and migrations inside startup: the scan is one step that passes or fails.
- Teardown: the bound and grace loops are single observed steps, a task's done-callbacks run as one step, and sessions without a bound (PostgreSQL, in-memory) are not modelled.
- Address parsing: it is a parameter that maps a text to its version and canonical text; `str.lower` covers ASCII and the Kelvin sign; host names of requests are not parsed.
- The h11 protocol class, keep-alive timers and disconnect stamping: the parser is a machine over pieces (a target, a header field, the end of a head, body and end of message), so segments are cut between pieces and not inside a field line.
- UpgradeReplay.Protocol.DataReceived: what a connection receives after a WebSocket handoff or an error response is not modelled.
- Archive record contents, gzip framing and recovery of corrupt archives; the byte limit is fixed during a run; disk pressure only shows as records not written; a put that blocks is not interrupted.
- IdentityLocks.LockTable.LockIdentities: a lock held by someone else counts as refused; waiting is in the many-transaction machine. The hash is arbitrary and the timeout setting is not modelled.
- ApiKeyCache.Oldest: any entry with the least expiry may be evicted, where the dictionary picks the first inserted.
- MigrationLedger.Database.RunUpgradeLocked: stops at the plan; applying migrations is the third-party tool's, and which part of a plan was applied is free in the run model. The widening of the version column is not modelled.
- SessionRetag.Home.RetagSessions: stores are readable; backups, temporary files and the copy-and-replace path for databases that cannot be opened are not modelled.
- The TLA+ protocol under `spec/`, the proxy, routing, accounts, dashboards and the frontend.
