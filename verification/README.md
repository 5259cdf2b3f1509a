# Verified model of the breadboard state machines, ordering algorithms and run-state authority

This project models, in Dafny, the parts of the repository whose correctness is
hardest to see from any one function body, and proves what they keep over whole
runs, all inputs and all interleavings. `dafny verify dfyconfig.toml` checks it.

**State machines.** `Fsm` states what the table-driven engine does and `FsmEngine`
is the engine itself: a class over a slot array of any capacity, each method proved
against `Fsm`. `ReconnPolicy` holds the failure ladders, the persistent-failure
window and the peek guards; `ReconnMachine` is the reconnect row table on the
engine, shown to be a plain transition function; `ReconnRuns` proves what every run
keeps, `ReconnCalls` what each step does and calls, `ReconnLadders` how long a failure
waits, and `ReconnRetries` which configurations bound the immediate reconnects.
`ReconnTimed` adds due times and the escalation deadline, `ReconnTight` a run that
attains it, and `ReconnRestart` says what the device's own way of waiting does to it.
`ProvMachine` is the provisioning portal with its three-hop entry driver, and
`ProvCalls` what each dispatch does and calls.

**Ordering and closure.** `Kahn` is Kahn's algorithm with a priority tie-break over
any finite graph; `WireGraph` puts it to work tier by tier. `Boards` is the
cycle-tolerant depth-first resolution, `BoardsOrder` the order it leaves siblings in,
`Composition` the worklist that derives the
graph it walks, and `Names` the order of names. `LeafWalk` walks a directory graph
with symbolic-link cycles and diamonds, `ComponentIndex` builds the name index over
several roots, and `OwnerQuery` asks it for the owner of a path. Python lists that
are read by position are modelled as orders of positions.

**Run-state authority.** `InhibitWords` is the multi-word bit set, `Lifecycle` one
call under the lock (as a function and as a class over the fixed arrays),
`LifecycleHistory` reads the tables off the history of calls, `LifecycleEvents` says
which calls produce an event, and `LifecycleThreads` interleaves threads that notify
after the unlock.

**Array cores.** `LowStack` and `LowStackRuns` are the mark-and-sweep debounce
table and its runs; `Hostname` is the in-place label sanitizer.

## Assumptions

- One clock value serves a whole step: the reconnect guard and the action of one
  step see the same `nowUs`. If two readings straddled the window, the guard and the
  action could disagree and a backoff of 0 would be stashed.
- A lock makes the code it guards one atomic step. Atomic loads are steps of their own.
- Tunable constants (ladder tiers, window, capacities, name lengths) are fields of a
  `Config` and stay symbolic. Adapter calls become an arbitrary result in the
  step's environment plus an entry in a call trace.

## Where the code does not do what it is said or meant to do

- The reconnect machine can be stranded in its backoff state without a timer when the
  generic pause is configured as 0, because arming with 0 ms arms nothing
  (`ReconnRuns.NeverStrandedIff` gives the exact condition).
- The escalation deadline holds for timers that run from the moment they are armed
  (`ReconnTimed.EscalationDeadline`). The device's task loop starts the full wait
  again after every received event (platform/espidf/bb_wifi/wifi_reconn.c:117-132).
  Under it no bound holds for all runs, whatever the positive delays configured
  (`ReconnRestart.RestartingTheWaitLosesTheDeadline`). One run meets the original
  deadline, or a given later one, exactly when its absorbed events and backoff timeouts
  come early enough (`ReconnRestart.RestartDeadlineIff`), a family of runs has a common deadline
  exactly when the time between an arming and the last event its wait absorbs is
  bounded (`ReconnRestart.CommonDeadlineIff`), and the two ways of waiting never
  differ exactly when events are absorbed at the instant of the arming only
  (`ReconnRestart.DisciplinesAgreeIff`).
- `first_fail_us == 0` means "no window open", which is ambiguous for a clock that
  reads 0: one disconnect at clock 0 is counted and opens no window
  (`ReconnRuns.ZeroClockHidesFailure`). `ReconnRuns.SentinelExactIff` says exactly
  when the sentinel tells the truth.
- The bound on immediate reconnects and the promise that a rejected password is never
  retried at once need positive ladder tiers; `ReconnRetries.HotRetriesBoundedIff` and
  `ReconnRetries.SlowNeverHotIff` say exactly which.
- The docstrings of `resolve_transitive` and `resolve_composition` promise an error
  for an unknown name that is only depended on; the code leaves such names out
  (scripts/bbtool/boards.py:253-255), and so does the model.
  `Boards.UnknownDependencyResolves` is an input, `Boards.AsDocumentedIff` the exact
  condition.
- `owner_of_path` promises the longest indexed directory. For root-relative paths
  over roots of different depths it can return a shorter one, because directories
  are sorted by absolute depth; `OwnerQuery.BuiltIndexLongestIff` gives the exact
  condition for every index `build_index` returns, and
  `OwnerQuery.RelativeOwnerCanBeShorter` two roots that violate it.
- A hostname can end in a hyphen when the cut to the label limit falls behind one;
  `Hostname.TrailingHyphenIff` says exactly when.

## Model

| member | source | states |
|---|---|---|
| `FsmEngine.Engine.constructor` | components/bb_fsm/bb_fsm.c:56-69 | a new engine stands in its initial state with exactly the timers its entry hook armed |
| `FsmEngine.Engine.ClearTimers` | components/bb_fsm/bb_fsm.c:32-37 | the timer map is empty afterwards |
| `FsmEngine.Engine.ArmTimer` | components/bb_fsm/bb_fsm.c:109-137 | the slot array refines a bounded map: arming updates the key, arming with 0 removes it, and only a new key in a full table is refused |
| `FsmEngine.Engine.DisarmTimer` | components/bb_fsm/bb_fsm.c:139-148 | removes the key and nothing else |
| `FsmEngine.Engine.TimerCount` | components/bb_fsm/bb_fsm.c:150-158 | the number of armed slots is the size of the map |
| `FsmEngine.Engine.TimerAt` | components/bb_fsm/bb_fsm.c:160-174 | answers exactly the indices below the map's size, with an armed event and its milliseconds |
| `FsmEngine.Engine.FindRow` | components/bb_fsm/bb_fsm.c:39-50 | the loop finds the first row whose state, event and guard match, or none |
| `FsmEngine.Engine.RunEntry` | components/bb_fsm/bb_fsm.c:18-23 | runs the entry hook of the state, if it has one, and issues its timer requests |
| `FsmEngine.Engine.RunExit` | components/bb_fsm/bb_fsm.c:25-30 | runs the exit hook of the state, if it has one |
| `FsmEngine.Engine.StepEvent` | components/bb_fsm/bb_fsm.c:71-97 | one event moves the engine exactly as the specification step moves its abstract machine, error statuses included |
| `Fsm.StepOutcome` | components/bb_fsm/bb_fsm.c:77-96 | a step reports success exactly when the machine is not terminal and some row matches, and then fires the one row that matches first; otherwise nothing changes |
| `Fsm.HooksInOrder` | components/bb_fsm/bb_fsm.c:80-96 | a client that logs every call sees the action of the first fitting row and then, only if it leads to a state, the exit hook of the old and the entry hook of the new state |
| `Fsm.StartEnters` | components/bb_fsm/bb_fsm.c:63-68 | a start runs the entry hook of the initial state |
| `Fsm.TimersAcrossStep` | components/bb_fsm/bb_fsm.c:82-96 | a row that stays touches only the timers its action asks about; after a transition only timers the entry hook asked for are armed |
| `Fsm.ArmingIsExact` | components/bb_fsm/bb_fsm.c:109-148 | arming is refused only for a new key in a full table; otherwise its key waits the given time, 0 disarms, and no other key changes |
| `Fsm.TerminalIsFinal` | components/bb_fsm/bb_fsm.c:75-88 | once terminal, every later step of every run is refused and changes nothing |
| `Fsm.TerminalHasNoTimers` | components/bb_fsm/bb_fsm.c:85-88 | over every run of steps a terminal machine has no timer armed |
| `Fsm.RequestsStayBounded` | components/bb_fsm/bb_fsm.c:109-148 | no sequence of arm and disarm requests arms more timers than there are slots, or arms one with 0 ms |
| `Fsm.CountIsKeySize` | components/bb_fsm/bb_fsm.c:150-158 | with at most one slot per event, counting armed slots counts the events with a timer |
| `Fsm.EnumerationIsBijective` | components/bb_fsm/bb_fsm.c:160-174 | the indices below the map's size enumerate its keys, each exactly once |
| `ReconnPolicy.PolicyState.Disconnect` | components/bb_wifi/wifi_reconn_policy.c:45-96 | the in-place update equals the pure decision, new counters, action and backoff together |
| `ReconnPolicy.PolicyState.ConnectTimeout` | components/bb_wifi/wifi_reconn_policy.c:118-151 | the same for a connect timeout |
| `ReconnPolicy.PolicyState.GotIp` | components/bb_wifi/wifi_reconn_policy.c:98-106 | clears the ladders and the window, keeps the diagnostics |
| `ReconnPolicy.PolicyState.Reset` | components/bb_wifi/wifi_reconn_policy.c:3-18 | returns to the boot state |
| `ReconnPolicy.PeeksPredictDecision` | components/bb_wifi/wifi_reconn_policy.c:170-203 | for every policy state, reason and clock value, the two peeks hold exactly when the mutating functions answer reboot, or reconnect now |
| `ReconnPolicy.DecisionsConserve` | components/bb_wifi/wifi_reconn_policy.c:53-79 | each counted failure lands on exactly one ladder |
| `ReconnMachine.ScanChooses` | components/bb_wifi/wifi_reconn_policy.c:442-482 | the first-match scan of the sixteen rows is a decision by state, event, window, permission and reason |
| `ReconnMachine.EnterStands` | components/bb_wifi/wifi_reconn_policy.c:416-438 | entering a state leaves exactly that state's timers armed, with one slot or many |
| `ReconnMachine.TableImplementsAdvance` | components/bb_wifi/wifi_reconn_policy.c:258-488 | a table-driven step with any non-empty slot array is the plain transition function; one slot never runs out |
| `ReconnRuns.RunsAreWalks` | components/bb_wifi/wifi_reconn_policy.c:490-503 | every run of the engine from boot is a run of the plain transition function |
| `ReconnRuns.WalkIsGood` | components/bb_wifi/wifi_reconn_policy.c:442-488 | the invariant: timers follow the state, the ladders add up to the retry count, and a connected machine has its ladders and window clear |
| `ReconnCalls.CallsOfRun` | components/bb_wifi/wifi_reconn_policy.c:442-482 | for every step of every run: which state it leads to, and exactly which adapter calls it makes in which order, by the states before and after, the event and the window |
| `ReconnCalls.ArmedMeansAsked` | components/bb_wifi/wifi_reconn_policy.c:342-414 | a step arms the connect timeout exactly when its last call asks for a connection, and no other step asks; the fresh form exactly on leaving the state without credentials; parking is announced exactly on entering the parked state, with the reason given |
| `ReconnCalls.DiagnosticsOfRun` | components/bb_wifi/wifi_reconn_policy.c:53-106 | last reason, last disconnect and the self-disconnect marker follow from the events: a counted failure records itself, an address keeps them, a reset clears them |
| `ReconnLadders.LaddersCountInputs` | components/bb_wifi/wifi_reconn_policy.c:68-79 | each ladder counter is the number of its failures among the inputs since the last clearing; bad credentials and an absent access point share one, connect timeouts climb the generic one |
| `ReconnLadders.WaitFollowsCount` | components/bb_wifi/wifi_reconn_policy.c:20-43 | a lost connection that is to be retried waits exactly what that number says, on all three ladders and for every number, 0 meaning at once |
| `ReconnLadders.RefusalAndTimeoutWaits` | components/bb_wifi/wifi_reconn_policy.c:303-414 | a refused reboot waits the generic pause, and a connect timeout inside the window starts the next attempt |
| `ReconnRuns.NeverStrandedIff` | components/bb_wifi/wifi_reconn_policy.c:416-427 | under every run each waiting state has exactly its own timer armed, every other state none, and firing it matches a row, if and only if the connect timeout and the generic pause are positive |
| `ReconnRuns.ZeroPauseStrands` | components/bb_wifi/wifi_reconn_policy.c:311-320 | the run that strands the machine when the pause is 0 |
| `ReconnRuns.BackoffAtLeastPause` | components/bb_wifi/wifi_reconn_policy.c:20-43 | when the generic pause is the shortest tier, no armed backoff is shorter |
| `ReconnRuns.WindowHasOpener` | components/bb_wifi/wifi_reconn_policy.c:63-66 | an open window started at a counted failure after which the ladders were never cleared |
| `ReconnRuns.SentinelIff` | components/bb_wifi/wifi_reconn_policy.c:63-66 | the window start reads 0 exactly when every failure counted since the last clearing read the clock as 0, and the retry count exactly when there is none |
| `ReconnRuns.SentinelExactIff` | components/bb_wifi/wifi_reconn_policy.c:63-66 | 0 means "no failure counted" exactly when none is, or some failure counted since the last clearing read a nonzero clock |
| `ReconnRuns.ZeroClockHidesFailure` | components/bb_wifi/wifi_reconn_policy.c:82-83 | one disconnect at clock 0 is counted and leaves the window reading not open |
| `ReconnRuns.RebootSafety` | components/bb_wifi/wifi_reconn_policy.c:433-459 | over any run the reboot function is called at most once, by exactly one step, exactly when the run is in the escalation state, and each step that calls it was justified |
| `ReconnRuns.RebootIsJustified` | components/bb_wifi/wifi_reconn_policy.c:207-238 | a step calls the reboot function exactly when it enters the escalation state with permission, on a counted failure, strictly more than the window after the first failure counted since the last clearing |
| `ReconnRuns.EscalationIsAbsorbing` | components/bb_wifi/wifi_reconn_policy.c:442-482 | nothing leaves the escalation state |
| `ReconnRuns.DenialsAreSpaced` | components/bb_wifi/wifi_reconn_policy.c:303-320 | between two denied reboots the backoff timer has run out |
| `ReconnRuns.HotRetriesAreBounded` | components/bb_wifi/wifi_reconn_policy.c:342-351 | between two clearings at most the two fast limits' worth of disconnects are answered by an immediate reconnect, when every tier in use is positive |
| `ReconnRetries.HotRetriesBoundedIff` | components/bb_wifi/wifi_reconn_policy.c:20-43 | that bound holds over all runs exactly when every tier some count selects is positive |
| `ReconnRuns.HotRetryIff` | components/bb_wifi/wifi_reconn_policy.c:342-351 | a disconnect is answered at once exactly when the machine is connecting or connected, neither parks nor escalates, and the peek foresees no backoff |
| `ReconnRetries.SlowNeverHotIff` | components/bb_wifi/wifi_reconn_policy.h:52-56 | a rejected password or an absent access point is never retried at once, over all runs, exactly when the slow tiers in use are positive |
| `ReconnRuns.RetriesAreConserved` | components/bb_wifi/wifi_reconn_policy.c:61-79 | in every reachable state the retry count is the sum of the three ladders |
| `ReconnTimed.EscalationDeadline` | components/bb_wifi/wifi_reconn_policy.c:442-482 | in every run that honours timers counted from their arming, at every instant: once window, longest backoff and connect timeout have passed (from the last refusal, if later), the machine has escalated or is parked |
| `ReconnTimed.EscalationDeadlineWhenPermitted` | components/bb_wifi/wifi_reconn_policy.c:442-482 | with reboots always permitted the bound counts from the first failure alone |
| `ReconnTimed.DeadlineWithLags` | platform/espidf/bb_wifi/wifi_reconn.c:117-132 | the same under either way of waiting, with what absorbed events put a backoff and a connect attempt off by added to the bound |
| `ReconnTight.BoundIsAttained` | components/bb_wifi/wifi_reconn_policy.c:442-482 | a run with punctual timeouts and reboots permitted whose last wait ends exactly on the bound |
| `ReconnTight.BoundIsLeast` | components/bb_wifi/wifi_reconn_policy.c:442-482 | when the longest tier can be climbed to within the window, the bounds that hold for all such runs are exactly those from this one on |
| `ReconnTight.SlowTierInReach` | components/bb_wifi/wifi_reconn_policy.h:58-75 | that is so when the second slow tier is the longest and climbing the first fits the window, as the default constants have it |
| `ReconnRestart.RestartingTheWaitLosesTheDeadline` | platform/espidf/bb_wifi/wifi_reconn.c:117-132 | for every configuration with positive delays, every start and every bound there is a run of plain disconnects under the device's loop, reboots permitted, still backing off later than the bound |
| `ReconnRestart.DisciplinesAgreeIff` | platform/espidf/bb_wifi/wifi_reconn.c:117-132 | the two ways of waiting give the same due times throughout a run, and accept the same runs, exactly when every absorbed event arrives at the instant of the last arming |
| `ReconnRestart.RestartDeadlineIff` | platform/espidf/bb_wifi/wifi_reconn.c:117-132 | a run of the device's loop meets the deadline, or any later one, exactly when each absorbed event and each backoff timeout in an open window comes early enough for the wait it leaves to end by then |
| `ReconnRestart.CommonDeadlineIff` | platform/espidf/bb_wifi/wifi_reconn.c:117-132 | a family of runs has a common deadline exactly when there is a bound on how long after an arming, in an open window, a wait still absorbs events |
| `ReconnRestart.RestartDeadline` | platform/espidf/bb_wifi/wifi_reconn.c:117-132 | with at most K events absorbed per wait the device's loop meets the deadline with K more longest backoffs and connect timeouts, with none absorbed the same deadline |
| `ReconnRestart.AbsorbingAtOnceIsFree` | platform/espidf/bb_wifi/wifi_reconn.c:117-132 | any number of events absorbed at the instant of the arming costs nothing, so their number alone does not decide |
| `ProvMachine.DriveEntry` | components/bb_wifi_prov/wifi_prov_policy.c:218-252 | the driver on the engine moves its abstract machine by up to three steps, stopping at the first failure |
| `ProvMachine.DispatchEvent` | platform/espidf/bb_wifi_prov/wifi_prov_mgr.c:151-171 | entry events go through the driver, every other event through one step |
| `ProvCalls.DispatchDoes` | components/bb_wifi_prov/wifi_prov_policy.c:194-252 | one dispatch, driver hops included, leads where and makes exactly the adapter calls that state, event and start results say, in order |
| `ProvCalls.CredsAnnouncedPerClosing` | components/bb_wifi_prov/wifi_prov_policy.c:118-133 | over every run fresh credentials are announced exactly as often as the machine goes from closing to idle |
| `ProvMachine.EntryFromIdle` | components/bb_wifi_prov/wifi_prov_policy.c:218-252 | from idle an entry ends active exactly when both starts succeed, and otherwise idle with everything rolled back |
| `ProvMachine.ResourcesStayCoherent` | components/bb_wifi_prov/wifi_prov_policy.c:176-191 | under every sequence of entries, saves, timeouts and start results, access point, portal and published flag are up together, exactly while active or closing, the settle timer is the configured time or 1 ms for 0, and teardown keeps its order |
| `ProvMachine.CoherenceIff` | components/bb_wifi_prov/wifi_prov_policy.c:176-185 | an event keeps that whatever the start calls answer, exactly when it is not one of the driver's own events reaching the idle state |
| `ProvMachine.EntryNeedsDriver` | components/bb_wifi_prov/wifi_prov_policy.c:218-252 | an entry event given to a single step leaves an access point without a portal |
| `Kahn.Sort` | scripts/bbtool/wire_graph.py:89-100 | the loop over in-degrees and the sorted ready list yields an order whose every pick is the least available vertex, and stops only when none is left |
| `Kahn.GreedyIsLeast` | scripts/bbtool/wire_graph.py:93-100 | a complete greedy order comes before every other complete topological order in the dictionary order on keys |
| `Kahn.LeastIsUnique` | scripts/bbtool/wire_graph.py:93-100 | there is only one such order |
| `Kahn.WithoutEdgesSorted` | scripts/bbtool/wire_graph.py:93-100 | without edges the order is the stable sort by the order attribute |
| `Kahn.StuckHasCycle` | scripts/bbtool/wire_graph.py:102-105 | vertices left over contain a genuine cycle |
| `Kahn.CycleExcludesComplete` | scripts/bbtool/wire_graph.py:102-105 | a graph with a cycle has no complete topological order |
| `Kahn.CompleteIffAcyclic` | scripts/bbtool/wire_graph.py:102-105 | the greedy order covers all vertices exactly when the graph is acyclic |
| `WireGraph.ProvidesTier` | scripts/bbtool/wire_graph.py:46-51 | every provided key is mapped to the earliest tier that provides it |
| `WireGraph.ProviderOf` | scripts/bbtool/wire_graph.py:60-64 | every key provided in the tier is mapped to exactly the positions that provide it |
| `WireGraph.EdgesInto` | scripts/bbtool/wire_graph.py:71-85 | the dependencies of a position are exactly the other members that feed it, or the first key nothing provides in time is reported |
| `WireGraph.SortTier` | scripts/bbtool/wire_graph.py:54-107 | one tier: its least topological order, or a truthful reason why there is none |
| `WireGraph.TopoSort` | scripts/bbtool/wire_graph.py:40-109 | succeeds exactly when every required key is met in its own or an earlier tier and every tier is acyclic; the error names the first tier in trouble and tells the truth about it |
| `WireGraph.ScheduleIsPermutation` | scripts/bbtool/wire_graph.py:40-109 | every entry is scheduled exactly once |
| `WireGraph.ScheduleRespectsTiers` | scripts/bbtool/wire_graph.py:53-58 | tiers never interleave |
| `WireGraph.ScheduleFeedersFirst` | scripts/bbtool/wire_graph.py:69-78 | whatever provides a required key within the tier is scheduled earlier |
| `WireGraph.ScheduleProvidesFirst` | scripts/bbtool/wire_graph.py:69-87 | each required key is provided by the entry itself or by one scheduled earlier |
| `WireGraph.ScheduleIsUnique` | scripts/bbtool/wire_graph.py:40-109 | there is at most one schedule |
| `WireGraph.TierOrderIsLeast` | scripts/bbtool/wire_graph.py:35-37 | among all orders of a tier that respect its edges, the result is first: entries with an order before those without, smaller orders first, parse position between equals |
| `WireGraph.UnconstrainedTierIsSorted` | scripts/bbtool/wire_graph.py:15-18 | a tier without edges lists entries with an order first, by order, and the rest and equals by parse position |
| `Names.SortedForgetsOrder` | scripts/bbtool/boards.py:253-258 | sorting erases the order in which names were listed |
| `Names.LeqIsDictionaryOrder` | scripts/bbtool/boards.py:253-258 | names are ordered by the first character in which they differ, a prefix coming first |
| `Boards.ResolveFailsIff` | scripts/bbtool/boards.py:243-249 | the only failure is a requested name outside the universe |
| `Boards.AsDocumentedIff` | scripts/bbtool/boards.py:234-238 | the documented error behaviour holds exactly when a requested name is unknown or no needed name depends outside the universe |
| `Boards.UnknownDependencyResolves` | scripts/bbtool/boards.py:253-255 | a component whose only dependency is unknown resolves to itself without an error |
| `Boards.ResolveIsDependencyOrder` | scripts/bbtool/boards.py:231-260 | on any graph, cycles included: no duplicates, exactly the needed names, and a dependency comes before its dependent unless it depends back on it |
| `Boards.AcyclicIsStrict` | scripts/bbtool/boards.py:231-260 | on acyclic graphs dependencies come strictly first |
| `Boards.ResolveForgetsOrder` | scripts/bbtool/boards.py:253-259 | the result does not depend on listing order |
| `BoardsOrder.RequestedAscend` | scripts/bbtool/boards.py:257-260 | a requested name comes before every listed name that no requested name up to it needs |
| `BoardsOrder.IndependentAscend` | scripts/bbtool/boards.py:257-260 | requested names that need none of each other are listed in ascending order |
| `BoardsOrder.DependenciesThenName` | scripts/bbtool/boards.py:250-256 | a name on no cycle resolves to what its known dependencies resolve to as a request of their own, then the name |
| `Boards.Resolver.VisitName` | scripts/bbtool/boards.py:242-256 | the recursive closure over its two captured variables computes the pure walk |
| `Boards.ResolveTransitive` | scripts/bbtool/boards.py:239-260 | the whole function with its captured state equals the pure resolution, errors included |
| `Composition.DeriveClosure` | scripts/bbtool/composition.py:161-194 | the worklist derives exactly the needed names, each once, with filtered dependencies |
| `Composition.NeededIsLeastClosed` | scripts/bbtool/composition.py:174-189 | the needed names are the least set that holds the requested ones and is closed under dependencies |
| `Composition.WorklistAgreesWithWalk` | scripts/bbtool/boards.py:305-331 | keys of the derived graph, names in the order and the least closed set are one set |
| `Composition.WalkOrdersWholeGraph` | scripts/bbtool/boards.py:328-331 | the walk over the lazily derived graph keeps its guarantee for the whole dependency relation |
| `Composition.BuildGraph` | scripts/bbtool/boards.py:297-331 | unknown requested names are refused up front; otherwise order and graph are those of the full relation |
| `Composition.ResolveComposition` | scripts/bbtool/composition.py:208-217 | the same without the up-front check: the walk itself refuses unknown names |
| `LeafWalk.YieldsExactlyLeafPaths` | scripts/bbtool/discovery.py:177-266 | on every directory graph the walk yields exactly the visible paths to the first directory with a CMakeLists.txt along which no directory repeats |
| `LeafWalk.LeavesNeverNest` | scripts/bbtool/discovery.py:261-266 | no yielded path lies under another |
| `LeafWalk.EachLeafOnce` | scripts/bbtool/discovery.py:261-266 | no path is yielded twice, though a diamond is walked down every alias |
| `LeafWalk.YieldsInOrder` | scripts/bbtool/discovery.py:214-219 | paths are yielded in dictionary order, and none has a name that starts with a dot |
| `LeafWalk.WalkForgetsListingOrder` | scripts/bbtool/discovery.py:214-219 | the result does not depend on the order in which the file system lists directories |
| `LeafWalk.FromIsPath` | scripts/bbtool/discovery.py:177-266 | the ancestor set carried by the recursion is exactly the set of directories on the path so far |
| `ComponentIndex.ScanLeaves` | scripts/bbtool/discovery.py:395-405 | fails exactly when two leaves share a name, and otherwise maps each name to its leaf |
| `ComponentIndex.ScanRoot` | scripts/bbtool/discovery.py:380-420 | the loops over leaves and platform directories build the table those directories define |
| `ComponentIndex.ScanHolds` | scripts/bbtool/discovery.py:380-420 | a scan holds exactly the names carried by a leaf or a platform directory, each with its root, that leaf and those directories |
| `ComponentIndex.Deduped` | scripts/bbtool/discovery.py:503 | keeps each root once, in the order of first occurrences |
| `ComponentIndex.BuildIndex` | scripts/bbtool/discovery.py:424-457 | succeeds exactly when no root has two leaves of one name and no name is under two roots; the index is then the union, and otherwise the error names the first clashing root or every contested name |
| `OwnerQuery.DeepestFirst` | scripts/bbtool/discovery.py:118 | the sort is a permutation by descending depth |
| `OwnerQuery.DeepestFirstIsStable` | scripts/bbtool/discovery.py:118 | directories of equal depth keep their order |
| `OwnerQuery.SearchedDirsAre` | scripts/bbtool/discovery.py:104-119 | on every built index exactly the component and platform directories of its entries are searched, each under its entry's root and name |
| `OwnerQuery.OwnerIndex.OwnerOfPath` | scripts/bbtool/discovery.py:135-174 | the answer is the name of the first matching directory, and none only when nothing matches |
| `OwnerQuery.AbsoluteIsLongest` | scripts/bbtool/discovery.py:155-164 | for an absolute path the first match is the longest indexed directory above it |
| `OwnerQuery.OwnerIsDetermined` | scripts/bbtool/discovery.py:155-164 | equally long matches carry the same name |
| `OwnerQuery.RelativeIsLongestIff` | scripts/bbtool/discovery.py:166-174 | root-relative queries always find the longest directory exactly when no earlier directory lies above a later one |
| `OwnerQuery.BuiltIndexLongestIff` | scripts/bbtool/discovery.py:94-119 | the same for every index that build_index can return: the scans of the roots, merged |
| `OwnerQuery.EqualRootDepthsSuffice` | scripts/bbtool/discovery.py:94-119 | roots of equal depth, one root in particular, meet that condition |
| `OwnerQuery.RelativeOwnerCanBeShorter` | scripts/bbtool/discovery.py:166-174 | two roots of different depths that build_index accepts, and a file below both directories that the shorter one wins |
| `InhibitWords.SetExact` | components/bb_lifecycle/bb_lifecycle.c:89-94 | setting a bit raises that bit and no other, in whichever word it lies; beyond the words it does nothing |
| `InhibitWords.ClearExact` | components/bb_lifecycle/bb_lifecycle.c:96-101 | clearing a bit lowers that bit and no other |
| `InhibitWords.TestReadsBit` | components/bb_lifecycle/bb_lifecycle.c:103-108 | the mask test reads the bit |
| `InhibitWords.AnySetIffSomeBit` | components/bb_lifecycle/bb_lifecycle.c:110-116 | a nonzero word exists exactly when some bit tests true |
| `InhibitWords.ScanAnySet` | components/bb_lifecycle/bb_lifecycle.c:110-116 | the loop decides that |
| `Lifecycle.Lifecycle.Register` | components/bb_lifecycle/bb_lifecycle.c:289-332 | in place: a new stopped service under its truncated name, or conflict, or a full table |
| `Lifecycle.Lifecycle.Find` | components/bb_lifecycle/bb_lifecycle.c:334-361 | finds a service of the truncated name exactly when there is one |
| `Lifecycle.Lifecycle.Start` | components/bb_lifecycle/bb_lifecycle.c:378-407 | in place: equals the specified call, idempotence and event included |
| `Lifecycle.Lifecycle.Stop` | components/bb_lifecycle/bb_lifecycle.c:409-439 | in place: clears every inhibit word, but only of a started service |
| `Lifecycle.Lifecycle.InternReason` | components/bb_lifecycle/bb_lifecycle.c:179-196 | the bit of the truncated reason, a new one if it is unknown and there is room |
| `Lifecycle.Lifecycle.PauseAssert` | components/bb_lifecycle/bb_lifecycle.c:441-479 | in place: equals the specified call, the interned reason surviving an idempotent assert |
| `Lifecycle.Lifecycle.PauseClear` | components/bb_lifecycle/bb_lifecycle.c:481-521 | in place: equals the specified call, lookup only |
| `Lifecycle.Lifecycle.CommitAndSnapshot` | components/bb_lifecycle/bb_lifecycle.c:264-279 | bumps the version modulo 2^32 and snapshots old and new effective state |
| `Lifecycle.Lifecycle.Observe` | components/bb_lifecycle/bb_lifecycle.c:607-633 | appends a slot or reports a full table |
| `Lifecycle.Lifecycle.CopyInhibitWords` | components/bb_lifecycle/bb_lifecycle.c:570-588 | copies as many words as fit, reports how many, and writes nothing behind them |
| `LifecycleHistory.DoKeepsWellFormed` | components/bb_lifecycle/bb_lifecycle.c:289-521 | every call keeps names and reasons distinct and every set bit interned |
| `LifecycleHistory.CallEffect` | components/bb_lifecycle/bb_lifecycle.c:409-521 | a call changes the bit of its own reason in its own service and no other bit |
| `LifecycleHistory.TablesFollowHistory` | components/bb_lifecycle/bb_lifecycle.c:168-439 | service names, interned reasons and started flags are what the history of calls alone says |
| `LifecycleHistory.HistoryDecides` | components/bb_lifecycle/bb_lifecycle.c:378-521 | a reason's bit is set exactly when the reason is outstanding in the history, over all words and interning orders |
| `LifecycleHistory.OutstandingIsLastTouch` | components/bb_lifecycle/bb_lifecycle.c:378-521 | outstanding means the last accepted assert, clear or stop-while-started that concerned it was the assert |
| `LifecycleHistory.LastTouchIsLast` | components/bb_lifecycle/bb_lifecycle.c:378-521 | the last such call really is the last |
| `LifecycleHistory.PausedIffInhibited` | components/bb_lifecycle/bb_lifecycle.c:121-126 | paused exactly when started and some reason's bit is set |
| `LifecycleHistory.StateFollowsHistory` | components/bb_lifecycle/bb_lifecycle.c:118-126 | the effective state, read off the history of calls |
| `LifecycleHistory.AssertStatus` | components/bb_lifecycle/bb_lifecycle.c:453-466 | an assert fails only for an unknown handle or a new reason in a full table |
| `LifecycleHistory.EventNamesItsReason` | components/bb_lifecycle/bb_lifecycle.c:264-279 | the bit in an event names the reason given and is never the no-reason sentinel |
| `LifecycleEvents.CallStatus` | components/bb_lifecycle/bb_lifecycle.c:289-633 | the status of every call, by the tables alone |
| `LifecycleEvents.HandleNamesService` | components/bb_lifecycle/bb_lifecycle.c:289-332 | the handle of a successful registration finds the new, stopped service under its truncated name |
| `LifecycleEvents.EventIffChanged` | components/bb_lifecycle/bb_lifecycle.c:378-521 | a call produces an event for a service exactly when it changes the service's started flag or whether some reason inhibits it |
| `LifecycleEvents.EventShowsReasons` | components/bb_lifecycle/bb_lifecycle.c:264-279 | the first word of an event tells which of the first 32 reasons inhibit the service after the call |
| `LifecycleEvents.EmitsIffEffect` | components/bb_lifecycle/bb_lifecycle.c:378-521 | over histories: an event exactly when the call starts or stops the service or makes a reason outstanding or not, by the ledger of calls |
| `LifecycleEvents.RepeatIsSilent` | components/bb_lifecycle/bb_lifecycle.c:395-398 | a call repeated at once produces no event |
| `LifecycleEvents.EventsCountEffects` | components/bb_lifecycle/bb_lifecycle.c:264-279 | over every interleaving a service has as many events as calls had an effect on it |
| `LifecycleEvents.ObserversFollowHistory` | components/bb_lifecycle/bb_lifecycle.c:607-633 | the observers are those registered so far, in order, as room permits |
| `LifecycleThreads.EventChain` | components/bb_lifecycle/bb_lifecycle.c:264-279 | over all interleavings a service's events carry versions 1, 2, ... (modulo 2^32), each starting in the state the previous one left, the first from stopped, the last leaving the current state |
| `LifecycleThreads.HighestVersionIsCurrent` | components/bb_lifecycle/bb_lifecycle.c:264-279 | short of a wrap no two events share a version and the highest one tells the current state, whatever the delivery order |
| `LifecycleThreads.AlwaysCoherent` | components/bb_lifecycle/bb_lifecycle.c:227-248 | every committed event is finished or held by exactly one thread, and its callbacks so far are the synchronous observers that thread has passed |
| `LifecycleThreads.AtMostOnceInOrder` | components/bb_lifecycle/bb_lifecycle.c:235-243 | no observer is called twice for an event, none out of registration order, and no asynchronous one inline |
| `LifecycleThreads.ExactlyOnceWhenDone` | components/bb_lifecycle/bb_lifecycle.c:227-248 | an observer registered before a commit is called exactly once for it, or is asynchronous and the event was queued; the sink gets it once |
| `LifecycleThreads.QuiescentMeansDelivered` | components/bb_lifecycle/bb_lifecycle.c:227-248 | once no thread is notifying, no committed event is left undelivered |
| `LifecycleThreads.NotifyNeverStuck` | components/bb_lifecycle/bb_lifecycle.c:227-248 | a notifying thread always has a next step and never reads an unpublished slot |
| `LowStack.LowStackTable.Mark` | components/bb_task_registry/bb_task_registry_base_scan_common.c:70-88 | finds or claims the first fitting slot, in place |
| `LowStack.LowStackTable.Sweep` | components/bb_task_registry/bb_task_registry_base_scan_common.c:92-100 | empties exactly the slots missed for more than one scan, in unsigned tick arithmetic |
| `LowStack.LowStackTable.Scan` | components/bb_task_registry/bb_task_registry_base_scan_common.c:143-186 | one scan in place, with the rows handed to the handler; without a handler nothing changes |
| `LowStack.RowEffect` | components/bb_task_registry/bb_task_registry_base_scan_common.c:170-180 | a row records its own handle's sample, fires on a change to low, and touches no other handle |
| `LowStack.SweepEffect` | components/bb_task_registry/bb_task_registry_base_scan_common.c:92-100 | the sweep forgets a handle exactly when it is stale, and keeps handles distinct |
| `LowStackRuns.TableRemembers` | components/bb_task_registry/bb_task_registry_base_scan_common.c:66-100 | at every point of a run the table holds exactly the handle's latest sample, unless two scans in a row have missed it |
| `LowStackRuns.FiresOncePerLowRun` | components/bb_task_registry/bb_task_registry_base_scan_common.c:170-180 | a row becomes the next handler call exactly when its sample opens a run of low samples, one missed scan bridging a run and two ending it, across tick wrap-around |
| `LowStackRuns.ScanReturnsOpeners` | components/bb_task_registry/bb_task_registry_base_scan_common.c:143-186 | the calls a scan returns are exactly the rows that open a low run, in row order and each once; handle 0 and handles without a slot are never handed over |
| `LowStackRuns.QuietWithinRun` | components/bb_task_registry/bb_task_registry_base_scan_common.c:170-180 | a later sample of an unbroken low run is never handed over |
| `LowStackRuns.UsedSlotsAreRecent` | components/bb_task_registry/bb_task_registry_base_scan_common.c:90-100 | a used slot holds a handle seen at most two scans ago |
| `LowStackRuns.RoomForRecentHandles` | components/bb_task_registry/bb_task_registry_base_scan_common.c:17-26 | no handle is ever refused while three consecutive scans show no more handles than there are slots |
| `Hostname.SanitizeInto` | components/bb_mdns/bb_mdns_util.c:15-56 | the in-place passes leave trim(take(size - 1, collapse(map(text)))) and its NUL in the buffer |
| `Hostname.MapChar` | components/bb_mdns/bb_mdns_util.c:23-34 | label characters stay, upper-case letters become their lower-case ones, everything else a hyphen |
| `Hostname.SanitizedIsWords` | components/bb_mdns/bb_mdns_util.c:15-56 | the result is the words of the text in lower case with one hyphen between neighbours; of a text longer than the buffer, of the part that fills it |
| `Hostname.SanitizedIsClean` | components/bb_mdns/bb_mdns_util.c:15-56 | the result has only label characters, no doubled and no outer hyphen |
| `Hostname.CleanIffFixed` | components/bb_mdns/bb_mdns_util.c:15-56 | the texts left alone are exactly the clean ones that fit |
| `Hostname.SanitizingTwice` | components/bb_mdns/bb_mdns_util.c:15-56 | sanitizing is idempotent |
| `Hostname.BuildHostname` | components/bb_mdns/bb_mdns_util.c:59-103 | writes the label and its NUL and nothing behind them; a buffer of size 0 is left alone |
| `Hostname.HostnameIsLabel` | components/bb_mdns/bb_mdns_util.c:59-103 | for all inputs at most 63 characters that fit the buffer, label characters only, no leading and no doubled hyphen |
| `Hostname.CutKeepsWhatFits` | components/bb_mdns/bb_mdns_util.c:59-103 | the hostname is the full label cut at 63 characters or where the buffer ends, one shorter only to leave out a trailing separator |
| `Hostname.TrailingHyphenIff` | components/bb_mdns/bb_mdns_util.c:85-88 | the label ends in a hyphen exactly when the cut to the limit fell behind one |
| `Hostname.UncutIsFullLabel` | components/bb_mdns/bb_mdns_util.c:85-102 | when nothing is cut the label is prefix, hyphen, suffix, clean at both ends |
| `Hostname.CutCanLeaveHyphen` | components/bb_mdns/bb_mdns_util.c:66-74 | an input whose label ends in a hyphen |

## Left out

- NULL pointers, uninitialised machines and locks that fail to initialise, with the error statuses they lead to.
- Hooks and actions of an engine client that read the engine back or use the result of arming: a hook here returns its new context and its timer requests, as every hook of the two clients does.
- FsmEngine.Engine.ArmTimer: armed from outside a step it may leave a terminal machine with a timer, as in the source; the claim that a terminal machine has none is made for steps.
- The reason histogram, `wifi_reconn_policy_on_lost_ip`, and the mapping of driver reason codes, which live behind headers that are not part of this model.
- ReconnPolicy.PolicyState.Disconnect: the ladder counters are unbounded here and 32-bit in the source, and the reason histogram is not kept, because no decision reads it.
- ReconnPolicy.PolicyState.Reset: the lost-address counters and the histogram it also clears are not kept, for the same reason.
- The absorption of self-inflicted disconnects and the bounded event queue in front of the reconnect machine.
- ProvMachine.DispatchEvent: the queue and the endless loop around the dispatch are left out; any sequence of events stands for them.
- The parsing of components into dependencies, file reads and path canonicalisation: `depends`, directory contents and canonical paths are given.
- Kahn.Sort and the graph code keep Python lists as sequences that the methods reassign, not as arrays; nothing in the source aliases them.
- The tier loop of `topo_sort` is written out for its three tiers, and error texts are reduced to the entries and keys they name.
- `resolve_component_names` and `resolve_active_capabilities`: unions and differences of sets that would only add easy members.
- `find_orphan_component_dirs`: a second walk over the same guarded iteration.
- OwnerQuery.OwnerIndex.OwnerOfPath: the path is given in parts and already canonical.
- InhibitWords.TestReadsBit: a 32-bit word is its 32 bits; the arithmetic value of a word plays no part in the source.
- Asynchronous observers beyond the hand-over to their queue: the queue drops events when full, and its drain task is not modelled.
- The emit binding and its trampoline, and the name queries by handle or bit.
- The base-registry calls made by a scan (touch, free bytes, sweep) and task names, which live in another component.
- LowStackRuns.FiresOncePerLowRun: assumes a fixed handler and threshold and a tick that advances by one per scan.
- Wire tables, schema literals, watchdog masks, templating, the command line and everything else that is constant data or input and output.
