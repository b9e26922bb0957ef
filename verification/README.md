# trivialInit: a verified model of its supervisor

trivialInit is a single-threaded PID 1 that reads systemd unit files, starts
services in dependency order, restarts them when they exit, passes sockets to
them, and stops them in reverse order. This project models the logic of those
parts in Dafny and proves what they guarantee over every run.

`dafny verify dfyconfig.toml` checks everything.

## How the model is built

- **Dependency resolution** (`DependencyResolver.dfy`). Kahn's algorithm with
  its in-degree counts, multigraph and FIFO queue, as methods. Hash maps are
  walked in an arbitrary order, so each loop over one picks the next name
  nondeterministically and the proofs hold for every order.
- **Supervision** (`Processes.dfy`, `Machine.dfy`). The containers of
  `ProcessMixin` and the connection counts form a value `Tables`; `Machine`
  gives `run` as a step function over worlds. A step is one indivisible piece of
  the program, and what the outside world answers (fork, waitpid, accept4, the
  clock, signals) is its input. A run is a feasible list of inputs. Two
  assumptions are built in: fork never returns the pid of an unreaped child,
  and the clock never goes backwards. Times are nanoseconds.
- **Theorems over runs.** `Consistency.dfy` (index, kernel children, connection
  ledger), `UnitViews.dfy` and `Supervision.dfy` (the invariant of one unit),
  `RestartLimiter.dfy` (the theory of a restart history), `RunTheorems.dfy`,
  `ExactRates.dfy` (every such history is that of some run), `BootOrder.dfy`,
  `Turns.dfy` (requests, turns and the final wait, in terms of inputs),
  `Shutdown.dfy` and `Instances.dfy` (units with many instances). A unit is *ordinary* when no Accept=yes
  socket spawns instances of it. At most one instance of an ordinary unit exists
  because the resolver never emits a unit twice; a duplicate-free order is the
  only premise of those theorems about the configuration.
- **The object** (`InitSystem.dfy`). One class holds the mutable containers, and
  its methods follow the program's own. The ghost field `inputs` records the
  machine inputs performed; `Valid` says the fields are in the state they lead
  to. Every theorem about runs is therefore a theorem about the object.
- **Descriptors** (`FdPlacement.dfy`). The in-place shuffle of passed
  descriptors, on an array and a descriptor table.
- **Text** (`Strings`, `Fields`, `CommandLine`, `Environment`, `Specifiers`,
  `StartCommand`, `UnitParser`, `MountOptions`). The hand-written scanners, each loop proved
  against a recursive meaning, and the round trips and homomorphisms of those
  meanings.

## What the proofs bring out

- The descriptor shuffle is right for a list if and only if its entries are
  open, pairwise distinct, and none sits on the target of an earlier entry.
  `collect_socket_env` builds the list in hash-map order, which does not promise
  the condition. When sockets are bound, signalfd and epoll already hold 3 and 4
  (`include/trivialInit/init_system.hpp:42-45`), so listening descriptors start
  at 5: up to three sockets are then safe in any order, and four are not, since
  6, 7, 8, 5 is misplaced. The loop's handling of repeated descriptors never
  succeeds either: it closes the place it has just filled.
- The burst limiter is a fixed window: the bound over `k` windows is
  `(k + 1) * limit`. For `k = 1` it is attained if and only if the first
  `2 * limit - 1` backoff delays fit in the window. Backoff alone bounds the rate
  whatever limit and window a unit asks for, and at the defaults (five restarts
  in ten seconds) it is backoff that decides: the most that ten seconds can hold
  is seven granted restarts, not ten. These rates are exact for runs, because
  every history that a limiter can grant is the history of some run.
- On every status `waitpid` can report, `on-abnormal` restarts on exactly the
  exits that `on-failure` does.
- Capped backoff overtakes the default burst window from the eighth granted
  restart on; after that the limiter can no longer refuse the unit.
- `start_service` expands the command, splits it, and expands every word but the
  first again. When no expansion contains a percent sign, one pass over the
  command as written, with constant memory, tells exactly whether the second
  expansion changes anything. No expansion contains one if and only if the
  *unescaped* unit name and the host's values do not. Three kinds of command are
  changed: `e %%n`, `e %"n"`, and `e %I` in the unit `t@\x25n.service`, whose name
  holds no percent sign. `%%n x` is not, since the first word is spared.
- `accept_ready` expands nothing: a connection executes the command as written,
  percent signs and a leading dash included, while every start of an ordinary
  unit executes the expanded words.
- The index holds one process per unit name, and reaping any instance erases it.
  So shutdown sends SIGTERM to a process if and only if it was the last of its
  unit to start and none of the unit's processes has gone since. With an
  Accept=yes socket that has room for two connections, some run shuts down with
  a live instance that gets no SIGTERM; it is left to the final SIGKILL.
- Units in or below a dependency cycle, and no others, are left out. The rest
  come in waves of growing dependency depth, a consequence of the FIFO queue.

## Model

| member | source | states |
|---|---|---|
| `DependencyResolver.AddEdges` | include/trivialInit/mixins/unit_exec.hpp:214-222 | one parallel edge per loaded entry, with multiplicity, and the in-degree grows by the same number |
| `DependencyResolver.BuildGraph` | include/trivialInit/mixins/unit_exec.hpp:208-223 | for all pairs, the adjacency multiplicity equals the number of edges listed, for every iteration order |
| `DependencyResolver.Roots` | include/trivialInit/mixins/unit_exec.hpp:225-226 | the initial queue holds each unit of in-degree zero once, and no other |
| `DependencyResolver.Release` | include/trivialInit/mixins/unit_exec.hpp:231-232 | consuming a unit's edges keeps every in-degree equal to the edges not yet consumed and queues exactly the units that reach zero |
| `DependencyResolver.Drain` | include/trivialInit/mixins/unit_exec.hpp:225-233 | the emitted order is sound, every unit left out waits for another one left out, and the order is sorted by dependency depth |
| `DependencyResolver.EmittedIsNotBelowCycle` | include/trivialInit/mixins/unit_exec.hpp:228-233 | a soundly emitted unit has no dependency chain into a cycle |
| `DependencyResolver.LeftOutIsBelowCycle` | include/trivialInit/mixins/unit_exec.hpp:228-238 | a unit left out has a dependency chain into a cycle, by a pigeonhole argument |
| `DependencyResolver.SoundAndExhausted` | include/trivialInit/mixins/unit_exec.hpp:203-242 | emitted if and only if no cycle is reached |
| `DependencyResolver.WarningIffCycle` | include/trivialInit/mixins/unit_exec.hpp:235-238 | fewer units resolved than loaded if and only if the graph has a cycle |
| `DependencyResolver.ResolutionsAgree` | include/trivialInit/mixins/unit_exec.hpp:211-233 | any two map iteration orders emit the same units |
| `DependencyResolver.LevelIsDepth` | include/trivialInit/mixins/unit_exec.hpp:225-233 | a unit's queue level is the length of its longest dependency chain, and no other number is |
| `DependencyResolver.WavesAreDepths` | include/trivialInit/mixins/unit_exec.hpp:225-233 | every emitted unit has a depth, and emission is sorted by it |
| `DependencyResolver.Resolve` | include/trivialInit/mixins/unit_exec.hpp:203-242 | no duplicates, dependencies strictly earlier, exact set of dropped units, sorted by depth, warning exactly on a cycle |
| `DependencyResolver.ListedComesEarlier` | include/trivialInit/mixins/unit_exec.hpp:214-222 | whatever loaded unit a unit lists in After= or Requires= comes earlier in a resolved order |
| `UnitFiles.RestartMeaning` | include/trivialInit/mixins/process.hpp:44-67 | for every Restart= text and every exit status: restarted exactly when that text, spelled out, asks for it; any other text means never |
| `UnitFiles.PoliciesCompared` | include/trivialInit/mixins/process.hpp:55-67 | success and failure are complementary, and on every status waitpid reports the abnormal policy restarts on exactly the exits of the failure policy |
| `RestartLimiter.BackoffRefinement` | include/trivialInit/mixins/process.hpp:349-353 | clamping the exponent at 13 equals the unclamped capped doubling for every count; delays start at 100 ms, and the cap of ten minutes is reached exactly from 13 on |
| `RestartLimiter.BackoffMonotone` | include/trivialInit/mixins/process.hpp:349-353 | delays never shrink as restarts grow |
| `RestartLimiter.GrantFacts` | include/trivialInit/mixins/process.hpp:335-360 | the count, window and due time of each grant in a history passed by one limiter |
| `RestartLimiter.WindowLaw` | include/trivialInit/mixins/process.hpp:335-347 | an exit is counted in the open window exactly as long as that lasts, and opens a new one with count 1 otherwise; the first window is open from the start of the clock |
| `RestartLimiter.RateLimit` | include/trivialInit/mixins/process.hpp:335-347 | at most (k+1)*limit grants have their exit in any closed interval of k windows |
| `RestartLimiter.RateLimitAttained` | include/trivialInit/mixins/process.hpp:335-360 | for every limit and window: a limiter's grants in one window's length can reach twice the limit if and only if the first 2*limit-1 delays fit in it |
| `RestartLimiter.Spacing` | include/trivialInit/mixins/process.hpp:335-360 | exits that led to restarts are at least the sum of the delays between them apart |
| `RestartLimiter.BackoffRate` | include/trivialInit/mixins/process.hpp:335-360 | a span shorter than the first n delays holds at most n granted exits, whatever the limit and window |
| `RestartLimiter.BackoffRateExact` | include/trivialInit/mixins/process.hpp:335-360 | under a limit of at least n, a span can hold n granted exits if and only if the first n-1 delays fit in it |
| `RestartLimiter.DefaultRate` | include/trivialInit/mixins/process.hpp:335-360 | at the default limit and window, ten seconds can hold n granted exits if and only if n <= 7 |
| `ExactRates.RestartingPolicies` | include/trivialInit/mixins/process.hpp:55-67 | some exit status restarts the unit under every policy but no and on-watchdog, and under none of those two |
| `ExactRates.HistoriesExact` | include/trivialInit/mixins/process.hpp:308-378 | for a service that boot starts and whose policy can restart it: a sequence of grants is the restart history of some run if and only if one limiter grants it |
| `ExactRates.RatesAgree` | include/trivialInit/mixins/process.hpp:335-378 | some run grants n restarts for the exits of a span if and only if some history of one limiter does |
| `ExactRates.DefaultRateOfRuns` | include/trivialInit/mixins/process.hpp:335-378 | at the default limit and window, some run grants n restarts in ten seconds if and only if n <= 7 |
| `ExactRates.BackoffRateOfRuns` | include/trivialInit/mixins/process.hpp:335-378 | under a limit of at least n, some run grants n restarts in a span if and only if the first n-1 delays fit in it |
| `ExactRates.RateLimitOfRuns` | include/trivialInit/mixins/process.hpp:335-378 | some run grants twice the limit in one window if and only if the first 2*limit-1 delays fit in it |
| `RestartLimiter.BackoffOvertakes` | include/trivialInit/mixins/process.hpp:335-360 | after a granted delay longer than the window, any later exit opens a fresh window |
| `RestartLimiter.DefaultWindowOvertaken` | include/trivialInit/mixins/process.hpp:202-208 | with the default 10 s window the delay exceeds it exactly from restart count 7 on |
| `Machine.ResolvePairIsPaired` | include/trivialInit/mixins/socket.hpp:276-293 | a connection goes to a service the socket pairs with, and to a loaded one if any paired service is loaded |
| `Machine.SocketServices` | include/trivialInit/mixins/socket.hpp:276-293 | `b.socket` pairs with `b.service` and `b@.service`, dots in b included, and a connection goes to the first of them that is loaded |
| `Consistency.ReapKeepsIndex` | include/trivialInit/mixins/process.hpp:320-331 | erasing by unit name on reap never leaves an index entry for a process that is gone |
| `Consistency.ReapKeepsLedger` | include/trivialInit/mixins/process.hpp:316-318 | a fired callback lowers its own socket's count by one and no other |
| `Consistency.AcceptKeepsLedger` | include/trivialInit/mixins/socket.hpp:175-196 | counts stay exact and within MaxConnections on every branch of accept |
| `Consistency.StepKeepsIndex` | include/trivialInit/mixins/process.hpp:267-290 | every step keeps index, tracked processes and unreaped children in agreement |
| `Consistency.StepKeepsLedger` | include/trivialInit/mixins/socket.hpp:169-197 | every step keeps the connection ledger exact |
| `Consistency.AlwaysConsistent` | include/trivialInit/init_system.hpp:54-78 | all containers are consistent in every reachable state, Accept steps included |
| `Consistency.SignalsReachChildren` | include/trivialInit/mixins/process.hpp:380-395 | whatever signal a step sends goes to an unreaped child, never to a recycled pid |
| `Consistency.ConnectionLedger` | include/trivialInit/mixins/socket.hpp:169-197 | in every reachable state a socket's count equals its unfired callbacks, is not negative, and respects MaxConnections |
| `Consistency.ActiveCountIsTracked` | include/trivialInit/mixins/process.hpp:397-402 | active_count is the number of tracked processes |
| `Consistency.ConnectionExact` | include/trivialInit/mixins/socket.hpp:169-197 | a connection gets a child if and only if it was accepted, fewer than MaxConnections children are open, its service is loaded with words to execute, and fork succeeded; the child executes the command as written |
| `Consistency.ConnectionVerbatim` | include/trivialInit/mixins/socket.hpp:189-191 | a printed command, percent signs and dashes included, reaches the child of a connection word for word |
| `Consistency.ConnectionsNotRestarted` | include/trivialInit/mixins/socket.hpp:193-197 | in every run, the exit of a connection's child queues no restart |
| `Supervision.StepKeepsGood` | include/trivialInit/mixins/process.hpp:308-378 | every step keeps the invariant of every ordinary unit |
| `Supervision.AlwaysGood` | include/trivialInit/init_system.hpp:37-85 | the unit invariant holds after every run that boots with a duplicate-free order |
| `RunTheorems.AtMostOneInstance` | include/trivialInit/mixins/unit_exec.hpp:415-424 | tracked processes, pending restarts and drained restarts of an ordinary unit total at most one in every reachable state |
| `RunTheorems.LiveIsIndexed` | include/trivialInit/mixins/process.hpp:267-290 | a live process of an ordinary unit is what the index holds for its name |
| `RunTheorems.MetadataHandover` | include/trivialInit/mixins/process.hpp:296-306 | a live process carries what one limiter replaying the unit's granted exits would hold; its restart count is the number of grants |
| `RunTheorems.OneLimiter` | include/trivialInit/mixins/process.hpp:335-376 | all grants of a unit in a run were passed by one limiter with the unit's own limit and window |
| `RunTheorems.RateLimitOverRuns` | include/trivialInit/mixins/process.hpp:335-360 | in every run, at most (k+1)*limit restarts of a unit are granted for exits in any k windows |
| `RunTheorems.SpacingOverRuns` | include/trivialInit/mixins/process.hpp:335-378 | in every run, the exits of a unit that led to restarts are at least the delays between them apart |
| `RunTheorems.BackoffRateOverRuns` | include/trivialInit/mixins/process.hpp:335-378 | in every run, a span shorter than the first n delays holds at most n granted exits of a unit, whatever its unit file says |
| `RunTheorems.SevenInTenSeconds` | include/trivialInit/mixins/process.hpp:335-378 | in every run, no unit is granted more than seven restarts for the exits of any ten seconds |
| `RunTheorems.NeverRefusedAfterOvertaking` | include/trivialInit/mixins/process.hpp:335-378 | a run that grants a delay longer than the window never refuses that unit, if its limit is positive |
| `RunTheorems.SeasonedUnitNeverRefused` | include/trivialInit/mixins/process.hpp:335-360 | with the default window, a live process restarted eight times can no longer exhaust its burst |
| `RunTheorems.NoEarlyRestart` | include/trivialInit/mixins/process.hpp:364-378 | the k-th restart of a unit is not before the k-th granted exit plus the k-th delay |
| `RunTheorems.GrantsAccountedFor` | include/trivialInit/mixins/process.hpp:359-376 | every grant has been acted on once, or is still queued or drained |
| `Processes.DrainInOrder` | include/trivialInit/mixins/process.hpp:364-378 | a drain goes through the queue in order: an entry whose time has come is returned by name, any other stays in place, across all units |
| `RunTheorems.ExecutedWords` | include/trivialInit/mixins/unit_exec.hpp:343-383 | in every run, each child of an ordinary unit, at boot and after every restart, executes the expanded words of its command |
| `BootOrder.DependenciesStartFirst` | include/trivialInit/mixins/unit_exec.hpp:249-283 | at every point of the boot, a started unit comes after each started unit it depends on |
| `BootOrder.BootSpawnsExact` | include/trivialInit/mixins/unit_exec.hpp:245-284 | at every point of the boot the inputs are one turn per unit and the children are exactly those that come up, in order, with their words |
| `BootOrder.StartedAtBoot` | include/trivialInit/mixins/unit_exec.hpp:249-283 | after the boot a unit of the order has exactly one child if it is a loaded service with words to execute, no template with an empty instance, its conditions were met, ExecStartPre did not fail and fork succeeded, and none otherwise |
| `Turns.TurnEndsExact` | include/trivialInit/init_system.hpp:54-65 | a turn is the last if and only if the user quit in it or shutdown was requested at any time before its end; shutdown then has the full order before it |
| `Turns.RequestIsObeyed` | include/trivialInit/init_system.hpp:54-71 | after a request the next turn to end begins shutdown, and nothing is drained, restarted or accepted and no turn ends after that |
| `Turns.ShutdownHasCause` | include/trivialInit/init_system.hpp:54-71 | shutdown begins only at the end of a turn, after a request or a quit |
| `Turns.NothingOverdue` | include/trivialInit/init_system.hpp:54-57 | no turn ends while a restart that is due is still queued or waiting to be started |
| `Shutdown.StopLoop` | include/trivialInit/init_system.hpp:70-71 | the stop loop sends its signals from the last unit of the order to the first |
| `Shutdown.WholeStopLoop` | include/trivialInit/init_system.hpp:70-71 | the complete loop sends exactly the signals of `StopSignals` |
| `Shutdown.ShutdownRunsStopLoop` | include/trivialInit/init_system.hpp:67-78 | every run of shutdown is still in the stop loop, or past it with all its signals sent and only SIGKILL after them |
| `Shutdown.OneTermEach` | include/trivialInit/mixins/process.hpp:386-395 | the stop loop's signals hold exactly one SIGTERM for each live ordinary unit, at its own process |
| `Shutdown.OneTermEver` | include/trivialInit/init_system.hpp:67-78 | however shutdown goes on, a live ordinary unit is sent at most one SIGTERM, and exactly one once the loop is past |
| `Shutdown.DependentsStopFirst` | include/trivialInit/init_system.hpp:70-71 | a dependent is signalled before every live unit it depends on |
| `Shutdown.ShutdownWindsDown` | include/trivialInit/init_system.hpp:67-78 | once shutdown has begun nothing is spawned, processes only disappear, and no ordinary unit gains a pending restart |
| `Turns.WaitExact` | include/trivialInit/init_system.hpp:73-74 | the wait polls again if and only if processes are left and fewer than fifty polls were made, and ends otherwise |
| `Shutdown.SurvivorsAreKilled` | include/trivialInit/init_system.hpp:73-78 | at most fifty polls, and everything still tracked at the last poll has been sent SIGKILL |
| `Instances.IndexExact` | include/trivialInit/mixins/process.hpp:281-331 | in every run, a unit's name leads to a process if and only if it started last of the unit's and none of them has been reaped since |
| `Instances.SignalledExactly` | include/trivialInit/mixins/process.hpp:386-395 | for any unit, instances of Accept=yes sockets included: the stop loop sends SIGTERM to a process if and only if its unit is in the order, it started last, and none of the unit's has been reaped since |
| `Instances.InstanceMissed` | include/trivialInit/mixins/process.hpp:328-331 | for every Accept=yes socket with room for two and a service that starts, some run shuts down with a live instance whose unit gets no SIGTERM |
| `InitSystem.InitSystem.constructor` | include/trivialInit/init_system.hpp:41-46 | the object starts in the initial world of a resolved order |
| `InitSystem.InitSystem.TrackProcess` | include/trivialInit/mixins/process.hpp:281-290 | the whole new state of the containers |
| `InitSystem.InitSystem.Spawn` | include/trivialInit/mixins/process.hpp:234-279 | a failed fork changes nothing; a successful one tracks a fresh pid with new metadata and records the words it executes |
| `InitSystem.InitSystem.ApplyRestartCount` | include/trivialInit/mixins/process.hpp:296-306 | the carried metadata moves to the process and is erased |
| `InitSystem.InitSystem.StartPlain` | include/trivialInit/mixins/unit_exec.hpp:379-383 | the plain path leaves the common start result |
| `InitSystem.InitSystem.StartWithSockets` | include/trivialInit/mixins/unit_exec.hpp:358-377 | the socket-activated path leaves the same start result as the plain one |
| `InitSystem.InitSystem.StartService` | include/trivialInit/mixins/unit_exec.hpp:287-384 | the machine's launch for some outcome of ExecStartPre and fork; the words that `BuildCommand` yields are the words recorded for the new child |
| `InitSystem.InitSystem.RunExitCallback` | include/trivialInit/mixins/process.hpp:316-318 | the callback fires once and is erased |
| `InitSystem.InitSystem.DecideRestart` | include/trivialInit/mixins/process.hpp:333-360 | queue entry and log line are those of the verdict on the exit |
| `InitSystem.InitSystem.ReapOne` | include/trivialInit/mixins/process.hpp:312-361 | one turn of the reap loop is the machine's reap |
| `InitSystem.InitSystem.ReapChildren` | include/trivialInit/mixins/process.hpp:308-362 | performs exactly one reap for each child waitpid releases, in that order, with its pid and status |
| `InitSystem.InitSystem.DrainPendingRestarts` | include/trivialInit/mixins/process.hpp:364-378 | due entries are returned in queue order and carried, the others stay in order |
| `InitSystem.InitSystem.StopUnit` | include/trivialInit/mixins/process.hpp:386-395 | policy cleared and SIGTERM sent exactly when the unit is indexed |
| `InitSystem.InitSystem.CountActive` | include/trivialInit/mixins/process.hpp:397-402 | the number of running processes |
| `InitSystem.InitSystem.AcceptReady` | include/trivialInit/mixins/socket.hpp:169-197 | every failure branch restores the count; success tracks the child and registers its callback |
| `InitSystem.InitSystem.DrainSignals` | include/trivialInit/mixins/signal_handler.hpp:60-87 | performs exactly the reaps and shutdown requests of the signals read; shutdown is requested if and only if it was or one of them asks for it |
| `InitSystem.InitSystem.PollWithSockets` | include/trivialInit/init_system.hpp:106-118 | performs exactly the reaps, requests and Accept=yes connections of the reported events, in order |
| `InitSystem.InitSystem.ExecuteUnits` | include/trivialInit/mixins/unit_exec.hpp:245-284 | exactly one boot step per unit of the order, in order, with the outcome of that unit's conditions, and nothing is reaped or accepted; `StartedAtBoot` says who is up then |
| `InitSystem.InitSystem.ProcessRestarts` | include/trivialInit/mixins/unit_exec.hpp:415-424 | exactly one drain and one restart step per entry that was due, in order; nothing is reaped or accepted |
| `InitSystem.InitSystem.MainLoop` | include/trivialInit/init_system.hpp:54-65 | performs the turns up to and including the first in which SIGTERM or SIGINT arrives or the user quits, none after it, and exactly the events of those turns; then shutdown starts with the full order |
| `InitSystem.InitSystem.StopUnits` | include/trivialInit/init_system.hpp:70-71 | the reverse loop performs the machine's stop steps |
| `InitSystem.InitSystem.WaitForChildren` | include/trivialInit/init_system.hpp:73-74 | the bounded wait performs the machine's polls and ends with the remaining processes to kill |
| `InitSystem.InitSystem.KillRest` | include/trivialInit/init_system.hpp:76-77 | one SIGKILL step per remaining process, in any order |
| `InitSystem.InitSystem.Run` | include/trivialInit/init_system.hpp:37-85 | the whole program ends halted in a reachable, consistent world of a sound order, so every run theorem applies to it |
| `FdPlacement.MoveOne` | include/trivialInit/mixins/socket.hpp:217-226 | one turn of the in-place loop on the array equals the functional turn |
| `FdPlacement.Rearrange` | include/trivialInit/mixins/socket.hpp:216-226 | for every list: placed correctly if and only if open, pairwise distinct, and none on the target of an earlier entry |
| `FdPlacement.PlacementExact` | include/trivialInit/mixins/socket.hpp:216-226 | the same equivalence about the specification |
| `FdPlacement.PlacementFrame` | include/trivialInit/mixins/socket.hpp:216-226 | when it holds, other descriptors are untouched and old places outside the target range are closed |
| `FdPlacement.IncreasingIsFine` | include/trivialInit/mixins/socket.hpp:216-226 | strictly increasing lists from 3 up satisfy the condition |
| `FdPlacement.OrderIsFreeUpTo` | include/trivialInit/mixins/socket.hpp:216-226 | all lists of n distinct descriptors from base up avoid a clash if and only if n <= base - 2 |
| `FdPlacement.FourSocketsCanFail` | include/trivialInit/mixins/socket.hpp:142-226 | with 3 and 4 taken, up to three sockets are safe in any order, and 6, 7, 8, 5 is misplaced whatever the table |
| `Fields.SplitList` | include/trivialInit/mixins/unit_parse.hpp:24-37 | the loop computes the maximal separator-free runs |
| `Fields.SplitConcat` | include/trivialInit/mixins/unit_parse.hpp:24-37 | splitting is a homomorphism across any separator |
| `Fields.SplitFields` | include/trivialInit/mixins/unit_parse.hpp:24-37 | no field is empty or contains a separator |
| `UnitParser.TrimExact` | include/trivialInit/mixins/unit_parse.hpp:17-22 | trim removes exactly the surrounding spaces, tabs, carriage returns and line feeds |
| `UnitParser.PrintedEntry` | include/trivialInit/mixins/unit_parse.hpp:47-58 | a key=value line, whatever white space surrounds its parts, is read as that key and value if and only if it does not look like a comment or a header |
| `UnitParser.PrintedHeader` | include/trivialInit/mixins/unit_parse.hpp:48-53 | a printed section header is read back as that section |
| `UnitParser.PrintedComment` | include/trivialInit/mixins/unit_parse.hpp:48-49 | comment lines are ignored whatever they hold |
| `UnitParser.StrayLine` | include/trivialInit/mixins/unit_parse.hpp:47-56 | any other line without an equals sign is ignored, blank ones included |
| `UnitParser.ParseIni` | include/trivialInit/mixins/unit_parse.hpp:39-77 | the accumulating loop processes the glued logical lines; the result holds exactly the keys those lines give a value, each with its values joined in order |
| `UnitParser.BreakingChangesNothing` | include/trivialInit/mixins/unit_parse.hpp:65-75 | breaking logical lines anywhere into continued physical lines leaves the parse unchanged |
| `UnitParser.LastLineContinued` | include/trivialInit/mixins/unit_parse.hpp:65-75 | a file that ends in a continued line loses nothing but the backslash |
| `UnitParser.ParsedExactly` | include/trivialInit/mixins/unit_parse.hpp:47-63 | for all lines: a key is present if and only if it is given a value, holds its values joined by 0x1F without the empty ones at the front, and no section is empty |
| `UnitParser.FileRoundTrip` | include/trivialInit/mixins/unit_parse.hpp:39-77 | a printed file of sections and entries parses to exactly its bindings: a key given once holds its value, non-empty values of a repeated key are joined in order |
| `UnitParser.StoredValue` | include/trivialInit/mixins/unit_parse.hpp:47-63 | the stored value of any key is the accumulation of its values in file order |
| `UnitParser.ListFields` | include/trivialInit/mixins/unit_parse.hpp:24-37 | a list field ends at a space, a tab or 0x1F and at nothing else |
| `UnitParser.RepeatedListKey` | include/trivialInit/mixins/unit_parse.hpp:24-63 | split_list of a repeated key is the concatenation of the per-line lists |
| `UnitParser.RepeatedValueKey` | include/trivialInit/mixins/unit_parse.hpp:58-93 | split_rs of a repeated key yields its non-empty values in file order |
| `UnitParser.SplitRs` | include/trivialInit/mixins/unit_parse.hpp:80-93 | the loop computes the non-empty fields between separators |
| `Environment.ParseEnvironment` | include/trivialInit/mixins/unit_parse.hpp:95-121 | the index loop computes the meaning of the text and always advances |
| `Environment.EnvironmentRoundTrip` | include/trivialInit/mixins/unit_parse.hpp:95-121 | parsing printed assignments, with any run of spaces and tabs between them, binds every key to its value, for all good keys, all values in quotes, and all blank-free bare values |
| `Environment.MapRoundTrip` | include/trivialInit/mixins/unit_parse.hpp:95-121 | a map printed in any order parses back to the same map |
| `Environment.ParsePrinted` | include/trivialInit/mixins/unit_parse.hpp:95-121 | one printed assignment binds its key and leaves the rest to be read; an empty key binds nothing |
| `Environment.NoAssignment` | include/trivialInit/mixins/unit_parse.hpp:101-102 | text without an equals sign assigns nothing |
| `Environment.UnclosedQuote` | include/trivialInit/mixins/unit_parse.hpp:106-112 | a quoted value that is never closed runs to the end, and a backslash that ends the text is kept |
| `CommandLine.SplitExec` | include/trivialInit/mixins/unit_exec.hpp:432-441 | the loop computes the specified words and never yields an empty one |
| `CommandLine.SplitOfPrinted` | include/trivialInit/mixins/unit_exec.hpp:432-441 | splitting undoes printing, however the words are quoted with either quote and whatever run of spaces and tabs separates them |
| `CommandLine.UnclosedQuote` | include/trivialInit/mixins/unit_exec.hpp:432-441 | a quote that is never closed takes in the rest of the line |
| `CommandLine.EveryWordPrintable` | include/trivialInit/mixins/unit_exec.hpp:432-441 | every word has a well-quoted form |
| `Specifiers.UnitNameUnescape` | src/systemd/specifiers.cpp:22-36 | the index loop computes the unescaped text |
| `Specifiers.UnescapeInverts` | src/systemd/specifiers.cpp:22-36 | unescape inverts every \xNN escaping that leaves no bare backslash, with digits of either case taken by position from the digit strings |
| `Specifiers.EscapeRoundTrip` | src/systemd/specifiers.cpp:22-36 | escaping any set of characters that includes the backslash and unescaping gives the text back |
| `Specifiers.UnescapePlain` | src/systemd/specifiers.cpp:22-36 | text without a complete escape stays as it is, stray backslashes included |
| `Specifiers.ResolveSpecifiers` | src/systemd/specifiers.cpp:170-194 | the index loop computes the expansion |
| `Specifiers.ExpandPair` | src/systemd/specifiers.cpp:174-186 | a percent sign and a letter in front of any text become the letter's expansion, or stay if the letter is unknown, and the rest is expanded on its own |
| `Specifiers.DoubledIsLiteral` | src/systemd/specifiers.cpp:170-194 | a string with every percent sign doubled resolves to itself |
| `Specifiers.CoreTableProtects` | src/systemd/specifiers.cpp:101-168 | the same for the program's own table, whatever the unit and host |
| `Specifiers.ResolveIdempotent` | src/systemd/specifiers.cpp:170-194 | twice equals once when no doubled percent is read and expansions have none |
| `Specifiers.FixedExact` | src/systemd/specifiers.cpp:170-194 | expansion leaves a text alone if and only if its scan meets no known specifier, if those it meets expand to text without a percent sign |
| `Specifiers.KnownMetExact` | src/systemd/specifiers.cpp:170-194 | the scan meets a known specifier if and only if some percent sign stands directly before a known letter; overlaps hide none |
| `Specifiers.ResolveTwiceExact` | src/systemd/specifiers.cpp:170-194 | expanding twice equals expanding once if and only if the scan of the text as written puts no percent sign directly before a known letter |
| `Specifiers.CorePlainExact` | src/systemd/specifiers.cpp:101-168 | the program's expansions hold no percent sign if and only if the unescaped unit name and the host's values hold none |
| `Specifiers.UnescapeCut` | src/systemd/specifiers.cpp:22-57 | unescaping commutes with cutting a name at a character that no escape contains, such as the at sign, the dot and the dash |
| `StartCommand.BuildCommand` | include/trivialInit/mixins/unit_exec.hpp:343-352 | the words executed: the path expanded once, the arguments expanded, split and expanded again |
| `StartCommand.CommandRoundTrip` | include/trivialInit/mixins/unit_exec.hpp:343-352 | a command of percent-free words, printed in any well-quoted way, is executed word for word; one dash in front of it is dropped, and no more |
| `StartCommand.ExpandedDashStays` | include/trivialInit/mixins/unit_exec.hpp:345-348 | the dash is dropped before expansion: one that an expansion brings in stays |
| `StartCommand.LaunchedExact` | include/trivialInit/mixins/unit_exec.hpp:348-352 | the executed words are the once-expanded ones if and only if no word after the first shows a known specifier, if those shown expand to text without a percent sign |
| `StartCommand.ClearIsHarmless` | include/trivialInit/mixins/unit_exec.hpp:348-352 | the sufficient half for every table whatsoever |
| `StartCommand.ClearExact` | include/trivialInit/mixins/unit_exec.hpp:343-352 | for every table that knows the percent sign: one pass with constant memory over the command as written tells whether an argument will show a known specifier |
| `StartCommand.StableExact` | include/trivialInit/mixins/unit_exec.hpp:343-352 | for expansions without a percent sign: the second expansion changes nothing if and only if that pass finds no disturbance |
| `StartCommand.SafeCommand` | include/trivialInit/mixins/unit_exec.hpp:343-352 | no doubled percent and no percent before a quote in the command's scan, and plain expansions, make the second expansion harmless |
| `StartCommand.UnitCommandExact` | include/trivialInit/mixins/unit_exec.hpp:347-352 | both results for the program's own letters, when the unescaped unit name and the host's values hold no percent sign |
| `StartCommand.SecondPassExpands` | include/trivialInit/mixins/unit_exec.hpp:348-352 | with the program's own letters, `e %"n"` and `e %%n` give the word %n once expanded, and the unit's name when executed |
| `StartCommand.EscapedPercentExpands` | include/trivialInit/mixins/unit_exec.hpp:347-352 | in the unit `t@\x25n.service` the command `e %I` passes the scan rule and its argument is still replaced by the unit's name |
| `StartCommand.SelfExpansion` | include/trivialInit/mixins/unit_exec.hpp:347-352 | in the unit `t@\x25I.service` the second expansion of `e %%I` meets a known specifier and changes nothing |
| `StartCommand.FirstWordIsSpared` | include/trivialInit/mixins/unit_exec.hpp:351-352 | `%%n x` fails the text condition and is harmless, since the first word is not expanded again |
| `Specifiers.ContextRecomposes` | src/systemd/specifiers.cpp:38-57 | prefix, instance and type put together give the unit name |
| `Specifiers.BareTemplateHasNoInstance` | include/trivialInit/systemd/unit_file.hpp:95-101 | a bare template is a template name with an empty instance |
| `Specifiers.TemplatesNamed` | include/trivialInit/systemd/unit_file.hpp:95-101 | `t@.service` is a bare template, and `t@i.service` is none for any i that is not empty |
| `Specifiers.LettersOfInstance` | src/systemd/specifiers.cpp:105-116 | for an instance name written with escaped parts: %p, %i and %n give them as written, %P, %I, %f and %N unescaped |
| `Specifiers.LettersOfLastPart` | src/systemd/specifiers.cpp:118-127 | %j and %J give the escaped and unescaped text after the last dash of the prefix |
| `Specifiers.DirectoryLetters` | src/systemd/specifiers.cpp:129-134 | the directory letters expand to /run, /var/lib, /var/cache, /var/log and /etc |
| `Specifiers.FinalComponent` | src/systemd/specifiers.cpp:118-127 | the %j text is the part of the prefix after its last dash |
| `Specifiers.InstanceNamedAgain` | src/systemd/specifiers.cpp:105-111 | expanding %p@%i and adding the type gives what %n expands to |
| `MountOptions.ParseMountOptions` | include/trivialInit/mixins/unit_exec.hpp:26-65 | the loop computes the combination of all tokens |
| `MountOptions.MeaningOfConcat` | include/trivialInit/mixins/unit_exec.hpp:41-64 | "a,b" gives the union of both flag sets and the comma-join of both data strings |
| `MountOptions.DataIsComplete` | include/trivialInit/mixins/unit_exec.hpp:48-62 | the data string is exactly the non-flag tokens, once each, in order, with single commas between them |
| `MountOptions.FlagsAreComplete` | include/trivialInit/mixins/unit_exec.hpp:54-57 | a flag is set exactly when some flag token asks for it |
| `MountOptions.FlagsExact` | include/trivialInit/mixins/unit_exec.hpp:27-57 | each flag is set if and only if the option that stands for it, or rbind for its two, is among the tokens |

## Left out

- MountOptions.ParseMountOptions: the flag word is a set of flag names with union for bitwise or; the numeric MS_* values belong to the kernel headers.
- InitSystem.InitSystem.MainLoop: takes the list of what the outside world has in store and quits at its end, since the program loops for ever; the contract holds for every list.
- InitSystem.InitSystem.Run: starts after the setup phases, which are taken to succeed, so their early returns are not represented; it takes a list of turns as `MainLoop` does.
- InitSystem.InitSystem.StartService: ExecStartPre and credential setup appear only as success or failure, and the child's environment is not recorded; a unit carries the letters of its own specifier context.
- Specifiers.ResolveIdempotent: one direction only; `Specifiers.ResolveTwiceExact` gives the exact condition, for tables that know the percent sign.
- StartCommand.LaunchedExact: for arguments whose known specifiers expand to text without a percent sign. Otherwise the second expansion may or may not change them, as `StartCommand.EscapedPercentExpands` and `StartCommand.SelfExpansion` show; `StartCommand.ClearIsHarmless` holds for every table.
- Specifiers.FixedExact: the same restriction, on the specifiers that the text itself meets.
- Specifiers.ResolveTwiceExact: for expansions without a percent sign; `Specifiers.CorePlainExact` says for which units these are the program's.
- FdPlacement.Rearrange: `dup2` fails only on a closed source descriptor; running out of descriptors is not represented.
- Machine integer limits: `restart_count` is unbounded here, so its overflow after 2^31 restarts is not represented.
- System calls (mounting, binding, socket options, epoll registration, credentials, signal masks): effects outside the program.
- `register_accept_sockets` and `fd_to_socket_`: an Accept=yes connection arrives by socket name.
- `parse_socket_unit`, the [Unit]/[Service]/[Install]/[Mount] field copies, and conditions: field assignments and file-system probes; a condition result is an input.
- `queue_restart`: nothing calls it.
- Unit discovery, passwd and group lookups, runtime directories, the TUI and the journal: file reading and display.
- `before`, `wants`, `conflicts`, `part_of`, `binds_to`: the resolver does not read them.
- Repeated `Environment=` lines: they are joined with a character that `parse_environment` does not treat as a separator, so the round trip is about one value.
