/**
 `InitSystem` with the mixins it is composed of, as one object with mutable
 containers.  Kernel and clock answer nondeterministically.  Every method is
 tied to the state machine: `inputs` records the machine inputs performed so
 far, and `Valid` says that the object is in the state they lead to, so all
 theorems about runs hold of the object.
 */
module InitSystem {
  import opened UnitFiles
  import opened DependencyResolver
  import opened Processes
  import opened RestartLimiter
  import opened Machine
  import opened RunTheorems
  import CommandLine
  import StartCommand
  import Consistency

  function RunningAmong(m: map<int, TrackedProcess>, s: set<int>): set<int>
  {
    set p | p in s && p in m && m[p].state == Running
  }

  lemma SomeMember(s: set<int>) returns (p: int)
    requires s != {}
    ensures p in s
  {
    if forall q: int :: q !in s {
      assert false;
    }
    p :| p in s;
  }

  lemma RunningOneMore(m: map<int, TrackedProcess>, s: set<int>, p: int)
    requires p in m && p !in s
    ensures |RunningAmong(m, s + {p})| == |RunningAmong(m, s)| + if m[p].state == Running then 1 else 0
  {
    assert RunningAmong(m, s + {p}) == RunningAmong(m, s) + if m[p].state == Running then {p} else {};
  }

  lemma FiresOnlyCallback(t: Tables, pid: int)
    ensures var t' := FireCallback(t, pid);
      t' == t.(callbacks := t'.callbacks, active := t'.active)
  {
  }

  function WithSpawn(j: Journal, x: SpawnRecord): Journal
  {
    j.(spawns := j.spawns + [x])
  }

  lemma NothingStarted(t: Tables, name: Name, unit: UnitFile, f: Fate)
    ensures !Launches(unit, f) ==> Processes.StartService(t, name, unit, f) == t
  {
  }

  /** The record with the unit's own policy and limits. */
  function Corrected(tp: TrackedProcess, unit: UnitFile): TrackedProcess
  {
    tp.(policy := ParseRestartPolicy(unit.restart), limit := unit.burstLimit, interval := unit.burstInterval)
  }

  /** Spawning with defaults and correcting the record comes to the same as spawning with the unit's values. */
  lemma CorrectedStart(t: Tables, name: Name, unit: UnitFile, pid: int,
                       policy: RestartPolicy, limit: int, interval: int)
    requires Launches(unit, Fate(true, pid))
    ensures var t' := ApplyMeta(Track(t, pid, name, policy, limit, interval), pid, name);
      && pid in t'.processes
      && Processes.StartService(t, name, unit, Fate(true, pid)) ==
        t'.(processes := t'.processes[pid := Corrected(t'.processes[pid], unit)])
  {
    hide Launches, ParseRestartPolicy, Processes.StartService;
    StartFacts(t, name, unit, Fate(true, pid));
  }

  // ---------------------------------------------------------------- what the kernel reports

  /** One answer of waitpid. */
  datatype Status = Status(pid: int, code: int, signaled: bool)

  type Zombie = s: Status | s.pid > 0 witness Status(1, 0, false)

  /** One record read from the signalfd; SIGCHLD comes with the children that waitpid then releases. */
  datatype SignalRead = ChildSignal(zombies: seq<Zombie>) | ShutdownSignal | OtherSignal

  /** One entry of epoll_wait's answer. */
  datatype Event = SignalsReady(signals: seq<SignalRead>) | ConnectionReady(socket: Name)

  /** The part of a machine input that the kernel reports. */
  datatype Report = Reaped(status: Status) | Requested | Connected(socket: Name) | Internal

  function ReportOf(i: Input): Report
  {
    match i
    case ChildExit(e) => Reaped(Status(e.pid, e.code, e.signaled))
    case RequestShutdown => Requested
    case Connection(socket, _, _) => Connected(socket)
    case _ => Internal
  }

  function Reports(inputs: seq<Input>): seq<Report>
  {
    if inputs == [] then [] else Reports(inputs[..|inputs| - 1]) + [ReportOf(inputs[|inputs| - 1])]
  }

  lemma ReportsSnoc(inputs: seq<Input>, i: Input)
    ensures Reports(inputs + [i]) == Reports(inputs) + [ReportOf(i)]
  {
    assert (inputs + [i])[..|inputs|] == inputs;
  }

  /** The boot step of a unit whose conditions turned out as `met`. */
  predicate IsBoot(i: Input, met: bool)
  {
    i.BootUnit? && i.conditionsMet == met
  }

  /** Nothing was asked of the kernel that a report would show. */
  function Internals(n: nat): seq<Report>
  {
    if n == 0 then [] else Internals(n - 1) + [Internal]
  }

  lemma InternalsNext(before: seq<Report>, n: nat)
    ensures before + Internals(0) == before
    ensures before + Internals(n) + [Internal] == before + Internals(n + 1)
  {
  }

  /** What `reap_children` has to handle: each child that waitpid releases, in that order. */
  function ReapReports(zombies: seq<Zombie>): seq<Report>
  {
    if zombies == [] then [] else ReapReports(zombies[..|zombies| - 1]) + [Reaped(zombies[|zombies| - 1])]
  }

  function SignalReport(s: SignalRead): seq<Report>
  {
    match s
    case ChildSignal(zombies) => ReapReports(zombies)
    case ShutdownSignal => [Requested]
    case OtherSignal => []
  }

  function SignalReports(signals: seq<SignalRead>): seq<Report>
  {
    if signals == [] then [] else SignalReports(signals[..|signals| - 1]) + SignalReport(signals[|signals| - 1])
  }

  /** Only Accept=yes sockets are registered with epoll. */
  function EventReport(sockets: map<Name, SocketUnit>, e: Event): seq<Report>
  {
    match e
    case SignalsReady(signals) => SignalReports(signals)
    case ConnectionReady(k) => if k in sockets && sockets[k].accept then [Connected(k)] else []
  }

  function EventReports(sockets: map<Name, SocketUnit>, events: seq<Event>): seq<Report>
  {
    if events == [] then []
    else EventReports(sockets, events[..|events| - 1]) + EventReport(sockets, events[|events| - 1])
  }

  // ---------------------------------------------------------------- turns of the main loop

  predicate EventAsks(e: Event)
  {
    e.SignalsReady? && ShutdownSignal in e.signals
  }

  /** SIGTERM or SIGINT is among the signals read. */
  predicate EventsAsk(events: seq<Event>)
  {
    exists k :: 0 <= k < |events| && EventAsks(events[k])
  }

  lemma EventsAskNext(events: seq<Event>, k: nat)
    requires k < |events|
    ensures EventsAsk(events[..k + 1]) <==> EventsAsk(events[..k]) || EventAsks(events[k])
  {
    hide EventAsks;
    if EventsAsk(events[..k]) {
      var j :| 0 <= j < k && EventAsks(events[..k][j]);
      assert events[..k + 1][j] == events[j];
    }
    if EventAsks(events[k]) {
      assert events[..k + 1][k] == events[k];
    }
    if EventsAsk(events[..k + 1]) && !EventAsks(events[k]) {
      var j :| 0 <= j < k + 1 && EventAsks(events[..k + 1][j]);
      assert events[..k][j] == events[j];
    }
  }

  /** What one turn brings: the answer of epoll_wait, and whether the user quits. */
  datatype Turn = Turn(events: seq<Event>, quit: bool)

  predicate Asks(t: Turn)
  {
    t.quit || EventsAsk(t.events)
  }

  /** What the kernel reported, leaving out the steps that consult nobody. */
  function External(r: seq<Report>): seq<Report>
  {
    if r == [] then []
    else External(r[..|r| - 1]) + if r[|r| - 1].Internal? then [] else [r[|r| - 1]]
  }

  function TurnReports(sockets: map<Name, SocketUnit>, turns: seq<Turn>): seq<Report>
  {
    if turns == [] then []
    else TurnReports(sockets, turns[..|turns| - 1]) + EventReports(sockets, turns[|turns| - 1].events)
  }

  lemma {:induction false} ExternalConcat(a: seq<Report>, b: seq<Report>)
    ensures External(a + b) == External(a) + External(b)
  {
    if b == [] {
      assert a + b == a && External(a) + [] == External(a);
    } else {
      var front := b[..|b| - 1];
      ExternalConcat(a, front);
      assert (a + b)[..|a + b| - 1] == a + front && (a + b)[|a + b| - 1] == b[|b| - 1];
    }
  }

  lemma {:induction false} ExternalNone(n: nat)
    ensures External(Internals(n)) == []
  {
    if n > 0 {
      ExternalNone(n - 1);
      assert Internals(n)[..|Internals(n)| - 1] == Internals(n - 1);
    }
  }

  lemma {:induction false} ExternalAll(r: seq<Report>)
    requires Internal !in r
    ensures External(r) == r
  {
    if r != [] {
      ExternalAll(r[..|r| - 1]);
    }
  }

  lemma {:induction false} ReapsExternal(zombies: seq<Zombie>)
    ensures Internal !in ReapReports(zombies)
  {
    if zombies != [] { ReapsExternal(zombies[..|zombies| - 1]); }
  }

  lemma {:induction false} SignalsExternal(signals: seq<SignalRead>)
    ensures Internal !in SignalReports(signals)
  {
    if signals != [] {
      SignalsExternal(signals[..|signals| - 1]);
      var last := signals[|signals| - 1];
      if last.ChildSignal? { ReapsExternal(last.zombies); }
    }
  }

  lemma {:induction false} EventsExternal(sockets: map<Name, SocketUnit>, events: seq<Event>)
    ensures Internal !in EventReports(sockets, events)
  {
    if events != [] {
      EventsExternal(sockets, events[..|events| - 1]);
      var last := events[|events| - 1];
      if last.SignalsReady? { SignalsExternal(last.signals); }
    }
  }

  /** A turn adds its events and nothing else that the kernel reported. */
  lemma TurnHeard(sockets: map<Name, SocketUnit>, events: seq<Event>, seen: seq<Report>, n: nat)
    ensures External(seen + EventReports(sockets, events) + Internals(n) + [Internal]) ==
      External(seen) + EventReports(sockets, events)
  {
    hide External, EventReports, Internals;
    var r := EventReports(sockets, events);
    EventsExternal(sockets, events);
    ExternalAll(r);
    ExternalNone(n);
    ExternalOne();
    ExternalConcat(seen, r);
    ExternalConcat(seen + r, Internals(n));
    ExternalConcat(seen + r + Internals(n), [Internal]);
  }

  lemma TurnReportsNext(sockets: map<Name, SocketUnit>, turns: seq<Turn>, k: nat, before: seq<Report>)
    requires k < |turns|
    ensures before + TurnReports(sockets, turns[..k]) + EventReports(sockets, turns[k].events) ==
      before + TurnReports(sockets, turns[..k + 1])
    ensures before + TurnReports(sockets, turns[..0]) == before
  {
    hide EventReports;
    assert turns[..k + 1][..k] == turns[..k];
  }

  lemma ExternalOne()
    ensures External([Internal]) == []
  {
  }

  lemma ReapReportsNext(zombies: seq<Zombie>, k: nat, before: seq<Report>)
    requires k < |zombies|
    ensures before + ReapReports(zombies[..k]) + [Reaped(zombies[k])] == before + ReapReports(zombies[..k + 1])
  {
    assert zombies[..k + 1][..k] == zombies[..k];
  }

  lemma SignalReportsNext(signals: seq<SignalRead>, k: nat, before: seq<Report>)
    requires k < |signals|
    ensures before + SignalReports(signals[..k]) + SignalReport(signals[k]) == before + SignalReports(signals[..k + 1])
    ensures ShutdownSignal in signals[..k + 1] <==> ShutdownSignal in signals[..k] || signals[k] == ShutdownSignal
  {
    hide SignalReport;
    assert signals[..k + 1] == signals[..k] + [signals[k]];
    assert signals[..k + 1][..k] == signals[..k];
  }

  lemma EventReportsNext(sockets: map<Name, SocketUnit>, events: seq<Event>, k: nat, before: seq<Report>)
    requires k < |events|
    ensures before + EventReports(sockets, events[..k]) + EventReport(sockets, events[k]) ==
      before + EventReports(sockets, events[..k + 1])
  {
    assert events[..k + 1][..k] == events[..k];
  }

  lemma NothingYet(sockets: map<Name, SocketUnit>, zombies: seq<Zombie>, signals: seq<SignalRead>, events: seq<Event>,
                   before: seq<Report>)
    ensures before + ReapReports(zombies[..0]) == before && zombies[..|zombies|] == zombies
    ensures before + SignalReports(signals[..0]) == before && signals[..|signals|] == signals
    ensures before + EventReports(sockets, events[..0]) == before && events[..|events|] == events
    ensures ShutdownSignal !in signals[..0] && !EventsAsk(events[..0])
  {
  }

  class InitSystem {
    const units: Units
    const sockets: map<Name, SocketUnit>
    var execOrder: seq<Name>
    var processes: map<int, TrackedProcess>
    var unitToPid: map<Name, int>
    var exitCallbacks: map<int, Name>
    var pendingRestarts: seq<PendingRestart>
    var restartCounts: map<Name, Meta>
    var activeConnections: map<Name, int>
    var shutdownRequested: bool

    // The outside world: unreaped children and the latest clock reading.
    var children: set<int>
    var clock: int

    ghost var phase: Phase
    ghost var journal: Journal
    ghost var start: nat
    ghost var inputs: seq<Input>

    ghost function Cfg(): Config
      reads this
    {
      Config(units, sockets, execOrder)
    }

    ghost function Containers(): Tables
      reads this
    {
      Tables(processes, unitToPid, exitCallbacks, pendingRestarts, restartCounts, activeConnections)
    }

    ghost function CurrentWorld(): World
      reads this
    {
      World(phase, Containers(), shutdownRequested, children, clock, journal)
    }

    ghost predicate Valid()
      reads this
    {
      && IsResolution(units, execOrder)
      && Feasible(Cfg(), Initial(Cfg(), start), inputs)
      && CurrentWorld() == Exec(Cfg(), Initial(Cfg(), start), inputs)
    }

    // ---------------------------------------------------------------- the outside world

    method Fork() returns (pid: int)
      modifies `children
      ensures pid > 0 ==> pid !in old(children)
      ensures children == old(children) + if pid > 0 then {pid} else {}
    {
      pid :| pid <= 0 || pid !in children;
      if pid > 0 {
        children := children + {pid};
      }
    }

    method Now() returns (t: int)
      modifies `clock
      ensures t == clock >= old(clock)
    {
      t :| t >= clock;
      clock := t;
    }

    // ---------------------------------------------------------------- process bookkeeping

    method TrackProcess(pid: int, name: Name, policy: RestartPolicy, limit: int, interval: int)
      modifies `processes, `unitToPid
      ensures Containers() == Track(old(Containers()), pid, name, policy, limit, interval)
    {
      processes := processes[pid := TrackedProcess(name, Running, policy, limit, interval, NEW_META)];
      unitToPid := unitToPid[name := pid];
    }

    method Spawn(name: Name, words: seq<string>, policy: RestartPolicy, limit: int, interval: int) returns (pid: int)
      modifies `processes, `unitToPid, `children, `journal
      ensures pid > 0 ==> pid !in old(children)
      ensures pid <= 0 ==> CurrentWorld() == old(CurrentWorld())
      ensures pid > 0 ==> CurrentWorld() == old(CurrentWorld()).(
        tables := Track(old(Containers()), pid, name, policy, limit, interval),
        children := old(children) + {pid},
        journal := WithSpawn(old(journal), SpawnRecord(name, pid, words)))
    {
      pid := Fork();
      if pid <= 0 {
        return;
      }
      TrackProcess(pid, name, policy, limit, interval);
      journal := WithSpawn(journal, SpawnRecord(name, pid, words));
    }

    method ApplyRestartCount(pid: int, name: Name)
      modifies `processes, `restartCounts
      ensures Containers() == ApplyMeta(old(Containers()), pid, name)
    {
      if name !in restartCounts {
        return;
      }
      if pid in processes {
        processes := processes[pid := processes[pid].(meta := restartCounts[name])];
      }
      restartCounts := restartCounts - {name};
    }

    predicate SocketActivated(name: Name)
    {
      exists k :: k in sockets && PairsWith(k, sockets[k], name) && sockets[k].fds != []
    }

    /** The plain start path. */
    method StartPlain(name: Name, unit: UnitFile, words: seq<string>) returns (pid: int)
      requires unit.execStart != "" && words == StartWords(unit) != []
      modifies `processes, `unitToPid, `restartCounts, `children, `journal
      ensures pid > 0 ==> pid !in old(children)
      ensures Containers() == Processes.StartService(old(Containers()), name, unit, Fate(true, pid))
      ensures children == old(children) + if pid > 0 then {pid} else {}
      ensures journal == if pid > 0 then WithSpawn(old(journal), SpawnRecord(name, pid, words)) else old(journal)
    {
      hide ParseRestartPolicy;
      pid := Spawn(name, words, ParseRestartPolicy(unit.restart), unit.burstLimit, unit.burstInterval);
      if pid > 0 {
        ApplyRestartCount(pid, name);
      }
    }

    /** The socket-activated start path: defaults first, then the unit's own policy and limits. */
    method StartWithSockets(name: Name, unit: UnitFile, words: seq<string>) returns (pid: int)
      requires unit.execStart != "" && words == StartWords(unit) != []
      modifies `processes, `unitToPid, `restartCounts, `children, `journal
      ensures pid > 0 ==> pid !in old(children)
      ensures Containers() == Processes.StartService(old(Containers()), name, unit, Fate(true, pid))
      ensures children == old(children) + if pid > 0 then {pid} else {}
      ensures journal == if pid > 0 then WithSpawn(old(journal), SpawnRecord(name, pid, words)) else old(journal)
    {
      hide ParseRestartPolicy, Processes.StartService, Track, ApplyMeta, StartWords;
      var policy := ParseRestartPolicy(unit.restart);
      var first := if policy != No then OnFailure else No;
      pid := Spawn(name, words, first, DEFAULT_BURST, DEFAULT_INTERVAL);
      if pid > 0 {
        CorrectedStart(old(Containers()), name, unit, pid, first, DEFAULT_BURST, DEFAULT_INTERVAL);
        ApplyRestartCount(pid, name);
        processes := processes[pid :=
          processes[pid].(policy := policy, limit := unit.burstLimit, interval := unit.burstInterval)];
      } else {
        NothingStarted(old(Containers()), name, unit, Fate(true, pid));
      }
    }

    /**
     `start_service`, on the plain and on the socket-activated path: both leave
     the same record behind, with the metadata carried from the last exit.
     */
    method StartService(name: Name) returns (ghost f: Fate)
      requires name in units
      modifies `processes, `unitToPid, `restartCounts, `children, `journal
      ensures FreshPid(old(CurrentWorld()), f.pid)
      ensures CurrentWorld() == Launch(Cfg(), old(CurrentWorld()), name, f)
    {
      hide Processes.StartService;
      var unit := units[name];
      var preOk: bool := *;
      if !preOk || unit.execStart == "" {
        f := Fate(false, 0);
        return;
      }
      var argv := StartCommand.BuildCommand(unit.execStart, unit.letters);
      if argv == [] {
        f := Fate(false, 0);
        return;
      }
      var pid;
      if SocketActivated(name) {
        pid := StartWithSockets(name, unit, argv);
      } else {
        pid := StartPlain(name, unit, argv);
      }
      f := Fate(true, pid);
      NothingStarted(old(Containers()), name, unit, f);
    }

    /** The exit callback registered by `accept_ready` lowers its socket's count, once. */
    method RunExitCallback(pid: int)
      modifies `exitCallbacks, `activeConnections
      ensures Containers() == FireCallback(old(Containers()), pid)
    {
      if pid in exitCallbacks {
        var k := exitCallbacks[pid];
        if k in activeConnections {
          activeConnections := activeConnections[k := activeConnections[k] - 1];
        }
        exitCallbacks := exitCallbacks - {pid};
      }
    }

    /** The second half of the loop body: burst limit, backoff, queue. */
    method DecideRestart(tp: TrackedProcess, pid: int, code: int, signaled: bool) returns (ghost e: Exit)
      modifies `pendingRestarts, `clock, `journal
      ensures e == Exit(pid, code, signaled, clock) && clock >= old(clock)
      ensures pendingRestarts == old(pendingRestarts) + Requeue(tp, e)
      ensures journal == match Judge(tp, e)
        case NoRestart => old(journal)
        case BurstExhausted => old(journal).(refusals := old(journal).refusals + [Refusal(tp.unit, e.at, tp.meta)])
        case Restart(entry) =>
          old(journal).(grants := old(journal).grants + [Grant(entry.unit, e.at, entry.due, entry.meta)])
    {
      if !ShouldRestart(tp.policy, code, signaled) {
        e := Exit(pid, code, signaled, clock);
        return;
      }
      var now := Now();
      e := Exit(pid, code, signaled, now);
      var m := tp.meta;
      if now - m.window > tp.interval * SECOND {
        m := Meta(m.restarts, 0, now);
      }
      m := m.(burst := m.burst + 1);
      if m.burst > tp.limit {
        journal := journal.(refusals := journal.refusals + [Refusal(tp.unit, now, tp.meta)]);
        return;
      }
      var exponent := Min(m.restarts, MAX_EXPONENT);
      var delay := Min(BASE_DELAY_MS * Pow2(exponent), MAX_DELAY_MS);
      var entry := PendingRestart(tp.unit, now + delay * MILLISECOND, m.(restarts := m.restarts + 1));
      pendingRestarts := pendingRestarts + [entry];
      journal := journal.(grants := journal.grants + [Grant(entry.unit, now, entry.due, entry.meta)]);
    }

    /** One turn of the loop in `reap_children`, for a child the kernel has just released. */
    method ReapOne(pid: int, code: int, signaled: bool) returns (ghost e: Exit)
      modifies `processes, `unitToPid, `exitCallbacks, `pendingRestarts, `activeConnections, `clock, `journal
      ensures e == Exit(pid, code, signaled, clock) && clock >= old(clock)
      ensures Containers() == Reap(old(Containers()), e) && journal == Note(old(journal), old(Containers()), e)
    {
      hide Judge, Requeue, FireCallback;
      RunExitCallback(pid);
      assert Containers() == FireCallback(old(Containers()), pid);
      FiresOnlyCallback(old(Containers()), pid);
      if pid !in processes {
        e := Exit(pid, code, signaled, clock);
        return;
      }
      var tp := processes[pid];
      unitToPid := unitToPid - {tp.unit};
      processes := processes - {pid};
      e := DecideRestart(tp, pid, code, signaled);
    }

    /** `drain_pending_restarts`. */
    method DrainPendingRestarts() returns (ready: seq<Name>)
      modifies `pendingRestarts, `restartCounts, `clock
      ensures clock >= old(clock)
      ensures ready == Due(old(pendingRestarts), clock)
      ensures Containers() == DrainPending(old(Containers()), clock)
    {
      var now := Now();
      ready := [];
      var remaining: seq<PendingRestart> := [];
      ghost var carried := restartCounts;
      var queue := pendingRestarts;
      for i := 0 to |queue|
        invariant clock == now
        invariant ready == Due(queue[..i], now)
        invariant remaining == NotDue(queue[..i], now)
        invariant restartCounts == CarryDue(carried, queue[..i], now)
      {
        var pr := queue[i];
        assert queue[..i + 1][..i] == queue[..i];
        if now >= pr.due {
          restartCounts := restartCounts[pr.unit := pr.meta];
          ready := ready + [pr.unit];
        } else {
          remaining := remaining + [pr];
        }
      }
      assert queue[..|queue|] == queue;
      pendingRestarts := remaining;
    }

    /** `stop_unit`. */
    method StopUnit(name: Name)
      modifies `processes, `journal
      ensures CurrentWorld() == Stop(old(CurrentWorld()), name)
    {
      if name !in unitToPid {
        return;
      }
      var pid := unitToPid[name];
      if pid in processes {
        processes := processes[pid := processes[pid].(policy := No)];
      }
      journal := journal.(signals := journal.signals + [Term(name, pid)]);
    }

    /** `active_count`. */
    method CountActive() returns (n: int)
      ensures n == ActiveCount(Containers())
    {
      n := 0;
      var m := processes;
      var todo: set<int> := m.Keys;
      while todo != {}
        invariant todo <= m.Keys && n == |RunningAmong(m, m.Keys - todo)|
      {
        ghost var member := SomeMember(todo);
        var p :| p in todo;
        RunningOneMore(m, m.Keys - todo, p);
        assert m.Keys - (todo - {p}) == m.Keys - todo + {p};
        todo := todo - {p};
        if m[p].state == Running {
          n := n + 1;
        }
      }
      assert m.Keys - todo == m.Keys;
      ghost var t := Containers();
      assert RunningAmong(m, m.Keys) == set p | p in t.processes && t.processes[p].state == Running;
    }

    /** `accept_ready`: the count goes up first and comes back down on every failure. */
    method AcceptReady(socket: Name) returns (ghost accepted: bool, ghost pid: int)
      requires socket in sockets && socket in activeConnections
      modifies `processes, `unitToPid, `exitCallbacks, `activeConnections, `children, `journal
      ensures FreshPid(old(CurrentWorld()), pid)
      ensures CurrentWorld() == AcceptConnection(Cfg(), old(CurrentWorld()), socket, accepted, pid)
    {
      ghost var before := activeConnections;
      var sock := sockets[socket];
      accepted, pid := false, 0;
      if sock.maxConn > 0 && activeConnections[socket] >= sock.maxConn {
        return;
      }
      var conn: bool := *;
      if !conn {
        return;
      }
      accepted := true;
      activeConnections := activeConnections[socket := activeConnections[socket] + 1];
      var svc := ResolvePair(units, socket, sock);
      if svc !in units || units[svc].execStart == "" {
        activeConnections := activeConnections[socket := activeConnections[socket] - 1];
        assert activeConnections == before;
        return;
      }
      var args := CommandLine.SplitExec(units[svc].execStart);
      if args == [] {
        activeConnections := activeConnections[socket := activeConnections[socket] - 1];
        assert activeConnections == before;
        return;
      }
      var child := Spawn(svc, args, No, DEFAULT_BURST, DEFAULT_INTERVAL);
      pid := child;
      if child > 0 {
        exitCallbacks := exitCallbacks[child := socket];
      } else {
        activeConnections := activeConnections[socket := activeConnections[socket] - 1];
        assert activeConnections == before;
      }
    }

    // ---------------------------------------------------------------- run

    /** The object stays within one run: same configuration, the recorded inputs only grow. */
    twostate predicate SameRun()
      reads this
    {
      execOrder == old(execOrder) && start == old(start) && old(inputs) <= inputs
    }

    /** Record that the fields now hold the result of input `i` in world `w`. */
    ghost method Commit(i: Input, w: World)
      requires IsResolution(units, execOrder)
      requires Feasible(Cfg(), Initial(Cfg(), start), inputs) && w == Exec(Cfg(), Initial(Cfg(), start), inputs)
      requires Enabled(Cfg(), w, i) && CurrentWorld() == Step(Cfg(), w, i)
      modifies `inputs
      ensures Valid() && inputs == old(inputs) + [i] && Reports(inputs) == old(Reports(inputs)) + [ReportOf(i)]
    {
      hide Step, Enabled, IsResolution, Reports;
      ReportsSnoc(inputs, i);
      ExecSnoc(Cfg(), Initial(Cfg(), start), inputs, i);
      inputs := inputs + [i];
    }

    /** The phases up to DependencyResolve; sockets are bound and every count is zero. */
    constructor (units: Units, sockets: map<Name, SocketUnit>, now: nat)
      ensures Valid() && inputs == [] && phase == Booting(execOrder) && !shutdownRequested
      ensures this.units == units && this.sockets == sockets
    {
      var order, _ := Resolve(units);
      this.units, this.sockets, execOrder := units, sockets, order;
      processes, unitToPid, exitCallbacks, pendingRestarts, restartCounts := map[], map[], map[], [], map[];
      activeConnections := map k | k in sockets :: 0;
      shutdownRequested, children, clock := false, {}, now;
      phase, journal, start, inputs := Booting(order), Journal([], [], [], [], []), now, [];
    }

    /** One turn of the loop in `execute(UnitExecute)`. */
    method BootOne(name: Name, conditionsMet: bool)
      requires Valid() && phase.Booting? && phase.todo != [] && name == phase.todo[0]
      modifies this
      ensures Valid() && SameRun() && phase == Booting(old(phase).todo[1..])
      ensures shutdownRequested == old(shutdownRequested)
      ensures Reports(inputs) == old(Reports(inputs)) + [Internal]
      ensures |inputs| == |old(inputs)| + 1 && IsBoot(inputs[|inputs| - 1], conditionsMet)
    {
      hide Exec, Feasible, IsResolution, Reports;
      ghost var w, f := CurrentWorld(), Fate(false, 0);
      if name in units && !IsBareTemplate(name) && conditionsMet && units[name].kind == Service {
        f := StartService(name);
      }
      phase := Booting(phase.todo[1..]);
      Commit(BootUnit(conditionsMet, f), w);
    }

    /**
     `execute(UnitExecute)`: one step for each unit of the order, with the outcome
     of that unit's conditions, and nothing is reaped meanwhile.
     */
    method ExecuteUnits(conditions: seq<bool>)
      requires Valid() && phase == Booting(execOrder) && |conditions| == |execOrder|
      modifies this
      ensures Valid() && SameRun() && phase == Polling && shutdownRequested == old(shutdownRequested)
      ensures Reports(inputs) == old(Reports(inputs)) + Internals(|execOrder| + 1)
      ensures |inputs| == |old(inputs)| + |execOrder| + 1
      ensures forall k :: 0 <= k < |execOrder| ==> IsBoot(inputs[|old(inputs)| + k], conditions[k])
    {
      hide Exec, Feasible, IsResolution, Reports, Internals, IsBoot;
      InternalsNext(Reports(inputs), 0);
      for k := 0 to |execOrder|
        invariant Valid() && SameRun() && shutdownRequested == old(shutdownRequested)
        invariant phase == Booting(execOrder[k..])
        invariant Reports(inputs) == old(Reports(inputs)) + Internals(k)
        invariant |inputs| == |old(inputs)| + k
        invariant forall i :: 0 <= i < k ==> IsBoot(inputs[|old(inputs)| + i], conditions[i])
      {
        assert execOrder[k..][1..] == execOrder[k + 1..];
        BootOne(execOrder[k], conditions[k]);
        InternalsNext(old(Reports(inputs)), k);
      }
      Move(EndBoot, Polling);
      InternalsNext(old(Reports(inputs)), |execOrder|);
    }

    /** Steps that only move `run` on. */
    ghost method Move(i: Input, next: Phase)
      requires Valid()
      requires i.EndBoot? || i.EndTurn? || i.EndStops? || i.PollAgain? || i.EndWait? || i.EndKills? || i.Halt?
      requires Enabled(Cfg(), CurrentWorld(), i) && Step(Cfg(), CurrentWorld(), i).phase == next
      modifies `phase, `inputs
      ensures Valid() && SameRun() && phase == next && Reports(inputs) == old(Reports(inputs)) + [Internal]
      ensures inputs == old(inputs) + [i]
    {
      hide Exec, Feasible, IsResolution, Reports;
      ghost var w := CurrentWorld();
      phase := next;
      Commit(i, w);
    }

    /** One child that waitpid released. */
    method ReapNext(z: Zombie)
      requires Valid() && Reaping(phase)
      modifies this
      ensures Valid() && SameRun() && phase == old(phase) && shutdownRequested == old(shutdownRequested)
      ensures Reports(inputs) == old(Reports(inputs)) + [Reaped(z)]
    {
      hide Exec, Feasible, IsResolution, Reap, Note, Reports;
      ghost var w := CurrentWorld();
      children := children - {z.pid};
      ghost var e := ReapOne(z.pid, z.code, z.signaled);
      Commit(ChildExit(e), w);
    }

    /** `reap_children`: waitpid releases `zombies`, one after the other. */
    method ReapChildren(zombies: seq<Zombie>)
      requires Valid() && Reaping(phase)
      modifies this
      ensures Valid() && SameRun() && phase == old(phase) && shutdownRequested == old(shutdownRequested)
      ensures Reports(inputs) == old(Reports(inputs)) + ReapReports(zombies)
    {
      hide Valid, Reaping, Reports, ReapReports, SignalReport, SignalReports;
      hide EventReport, EventReports, EventAsks, EventsAsk;
      NothingYet(sockets, zombies, [], [], Reports(inputs));
      for k := 0 to |zombies|
        invariant Valid() && SameRun() && Reaping(phase) && phase == old(phase)
        invariant shutdownRequested == old(shutdownRequested)
        invariant Reports(inputs) == old(Reports(inputs)) + ReapReports(zombies[..k])
      {
        ReapNext(zombies[k]);
        ReapReportsNext(zombies, k, old(Reports(inputs)));
      }
    }

    method RequestShutdownNow()
      requires Valid() && Reaping(phase)
      modifies `shutdownRequested, `inputs
      ensures Valid() && SameRun() && shutdownRequested
      ensures Reports(inputs) == old(Reports(inputs)) + [Requested]
    {
      hide Exec, Feasible, IsResolution, Reports;
      ghost var w := CurrentWorld();
      shutdownRequested := true;
      Commit(RequestShutdown, w);
    }

    /** One turn of the loop in `drain_signals`: SIGCHLD reaps, SIGTERM and SIGINT request shutdown. */
    method HandleSignal(s: SignalRead)
      requires Valid() && Reaping(phase)
      modifies this
      ensures Valid() && SameRun() && phase == old(phase)
      ensures shutdownRequested == (old(shutdownRequested) || s.ShutdownSignal?)
      ensures Reports(inputs) == old(Reports(inputs)) + SignalReport(s)
    {
      hide Exec, Feasible, IsResolution, Reports, ReapReports;
      match s
      case ChildSignal(zombies) => ReapChildren(zombies);
      case ShutdownSignal => RequestShutdownNow();
      case OtherSignal => assert Reports(inputs) + [] == Reports(inputs);
    }

    /** `drain_signals`: the signalfd yields `signals`, and shutdown is requested if one of them asks for it. */
    method DrainSignals(signals: seq<SignalRead>)
      requires Valid() && Reaping(phase)
      modifies this
      ensures Valid() && SameRun() && phase == old(phase)
      ensures shutdownRequested == (old(shutdownRequested) || ShutdownSignal in signals)
      ensures Reports(inputs) == old(Reports(inputs)) + SignalReports(signals)
    {
      hide Valid, Reaping, Reports, ReapReports, SignalReport, SignalReports;
      hide EventReport, EventReports, EventAsks, EventsAsk;
      NothingYet(sockets, [], signals, [], Reports(inputs));
      for k := 0 to |signals|
        invariant Valid() && SameRun() && Reaping(phase) && phase == old(phase)
        invariant shutdownRequested == (old(shutdownRequested) || ShutdownSignal in signals[..k])
        invariant Reports(inputs) == old(Reports(inputs)) + SignalReports(signals[..k])
      {
        HandleSignal(signals[k]);
        SignalReportsNext(signals, k, old(Reports(inputs)));
      }
    }

    /** Every socket has a connection count. */
    lemma CountsForAll()
      requires Valid()
      ensures activeConnections.Keys == sockets.Keys
    {
      hide IsResolution, Exec, Feasible;
      Consistency.AlwaysConsistent(Cfg(), start, inputs);
    }

    method HandleConnection(socket: Name)
      requires Valid() && phase == Polling && socket in sockets && sockets[socket].accept
      modifies this
      ensures Valid() && SameRun() && phase == Polling && shutdownRequested == old(shutdownRequested)
      ensures Reports(inputs) == old(Reports(inputs)) + [Connected(socket)]
    {
      hide Exec, Feasible, IsResolution, Reports, AcceptConnection;
      CountsForAll();
      ghost var w := CurrentWorld();
      ghost var accepted, pid := AcceptReady(socket);
      Commit(Connection(socket, accepted, pid), w);
    }

    method HandleEvent(e: Event)
      requires Valid() && phase == Polling
      modifies this
      ensures Valid() && SameRun() && phase == Polling
      ensures shutdownRequested == (old(shutdownRequested) || EventAsks(e))
      ensures Reports(inputs) == old(Reports(inputs)) + EventReport(sockets, e)
    {
      hide Exec, Feasible, IsResolution, Reports, SignalReports;
      match e
      case SignalsReady(signals) => DrainSignals(signals);
      case ConnectionReady(socket) =>
        if socket in sockets && sockets[socket].accept {
          HandleConnection(socket);
        } else {
          assert Reports(inputs) + [] == Reports(inputs);
        }
    }

    /** `poll_once_with_sockets`, for the events that epoll_wait reports. */
    method PollWithSockets(events: seq<Event>)
      requires Valid() && phase == Polling
      modifies this
      ensures Valid() && SameRun() && phase == Polling
      ensures shutdownRequested == (old(shutdownRequested) || EventsAsk(events))
      ensures Reports(inputs) == old(Reports(inputs)) + EventReports(sockets, events)
    {
      hide Valid, Reaping, Reports, ReapReports, SignalReport, SignalReports;
      hide EventReport, EventReports, EventAsks, EventsAsk;
      NothingYet(sockets, [], [], events, Reports(inputs));
      for k := 0 to |events|
        invariant Valid() && SameRun() && phase == Polling
        invariant shutdownRequested == (old(shutdownRequested) || EventsAsk(events[..k]))
        invariant Reports(inputs) == old(Reports(inputs)) + EventReports(sockets, events[..k])
      {
        HandleEvent(events[k]);
        EventsAskNext(events, k);
        EventReportsNext(sockets, events, k, old(Reports(inputs)));
      }
    }

    /** One restart of `process_restarts`. */
    method RestartOne(name: Name)
      requires Valid() && phase.Restarting? && phase.ready != [] && name == phase.ready[0]
      modifies this
      ensures Valid() && SameRun() && phase == Restarting(old(phase).ready[1..]) && clock == old(clock)
      ensures shutdownRequested == old(shutdownRequested)
      ensures Reports(inputs) == old(Reports(inputs)) + [Internal]
    {
      hide Exec, Feasible, IsResolution, Reports;
      ghost var w, f := CurrentWorld(), Fate(false, 0);
      if name in units && units[name].kind == Service {
        journal := WithRestart(CurrentWorld(), name).journal;
        f := StartService(name);
      }
      phase := Restarting(phase.ready[1..]);
      Commit(RestartUnit(f), w);
    }

    /** `process_restarts`: one drain, then one step for each entry that was due, and nothing is reaped meanwhile. */
    method ProcessRestarts() returns (ghost restarts: nat)
      requires Valid() && phase == Polling
      modifies this
      ensures Valid() && SameRun() && phase == Restarting([]) && shutdownRequested == old(shutdownRequested)
      ensures restarts == |Due(old(pendingRestarts), clock)|
      ensures Reports(inputs) == old(Reports(inputs)) + Internals(1 + restarts)
    {
      var ready := DrainStep();
      restarts := |ready|;
      hide *;
      InternalsNext(old(Reports(inputs)), 0);
      for k := 0 to |ready|
        invariant Valid() && SameRun() && phase == Restarting(ready[k..])
        invariant shutdownRequested == old(shutdownRequested)
        invariant ready == Due(old(pendingRestarts), clock)
        invariant Reports(inputs) == old(Reports(inputs)) + Internals(1 + k)
      {
        assert ready[k..][1..] == ready[k + 1..];
        RestartOne(ready[k]);
        InternalsNext(old(Reports(inputs)), 1 + k);
      }
    }

    method DrainStep() returns (ready: seq<Name>)
      requires Valid() && phase == Polling
      modifies this
      ensures Valid() && SameRun() && phase == Restarting(ready) && ready == Due(old(pendingRestarts), clock)
      ensures shutdownRequested == old(shutdownRequested)
      ensures Reports(inputs) == old(Reports(inputs)) + [Internal]
    {
      hide Exec, Feasible, IsResolution, Due, NotDue, CarryDue, Reports;
      ghost var w := CurrentWorld();
      ready := DrainPendingRestarts();
      phase := Restarting(ready);
      Commit(Drain(clock), w);
    }

    /** One turn of the main loop; `quit` is what the user wants at its end. */
    method TakeTurn(events: seq<Event>, quit: bool)
      requires Valid() && phase == Polling && !shutdownRequested
      modifies this
      ensures Valid() && SameRun() && (shutdownRequested <==> EventsAsk(events))
      ensures phase == if EventsAsk(events) || quit then ShuttingDown(execOrder) else Polling
      ensures External(Reports(inputs)) == old(External(Reports(inputs))) + EventReports(sockets, events)
    {
      hide Exec, Feasible, IsResolution, Reports, External, EventsAsk, EventReports, Internals;
      PollWithSockets(events);
      ghost var restarts := ProcessRestarts();
      TurnHeard(sockets, events, old(Reports(inputs)), 1 + restarts);
      Move(EndTurn(quit), if shutdownRequested || quit then ShuttingDown(execOrder) else Polling);
    }

    /**
     The main loop: one turn after the other, up to and including the first in
     which a signal asks for shutdown or the user quits, and none after it.
     `turns` is what the outside world has in store; when nothing more comes, the
     user quits.
     */
    method MainLoop(turns: seq<Turn>) returns (n: nat)
      requires Valid() && phase == Polling && !shutdownRequested && turns != []
      modifies this
      ensures Valid() && SameRun() && phase == ShuttingDown(execOrder)
      ensures 1 <= n <= |turns| && (forall k :: 0 <= k < n - 1 ==> !Asks(turns[k]))
      ensures n == |turns| || Asks(turns[n - 1])
      ensures shutdownRequested <==> EventsAsk(turns[n - 1].events)
      ensures External(Reports(inputs)) == old(External(Reports(inputs))) + TurnReports(sockets, turns[..n])
    {
      hide Exec, Feasible, IsResolution, Reports, External, EventsAsk, EventReports, Valid, TurnReports;
      var quit := false;
      n := 0;
      ghost var before := External(Reports(inputs));
      TurnReportsNext(sockets, turns, 0, before);
      while !shutdownRequested && !quit
        invariant Valid() && SameRun() && n <= |turns|
        invariant phase == if shutdownRequested || quit then ShuttingDown(execOrder) else Polling
        invariant External(Reports(inputs)) == before + TurnReports(sockets, turns[..n])
        invariant forall k :: 0 <= k < n - 1 ==> !Asks(turns[k])
        invariant n == 0 ==> !shutdownRequested && !quit
        invariant n > 0 ==> shutdownRequested == EventsAsk(turns[n - 1].events)
        invariant n > 0 ==> quit == (turns[n - 1].quit || n == |turns|)
        decreases |turns| - n
      {
        quit := turns[n].quit || n == |turns| - 1;
        TakeTurn(turns[n].events, quit);
        TurnReportsNext(sockets, turns, n, before);
        n := n + 1;
      }
    }

    /** The reverse stop loop. */
    method StopUnits()
      requires Valid() && phase == ShuttingDown(execOrder)
      modifies this
      ensures Valid() && SameRun() && phase == Waiting(0)
    {
      hide Exec, Feasible, IsResolution;
      var k := |execOrder|;
      assert execOrder[..k] == execOrder;
      while k > 0
        invariant k <= |execOrder| && Valid() && SameRun() && phase == ShuttingDown(execOrder[..k])
      {
        k := k - 1;
        assert execOrder[..k + 1][..k] == execOrder[..k];
        StopOne(execOrder[k]);
      }
      Move(EndStops, Waiting(0));
    }

    method StopOne(name: Name)
      requires Valid() && phase.ShuttingDown? && phase.todo != [] && name == Last(phase.todo)
      modifies this
      ensures Valid() && SameRun() && phase == ShuttingDown(Front(old(phase).todo))
    {
      hide Exec, Feasible, IsResolution, Stop;
      ghost var w := CurrentWorld();
      StopUnit(name);
      phase := ShuttingDown(Front(phase.todo));
      Commit(StopNext, w);
    }

    /** `poll_once`, as turn `i` of the wait. */
    method PollOnce(i: nat)
      requires Valid() && phase == Waiting(i) && i < MAX_POLLS && ActiveCount(Containers()) > 0
      modifies this
      ensures Valid() && SameRun() && phase == Waiting(i + 1)
    {
      hide Exec, Feasible, IsResolution, ActiveCount;
      Move(PollAgain, Waiting(i + 1));
      var signals: seq<SignalRead> := *;
      DrainSignals(signals);
    }

    /** At most fifty polls for the children to go away. */
    method WaitForChildren()
      requires Valid() && phase == Waiting(0)
      modifies this
      ensures Valid() && SameRun() && phase == Killing(processes.Keys)
    {
      hide Exec, Feasible, IsResolution, ActiveCount;
      var i := 0;
      var active := CountActive();
      while i < MAX_POLLS && active > 0
        invariant 0 <= i <= MAX_POLLS && active == ActiveCount(Containers())
        invariant Valid() && SameRun() && phase == Waiting(i)
      {
        PollOnce(i);
        i := i + 1;
        active := CountActive();
      }
      Move(EndWait, Killing(processes.Keys));
    }

    /** SIGKILL for whatever is left, in an arbitrary order. */
    method KillRest()
      requires Valid() && phase == Killing(processes.Keys)
      modifies this
      ensures Valid() && SameRun() && phase == LastPoll
    {
      hide Exec, Feasible, IsResolution;
      var left := processes.Keys;
      while left != {}
        invariant Valid() && SameRun() && phase == Killing(left)
      {
        ghost var member := SomeMember(left);
        var pid :| pid in left;
        ghost var w := CurrentWorld();
        left := left - {pid};
        journal := journal.(signals := journal.signals + [Kill(pid)]);
        phase := Killing(left);
        Commit(KillOne(pid), w);
      }
      Move(EndKills, LastPoll);
    }

    /**
     `run`, from UnitExecute to the end.  Every state passed through is reachable
     in the sense of the run theorems.
     */
    method Run(conditions: seq<bool>, turns: seq<Turn>)
      requires Valid() && phase == Booting(execOrder) && !shutdownRequested
      requires |conditions| == |execOrder| && turns != []
      modifies this
      ensures Valid() && SameRun() && phase == Halted
      ensures Reachable(Cfg(), CurrentWorld()) && Sound(units, execOrder)
      ensures Consistency.Consistent(Cfg(), CurrentWorld())
    {
      hide Exec, Feasible, IsResolution, Consistency.Consistent, Reachable;
      ExecuteUnits(conditions);
      var _ := MainLoop(turns);
      StopUnits();
      WaitForChildren();
      KillRest();
      FinalPoll();
      EndsReachable();
    }

    method FinalPoll()
      requires Valid() && phase == LastPoll
      modifies this
      ensures Valid() && SameRun() && phase == Halted
    {
      hide Exec, Feasible, IsResolution;
      var signals: seq<SignalRead> := *;
      DrainSignals(signals);
      Move(Halt, Halted);
    }

    lemma EndsReachable()
      requires Valid()
      ensures Reachable(Cfg(), CurrentWorld()) && Sound(units, execOrder)
      ensures Consistency.Consistent(Cfg(), CurrentWorld())
    {
      hide IsResolution, Sound, NoDuplicates, Exec, Feasible, Consistency.Consistent;
      ResolutionIsSound(units, execOrder);
      Consistency.AlwaysConsistent(Cfg(), start, inputs);
    }
  }
}
