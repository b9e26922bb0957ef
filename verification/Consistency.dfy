/**
 Consistency of the containers in every reachable state, Accept=yes
 connections included: the unit index, the kernel's children, and the
 connection ledger of every socket.
 */
module Consistency {
  import opened UnitFiles
  import opened Processes
  import opened Machine
  import opened Strings
  import CommandLine

  /** Every index entry names a tracked process of that unit; tracked processes are exactly the unreaped children. */
  ghost predicate IndexAgrees(w: World)
  {
    && w.children == w.tables.processes.Keys
    && (forall n :: n in w.tables.unitToPid ==>
      var p := w.tables.unitToPid[n];
      p in w.tables.processes && w.tables.processes[p].unit == n)
    && (forall p :: p in w.tables.processes ==> w.tables.processes[p].state == Running)
    && (w.phase.Killing? ==> w.phase.left <= w.tables.processes.Keys)
  }

  /** The callbacks registered for a socket and not yet fired. */
  function Open(callbacks: map<int, Name>, socket: Name): set<int>
  {
    set p | p in callbacks && callbacks[p] == socket
  }

  ghost predicate LedgerAgrees(cfg: Config, t: Tables)
  {
    && t.active.Keys == cfg.sockets.Keys
    && t.callbacks.Keys <= t.processes.Keys
    && (forall k :: k in cfg.sockets ==>
      && t.active[k] == |Open(t.callbacks, k)|
      && (cfg.sockets[k].maxConn > 0 ==> t.active[k] <= cfg.sockets[k].maxConn))
  }

  ghost predicate Consistent(cfg: Config, w: World)
  {
    IndexAgrees(w) && LedgerAgrees(cfg, w.tables)
  }

  // ---------------------------------------------------------------- index

  lemma ReapKeepsIndex(w: World, e: Exit)
    requires IndexAgrees(w) && !w.phase.Killing?
    ensures IndexAgrees(ReapChild(w, e))
  {
    var t, t' := w.tables, Reap(w.tables, e);
    hide Note, Requeue;
    if e.pid in t.processes {
      var gone := t.processes[e.pid].unit;
      forall n | n in t'.unitToPid
        ensures t'.unitToPid[n] in t'.processes && t'.processes[t'.unitToPid[n]].unit == n
      {
        assert n in t.unitToPid && n != gone;
      }
    }
  }

  lemma StartServiceIndex(t: Tables, name: Name, unit: UnitFile, f: Fate)
    requires Launches(unit, f)
    ensures var t' := StartService(t, name, unit, f);
      && t'.processes.Keys == t.processes.Keys + {f.pid}
      && t'.processes[f.pid].unit == name && t'.processes[f.pid].state == Running
      && (forall p :: p in t.processes && p != f.pid ==> t'.processes[p] == t.processes[p])
      && t'.unitToPid == t.unitToPid[name := f.pid]
      && t'.callbacks == t.callbacks && t'.active == t.active && t'.pending == t.pending
  {
  }

  lemma LaunchKeepsIndex(cfg: Config, w: World, name: Name, f: Fate)
    requires IndexAgrees(w) && name in cfg.units && FreshPid(w, f.pid) && !w.phase.Killing?
    ensures IndexAgrees(Launch(cfg, w, name, f))
  {
    if Launches(cfg.units[name], f) {
      StartServiceIndex(w.tables, name, cfg.units[name], f);
      hide StartService;
    }
  }

  lemma AcceptKeepsIndex(cfg: Config, w: World, k: Name, accepted: bool, pid: int)
    requires IndexAgrees(w) && k in cfg.sockets && k in w.tables.active && FreshPid(w, pid) && !w.phase.Killing?
    ensures IndexAgrees(AcceptConnection(cfg, w, k, accepted, pid))
  {
    hide ResolvePair;
  }

  lemma StopKeepsIndex(w: World, name: Name)
    requires IndexAgrees(w) && !w.phase.Killing?
    ensures IndexAgrees(Stop(w, name))
  {
  }

  // ---------------------------------------------------------------- ledger

  lemma OpenAfterClose(callbacks: map<int, Name>, pid: int, k: Name)
    requires pid in callbacks
    ensures |Open(callbacks - {pid}, k)| == |Open(callbacks, k)| - if callbacks[pid] == k then 1 else 0
  {
    assert Open(callbacks - {pid}, k) == Open(callbacks, k) - {pid};
  }

  lemma OpenAfterRegister(callbacks: map<int, Name>, pid: int, socket: Name, k: Name)
    requires pid !in callbacks
    ensures |Open(callbacks[pid := socket], k)| == |Open(callbacks, k)| + if socket == k then 1 else 0
  {
    assert Open(callbacks[pid := socket], k) == Open(callbacks, k) + if socket == k then {pid} else {};
  }

  lemma ReapKeepsLedger(cfg: Config, t: Tables, e: Exit)
    requires LedgerAgrees(cfg, t)
    ensures LedgerAgrees(cfg, Reap(t, e))
  {
    var t' := Reap(t, e);
    hide Requeue;
    if e.pid in t.callbacks {
      forall k | k in cfg.sockets
        ensures t'.active[k] == |Open(t'.callbacks, k)| && t'.active[k] <= t.active[k]
      {
        OpenAfterClose(t.callbacks, e.pid, k);
      }
    }
  }

  lemma AcceptKeepsLedger(cfg: Config, t: Tables, socket: Name, accepted: bool, pid: int)
    requires LedgerAgrees(cfg, t) && socket in cfg.sockets && pid !in t.processes
    ensures LedgerAgrees(cfg, Accept(cfg, t, socket, accepted, pid))
  {
    if Serves(cfg, t, socket, accepted, pid) {
      var t' := Accept(cfg, t, socket, accepted, pid);
      assert t'.callbacks == t.callbacks[pid := socket];
      forall k | k in cfg.sockets
        ensures t'.active[k] == |Open(t'.callbacks, k)|
        ensures cfg.sockets[k].maxConn > 0 ==> t'.active[k] <= cfg.sockets[k].maxConn
      {
        OpenAfterRegister(t.callbacks, pid, socket, k);
      }
    }
  }

  lemma LaunchKeepsLedger(cfg: Config, w: World, name: Name, f: Fate)
    requires LedgerAgrees(cfg, w.tables) && name in cfg.units
    ensures LedgerAgrees(cfg, Launch(cfg, w, name, f).tables)
  {
    if Launches(cfg.units[name], f) {
      StartServiceIndex(w.tables, name, cfg.units[name], f);
      hide StartService;
    }
  }

  // ---------------------------------------------------------------- every step, every run

  lemma StepKeepsIndex(cfg: Config, w: World, i: Input)
    requires IndexAgrees(w) && Enabled(cfg, w, i)
    ensures IndexAgrees(Step(cfg, w, i))
  {
    match i
    case BootUnit(met, f) =>
      var name := w.phase.todo[0];
      if StartsAtBoot(cfg, name, met) { LaunchKeepsIndex(cfg, w, name, f); hide Launch; }
    case RestartUnit(f) =>
      var name := w.phase.ready[0];
      if Restartable(cfg, name) {
        LaunchKeepsIndex(cfg, WithRestart(w, name), name, f);
        hide Launch;
      }
    case ChildExit(e) => ReapKeepsIndex(w, e); hide ReapChild;
    case Connection(k, accepted, pid) => AcceptKeepsIndex(cfg, w, k, accepted, pid); hide AcceptConnection;
    case StopNext => StopKeepsIndex(w, Last(w.phase.todo)); hide Stop;
    case _ =>
  }

  lemma StepKeepsLedger(cfg: Config, w: World, i: Input)
    requires Consistent(cfg, w) && Enabled(cfg, w, i)
    ensures LedgerAgrees(cfg, Step(cfg, w, i).tables)
  {
    match i
    case BootUnit(met, f) =>
      var name := w.phase.todo[0];
      if StartsAtBoot(cfg, name, met) { LaunchKeepsLedger(cfg, w, name, f); hide Launch; }
    case RestartUnit(f) =>
      var name := w.phase.ready[0];
      if Restartable(cfg, name) {
        LaunchKeepsLedger(cfg, WithRestart(w, name), name, f);
        hide Launch;
      }
    case ChildExit(e) => ReapKeepsLedger(cfg, w.tables, e); hide Reap;
    case Connection(k, accepted, pid) =>
      if Serves(cfg, w.tables, k, accepted, pid) { AcceptKeepsLedger(cfg, w.tables, k, accepted, pid); hide Accept; }
    case _ =>
  }

  /** In every reachable state the containers agree with each other and with the kernel. */
  lemma {:induction false} AlwaysConsistent(cfg: Config, start: int, inputs: seq<Input>)
    requires Feasible(cfg, Initial(cfg, start), inputs)
    ensures Consistent(cfg, Exec(cfg, Initial(cfg, start), inputs))
  {
    hide Step, Enabled, LedgerAgrees, IndexAgrees;
    if inputs == [] {
      InitiallyConsistent(cfg, start);
    } else {
      var front := inputs[..|inputs| - 1];
      AlwaysConsistent(cfg, start, front);
      var w := Exec(cfg, Initial(cfg, start), front);
      StepKeepsIndex(cfg, w, inputs[|inputs| - 1]);
      StepKeepsLedger(cfg, w, inputs[|inputs| - 1]);
    }
  }

  lemma InitiallyConsistent(cfg: Config, start: int)
    ensures Consistent(cfg, Initial(cfg, start))
  {
    forall k | k in cfg.sockets
      ensures Open(map[], k) == {}
    {
    }
  }

  // ---------------------------------------------------------------- consequences

  /** Index agreement: whatever signal is sent next goes to an unreaped child, never to a recycled pid. */
  lemma SignalsReachChildren(cfg: Config, start: int, inputs: seq<Input>, i: Input)
    requires Feasible(cfg, Initial(cfg, start), inputs)
    requires Enabled(cfg, Exec(cfg, Initial(cfg, start), inputs), i)
    ensures var w := Exec(cfg, Initial(cfg, start), inputs);
      var sent := Step(cfg, w, i).journal.signals;
      && w.journal.signals <= sent && |sent| <= |w.journal.signals| + 1
      && (forall k :: |w.journal.signals| <= k < |sent| ==> sent[k].pid in w.children)
  {
    AlwaysConsistent(cfg, start, inputs);
    hide Exec, Feasible, LedgerAgrees;
    var w := Exec(cfg, Initial(cfg, start), inputs);
    OneSignal(cfg, w, i);
  }

  lemma OneSignal(cfg: Config, w: World, i: Input)
    requires IndexAgrees(w) && Enabled(cfg, w, i)
    ensures var sent := Step(cfg, w, i).journal.signals;
      sent == w.journal.signals ||
      (|sent| == |w.journal.signals| + 1 && w.journal.signals <= sent && sent[|sent| - 1].pid in w.children)
  {
    hide StartService, Track, ResolvePair, Reap, Judge;
  }

  /** Connection ledger: counts are exact, never negative, and never above MaxConnections. */
  lemma ConnectionLedger(cfg: Config, start: int, inputs: seq<Input>, k: Name)
    requires Feasible(cfg, Initial(cfg, start), inputs) && k in cfg.sockets
    ensures var t := Exec(cfg, Initial(cfg, start), inputs).tables;
      && k in t.active && t.active[k] == |Open(t.callbacks, k)| >= 0
      && (cfg.sockets[k].maxConn > 0 ==> t.active[k] <= cfg.sockets[k].maxConn)
      && t.callbacks.Keys <= t.processes.Keys
  {
    AlwaysConsistent(cfg, start, inputs);
    hide Exec, Feasible, IndexAgrees;
  }

  /** `active_count` is the number of tracked processes, since no other state is ever stored. */
  lemma ActiveCountIsTracked(w: World)
    requires IndexAgrees(w)
    ensures ActiveCount(w.tables) == |w.tables.processes|
  {
    var m := w.tables.processes;
    var running := set p | p in m && m[p].state == Running;
    assert forall p :: p in m ==> m[p].state == Running && p in running;
    assert running == m.Keys;
  }

  // ---------------------------------------------------------------- connections

  /**
   A connection gets a child if and only if it was accepted, fewer than
   MaxConnections children of the socket are open, its service is loaded and has
   words to execute, and fork succeeded.  The child executes the command exactly
   as written, and is counted.
   */
  lemma ConnectionExact(cfg: Config, w: World, k: Name, accepted: bool, pid: int)
    requires Enabled(cfg, w, Connection(k, accepted, pid)) && IndexAgrees(w) && LedgerAgrees(cfg, w.tables)
    ensures var svc, max := ResolvePair(cfg.units, k, cfg.sockets[k]), cfg.sockets[k].maxConn;
      var w' := Step(cfg, w, Connection(k, accepted, pid));
      if accepted && (max <= 0 || |Open(w.tables.callbacks, k)| < max) && pid > 0
        && svc in cfg.units && cfg.units[svc].execStart != "" && CommandLine.Split(cfg.units[svc].execStart) != []
      then
        && w'.journal.spawns == w.journal.spawns + [SpawnRecord(svc, pid, CommandLine.Split(cfg.units[svc].execStart))]
        && |Open(w'.tables.callbacks, k)| == |Open(w.tables.callbacks, k)| + 1
      else w' == w
  {
    hide ResolvePair, CommandLine.Split;
    if Serves(cfg, w.tables, k, accepted, pid) {
      OpenAfterRegister(w.tables.callbacks, pid, k, k);
    }
  }

  /** In particular percent signs, and a leading dash, reach the child of a connection unchanged. */
  lemma ConnectionVerbatim(cfg: Config, w: World, k: Name, pid: int, ws: seq<seq<CommandLine.Piece>>, gap: string)
    requires Enabled(cfg, w, Connection(k, true, pid)) && IndexAgrees(w) && LedgerAgrees(cfg, w.tables)
    requires CommandLine.Printable(ws) && ws != [] && IsGap(gap) && pid > 0
    requires var svc, sock := ResolvePair(cfg.units, k, cfg.sockets[k]), cfg.sockets[k];
      svc in cfg.units && cfg.units[svc].execStart == CommandLine.WriteLine(ws, gap) != "" && sock.maxConn <= 0
    ensures var spawns := Step(cfg, w, Connection(k, true, pid)).journal.spawns;
      spawns != [] && spawns[|spawns| - 1].words == CommandLine.LineContent(ws)
  {
    hide ResolvePair, CommandLine.Split, CommandLine.WriteLine;
    CommandLine.SplitOfPrinted(ws, gap);
    ConnectionExact(cfg, w, k, true, pid);
  }

  /** Children of connections are not restarted. */
  ghost predicate CallbacksQuiet(t: Tables)
  {
    forall p :: p in t.callbacks ==> p in t.processes && t.processes[p].policy == No
  }

  lemma LaunchKeepsQuiet(cfg: Config, w: World, name: Name, f: Fate)
    requires CallbacksQuiet(w.tables) && IndexAgrees(w) && name in cfg.units && FreshPid(w, f.pid)
    ensures CallbacksQuiet(Launch(cfg, w, name, f).tables)
  {
    if Launches(cfg.units[name], f) {
      StartServiceIndex(w.tables, name, cfg.units[name], f);
      hide StartService;
    }
  }

  lemma StepKeepsQuiet(cfg: Config, w: World, i: Input)
    requires Enabled(cfg, w, i) && CallbacksQuiet(w.tables) && IndexAgrees(w)
    ensures CallbacksQuiet(Step(cfg, w, i).tables)
  {
    hide Launch, ResolvePair, AcceptWords, Judge, Due, NotDue, CarryDue, IsBareTemplate;
    match i
    case BootUnit(met, f) =>
      if w.phase.todo[0] in cfg.units { LaunchKeepsQuiet(cfg, w, w.phase.todo[0], f); }
    case RestartUnit(f) =>
      var name := w.phase.ready[0];
      if name in cfg.units { LaunchKeepsQuiet(cfg, WithRestart(w, name), name, f); }
    case _ =>
  }

  /** In every run, the exit of a connection's child neither queues a restart nor counts as a refusal. */
  lemma {:induction false} ConnectionsNotRestarted(cfg: Config, start: int, inputs: seq<Input>)
    requires Feasible(cfg, Initial(cfg, start), inputs)
    ensures var t := Exec(cfg, Initial(cfg, start), inputs).tables;
      && CallbacksQuiet(t)
      && forall e: Exit :: e.pid in t.callbacks ==> Reap(t, e).pending == t.pending
  {
    if inputs != [] {
      hide Step, Enabled, IndexAgrees, LedgerAgrees, CallbacksQuiet;
      var front := inputs[..|inputs| - 1];
      ConnectionsNotRestarted(cfg, start, front);
      AlwaysConsistent(cfg, start, front);
      StepKeepsQuiet(cfg, Exec(cfg, Initial(cfg, start), front), inputs[|inputs| - 1]);
    }
    QuietExit(Exec(cfg, Initial(cfg, start), inputs).tables);
  }

  lemma QuietExit(t: Tables)
    requires CallbacksQuiet(t)
    ensures forall e: Exit :: e.pid in t.callbacks ==> Reap(t, e).pending == t.pending
  {
  }
}
