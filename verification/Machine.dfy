/**
 `InitSystem::run` as a state machine.  A step is one indivisible piece of the
 program between two points where the outside world is consulted; what the
 world answers (fork, waitpid, accept, the clock, signals) is the step's input.
 */
module Machine {
  import opened Strings
  import opened UnitFiles
  import opened Processes
  import opened RestartLimiter
  import CommandLine

  // ---------------------------------------------------------------- configuration

  datatype SocketUnit = SocketUnit(service: string, accept: bool, maxConn: int, fds: seq<int>)

  /** What is fixed once the boot phases before UnitExecute are over. */
  datatype Config = Config(units: Units, sockets: map<Name, SocketUnit>, order: seq<Name>)

  function Stem(socket: Name): string
  {
    var dot := RFind(socket.text, '.');
    if dot >= 0 then socket.text[..dot] else socket.text
  }

  /** `resolve_pair`: the service a connection on the socket is handed to. */
  function ResolvePair(units: Units, socket: Name, sock: SocketUnit): Name
  {
    if sock.service != "" then Name(sock.service)
    else
      var direct, template := Name(Stem(socket) + ".service"), Name(Stem(socket) + "@.service");
      if direct in units then direct else if template in units then template else direct
  }

  /** `pairs_with`: the socket's descriptors are passed to this service when it starts. */
  predicate PairsWith(socket: Name, sock: SocketUnit, svc: Name)
  {
    if sock.service != "" then Name(sock.service) == svc
    else Name(Stem(socket) + ".service") == svc || Name(Stem(socket) + "@.service") == svc
  }

  /** Connections go to a paired service, and to a loaded one if any paired service is loaded. */
  lemma ResolvePairIsPaired(units: Units, socket: Name, sock: SocketUnit)
    ensures PairsWith(socket, sock, ResolvePair(units, socket, sock))
    ensures forall c :: c in units && PairsWith(socket, sock, c) ==> ResolvePair(units, socket, sock) in units
    ensures sock.service == "" && Name(Stem(socket) + ".service") in units ==>
      ResolvePair(units, socket, sock) == Name(Stem(socket) + ".service")
  {
  }

  /** The services of `b.socket` are `b.service` and `b@.service`, the first of them that is loaded. */
  lemma SocketServices(units: Units, b: string, sock: SocketUnit, svc: Name)
    requires sock.service == ""
    ensures var socket, direct, template := Name(b + ".socket"), Name(b + ".service"), Name(b + "@.service");
      && (PairsWith(socket, sock, svc) <==> svc == direct || svc == template)
      && (direct in units ==> ResolvePair(units, socket, sock) == direct)
      && (direct !in units && template in units ==> ResolvePair(units, socket, sock) == template)
      && (direct !in units && template !in units ==> ResolvePair(units, socket, sock) == direct)
  {
    var text := b + ".socket";
    assert text[|b|] == '.' && forall k :: |b| < k < |text| ==> text[k] == ".socket"[k - |b|];
    assert RFind(text, '.') == |b| && text[..|b|] == b;
  }

  /** A unit that no Accept=yes socket spawns instances of. */
  predicate Ordinary(cfg: Config, u: Name)
  {
    forall k :: k in cfg.sockets && cfg.sockets[k].accept ==> ResolvePair(cfg.units, k, cfg.sockets[k]) != u
  }

  // ---------------------------------------------------------------- state

  /** Where `run` is. */
  datatype Phase =
    | Booting(todo: seq<Name>)
    | Polling
    | Restarting(ready: seq<Name>)
    | ShuttingDown(todo: seq<Name>)
    | Waiting(polls: nat)
    | Killing(left: set<int>)
    | LastPoll
    | Halted

  datatype Refusal = Refusal(unit: Name, at: int, meta: Meta)
  datatype RestartRecord = RestartRecord(unit: Name, at: int)

  /** A fork that succeeded, and the words its child executes. */
  datatype SpawnRecord = SpawnRecord(unit: Name, pid: int, words: seq<string>)

  datatype Signal = Term(unit: Name, pid: int) | Kill(pid: int)

  /** What the program has logged and signalled so far. */
  datatype Journal = Journal(
    grants: seq<Grant>,
    refusals: seq<Refusal>,
    restarts: seq<RestartRecord>,
    spawns: seq<SpawnRecord>,
    signals: seq<Signal>)

  /**
   `children` is the kernel's set of unreaped children forked by this program;
   `now` is the latest clock reading.
   */
  datatype World = World(
    phase: Phase,
    tables: Tables,
    requested: bool,
    children: set<int>,
    now: int,
    journal: Journal)

  datatype Input =
    | BootUnit(conditionsMet: bool, fate: Fate)
    | EndBoot
    | ChildExit(exit: Exit)
    | Connection(socket: Name, accepted: bool, pid: int)
    | RequestShutdown
    | Drain(at: int)
    | RestartUnit(fate: Fate)
    | EndTurn(quit: bool)
    | StopNext
    | EndStops
    | PollAgain
    | EndWait
    | KillOne(victim: int)
    | EndKills
    | Halt

  const MAX_POLLS := 50

  function Initial(cfg: Config, start: int): World
  {
    World(Booting(cfg.order),
          Tables(map[], map[], map[], [], map[], map k | k in cfg.sockets :: 0),
          false, {}, start, Journal([], [], [], [], []))
  }

  // ---------------------------------------------------------------- single operations

  /** Lines 249-282: only services leave a trace in the tables. */
  predicate StartsAtBoot(cfg: Config, name: Name, conditionsMet: bool)
  {
    name in cfg.units && !IsBareTemplate(name) && conditionsMet && cfg.units[name].kind == Service
  }

  predicate Restartable(cfg: Config, name: Name)
  {
    name in cfg.units && cfg.units[name].kind == Service
  }

  /** What `accept_ready` executes: the command as written, without any expansion. */
  function AcceptWords(unit: UnitFile): seq<string>
  {
    CommandLine.Split(unit.execStart)
  }

  /** `start_service` as seen from outside: the tables, the new child, the log line. */
  function Launch(cfg: Config, w: World, name: Name, f: Fate): World
    requires name in cfg.units
  {
    if !Launches(cfg.units[name], f) then w
    else
      w.(tables := StartService(w.tables, name, cfg.units[name], f),
         children := w.children + {f.pid},
         journal := w.journal.(spawns := w.journal.spawns + [SpawnRecord(name, f.pid, StartWords(cfg.units[name]))]))
  }

  /** The restart is logged before it is attempted. */
  function WithRestart(w: World, name: Name): World
  {
    w.(journal := w.journal.(restarts := w.journal.restarts + [RestartRecord(name, w.now)]))
  }

  /** A fresh pid is never that of an unreaped child. */
  predicate FreshPid(w: World, pid: int)
  {
    pid > 0 ==> pid !in w.children
  }

  predicate Full(t: Tables, socket: Name, sock: SocketUnit)
    requires socket in t.active
  {
    sock.maxConn > 0 && t.active[socket] >= sock.maxConn
  }

  /** `accept_ready` gets as far as a running child. */
  predicate Serves(cfg: Config, t: Tables, socket: Name, accepted: bool, pid: int)
    requires socket in cfg.sockets && socket in t.active
  {
    var svc := ResolvePair(cfg.units, socket, cfg.sockets[socket]);
    && !Full(t, socket, cfg.sockets[socket])
    && accepted
    && svc in cfg.units
    && cfg.units[svc].execStart != ""
    && AcceptWords(cfg.units[svc]) != []
    && pid > 0
  }

  function Accept(cfg: Config, t: Tables, socket: Name, accepted: bool, pid: int): Tables
    requires socket in cfg.sockets && socket in t.active
  {
    if !Serves(cfg, t, socket, accepted, pid) then t
    else
      var svc := ResolvePair(cfg.units, socket, cfg.sockets[socket]);
      Track(t, pid, svc, No, DEFAULT_BURST, DEFAULT_INTERVAL).(
        callbacks := t.callbacks[pid := socket],
        active := t.active[socket := t.active[socket] + 1])
  }

  function AcceptConnection(cfg: Config, w: World, socket: Name, accepted: bool, pid: int): World
    requires socket in cfg.sockets && socket in w.tables.active
  {
    if !Serves(cfg, w.tables, socket, accepted, pid) then w
    else
      var svc := ResolvePair(cfg.units, socket, cfg.sockets[socket]);
      w.(tables := Accept(cfg, w.tables, socket, accepted, pid),
         children := w.children + {pid},
         journal := w.journal.(spawns := w.journal.spawns + [SpawnRecord(svc, pid, AcceptWords(cfg.units[svc]))]))
  }

  /** What the journal records about a reaped child. */
  function Note(j: Journal, t: Tables, e: Exit): Journal
  {
    if e.pid !in t.processes then j
    else
      var tp := t.processes[e.pid];
      match Judge(tp, e)
      case NoRestart => j
      case BurstExhausted => j.(refusals := j.refusals + [Refusal(tp.unit, e.at, tp.meta)])
      case Restart(entry) => j.(grants := j.grants + [Grant(entry.unit, e.at, entry.due, entry.meta)])
  }

  function ReapChild(w: World, e: Exit): World
  {
    w.(tables := Reap(w.tables, e),
       children := w.children - {e.pid},
       now := e.at,
       journal := Note(w.journal, w.tables, e))
  }

  function Last(s: seq<Name>): Name
    requires s != []
  {
    s[|s| - 1]
  }

  function Front(s: seq<Name>): seq<Name>
    requires s != []
  {
    s[..|s| - 1]
  }

  /** One turn of the reverse stop loop. */
  function Stop(w: World, name: Name): World
  {
    if name !in w.tables.unitToPid then w
    else
      w.(tables := StopUnit(w.tables, name),
         journal := w.journal.(signals := w.journal.signals + [Term(name, w.tables.unitToPid[name])]))
  }

  // ---------------------------------------------------------------- the step relation

  predicate Reaping(p: Phase)
  {
    p.Polling? || (p.Waiting? && p.polls > 0) || p.LastPoll?
  }

  predicate Enabled(cfg: Config, w: World, i: Input)
  {
    match i
    case BootUnit(_, fate) => w.phase.Booting? && w.phase.todo != [] && FreshPid(w, fate.pid)
    case EndBoot => w.phase == Booting([])
    case ChildExit(e) => Reaping(w.phase) && e.pid > 0 && e.at >= w.now
    case Connection(socket, _, pid) =>
      && w.phase.Polling? && socket in cfg.sockets && socket in w.tables.active
      && cfg.sockets[socket].accept && FreshPid(w, pid)
    case RequestShutdown => Reaping(w.phase)
    case Drain(at) => w.phase.Polling? && at >= w.now
    case RestartUnit(fate) => w.phase.Restarting? && w.phase.ready != [] && FreshPid(w, fate.pid)
    case EndTurn(_) => w.phase == Restarting([])
    case StopNext => w.phase.ShuttingDown? && w.phase.todo != []
    case EndStops => w.phase == ShuttingDown([])
    case PollAgain => w.phase.Waiting? && w.phase.polls < MAX_POLLS && ActiveCount(w.tables) > 0
    case EndWait => w.phase.Waiting? && (w.phase.polls >= MAX_POLLS || ActiveCount(w.tables) == 0)
    case KillOne(pid) => w.phase.Killing? && pid in w.phase.left
    case EndKills => w.phase == Killing({})
    case Halt => w.phase.LastPoll?
  }

  function Step(cfg: Config, w: World, i: Input): World
    requires Enabled(cfg, w, i)
  {
    match i
    case BootUnit(met, fate) =>
      var name := w.phase.todo[0];
      var next := if StartsAtBoot(cfg, name, met) then Launch(cfg, w, name, fate) else w;
      next.(phase := Booting(w.phase.todo[1..]))
    case EndBoot => w.(phase := Polling)
    case ChildExit(e) => ReapChild(w, e)
    case Connection(socket, accepted, pid) => AcceptConnection(cfg, w, socket, accepted, pid)
    case RequestShutdown => w.(requested := true)
    case Drain(at) =>
      w.(phase := Restarting(Due(w.tables.pending, at)), tables := DrainPending(w.tables, at), now := at)
    case RestartUnit(fate) =>
      var name := w.phase.ready[0];
      var next :=
        if Restartable(cfg, name) then
          Launch(cfg, WithRestart(w, name), name, fate)
        else w;
      next.(phase := Restarting(w.phase.ready[1..]))
    case EndTurn(quit) => w.(phase := if w.requested || quit then ShuttingDown(cfg.order) else Polling)
    case StopNext => Stop(w, Last(w.phase.todo)).(phase := ShuttingDown(Front(w.phase.todo)))
    case EndStops => w.(phase := Waiting(0))
    case PollAgain => w.(phase := Waiting(w.phase.polls + 1))
    case EndWait => w.(phase := Killing(w.tables.processes.Keys))
    case KillOne(pid) =>
      w.(phase := Killing(w.phase.left - {pid}), journal := w.journal.(signals := w.journal.signals + [Kill(pid)]))
    case EndKills => w.(phase := LastPoll)
    case Halt => w.(phase := Halted)
  }

  // ---------------------------------------------------------------- runs

  predicate Feasible(cfg: Config, w: World, inputs: seq<Input>)
    decreases |inputs|, 0
  {
    inputs != [] ==>
      && Feasible(cfg, w, inputs[..|inputs| - 1])
      && Enabled(cfg, Exec(cfg, w, inputs[..|inputs| - 1]), inputs[|inputs| - 1])
  }

  /** The world after a run. */
  function Exec(cfg: Config, w: World, inputs: seq<Input>): World
    requires Feasible(cfg, w, inputs)
    decreases |inputs|, 1
  {
    if inputs == [] then w
    else Step(cfg, Exec(cfg, w, inputs[..|inputs| - 1]), inputs[|inputs| - 1])
  }

  lemma ExecSnoc(cfg: Config, w: World, inputs: seq<Input>, i: Input)
    requires Feasible(cfg, w, inputs) && Enabled(cfg, Exec(cfg, w, inputs), i)
    ensures Feasible(cfg, w, inputs + [i])
    ensures Exec(cfg, w, inputs + [i]) == Step(cfg, Exec(cfg, w, inputs), i)
  {
    assert (inputs + [i])[..|inputs|] == inputs;
  }
}
