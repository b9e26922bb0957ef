/**
 The bookkeeping of `ProcessMixin` as values: the records that carry restart
 metadata, and what spawning, reaping, draining and stopping do to the five
 containers.  Times are `steady_clock` ticks (nanoseconds since its epoch).
 */
module Processes {
  import opened UnitFiles
  import StartCommand

  const MILLISECOND := 1_000_000
  const SECOND := 1_000_000_000
  const BASE_DELAY_MS := 100
  const MAX_DELAY_MS := 600_000
  const MAX_EXPONENT := 13
  const DEFAULT_BURST := 5
  const DEFAULT_INTERVAL := 10

  datatype ServiceState = Inactive | Starting | Running | Stopping | Stopped | Failed

  /** `restart_count`, `burst_count` and `burst_window_start`. */
  datatype Meta = Meta(restarts: nat, burst: nat, window: int)

  const NEW_META := Meta(0, 0, 0)

  datatype TrackedProcess = TrackedProcess(
    unit: Name,
    state: ServiceState,
    policy: RestartPolicy,
    limit: int,
    interval: int,
    meta: Meta)

  datatype PendingRestart = PendingRestart(unit: Name, due: int, meta: Meta)

  /**
   The containers: `processes_`, `unit_to_pid_`, `exit_callbacks_` (the socket
   whose connection count the callback lowers), `pending_restarts_`,
   `restart_counts_`, and each socket's `active_connections`.
   */
  datatype Tables = Tables(
    processes: map<int, TrackedProcess>,
    unitToPid: map<Name, int>,
    callbacks: map<int, Name>,
    pending: seq<PendingRestart>,
    carried: map<Name, Meta>,
    active: map<Name, int>)

  /** One successful `waitpid`, with the clock reading that follows it. */
  datatype Exit = Exit(pid: int, code: int, signaled: bool, at: int)

  // ---------------------------------------------------------------- backoff and burst limit

  function Pow2(n: nat): nat
  {
    if n == 0 then 1 else 2 * Pow2(n - 1)
  }

  function Min(a: int, b: int): int
  {
    if a < b then a else b
  }

  /** Milliseconds to wait before restart number `restarts + 1`. */
  function DelayMs(restarts: nat): int
  {
    Min(BASE_DELAY_MS * Pow2(Min(restarts, MAX_EXPONENT)), MAX_DELAY_MS)
  }

  /** The fixed-window burst counter after one more exit at time `at`. */
  function CountExit(m: Meta, at: int, interval: int): Meta
  {
    if at - m.window > interval * SECOND then Meta(m.restarts, 1, at)
    else Meta(m.restarts, m.burst + 1, m.window)
  }

  datatype Verdict = NoRestart | BurstExhausted | Restart(entry: PendingRestart)

  /** What `reap_children` decides about a tracked process that exited. */
  function Judge(tp: TrackedProcess, e: Exit): Verdict
  {
    if !ShouldRestart(tp.policy, e.code, e.signaled) then NoRestart
    else
      var m := CountExit(tp.meta, e.at, tp.interval);
      if m.burst > tp.limit then BurstExhausted
      else Restart(PendingRestart(tp.unit, e.at + DelayMs(tp.meta.restarts) * MILLISECOND,
                                  m.(restarts := m.restarts + 1)))
  }

  // ---------------------------------------------------------------- operations on the containers

  /** `spawn` and `track_process`: a new process with new metadata, found by unit name. */
  function Track(t: Tables, pid: int, name: Name, policy: RestartPolicy, limit: int, interval: int): Tables
  {
    t.(processes := t.processes[pid := TrackedProcess(name, Running, policy, limit, interval, NEW_META)],
       unitToPid := t.unitToPid[name := pid])
  }

  /** `apply_restart_count`: hand the carried metadata to the process. */
  function ApplyMeta(t: Tables, pid: int, name: Name): Tables
  {
    if name !in t.carried then t
    else
      var handed := t.(carried := t.carried - {name});
      if pid in t.processes then
        handed.(processes := t.processes[pid := t.processes[pid].(meta := t.carried[name])])
      else handed
  }

  /** Whether ExecStartPre succeeded, and what fork returned if it was reached. */
  datatype Fate = Fate(preOk: bool, pid: int)

  /** What `start_service` executes. */
  function StartWords(unit: UnitFile): seq<string>
  {
    StartCommand.Launched(unit.execStart, unit.letters)
  }

  /** `start_service` reaches fork, and fork succeeds. */
  predicate Launches(unit: UnitFile, f: Fate)
  {
    f.preOk && unit.execStart != "" && StartWords(unit) != [] && f.pid > 0
  }

  function StartService(t: Tables, name: Name, unit: UnitFile, f: Fate): Tables
  {
    if !Launches(unit, f) then t
    else
      var policy := ParseRestartPolicy(unit.restart);
      ApplyMeta(Track(t, f.pid, name, policy, unit.burstLimit, unit.burstInterval), f.pid, name)
  }

  /** A running process with its unit's policy and limits. */
  function OwnProcess(name: Name, unit: UnitFile, meta: Meta): TrackedProcess
  {
    TrackedProcess(name, Running, ParseRestartPolicy(unit.restart), unit.burstLimit, unit.burstInterval, meta)
  }

  /** What a successful start leaves in the containers. */
  lemma StartFacts(t: Tables, name: Name, unit: UnitFile, f: Fate)
    requires Launches(unit, f)
    ensures var meta := if name in t.carried then t.carried[name] else NEW_META;
      var tp := OwnProcess(name, unit, meta);
      StartService(t, name, unit, f) == t.(
        processes := t.processes[f.pid := tp], unitToPid := t.unitToPid[name := f.pid], carried := t.carried - {name})
  {
    hide Launches, ParseRestartPolicy;
  }

  function FireCallback(t: Tables, pid: int): Tables
  {
    if pid !in t.callbacks then t
    else
      var k := t.callbacks[pid];
      t.(callbacks := t.callbacks - {pid},
         active := if k in t.active then t.active[k := t.active[k] - 1] else t.active)
  }

  /** The queue entry that an exit leaves behind, if any. */
  function Requeue(tp: TrackedProcess, e: Exit): seq<PendingRestart>
  {
    match Judge(tp, e)
    case Restart(entry) => [entry]
    case _ => []
  }

  /** One turn of the loop in `reap_children`. */
  function Reap(t: Tables, e: Exit): Tables
  {
    var fired := FireCallback(t, e.pid);
    if e.pid !in t.processes then fired
    else
      var tp := t.processes[e.pid];
      fired.(processes := t.processes - {e.pid},
             unitToPid := t.unitToPid - {tp.unit},
             pending := t.pending + Requeue(tp, e))
  }

  /** The names drained by `drain_pending_restarts`, in queue order. */
  function Due(pending: seq<PendingRestart>, now: int): seq<Name>
  {
    if pending == [] then []
    else
      var last := pending[|pending| - 1];
      Due(pending[..|pending| - 1], now) + if now >= last.due then [last.unit] else []
  }

  function NotDue(pending: seq<PendingRestart>, now: int): seq<PendingRestart>
  {
    if pending == [] then []
    else
      var last := pending[|pending| - 1];
      NotDue(pending[..|pending| - 1], now) + if now >= last.due then [] else [last]
  }

  /**
   A drain goes through the queue entry by entry, in order: an entry whose time
   has come is returned by name, any other stays, and nothing else happens.
   */
  lemma {:induction false} DrainInOrder(a: seq<PendingRestart>, x: PendingRestart, b: seq<PendingRestart>, now: int)
    ensures var due := x.due <= now;
      && Due(a + [x] + b, now) == Due(a, now) + (if due then [x.unit] else []) + Due(b, now)
      && NotDue(a + [x] + b, now) == NotDue(a, now) + (if due then [] else [x]) + NotDue(b, now)
    ensures Due([], now) == [] && NotDue([], now) == []
  {
    var all := a + [x] + b;
    if b == [] {
      assert all[..|all| - 1] == a && all[|all| - 1] == x;
    } else {
      var front, last := b[..|b| - 1], b[|b| - 1];
      DrainInOrder(a, x, front, now);
      assert all[..|all| - 1] == a + [x] + front && all[|all| - 1] == last;
    }
  }

  function CarryDue(carried: map<Name, Meta>, pending: seq<PendingRestart>, now: int): map<Name, Meta>
  {
    if pending == [] then carried
    else
      var last := pending[|pending| - 1];
      var front := CarryDue(carried, pending[..|pending| - 1], now);
      if now >= last.due then front[last.unit := last.meta] else front
  }

  function DrainPending(t: Tables, now: int): Tables
  {
    t.(pending := NotDue(t.pending, now), carried := CarryDue(t.carried, t.pending, now))
  }

  /** `stop_unit`: the restart policy is cleared before SIGTERM is sent. */
  function StopUnit(t: Tables, name: Name): Tables
  {
    if name in t.unitToPid && t.unitToPid[name] in t.processes then
      var pid := t.unitToPid[name];
      t.(processes := t.processes[pid := t.processes[pid].(policy := No)])
    else t
  }

  function ActiveCount(t: Tables): nat
  {
    |set p | p in t.processes && t.processes[p].state == Running|
  }
}
