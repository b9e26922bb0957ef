/** The promises about ordinary units, stated over whole runs. */
module RunTheorems {
  import opened UnitFiles
  import opened DependencyResolver
  import opened Processes
  import opened RestartLimiter
  import opened Machine
  import opened UnitViews
  import opened Supervision

  /** `w` is reached by some run; the order need only list no unit twice, as a resolved one does. */
  ghost predicate Reachable(cfg: Config, w: World)
  {
    && NoDuplicates(cfg.order)
    && exists start: nat, inputs ::
      Feasible(cfg, Initial(cfg, start), inputs) && w == Exec(cfg, Initial(cfg, start), inputs)
  }

  ghost predicate OrdinaryUnit(cfg: Config, u: Name)
  {
    u in cfg.units && Ordinary(cfg, u)
  }

  lemma ReachableIsGood(cfg: Config, w: World, u: Name)
    requires Reachable(cfg, w) && OrdinaryUnit(cfg, u)
    ensures Good(cfg, u, ViewOf(w, u))
  {
    hide Good, ViewOf, Exec, Feasible, Ordinary;
    var start: nat, inputs :| Feasible(cfg, Initial(cfg, start), inputs) && w == Exec(cfg, Initial(cfg, start), inputs);
    AlwaysGood(cfg, start, inputs, u);
  }

  lemma ReachableStep(cfg: Config, w: World, i: Input)
    requires Reachable(cfg, w) && Enabled(cfg, w, i)
    ensures Reachable(cfg, Step(cfg, w, i))
  {
    hide Step, Enabled, Exec, Feasible, Initial;
    var start: nat, inputs :| Feasible(cfg, Initial(cfg, start), inputs) && w == Exec(cfg, Initial(cfg, start), inputs);
    ExecSnoc(cfg, Initial(cfg, start), inputs, i);
  }

  lemma ReachableInitially(cfg: Config)
    requires NoDuplicates(cfg.order)
    ensures Reachable(cfg, Initial(cfg, 0))
  {
    assert Feasible(cfg, Initial(cfg, 0), []) && Exec(cfg, Initial(cfg, 0), []) == Initial(cfg, 0);
  }

  // ---------------------------------------------------------------- at most one instance

  /** Tracked, queued for restart, or drained and about to start: never more than one of these. */
  lemma AtMostOneInstance(cfg: Config, w: World, u: Name)
    requires Reachable(cfg, w) && OrdinaryUnit(cfg, u)
    ensures |ProcsOf(w.tables.processes, u)| + |PendingOf(w.tables.pending, u)| + multiset(RestartTodo(w.phase))[u] <= 1
  {
    ReachableIsGood(cfg, w, u);
    hide Reachable, ProcsOf, PendingOf, Chain;
  }

  /** The converse of index agreement: every live process of an ordinary unit is found by name. */
  lemma LiveIsIndexed(cfg: Config, w: World, p: int)
    requires Reachable(cfg, w) && p in w.tables.processes && OrdinaryUnit(cfg, w.tables.processes[p].unit)
    ensures var u := w.tables.processes[p].unit;
      u in w.tables.unitToPid && w.tables.unitToPid[u] == p
  {
    var u := w.tables.processes[p].unit;
    ReachableIsGood(cfg, w, u);
    var v := ViewOf(w, u);
    assert p in v.procs;
    OnlyProcess(v, p);
    hide Reachable, PendingOf, Chain, GrantsOf;
  }

  // ---------------------------------------------------------------- metadata handover

  /** The reference: one limiter that is told of every granted exit and never moves between records. */
  function Replay(exits: seq<int>, interval: int): Meta
  {
    if exits == [] then NEW_META
    else
      var m := CountExit(Replay(exits[..|exits| - 1], interval), exits[|exits| - 1], interval);
      m.(restarts := m.restarts + 1)
  }

  function ExitTimes(g: seq<Grant>): seq<int>
  {
    if g == [] then [] else ExitTimes(g[..|g| - 1]) + [g[|g| - 1].at]
  }

  lemma {:induction false} ChainReplays(g: seq<Grant>, limit: int, interval: int)
    requires Chain(g, limit, interval)
    ensures MetaAfter(g) == Replay(ExitTimes(g), interval) && MetaAfter(g).restarts == |g|
  {
    if g != [] {
      var front := g[..|g| - 1];
      ChainReplays(front, limit, interval);
      var times := ExitTimes(g);
      assert times[..|times| - 1] == ExitTimes(front);
    }
  }

  /**
   A live process carries exactly what a single limiter would hold: its restart
   count is the number of restarts granted to its unit so far, and burst count
   and window survive exit, queue, drain and start.
   */
  lemma MetadataHandover(cfg: Config, w: World, p: int)
    requires Reachable(cfg, w) && p in w.tables.processes && OrdinaryUnit(cfg, w.tables.processes[p].unit)
    ensures var tp := w.tables.processes[p];
      var g := GrantsOf(w.journal.grants, tp.unit);
      && tp.meta == Replay(ExitTimes(g), cfg.units[tp.unit].burstInterval)
      && tp.meta.restarts == |g|
      && tp.limit == cfg.units[tp.unit].burstLimit && tp.interval == cfg.units[tp.unit].burstInterval
  {
    var u := w.tables.processes[p].unit;
    ReachableIsGood(cfg, w, u);
    var v := ViewOf(w, u);
    assert p in v.procs && v.procs[p] == w.tables.processes[p];
    ChainReplays(v.grants, cfg.units[u].burstLimit, cfg.units[u].burstInterval);
    hide Reachable, PendingOf, Chain, GrantsOf, Replay, ExitTimes;
  }

  // ---------------------------------------------------------------- limiter and backoff over runs

  /** All grants of a unit were passed by a single limiter with the unit's own limit and window. */
  lemma OneLimiter(cfg: Config, w: World, u: Name)
    requires Reachable(cfg, w) && OrdinaryUnit(cfg, u)
    ensures Chain(GrantsOf(w.journal.grants, u), cfg.units[u].burstLimit, cfg.units[u].burstInterval)
  {
    ReachableIsGood(cfg, w, u);
  }

  /** In any interval of `k` windows a unit is granted at most `(k + 1) * limit` restarts. */
  lemma RateLimitOverRuns(cfg: Config, w: World, u: Name, a: int, k: nat)
    requires Reachable(cfg, w) && OrdinaryUnit(cfg, u)
    requires cfg.units[u].burstInterval >= 0 && cfg.units[u].burstLimit >= 0 && k >= 1
    ensures var unit, g := cfg.units[u], GrantsOf(w.journal.grants, u);
      |GrantsWithin(g, a, a + k * (unit.burstInterval * SECOND))| <= (k + 1) * unit.burstLimit
  {
    hide Reachable, Ordinary, Chain, GrantsOf, GrantsWithin, DelaySum;
    OneLimiter(cfg, w, u);
    RateLimit(GrantsOf(w.journal.grants, u), cfg.units[u].burstLimit, cfg.units[u].burstInterval, a, k);
  }

  /** Exits `i` and `j` that led to restarts are at least the delays of the restarts between them apart. */
  lemma SpacingOverRuns(cfg: Config, w: World, u: Name, i: nat, j: nat)
    requires Reachable(cfg, w) && OrdinaryUnit(cfg, u) && i <= j < |GrantsOf(w.journal.grants, u)|
    ensures var g := GrantsOf(w.journal.grants, u);
      g[j].at >= g[i].at + (DelaySum(j) - DelaySum(i)) * MILLISECOND
  {
    hide Reachable, Ordinary, Chain, GrantsOf, GrantsWithin, DelaySum;
    OneLimiter(cfg, w, u);
    Spacing(GrantsOf(w.journal.grants, u), cfg.units[u].burstLimit, cfg.units[u].burstInterval, i, j);
  }

  /** A time span shorter than the first `n` delays holds at most `n` granted exits, whatever the unit file says. */
  lemma BackoffRateOverRuns(cfg: Config, w: World, u: Name, a: int, span: int, n: nat)
    requires Reachable(cfg, w) && OrdinaryUnit(cfg, u) && span < DelaySum(n) * MILLISECOND
    ensures |GrantsWithin(GrantsOf(w.journal.grants, u), a, a + span)| <= n
  {
    hide Reachable, Ordinary, Chain, GrantsOf, GrantsWithin, DelaySum;
    OneLimiter(cfg, w, u);
    BackoffRate(GrantsOf(w.journal.grants, u), cfg.units[u].burstLimit, cfg.units[u].burstInterval, a, span, n);
  }

  /** So no unit is ever granted more than seven restarts for the exits of ten seconds. */
  lemma SevenInTenSeconds(cfg: Config, w: World, u: Name, a: int)
    requires Reachable(cfg, w) && OrdinaryUnit(cfg, u)
    ensures |GrantsWithin(GrantsOf(w.journal.grants, u), a, a + 10 * SECOND)| <= 7
  {
    hide Reachable, OrdinaryUnit, GrantsOf, GrantsWithin, DelaySum;
    DelaySumTable();
    BackoffRateOverRuns(cfg, w, u, a, 10 * SECOND, 7);
  }

  /** Once a granted delay exceeds the burst window, a unit with a positive limit is never refused in the whole run. */
  lemma NeverRefusedAfterOvertaking(cfg: Config, w: World, u: Name, i: nat)
    requires Reachable(cfg, w) && OrdinaryUnit(cfg, u) && cfg.units[u].burstLimit >= 1
    requires var g := GrantsOf(w.journal.grants, u);
      i < |g| && g[i].due - g[i].at > cfg.units[u].burstInterval * SECOND
    ensures RefusalsOf(w.journal.refusals, u) == []
  {
    ReachableIsGood(cfg, w, u);
    var v, unit := ViewOf(w, u), cfg.units[u];
    if v.refusals != [] {
      BackoffOvertakes(v.grants, unit.burstLimit, unit.burstInterval, i, v.refusals[0].at);
      assert false;
    }
  }

  /** The same, read off the live process: from the eighth restart on with the default window. */
  lemma SeasonedUnitNeverRefused(cfg: Config, w: World, p: int)
    requires Reachable(cfg, w) && p in w.tables.processes && OrdinaryUnit(cfg, w.tables.processes[p].unit)
    requires var tp := w.tables.processes[p];
      tp.interval == DEFAULT_INTERVAL && tp.limit >= 1 && tp.meta.restarts >= 8
    ensures forall e: Exit :: e.at >= w.now ==> !Judge(w.tables.processes[p], e).BurstExhausted?
  {
    var tp := w.tables.processes[p];
    var u, unit := tp.unit, cfg.units[tp.unit];
    ReachableIsGood(cfg, w, u);
    MetadataHandover(cfg, w, p);
    var v := ViewOf(w, u);
    assert p in v.procs && v.procs[p] == tp;
    GrantFacts(v.grants, unit.burstLimit, unit.burstInterval, 7);
    DefaultWindowOvertaken(7);
    hide Reachable, PendingOf, Chain, GrantsOf, DelayMs, ProcsOf, ExitTimes, Replay;
    forall e: Exit | e.at >= w.now
      ensures !Judge(tp, e).BurstExhausted?
    {
      BackoffOvertakes(v.grants, unit.burstLimit, unit.burstInterval, 7, e.at);
    }
  }

  /** No run restarts a unit before its exit time plus the backoff delay. */
  lemma NoEarlyRestart(cfg: Config, w: World, u: Name, k: nat)
    requires Reachable(cfg, w) && OrdinaryUnit(cfg, u)
    requires k < |RestartsOf(w.journal.restarts, u)|
    ensures var g := GrantsOf(w.journal.grants, u);
      k < |g| && RestartsOf(w.journal.restarts, u)[k].at >= g[k].at + DelayMs(k) * MILLISECOND
  {
    ReachableIsGood(cfg, w, u);
    GrantFacts(GrantsOf(w.journal.grants, u), cfg.units[u].burstLimit, cfg.units[u].burstInterval, k);
    hide Reachable, GrantsOf, RestartsOf, DelayMs, PendingOf, Chain;
  }

  /** No grant is lost: each has been acted on, or is still queued or drained. */
  lemma GrantsAccountedFor(cfg: Config, w: World, u: Name)
    requires Reachable(cfg, w) && OrdinaryUnit(cfg, u)
    ensures |GrantsOf(w.journal.grants, u)| ==
      |RestartsOf(w.journal.restarts, u)| + |PendingOf(w.tables.pending, u)| + multiset(RestartTodo(w.phase))[u]
  {
    ReachableIsGood(cfg, w, u);
    hide Reachable, GrantsOf, RestartsOf, PendingOf, Chain;
  }

  // ---------------------------------------------------------------- what is executed

  /** Every child so far executes its unit's expanded command; only connections get the command as written. */
  ghost predicate WordsRecorded(cfg: Config, spawns: seq<SpawnRecord>)
  {
    forall i :: 0 <= i < |spawns| ==>
      var x := spawns[i];
      && x.unit in cfg.units && x.words != []
      && (x.words == StartWords(cfg.units[x.unit]) ||
        (!Ordinary(cfg, x.unit) && x.words == AcceptWords(cfg.units[x.unit])))
  }

  lemma StepKeepsWords(cfg: Config, w: World, i: Input)
    requires Enabled(cfg, w, i) && WordsRecorded(cfg, w.journal.spawns)
    ensures WordsRecorded(cfg, Step(cfg, w, i).journal.spawns)
  {
    hide StartWords, AcceptWords, ResolvePair, StartService, Reap, IsBareTemplate, Judge, Track, Due;
  }

  lemma {:induction false} AlwaysRecorded(cfg: Config, start: int, inputs: seq<Input>)
    requires Feasible(cfg, Initial(cfg, start), inputs)
    ensures WordsRecorded(cfg, Exec(cfg, Initial(cfg, start), inputs).journal.spawns)
  {
    if inputs != [] {
      hide Step, Enabled, WordsRecorded;
      AlwaysRecorded(cfg, start, inputs[..|inputs| - 1]);
      StepKeepsWords(cfg, Exec(cfg, Initial(cfg, start), inputs[..|inputs| - 1]), inputs[|inputs| - 1]);
    }
  }

  /** In every run, each child of an ordinary unit executes the words of `start_service`, at boot and after. */
  lemma ExecutedWords(cfg: Config, w: World, i: nat)
    requires Reachable(cfg, w) && i < |w.journal.spawns| && Ordinary(cfg, w.journal.spawns[i].unit)
    ensures var x := w.journal.spawns[i];
      x.unit in cfg.units && x.words == StartWords(cfg.units[x.unit]) != []
  {
    hide Exec, Feasible, StartWords, AcceptWords, Ordinary;
    var start: nat, inputs :| Feasible(cfg, Initial(cfg, start), inputs) && w == Exec(cfg, Initial(cfg, start), inputs);
    AlwaysRecorded(cfg, start, inputs);
  }
}
