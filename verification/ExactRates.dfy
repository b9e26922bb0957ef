/**
 Every history that one limiter can grant is the history of some run, so the
 exact rates of `RestartLimiter` are exact for runs.
 */
module ExactRates {
  import opened UnitFiles
  import opened DependencyResolver
  import opened Processes
  import opened RestartLimiter
  import opened Machine
  import opened UnitViews
  import opened RunTheorems

  /** Some exit status makes the policy restart the unit; all policies but two have one. */
  ghost predicate CanRestart(policy: RestartPolicy)
  {
    exists code, signaled :: ShouldRestart(policy, code, signaled)
  }

  lemma RestartingPolicies(policy: RestartPolicy)
    ensures CanRestart(policy) <==> policy != No && policy != OnWatchdog
  {
    assert policy != No && policy != OnWatchdog ==> ShouldRestart(policy, 0, false) || ShouldRestart(policy, 134, true);
  }

  /** A service that boot starts and whose policy can restart it. */
  ghost predicate Supervised(cfg: Config, u: Name)
  {
    && OrdinaryUnit(cfg, u) && u in cfg.order && !IsBareTemplate(u) && NoDuplicates(cfg.order)
    && cfg.units[u].kind == Service && CanRestart(ParseRestartPolicy(cfg.units[u].restart))
    && cfg.units[u].execStart != "" && StartWords(cfg.units[u]) != []
  }

  // ---------------------------------------------------------------- the worlds passed through

  const PID := 2

  function Idle(cfg: Config): Tables
  {
    Initial(cfg, 0).tables
  }

  function Alone(cfg: Config, u: Name, meta: Meta): Tables
    requires u in cfg.units
  {
    Idle(cfg).(processes := map[PID := OwnProcess(u, cfg.units[u], meta)], unitToPid := map[u := PID])
  }

  function LastDue(g: seq<Grant>): int
  {
    if g == [] then 0 else g[|g| - 1].due
  }

  ghost predicate At(w: World, phase: Phase, tables: Tables, now: int, g: seq<Grant>)
  {
    && w.phase == phase && w.tables == tables && w.now == now && w.journal.grants == g
    && !w.requested && w.children == tables.processes.Keys
  }

  /** The unit is up, restarted for all of `g`. */
  ghost predicate Up(cfg: Config, u: Name, g: seq<Grant>, w: World)
    requires u in cfg.units
  {
    At(w, Polling, Alone(cfg, u, MetaAfter(g)), LastDue(g), g)
  }

  // ---------------------------------------------------------------- single steps

  lemma Starts(cfg: Config, u: Name, t: Tables)
    requires Supervised(cfg, u)
    requires t.processes == map[] && t.unitToPid == map[] && (t.carried == map[] || t.carried.Keys == {u})
    requires t == Idle(cfg).(carried := t.carried)
    ensures Launches(cfg.units[u], Fate(true, PID))
    ensures StartService(t, u, cfg.units[u], Fate(true, PID)) ==
      Alone(cfg, u, if u in t.carried then t.carried[u] else NEW_META)
  {
    hide StartWords, ParseRestartPolicy, IsBareTemplate, Ordinary, StartService, CanRestart;
    StartFacts(t, u, cfg.units[u], Fate(true, PID));
    assert t.carried - {u} == map[];
  }

  /** Boot starts the unit and nothing else. */
  lemma {:induction false} BootTo(cfg: Config, u: Name, k: nat) returns (w: World)
    requires Supervised(cfg, u) && k <= |cfg.order|
    ensures Reachable(cfg, w)
    ensures At(w, Booting(cfg.order[k..]), if u in cfg.order[..k] then Alone(cfg, u, NEW_META) else Idle(cfg), 0, [])
  {
    if k == 0 {
      w := Initial(cfg, 0);
      ReachableInitially(cfg);
      assert cfg.order[0..] == cfg.order;
    } else {
      hide Reachable, Supervised, Step, Enabled;
      var before := BootTo(cfg, u, k - 1);
      w := BootNext(cfg, u, k - 1, before);
    }
  }

  lemma BootNext(cfg: Config, u: Name, k: nat, w: World) returns (w': World)
    requires Supervised(cfg, u) && k < |cfg.order| && Reachable(cfg, w)
    requires At(w, Booting(cfg.order[k..]), if u in cfg.order[..k] then Alone(cfg, u, NEW_META) else Idle(cfg), 0, [])
    ensures Reachable(cfg, w')
    ensures At(w', Booting(cfg.order[k + 1..]),
               if u in cfg.order[..k + 1] then Alone(cfg, u, NEW_META) else Idle(cfg), 0, [])
  {
    hide Reachable, StartService, CanRestart, IsBareTemplate, ParseRestartPolicy, Ordinary, StartWords;
    var mine := cfg.order[k] == u;
    var i := BootUnit(mine, Fate(mine, if mine then PID else 0));
    assert cfg.order[k..][0] == cfg.order[k] && cfg.order[k..][1..] == cfg.order[k + 1..];
    assert cfg.order[..k + 1] == cfg.order[..k] + [cfg.order[k]];
    if mine {
      assert u !in cfg.order[..k];
      Starts(cfg, u, Idle(cfg));
    }
    assert Enabled(cfg, w, i);
    ReachableStep(cfg, w, i);
    w' := Step(cfg, w, i);
  }

  lemma Boots(cfg: Config, u: Name) returns (w: World)
    requires Supervised(cfg, u)
    ensures Reachable(cfg, w) && Up(cfg, u, [], w)
  {
    var n := |cfg.order|;
    var before := BootTo(cfg, u, n);
    assert cfg.order[n..] == [] && cfg.order[..n] == cfg.order;
    hide Reachable;
    assert Enabled(cfg, before, EndBoot);
    ReachableStep(cfg, before, EndBoot);
    w := Step(cfg, before, EndBoot);
  }

  function Queued(x: Grant): PendingRestart
  {
    PendingRestart(x.unit, x.due, x.meta)
  }

  /** The process exits as `x` says, and the limiter grants the restart. */
  lemma Exits(cfg: Config, u: Name, g: seq<Grant>, x: Grant, w: World) returns (w': World)
    requires Supervised(cfg, u) && Reachable(cfg, w) && Up(cfg, u, g, w) && x.unit == u
    requires GrantedNext(g, x, cfg.units[u].burstLimit, cfg.units[u].burstInterval)
    ensures Reachable(cfg, w')
    ensures At(w', Polling, Idle(cfg).(pending := [Queued(x)]), x.at, g + [x])
  {
    hide Reachable, IsBareTemplate, ParseRestartPolicy, Ordinary, StartWords, CountExit, DelayMs, MetaAfter;
    var policy := ParseRestartPolicy(cfg.units[u].restart);
    var code, signaled :| ShouldRestart(policy, code, signaled);
    hide ShouldRestart;
    var e := Exit(PID, code, signaled, x.at);
    var tp := OwnProcess(u, cfg.units[u], MetaAfter(g));
    assert Judge(tp, e) == Restart(Queued(x));
    assert w.tables.processes - {PID} == map[] && w.tables.unitToPid - {u} == map[];
    assert Enabled(cfg, w, ChildExit(e));
    ReachableStep(cfg, w, ChildExit(e));
    w' := Step(cfg, w, ChildExit(e));
    assert w.tables.pending + Requeue(tp, e) == [Queued(x)];
  }

  /** The restart is drained the moment it is due. */
  lemma Drains(cfg: Config, u: Name, g: seq<Grant>, x: Grant, w: World) returns (w': World)
    requires Reachable(cfg, w) && At(w, Polling, Idle(cfg).(pending := [Queued(x)]), x.at, g)
    requires x.unit == u && x.at <= x.due
    ensures Reachable(cfg, w')
    ensures At(w', Restarting([u]), Idle(cfg).(carried := map[u := x.meta]), x.due, g)
  {
    hide Reachable;
    DrainsOne(Queued(x));
    hide Due, NotDue, CarryDue;
    ReachableStep(cfg, w, Drain(x.due));
    w' := Step(cfg, w, Drain(x.due));
  }

  lemma DrainsOne(x: PendingRestart)
    ensures Due([x], x.due) == [x.unit] && NotDue([x], x.due) == []
    ensures CarryDue(map[], [x], x.due) == map[x.unit := x.meta]
  {
    DueSnoc([], x, x.due);
    assert [] + [x] == [x];
  }

  /** The unit is started again, and the turn ends. */
  lemma Restarts(cfg: Config, u: Name, g: seq<Grant>, x: Grant, w: World) returns (w': World)
    requires Supervised(cfg, u) && Reachable(cfg, w)
    requires At(w, Restarting([u]), Idle(cfg).(carried := map[u := x.meta]), x.due, g)
    ensures Reachable(cfg, w')
    ensures At(w', Polling, Alone(cfg, u, x.meta), x.due, g)
  {
    hide Reachable, StartService, CanRestart, IsBareTemplate, ParseRestartPolicy, Ordinary, StartWords;
    Starts(cfg, u, w.tables);
    var i := RestartUnit(Fate(true, PID));
    assert Enabled(cfg, w, i);
    ReachableStep(cfg, w, i);
    var mid := Step(cfg, w, i);
    assert [u][1..] == [];
    assert Enabled(cfg, mid, EndTurn(false));
    ReachableStep(cfg, mid, EndTurn(false));
    w' := Step(cfg, mid, EndTurn(false));
  }

  lemma NextRound(cfg: Config, u: Name, g: seq<Grant>, x: Grant, w: World) returns (w': World)
    requires Supervised(cfg, u) && Reachable(cfg, w) && Up(cfg, u, g, w) && x.unit == u
    requires GrantedNext(g, x, cfg.units[u].burstLimit, cfg.units[u].burstInterval)
    ensures Reachable(cfg, w') && Up(cfg, u, g + [x], w')
  {
    hide Reachable, Supervised, DelayMs, CountExit;
    BackoffRefinement(MetaAfter(g).restarts);
    var down := Exits(cfg, u, g, x, w);
    var drained := Drains(cfg, u, g + [x], x, down);
    w' := Restarts(cfg, u, g + [x], x, drained);
  }

  // ---------------------------------------------------------------- every history

  ghost predicate AllOf(g: seq<Grant>, u: Name)
  {
    forall i :: 0 <= i < |g| ==> g[i].unit == u
  }

  lemma {:induction false} Realised(cfg: Config, u: Name, g: seq<Grant>) returns (w: World)
    requires Supervised(cfg, u) && AllOf(g, u)
    requires Chain(g, cfg.units[u].burstLimit, cfg.units[u].burstInterval)
    ensures Reachable(cfg, w) && Up(cfg, u, g, w)
  {
    hide Reachable, Supervised, GrantedNext, Up;
    if g == [] {
      w := Boots(cfg, u);
    } else {
      var front, x := g[..|g| - 1], g[|g| - 1];
      var before := Realised(cfg, u, front);
      w := NextRound(cfg, u, front, x, before);
      assert front + [x] == g;
    }
  }

  lemma {:induction false} SelectsAll(g: seq<Grant>, u: Name)
    requires AllOf(g, u)
    ensures GrantsOf(g, u) == g
  {
    if g != [] {
      SelectsAll(g[..|g| - 1], u);
    }
  }

  lemma {:induction false} SelectsOwn(g: seq<Grant>, u: Name)
    ensures AllOf(GrantsOf(g, u), u)
  {
    if g != [] {
      SelectsOwn(g[..|g| - 1], u);
    }
  }

  /** Some run has granted the unit exactly `g`. */
  ghost predicate HasHistory(cfg: Config, u: Name, g: seq<Grant>)
  {
    exists w :: Reachable(cfg, w) && GrantsOf(w.journal.grants, u) == g
  }

  /** The restart histories of a supervised unit over all runs are exactly the chains of one limiter. */
  lemma HistoriesExact(cfg: Config, u: Name, g: seq<Grant>)
    requires Supervised(cfg, u)
    ensures HasHistory(cfg, u, g) <==>
      AllOf(g, u) && Chain(g, cfg.units[u].burstLimit, cfg.units[u].burstInterval)
  {
    hide Reachable, Chain, GrantsOf, AllOf, Ordinary;
    if HasHistory(cfg, u, g) {
      var w :| Reachable(cfg, w) && GrantsOf(w.journal.grants, u) == g;
      OneLimiter(cfg, w, u);
      SelectsOwn(w.journal.grants, u);
    } else if AllOf(g, u) && Chain(g, cfg.units[u].burstLimit, cfg.units[u].burstInterval) {
      var w := Realised(cfg, u, g);
      SelectsAll(g, u);
      assert false;
    }
  }

  // ---------------------------------------------------------------- exact rates of runs

  function Relabel(g: seq<Grant>, u: Name): seq<Grant>
  {
    seq(|g|, i requires 0 <= i < |g| => g[i].(unit := u))
  }

  lemma {:induction false} RelabelledChain(g: seq<Grant>, u: Name, limit: int, interval: int)
    requires Chain(g, limit, interval)
    ensures Chain(Relabel(g, u), limit, interval) && AllOf(Relabel(g, u), u)
  {
    hide CountExit, DelayMs;
    if g != [] {
      var front, r := g[..|g| - 1], Relabel(g, u);
      RelabelledChain(front, u, limit, interval);
      assert r[..|r| - 1] == Relabel(front, u);
    }
  }

  /** Some run grants the unit `n` restarts for the exits of some `span` of time. */
  ghost predicate ManyInRun(cfg: Config, u: Name, span: int, n: nat)
  {
    exists w, a: nat, b ::
      b == a + span && Reachable(cfg, w) && |GrantsWithin(GrantsOf(w.journal.grants, u), a, b)| >= n
  }

  /** What one limiter can grant within a span of time is what some run grants. */
  lemma RatesAgree(cfg: Config, u: Name, span: int, n: nat)
    requires Supervised(cfg, u)
    ensures ManyInRun(cfg, u, span, n) <==> ManyWithin(cfg.units[u].burstLimit, cfg.units[u].burstInterval, span, n)
  {
    var limit, interval := cfg.units[u].burstLimit, cfg.units[u].burstInterval;
    hide Reachable, Chain, GrantsOf, Ordinary;
    if ManyInRun(cfg, u, span, n) {
      hide GrantsWithin;
      var w, a: nat, b :|
        b == a + span && Reachable(cfg, w) && |GrantsWithin(GrantsOf(w.journal.grants, u), a, b)| >= n;
      OneLimiter(cfg, w, u);
    }
    if ManyWithin(limit, interval, span, n) {
      var g, a: nat, b :| b == a + span && Chain(g, limit, interval) && |GrantsWithin(g, a, b)| >= n;
      var r := Relabel(g, u);
      RelabelledChain(g, u, limit, interval);
      assert GrantsWithin(r, a, b) == GrantsWithin(g, a, b);
      hide GrantsWithin, AllOf;
      var w := Realised(cfg, u, r);
      SelectsAll(r, u);
      assert GrantsOf(w.journal.grants, u) == r;
    }
  }

  /** At the default limit and window, some run grants `n` restarts in ten seconds if and only if `n <= 7`. */
  lemma DefaultRateOfRuns(cfg: Config, u: Name, n: nat)
    requires Supervised(cfg, u)
    requires cfg.units[u].burstLimit == DEFAULT_BURST && cfg.units[u].burstInterval == DEFAULT_INTERVAL
    ensures ManyInRun(cfg, u, DEFAULT_INTERVAL * SECOND, n) <==> n <= 7
  {
    RatesAgree(cfg, u, DEFAULT_INTERVAL * SECOND, n);
    DefaultRate(n);
  }

  /** Under a limit of at least `n`, some run grants `n` restarts in a span if and only if `n - 1` delays fit in it. */
  lemma BackoffRateOfRuns(cfg: Config, u: Name, span: nat, n: nat)
    requires Supervised(cfg, u) && 1 <= n <= cfg.units[u].burstLimit
    ensures ManyInRun(cfg, u, span, n) <==> DelaySum(n - 1) * MILLISECOND <= span
  {
    RatesAgree(cfg, u, span, n);
    BackoffRateExact(cfg.units[u].burstLimit, cfg.units[u].burstInterval, span, n);
  }

  /** Some run grants twice the limit within one window if and only if the delays of that many restarts fit in it. */
  lemma RateLimitOfRuns(cfg: Config, u: Name)
    requires Supervised(cfg, u) && cfg.units[u].burstLimit >= 1 && cfg.units[u].burstInterval >= 0
    ensures var unit := cfg.units[u];
      ManyInRun(cfg, u, unit.burstInterval * SECOND, 2 * unit.burstLimit) <==>
        DelaySum(2 * unit.burstLimit - 1) * MILLISECOND <= unit.burstInterval * SECOND
  {
    hide ManyInRun, ManyWithin, DelaySum, Ordinary, CanRestart, StartWords, NoDuplicates;
    RatesAgree(cfg, u, cfg.units[u].burstInterval * SECOND, 2 * cfg.units[u].burstLimit);
    RateLimitAttained(cfg.units[u].burstLimit, cfg.units[u].burstInterval);
  }
}
