/**
 What holds of one ordinary unit in every reachable state: at most one
 instance, restart metadata handed over without loss, every grant passed by one
 limiter, and no restart before its due time.
 */
module Supervision {
  import opened UnitFiles
  import opened DependencyResolver
  import opened Processes
  import opened RestartLimiter
  import opened Machine
  import opened UnitViews
  import Consistency

  // ---------------------------------------------------------------- the invariant

  /** Tracked processes, queued restarts, restarts drained but not started, and boot starts to come. */
  function Held(v: View): nat
  {
    |v.procs| + |v.pending| + v.todo + v.ready
  }

  /** A live process carries the limiter's state, and its last restart was not early. */
  ghost predicate ProcsGood(unit: UnitFile, u: Name, v: View)
  {
    && (v.index.Some? <==> v.procs != map[])
    && (v.index.Some? ==> v.index.value in v.procs)
    && (v.procs != map[] ==> v.carried == None && NotBeforeDue(v.grants, v.now))
    && (forall p :: p in v.procs ==>
      && v.procs[p].unit == u
      && v.procs[p].meta == MetaAfter(v.grants)
      && v.procs[p].limit == unit.burstLimit
      && v.procs[p].interval == unit.burstInterval
      && (v.procs[p].policy == No || v.procs[p].policy == ParseRestartPolicy(unit.restart))
      && (v.muted ==> v.procs[p].policy == No))
  }

  /** A queued restart is the last grant; a drained one is due and its metadata is being carried. */
  ghost predicate QueueGood(u: Name, v: View)
  {
    && (v.pending != [] ==>
      && v.carried == None && v.grants != []
      && v.pending[0] == PendingRestart(u, v.grants[|v.grants| - 1].due, MetaAfter(v.grants)))
    && (v.ready > 0 ==> v.grants != [] && v.carried == Some(MetaAfter(v.grants)) && NotBeforeDue(v.grants, v.now))
    && (v.todo > 0 ==> v.grants == [] && v.carried == None)
  }

  /** Each grant leads to one restart, unless it is still queued; none is early. */
  ghost predicate RestartsGood(v: View)
  {
    && |v.restarts| + |v.pending| + v.ready == |v.grants|
    && (forall k :: 0 <= k < |v.restarts| ==> v.restarts[k].at >= v.grants[k].due)
  }

  /** A refusal is final, and was what the limiter's state called for. */
  ghost predicate RefusalsGood(unit: UnitFile, v: View)
  {
    v.refusals != [] ==>
      && Held(v) == 0 && |v.refusals| == 1
      && NotBeforeDue(v.grants, v.refusals[0].at)
      && CountExit(MetaAfter(v.grants), v.refusals[0].at, unit.burstInterval).burst > unit.burstLimit
  }

  ghost predicate Good(cfg: Config, u: Name, v: View)
    requires u in cfg.units
  {
    var unit := cfg.units[u];
    && Held(v) <= 1
    && v.now >= 0
    && Chain(v.grants, unit.burstLimit, unit.burstInterval)
    && ProcsGood(unit, u, v)
    && QueueGood(u, v)
    && RestartsGood(v)
    && RefusalsGood(unit, v)
    && (Held(v) > 0 ==> u in cfg.order)
    && (|v.procs| + |v.pending| + v.ready > 0 ==> unit.kind == Service)
  }

  // ---------------------------------------------------------------- one unit, one step

  lemma GoodLater(cfg: Config, u: Name, v: View, now: int)
    requires u in cfg.units && Good(cfg, u, v) && now >= v.now
    ensures Good(cfg, u, v.(now := now))
  {
    hide Chain, CountExit;
  }

  lemma AddProcess(m: map<int, TrackedProcess>, pid: int, tp: TrackedProcess)
    requires m == map[]
    ensures |m[pid := tp]| == 1 && m[pid := tp].Keys == {pid}
  {
  }

  /** The boot start of a service. */
  lemma GoodBoot(cfg: Config, u: Name, v: View, starts: bool, f: Fate)
    requires u in cfg.units && Good(cfg, u, v) && v.todo > 0 && !v.muted
    requires starts ==> cfg.units[u].kind == Service
    ensures var v' := if starts then LaunchView(v, u, cfg.units[u], f) else v;
      Good(cfg, u, v'.(todo := v.todo - 1))
  {
    hide Chain, CountExit, ParseRestartPolicy;
    assert v.procs == map[];
    if starts && Launches(cfg.units[u], f) {
      AddProcess(v.procs, f.pid, LaunchView(v, u, cfg.units[u], f).procs[f.pid]);
    }
  }

  /** A drained restart is started, or fails to start and leaves the unit down. */
  lemma GoodRestart(cfg: Config, u: Name, v: View, f: Fate)
    requires u in cfg.units && Good(cfg, u, v) && v.ready > 0 && !v.muted
    ensures var v' := v.(restarts := v.restarts + [RestartRecord(u, v.now)]);
      Good(cfg, u, LaunchView(v', u, cfg.units[u], f).(ready := v.ready - 1))
  {
    hide Chain, CountExit, ParseRestartPolicy;
    assert v.procs == map[];
    var n := |v.restarts|;
    assert n == |v.grants| - 1;
    if Launches(cfg.units[u], f) {
      AddProcess(v.procs, f.pid, LaunchView(v, u, cfg.units[u], f).procs[f.pid]);
    }
  }

  lemma OnlyProcess(v: View, pid: int)
    requires Held(v) <= 1 && pid in v.procs
    ensures v.procs.Keys == {pid} && v.procs - {pid} == map[]
    ensures v.pending == [] && v.todo == 0 && v.ready == 0
  {
    assert |v.procs.Keys - {pid}| == 0;
  }

  /** The unit once its only process is gone and nothing is queued. */
  function Emptied(v: View, at: int): View
  {
    v.(procs := map[], index := None, now := at)
  }

  /** What is known the moment the only process exits. */
  lemma AtExit(cfg: Config, u: Name, v: View, e: Exit)
    requires u in cfg.units && Good(cfg, u, v) && e.pid in v.procs && e.at >= v.now
    ensures var tp, unit := v.procs[e.pid], cfg.units[u];
      && tp.unit == u && tp.meta == MetaAfter(v.grants)
      && tp.limit == unit.burstLimit && tp.interval == unit.burstInterval
      && v.procs - {e.pid} == map[] && v.pending == [] && v.todo == 0 && v.ready == 0
      && v.refusals == [] && v.carried == None
      && NotBeforeDue(v.grants, e.at) && u in cfg.order && unit.kind == Service
      && Chain(v.grants, unit.burstLimit, unit.burstInterval) && RestartsGood(v) && Good(cfg, u, Emptied(v, e.at))
  {
    hide Chain, CountExit, ParseRestartPolicy;
    OnlyProcess(v, e.pid);
    assert |v.procs| == |v.procs.Keys| == 1;
  }

  lemma GoodRefused(cfg: Config, u: Name, v: View, at: int, meta: Meta)
    requires u in cfg.units && Good(cfg, u, v) && Held(v) == 0 && v.refusals == [] && NotBeforeDue(v.grants, at)
    requires CountExit(MetaAfter(v.grants), at, cfg.units[u].burstInterval).burst > cfg.units[u].burstLimit
    ensures Good(cfg, u, v.(refusals := [Refusal(u, at, meta)]))
  {
    hide Chain, CountExit, ParseRestartPolicy, MetaAfter;
  }

  lemma GoodGranted(cfg: Config, u: Name, v: View, x: Grant)
    requires u in cfg.units && Good(cfg, u, v) && Held(v) == 0 && v.refusals == [] && v.carried == None && x.unit == u
    requires u in cfg.order && cfg.units[u].kind == Service
    requires GrantedNext(v.grants, x, cfg.units[u].burstLimit, cfg.units[u].burstInterval)
    ensures Good(cfg, u, v.(grants := v.grants + [x], pending := [PendingRestart(u, x.due, x.meta)]))
  {
    ChainSnoc(v.grants, x, cfg.units[u].burstLimit, cfg.units[u].burstInterval);
    hide Chain, GrantedNext, ParseRestartPolicy;
    assert v.procs == map[];
  }

  lemma GoodExit(cfg: Config, u: Name, v: View, e: Exit)
    requires u in cfg.units && Good(cfg, u, v) && e.pid in v.procs && e.at >= v.now
    ensures Good(cfg, u, ExitView(v, e))
  {
    hide Good, Chain, CountExit, ShouldRestart, RestartsGood, MetaAfter;
    AtExit(cfg, u, v, e);
    var tp, down := v.procs[e.pid], Emptied(v, e.at);
    assert Held(down) == 0;
    match Judge(tp, e)
    case NoRestart =>
    case BurstExhausted =>
      GoodRefused(cfg, u, down, e.at, tp.meta);
      assert v.refusals + [Refusal(u, e.at, tp.meta)] == [Refusal(u, e.at, tp.meta)];
    case Restart(entry) =>
      GoodGranted(cfg, u, down, Grant(u, e.at, entry.due, entry.meta));
      assert v.pending + [entry] == [entry];
  }

  lemma DrainSingle(x: PendingRestart, c: Option<Meta>, at: int)
    ensures NotDue([x], at) == if at >= x.due then [] else [x]
    ensures Due([x], at) == if at >= x.due then [x.unit] else []
    ensures CarriedAfter(c, [x], at) == if at >= x.due then Some(x.meta) else c
  {
    DueSnoc([], x, at);
    assert [] + [x] == [x];
  }

  lemma GoodDue(cfg: Config, u: Name, v: View, at: int)
    requires u in cfg.units && Good(cfg, u, v) && at >= v.now && v.pending != [] && v.pending[0].due <= at
    ensures Good(cfg, u, v.(pending := [], ready := 1, carried := Some(v.pending[0].meta), now := at))
  {
    hide Chain, CountExit, ParseRestartPolicy;
  }

  lemma GoodDrain(cfg: Config, u: Name, v: View, at: int)
    requires u in cfg.units && Good(cfg, u, v) && at >= v.now && v.ready == 0
    ensures Good(cfg, u, DrainView(v, at))
  {
    HeldOnce(cfg, u, v);
    hide Good, Due, NotDue, CarriedAfter;
    if v.pending == [] {
      DrainNone(v.carried, at);
      GoodLater(cfg, u, v, at);
    } else {
      DrainSingle(v.pending[0], v.carried, at);
      assert v.pending == [v.pending[0]];
      if v.pending[0].due <= at {
        GoodDue(cfg, u, v, at);
      } else {
        GoodLater(cfg, u, v, at);
      }
    }
  }

  lemma HeldOnce(cfg: Config, u: Name, v: View)
    requires u in cfg.units && Good(cfg, u, v)
    ensures |v.pending| <= 1
  {
  }

  lemma DrainNone(c: Option<Meta>, at: int)
    ensures NotDue([], at) == [] && Due([], at) == [] && CarriedAfter(c, [], at) == c
  {
  }

  /** Replacing the only process changes no count. */
  lemma GoodReplaced(cfg: Config, u: Name, v: View, pid: int, tp: TrackedProcess, muted: bool)
    requires u in cfg.units && Good(cfg, u, v) && pid in v.procs && tp == v.procs[pid].(policy := No)
    ensures Good(cfg, u, v.(procs := v.procs[pid := tp], muted := muted))
  {
    hide Chain, CountExit, ParseRestartPolicy, NotBeforeDue, MetaAfter;
    OnlyProcess(v, pid);
    var procs := v.procs[pid := tp];
    assert procs.Keys == v.procs.Keys;
    assert |procs| == |v.procs|;
  }

  lemma GoodIdle(cfg: Config, u: Name, v: View, muted: bool)
    requires u in cfg.units && Good(cfg, u, v) && v.procs == map[]
    ensures v.index == None && Good(cfg, u, v.(muted := muted))
  {
    hide Chain, CountExit, ParseRestartPolicy, NotBeforeDue, MetaAfter;
  }

  lemma GoodStop(cfg: Config, u: Name, v: View, muted: bool)
    requires u in cfg.units && Good(cfg, u, v)
    ensures Good(cfg, u, StopView(v).(muted := muted))
  {
    if v.procs == map[] {
      GoodIdle(cfg, u, v, muted);
    } else {
      hide QueueGood, RestartsGood, RefusalsGood, Chain, Held;
      GoodReplaced(cfg, u, v, v.index.value, v.procs[v.index.value].(policy := No), muted);
    }
  }

  lemma GoodMute(cfg: Config, u: Name, v: View)
    requires u in cfg.units && Good(cfg, u, v) && u !in cfg.order
    ensures Good(cfg, u, v.(muted := true))
  {
    hide Chain, CountExit;
  }

  // ---------------------------------------------------------------- every step

  lemma BootView(cfg: Config, w: World, met: bool, f: Fate, u: Name)
    requires Enabled(cfg, w, BootUnit(met, f))
    ensures var name := w.phase.todo[0];
      var mid := if StartsAtBoot(cfg, name, met) then Launch(cfg, w, name, f) else w;
      ViewOf(Step(cfg, w, BootUnit(met, f)), u) ==
        ViewOf(mid, u).(todo := multiset(w.phase.todo)[u] - if name == u then 1 else 0)
  {
    hide Launch, ProcsOf, PendingOf, GrantsOf, RefusalsOf, RestartsOf, IsBareTemplate;
    LaunchKeepsPhase(cfg, w, w.phase.todo[0], f);
    CountFirst(w.phase.todo, u);
  }

  lemma BootStep(cfg: Config, w: World, met: bool, f: Fate, u: Name)
    requires u in cfg.units && Good(cfg, u, ViewOf(w, u)) && Consistency.IndexAgrees(w)
    requires Enabled(cfg, w, BootUnit(met, f))
    ensures Good(cfg, u, ViewOf(Step(cfg, w, BootUnit(met, f)), u))
  {
    hide Good, Step, Launch, LaunchView, ProcsOf, PendingOf, GrantsOf, RefusalsOf, RestartsOf, IsBareTemplate;
    var v, name := ViewOf(w, u), w.phase.todo[0];
    var starts := StartsAtBoot(cfg, name, met);
    BootView(cfg, w, met, f, u);
    if name == u {
      LaunchOwn(cfg, w, f, u);
      GoodBoot(cfg, u, v, starts, f);
    } else if starts {
      LaunchOther(cfg, w, name, f, u);
    }
  }

  lemma LaunchKeepsPhase(cfg: Config, w: World, name: Name, f: Fate)
    ensures name in cfg.units ==> Launch(cfg, w, name, f).phase == w.phase
  {
  }

  lemma NotedView(w: World, name: Name, u: Name)
    ensures ViewOf(WithRestart(w, name), u) == if name == u
      then ViewOf(w, u).(restarts := ViewOf(w, u).restarts + [RestartRecord(u, w.now)]) else ViewOf(w, u)
  {
    hide Select, ProcsOf, Muted;
    SelectSnoc(w.journal.restarts, RestartRecord(name, w.now), UnitOfRestart, u);
  }

  lemma RestartView(cfg: Config, w: World, f: Fate, u: Name)
    requires Enabled(cfg, w, RestartUnit(f))
    ensures var name := w.phase.ready[0];
      var mid := if Restartable(cfg, name) then Launch(cfg, WithRestart(w, name), name, f) else w;
      ViewOf(Step(cfg, w, RestartUnit(f)), u) ==
        ViewOf(mid, u).(ready := multiset(w.phase.ready)[u] - if name == u then 1 else 0)
  {
    hide Launch, ProcsOf, PendingOf, GrantsOf, RefusalsOf, RestartsOf;
    var name := w.phase.ready[0];
    LaunchKeepsPhase(cfg, WithRestart(w, name), name, f);
    CountFirst(w.phase.ready, u);
  }

  lemma RestartStep(cfg: Config, w: World, f: Fate, u: Name)
    requires u in cfg.units && Good(cfg, u, ViewOf(w, u)) && Consistency.IndexAgrees(w)
    requires Enabled(cfg, w, RestartUnit(f))
    ensures Good(cfg, u, ViewOf(Step(cfg, w, RestartUnit(f)), u))
  {
    hide Good, Step, Launch, LaunchView, ProcsOf, PendingOf, GrantsOf, RefusalsOf, RestartsOf;
    var v, name := ViewOf(w, u), w.phase.ready[0];
    RestartView(cfg, w, f, u);
    NotedView(w, name, u);
    if name == u {
      ReadyIsService(cfg, u, v);
      LaunchOwn(cfg, WithRestart(w, u), f, u);
      GoodRestart(cfg, u, v, f);
    } else if Restartable(cfg, name) {
      LaunchOther(cfg, WithRestart(w, name), name, f, u);
    }
  }

  lemma ReadyIsService(cfg: Config, u: Name, v: View)
    requires u in cfg.units && Good(cfg, u, v) && v.ready > 0
    ensures Restartable(cfg, u)
  {
    hide Chain, ProcsGood, QueueGood, RestartsGood, RefusalsGood;
  }

  lemma ExitStep(cfg: Config, w: World, e: Exit, u: Name)
    requires u in cfg.units && Good(cfg, u, ViewOf(w, u)) && e.at >= w.now
    ensures Good(cfg, u, ViewOf(ReapChild(w, e), u))
  {
    if e.pid in w.tables.processes && w.tables.processes[e.pid].unit == u {
      ExitOwn(w, e, u);
      GoodExit(cfg, u, ViewOf(w, u), e);
    } else {
      ExitOther(w, e, u);
      GoodLater(cfg, u, ViewOf(w, u), e.at);
    }
  }

  lemma StopNextView(cfg: Config, w: World, u: Name)
    requires Enabled(cfg, w, StopNext)
    ensures ViewOf(Step(cfg, w, StopNext), u) ==
      ViewOf(Stop(w, Last(w.phase.todo)), u).(todo := 0, ready := 0, muted := u !in Front(w.phase.todo))
  {
    hide StopUnit, ProcsOf, PendingOf, GrantsOf, RefusalsOf, RestartsOf;
  }

  lemma StopStep(cfg: Config, w: World, u: Name)
    requires u in cfg.units && Good(cfg, u, ViewOf(w, u)) && Consistency.IndexAgrees(w)
    requires Enabled(cfg, w, StopNext)
    ensures Good(cfg, u, ViewOf(Step(cfg, w, StopNext), u))
  {
    hide Good, Step, Stop, StopUnit, ProcsOf, PendingOf, GrantsOf, RefusalsOf, RestartsOf;
    var v, name := ViewOf(w, u), Last(w.phase.todo);
    assert w.phase.todo == Front(w.phase.todo) + [name];
    StopNextView(cfg, w, u);
    if name == u {
      StopOwn(w, u);
      GoodStop(cfg, u, v, u !in Front(w.phase.todo));
    } else {
      StopOther(w, name, u);
    }
  }

  lemma DrainStep(cfg: Config, w: World, at: int, u: Name)
    requires u in cfg.units && Good(cfg, u, ViewOf(w, u))
    requires Enabled(cfg, w, Drain(at))
    ensures Good(cfg, u, ViewOf(Step(cfg, w, Drain(at)), u))
  {
    DrainAny(cfg, w, at, u);
    GoodDrain(cfg, u, ViewOf(w, u), at);
  }

  lemma EndTurnStep(cfg: Config, w: World, quit: bool, u: Name)
    requires u in cfg.units && Good(cfg, u, ViewOf(w, u))
    requires Enabled(cfg, w, EndTurn(quit))
    ensures Good(cfg, u, ViewOf(Step(cfg, w, EndTurn(quit)), u))
  {
    var v := ViewOf(w, u);
    if (w.requested || quit) && u !in cfg.order {
      GoodMute(cfg, u, v);
    }
    hide Good, ProcsOf, PendingOf, GrantsOf, RefusalsOf, RestartsOf;
    assert ViewOf(Step(cfg, w, EndTurn(quit)), u) == v.(muted := (w.requested || quit) && u !in cfg.order);
  }

  /** The remaining inputs do not touch what is known about a unit. */
  lemma QuietStep(cfg: Config, w: World, i: Input, u: Name)
    requires Enabled(cfg, w, i)
    requires i.EndBoot? || i.RequestShutdown? || i.EndStops? || i.PollAgain? || i.EndWait? || i.KillOne? ||
      i.EndKills? || i.Halt?
    ensures ViewOf(Step(cfg, w, i), u) == ViewOf(w, u)
  {
    hide ProcsOf, PendingOf, GrantsOf, RefusalsOf, RestartsOf;
  }

  lemma StepKeepsGood(cfg: Config, w: World, i: Input, u: Name)
    requires u in cfg.units && Ordinary(cfg, u)
    requires Consistency.IndexAgrees(w) && Enabled(cfg, w, i) && Good(cfg, u, ViewOf(w, u))
    ensures Good(cfg, u, ViewOf(Step(cfg, w, i), u))
  {
    hide Good, ViewOf;
    match i
    case BootUnit(met, f) => BootStep(cfg, w, met, f, u);
    case RestartUnit(f) => RestartStep(cfg, w, f, u);
    case ChildExit(e) => ExitStep(cfg, w, e, u);
    case Connection(k, accepted, pid) => AcceptOther(cfg, w, k, accepted, pid, u);
    case Drain(at) => DrainStep(cfg, w, at, u);
    case StopNext => StopStep(cfg, w, u);
    case EndTurn(quit) => EndTurnStep(cfg, w, quit, u);
    case _ => QuietStep(cfg, w, i, u);
  }

  // ---------------------------------------------------------------- every run

  lemma InitiallyGood(cfg: Config, start: int, u: Name)
    requires u in cfg.units && start >= 0 && NoDuplicates(cfg.order)
    ensures Good(cfg, u, ViewOf(Initial(cfg, start), u))
  {
    CountOfMember(cfg.order, u);
  }

  /** The unit invariant holds after every run that boots with a duplicate-free order, such as a resolved one. */
  lemma {:induction false} AlwaysGood(cfg: Config, start: int, inputs: seq<Input>, u: Name)
    requires NoDuplicates(cfg.order) && start >= 0
    requires Feasible(cfg, Initial(cfg, start), inputs)
    requires u in cfg.units && Ordinary(cfg, u)
    ensures Good(cfg, u, ViewOf(Exec(cfg, Initial(cfg, start), inputs), u))
  {
    if inputs == [] {
      InitiallyGood(cfg, start, u);
    } else {
      hide Step, Enabled, Good, ViewOf, Ordinary, Consistency.IndexAgrees, Consistency.LedgerAgrees;
      var front := inputs[..|inputs| - 1];
      AlwaysGood(cfg, start, front, u);
      Consistency.AlwaysConsistent(cfg, start, front);
      StepKeepsGood(cfg, Exec(cfg, Initial(cfg, start), front), inputs[|inputs| - 1], u);
    }
  }
}
