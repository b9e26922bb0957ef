/**
 Units of which many instances run, as Accept=yes connections make them: the
 index holds one process per unit name, so which instance can be stopped by
 name depends on the order of starts and exits.
 */
module Instances {
  import opened UnitFiles
  import opened DependencyResolver
  import opened Processes
  import opened Machine
  import opened RunTheorems
  import opened Shutdown

  datatype Life = Born(unit: Name, pid: int) | Gone(unit: Name, pid: int)

  /** The process that a step starts or buries, if any. */
  function LifeOf(cfg: Config, w: World, i: Input): seq<Life>
    requires Enabled(cfg, w, i)
  {
    match i
    case BootUnit(met, f) =>
      var name := w.phase.todo[0];
      if StartsAtBoot(cfg, name, met) && Launches(cfg.units[name], f) then [Born(name, f.pid)] else []
    case RestartUnit(f) =>
      var name := w.phase.ready[0];
      if Restartable(cfg, name) && Launches(cfg.units[name], f) then [Born(name, f.pid)] else []
    case Connection(k, accepted, pid) =>
      if Serves(cfg, w.tables, k, accepted, pid) then [Born(ResolvePair(cfg.units, k, cfg.sockets[k]), pid)] else []
    case ChildExit(e) =>
      if e.pid in w.tables.processes then [Gone(w.tables.processes[e.pid].unit, e.pid)] else []
    case _ => []
  }

  /** All starts and exits of a run, in order. */
  function History(cfg: Config, w: World, inputs: seq<Input>): seq<Life>
    requires Feasible(cfg, w, inputs)
  {
    if inputs == [] then []
    else
      var front := inputs[..|inputs| - 1];
      History(cfg, w, front) + LifeOf(cfg, Exec(cfg, w, front), inputs[|inputs| - 1])
  }

  /** Process `p` was the last of the unit's to start, and none of the unit's processes has gone since. */
  ghost predicate LastBorn(h: seq<Life>, u: Name, p: int)
  {
    exists k :: 0 <= k < |h| && h[k] == Born(u, p) && forall j :: k < j < |h| ==> h[j].unit != u
  }

  ghost predicate IndexTells(index: map<Name, int>, h: seq<Life>)
  {
    forall u, p :: (u in index && index[u] == p) <==> LastBorn(h, u, p)
  }

  // ---------------------------------------------------------------- the index follows the history

  function IndexAfter(index: map<Name, int>, x: Life): map<Name, int>
  {
    match x
    case Born(u, p) => index[u := p]
    case Gone(u, _) => index - {u}
  }

  lemma LastBornSnoc(h: seq<Life>, x: Life, u: Name, p: int)
    ensures LastBorn(h + [x], u, p) <==> if x.unit == u then x == Born(u, p) else LastBorn(h, u, p)
  {
    var more := h + [x];
    assert more[|h|] == x;
    if x.unit != u && LastBorn(h, u, p) {
      var k :| 0 <= k < |h| && h[k] == Born(u, p) && forall j :: k < j < |h| ==> h[j].unit != u;
      assert more[k] == Born(u, p);
    }
    if x.unit != u && LastBorn(more, u, p) {
      var k :| 0 <= k < |more| && more[k] == Born(u, p) && forall j :: k < j < |more| ==> more[j].unit != u;
      assert h[k] == Born(u, p);
      assert forall j :: k < j < |h| ==> h[j] == more[j];
    }
  }

  lemma IndexTellsSnoc(index: map<Name, int>, h: seq<Life>, x: Life)
    requires IndexTells(index, h)
    ensures IndexTells(IndexAfter(index, x), h + [x])
  {
    hide LastBorn;
    var index' := IndexAfter(index, x);
    forall u, p
      ensures (u in index' && index'[u] == p) <==> LastBorn(h + [x], u, p)
    {
      LastBornSnoc(h, x, u, p);
      assert (u in index && index[u] == p) <==> LastBorn(h, u, p);
    }
  }

  lemma LaunchIndex(cfg: Config, w: World, name: Name, f: Fate)
    requires name in cfg.units
    ensures Launch(cfg, w, name, f).tables.unitToPid ==
      if Launches(cfg.units[name], f) then w.tables.unitToPid[name := f.pid] else w.tables.unitToPid
  {
    hide Launches, ParseRestartPolicy;
  }

  lemma StepIndex(cfg: Config, w: World, i: Input)
    requires Enabled(cfg, w, i)
    ensures var x := LifeOf(cfg, w, i);
      && |x| <= 1
      && Step(cfg, w, i).tables.unitToPid ==
        if x == [] then w.tables.unitToPid else IndexAfter(w.tables.unitToPid, x[0])
  {
    hide Launch, Launches, AcceptWords, ResolvePair, IsBareTemplate, Judge, Due, NotDue, CarryDue;
    match i
    case BootUnit(met, f) =>
      if StartsAtBoot(cfg, w.phase.todo[0], met) {
        LaunchIndex(cfg, w, w.phase.todo[0], f);
      }
    case RestartUnit(f) =>
      var name := w.phase.ready[0];
      if Restartable(cfg, name) {
        LaunchIndex(cfg, WithRestart(w, name), name, f);
      }
    case _ =>
  }

  /**
   In every run: a unit's name leads to a process if and only if that process
   started last of the unit's and none of them has gone since.
   */
  lemma {:induction false} IndexExact(cfg: Config, start: int, inputs: seq<Input>)
    requires Feasible(cfg, Initial(cfg, start), inputs)
    ensures var w := Initial(cfg, start);
      IndexTells(Exec(cfg, w, inputs).tables.unitToPid, History(cfg, w, inputs))
  {
    var w := Initial(cfg, start);
    if inputs != [] {
      hide Step, Enabled, LifeOf, IndexTells;
      var front, i := inputs[..|inputs| - 1], inputs[|inputs| - 1];
      IndexExact(cfg, start, front);
      var mid := Exec(cfg, w, front);
      var x := LifeOf(cfg, mid, i);
      StepIndex(cfg, mid, i);
      if x == [] {
        assert History(cfg, w, front) + x == History(cfg, w, front);
      } else {
        assert x == [x[0]];
        IndexTellsSnoc(mid.tables.unitToPid, History(cfg, w, front), x[0]);
      }
    }
  }

  // ---------------------------------------------------------------- who is stopped

  lemma {:induction false} TermsExact(index: map<Name, int>, names: seq<Name>, u: Name, p: int)
    ensures Term(u, p) in Terms(index, names) <==> u in names && u in index && index[u] == p
  {
    if names != [] {
      TermsExact(index, names[1..], u, p);
      assert u in names <==> u == names[0] || u in names[1..];
    }
  }

  /**
   Of all processes of a unit, ordinary or not, shutdown sends SIGTERM to the
   one that started last, and only if none of them has gone since.
   */
  lemma SignalledExactly(cfg: Config, start: int, inputs: seq<Input>, u: Name, p: int)
    requires Feasible(cfg, Initial(cfg, start), inputs)
    requires Exec(cfg, Initial(cfg, start), inputs).phase == ShuttingDown(cfg.order)
    ensures Term(u, p) in StopSignals(Exec(cfg, Initial(cfg, start), inputs)) <==>
      u in cfg.order && LastBorn(History(cfg, Initial(cfg, start), inputs), u, p)
  {
    hide Exec, Feasible, History, LastBorn, Terms, Initial;
    IndexExact(cfg, start, inputs);
    TermsExact(Exec(cfg, Initial(cfg, start), inputs).tables.unitToPid, cfg.order, u, p);
  }

  // ---------------------------------------------------------------- an instance that is missed

  /** An Accept=yes socket with room for two connections and a service that can be started. */
  ghost predicate Busy(cfg: Config, k: Name)
  {
    && k in cfg.sockets && cfg.sockets[k].accept && (cfg.sockets[k].maxConn <= 0 || cfg.sockets[k].maxConn >= 2)
    && var svc := ResolvePair(cfg.units, k, cfg.sockets[k]);
      svc in cfg.units && cfg.units[svc].execStart != "" && AcceptWords(cfg.units[svc]) != []
  }

  lemma {:induction false} BootNobody(cfg: Config, n: nat)
    requires NoDuplicates(cfg.order) && n <= |cfg.order|
    ensures Reachable(cfg, Initial(cfg, 0).(phase := Booting(cfg.order[n..])))
  {
    if n == 0 {
      ReachableInitially(cfg);
      assert cfg.order[0..] == cfg.order;
    } else {
      hide Reachable;
      BootNobody(cfg, n - 1);
      var w := Initial(cfg, 0).(phase := Booting(cfg.order[n - 1..]));
      var i := BootUnit(false, Fate(false, 0));
      ReachableStep(cfg, w, i);
      assert cfg.order[n - 1..][1..] == cfg.order[n..];
    }
  }

  lemma Polled(cfg: Config)
    requires NoDuplicates(cfg.order)
    ensures Reachable(cfg, Initial(cfg, 0).(phase := Polling))
  {
    hide Reachable;
    BootNobody(cfg, |cfg.order|);
    var w := Initial(cfg, 0).(phase := Booting(cfg.order[|cfg.order|..]));
    assert cfg.order[|cfg.order|..] == [];
    ReachableStep(cfg, w, EndBoot);
  }

  lemma TwoConnections(cfg: Config, k: Name) returns (w: World)
    requires Busy(cfg, k) && NoDuplicates(cfg.order)
    ensures Reachable(cfg, w) && w.phase == Polling && w.now == 0 && w.tables.pending == []
    ensures w.tables.processes.Keys == {2, 3}
    ensures forall p :: p in w.tables.processes ==>
      w.tables.processes[p].unit == ResolvePair(cfg.units, k, cfg.sockets[k]) && w.tables.processes[p].policy == No
  {
    hide Reachable, ResolvePair, AcceptWords;
    Polled(cfg);
    var first := Initial(cfg, 0).(phase := Polling);
    ReachableStep(cfg, first, Connection(k, true, 2));
    var second := Step(cfg, first, Connection(k, true, 2));
    ReachableStep(cfg, second, Connection(k, true, 3));
    w := Step(cfg, second, Connection(k, true, 3));
  }

  /** Shutdown begins right after one of two instances has been reaped. */
  lemma ReapedThenShutDown(cfg: Config, w: World, u: Name) returns (w': World)
    requires Reachable(cfg, w) && w.phase == Polling && w.now == 0 && w.tables.pending == []
    requires {2, 3} <= w.tables.processes.Keys && w.tables.processes[3].policy == No && w.tables.processes[3].unit == u
    ensures Reachable(cfg, w') && w'.phase == ShuttingDown(cfg.order)
    ensures 2 in w'.tables.processes && w'.tables.processes[2] == w.tables.processes[2] && u !in w'.tables.unitToPid
  {
    hide Reachable;
    var e := Exit(3, 0, false, 0);
    ReachableStep(cfg, w, ChildExit(e));
    var reaped := Step(cfg, w, ChildExit(e));
    assert reaped.tables.pending == [];
    ReachableStep(cfg, reaped, Drain(0));
    var drained := Step(cfg, reaped, Drain(0));
    ReachableStep(cfg, drained, EndTurn(true));
    w' := Step(cfg, drained, EndTurn(true));
  }

  /** With any such socket, some run begins shutdown with a live instance whose unit gets no SIGTERM at all. */
  lemma InstanceMissed(cfg: Config, k: Name) returns (w: World)
    requires Busy(cfg, k) && NoDuplicates(cfg.order)
    ensures var u := ResolvePair(cfg.units, k, cfg.sockets[k]);
      && Reachable(cfg, w) && w.phase == ShuttingDown(cfg.order)
      && 2 in w.tables.processes && w.tables.processes[2].unit == u
      && forall p :: Term(u, p) !in StopSignals(w)
  {
    hide Reachable, ResolvePair, AcceptWords, Terms;
    var u := ResolvePair(cfg.units, k, cfg.sockets[k]);
    var both := TwoConnections(cfg, k);
    assert 2 in both.tables.processes && 3 in both.tables.processes;
    w := ReapedThenShutDown(cfg, both, u);
    forall p
      ensures Term(u, p) !in StopSignals(w)
    {
      TermsExact(w.tables.unitToPid, cfg.order, u, p);
    }
  }
}
