/** The stop loop and what follows it. */
module Shutdown {
  import opened UnitFiles
  import opened DependencyResolver
  import opened Processes
  import opened Machine
  import opened UnitViews
  import opened Supervision
  import opened RunTheorems

  // ---------------------------------------------------------------- the stop loop

  function Stops(n: nat): seq<Input>
  {
    if n == 0 then [] else Stops(n - 1) + [StopNext]
  }

  /** The signals that stopping `names` from the last to the first sends. */
  function Terms(index: map<Name, int>, names: seq<Name>): seq<Signal>
  {
    if names == [] then []
    else Terms(index, names[1..]) + if names[0] in index then [Term(names[0], index[names[0]])] else []
  }

  /** The stop loop visits the units from last to first and leaves the index alone. */
  lemma {:induction false} StopLoop(cfg: Config, w: World, n: nat)
    requires w.phase.ShuttingDown? && n <= |w.phase.todo|
    ensures Feasible(cfg, w, Stops(n)) && |Stops(n)| == n
    ensures var w', rest := Exec(cfg, w, Stops(n)), |w.phase.todo| - n;
      && w'.phase == ShuttingDown(w.phase.todo[..rest])
      && w'.tables.unitToPid == w.tables.unitToPid
      && w'.journal.signals == w.journal.signals + Terms(w.tables.unitToPid, w.phase.todo[rest..])
  {
    hide Exec, Feasible, Step, Enabled, Terms;
    var todo := w.phase.todo;
    var rest := |todo| - n;
    if n == 0 {
      StopNobody(cfg, w);
      assert todo[..rest] == todo && todo[rest..] == [];
    } else {
      StopLoop(cfg, w, n - 1);
      StopOnce(cfg, Exec(cfg, w, Stops(n - 1)));
      ExecSnoc(cfg, w, Stops(n - 1), StopNext);
      assert todo[..rest + 1][..rest] == todo[..rest];
      assert todo[rest..] == [todo[rest]] + todo[rest + 1..];
      TermsCons(w.tables.unitToPid, w.journal.signals, todo[rest], todo[rest + 1..]);
    }
  }

  lemma StopNobody(cfg: Config, w: World)
    ensures Feasible(cfg, w, Stops(0)) && Exec(cfg, w, Stops(0)) == w
    ensures w.journal.signals + Terms(w.tables.unitToPid, []) == w.journal.signals
  {
  }

  lemma StopOnce(cfg: Config, w: World)
    requires w.phase.ShuttingDown? && w.phase.todo != []
    ensures Enabled(cfg, w, StopNext)
    ensures var w', name := Step(cfg, w, StopNext), Last(w.phase.todo);
      && w'.phase == ShuttingDown(Front(w.phase.todo))
      && w'.tables.unitToPid == w.tables.unitToPid
      && w'.journal.signals == if name in w.tables.unitToPid
        then w.journal.signals + [Term(name, w.tables.unitToPid[name])] else w.journal.signals
  {
  }

  lemma TermsCons(index: map<Name, int>, sent: seq<Signal>, n: Name, later: seq<Name>)
    ensures sent + Terms(index, [n] + later) ==
      if n in index then sent + Terms(index, later) + [Term(n, index[n])] else sent + Terms(index, later)
  {
    assert ([n] + later)[1..] == later;
    var tail := if n in index then [Term(n, index[n])] else [];
    assert sent + (Terms(index, later) + tail) == sent + Terms(index, later) + tail;
    assert sent + Terms(index, later) + [] == sent + Terms(index, later);
  }

  // ---------------------------------------------------------------- who is signalled, and when

  /** How many SIGTERMs the unit gets. */
  function TermCount(s: seq<Signal>, u: Name): nat
  {
    if s == [] then 0
    else TermCount(s[..|s| - 1], u) + if s[|s| - 1].Term? && s[|s| - 1].unit == u then 1 else 0
  }

  lemma {:induction false} TermsCount(index: map<Name, int>, names: seq<Name>, u: Name)
    requires NoDuplicates(names)
    ensures TermCount(Terms(index, names), u) == if u in names && u in index then 1 else 0
  {
    if names != [] {
      var n, later := names[0], Terms(index, names[1..]);
      TermsCount(index, names[1..], u);
      assert u in names <==> u == n || u in names[1..];
      if n in index {
        assert (later + [Term(n, index[n])])[..|later|] == later;
      } else {
        assert later + [] == later;
      }
    }
  }

  /** The signal for `names[i]` is sent, and after those for the names that follow it. */
  lemma {:induction false} TermPlace(index: map<Name, int>, names: seq<Name>, i: nat) returns (k: nat)
    requires i < |names| && names[i] in index
    ensures |Terms(index, names[i + 1..])| == k < |Terms(index, names)|
    ensures Terms(index, names)[k] == Term(names[i], index[names[i]])
  {
    var later := Terms(index, names[1..]);
    k := |Terms(index, names[i + 1..])|;
    if i > 0 {
      assert names[1..][i - 1] == names[i] && names[1..][i..] == names[i + 1..];
      var j := TermPlace(index, names[1..], i - 1);
      assert Terms(index, names)[k] == later[k];
    }
  }

  /** Positions in the stop loop's signals are the reverse of positions in the order. */
  lemma TermsReverse(index: map<Name, int>, names: seq<Name>, a: nat, b: nat) returns (i: nat, j: nat)
    requires a < b < |names| && names[a] in index && names[b] in index
    ensures i < j < |Terms(index, names)|
    ensures Terms(index, names)[i] == Term(names[b], index[names[b]])
    ensures Terms(index, names)[j] == Term(names[a], index[names[a]])
  {
    i := TermPlace(index, names, b);
    j := TermPlace(index, names, a);
    var later := names[a + 1..];
    assert later[b - a - 1] == names[b] && later[b - a..] == names[b + 1..];
    var k := TermPlace(index, later, b - a - 1);
  }

  ghost predicate SentBefore(s: seq<Signal>, first: Signal, second: Signal)
  {
    exists i, j :: 0 <= i < j < |s| && s[i] == first && s[j] == second
  }

  /** The signals of the stop loop that starts in `w`. */
  function StopSignals(w: World): seq<Signal>
    requires w.phase.ShuttingDown?
  {
    Terms(w.tables.unitToPid, w.phase.todo)
  }

  /** The whole loop, from the start of shutdown to the first wait. */
  lemma WholeStopLoop(cfg: Config, w: World)
    requires w.phase == ShuttingDown(cfg.order)
    ensures var n := |cfg.order|;
      && Feasible(cfg, w, Stops(n))
      && Exec(cfg, w, Stops(n)).phase == ShuttingDown([])
      && Exec(cfg, w, Stops(n)).journal.signals == w.journal.signals + StopSignals(w)
  {
    var n := |cfg.order|;
    StopLoop(cfg, w, n);
    assert cfg.order[..0] == [] && cfg.order[0..] == cfg.order;
  }

  lemma LiveInOrder(cfg: Config, w: World, u: Name, p: int)
    requires Reachable(cfg, w) && OrdinaryUnit(cfg, u) && p in w.tables.processes && w.tables.processes[p].unit == u
    ensures u in cfg.order && u in w.tables.unitToPid && w.tables.unitToPid[u] == p
  {
    LiveIsIndexed(cfg, w, p);
    ReachableIsGood(cfg, w, u);
    var v := ViewOf(w, u);
    assert p in v.procs;
    OnlyProcess(v, p);
    hide Reachable, Good, ViewOf;
    HeldInOrder(cfg, u, v, p);
  }

  lemma HeldInOrder(cfg: Config, u: Name, v: View, p: int)
    requires u in cfg.units && Good(cfg, u, v) && p in v.procs
    ensures u in cfg.order
  {
    assert |v.procs.Keys| > 0;
  }

  /** Each live ordinary unit gets exactly one SIGTERM from the stop loop, sent to its process. */
  lemma OneTermEach(cfg: Config, w: World, u: Name, p: int)
    requires Reachable(cfg, w) && w.phase == ShuttingDown(cfg.order)
    requires OrdinaryUnit(cfg, u) && p in w.tables.processes && w.tables.processes[p].unit == u
    ensures TermCount(StopSignals(w), u) == 1 && Term(u, p) in StopSignals(w)
  {
    LiveInOrder(cfg, w, u, p);
    var index := w.tables.unitToPid;
    TermsCount(index, cfg.order, u);
    var i :| 0 <= i < |cfg.order| && cfg.order[i] == u;
    var k := TermPlace(index, cfg.order, i);
  }

  /** A dependent is signalled before every live unit it depends on. */
  lemma DependentsStopFirst(cfg: Config, w: World, u: Name, p: int, d: Name, q: int)
    requires Reachable(cfg, w) && Sound(cfg.units, cfg.order) && w.phase == ShuttingDown(cfg.order)
    requires DependsOn(cfg.units, u, d)
    requires OrdinaryUnit(cfg, u) && p in w.tables.processes && w.tables.processes[p].unit == u
    requires OrdinaryUnit(cfg, d) && q in w.tables.processes && w.tables.processes[q].unit == d
    ensures SentBefore(StopSignals(w), Term(u, p), Term(d, q))
  {
    LiveInOrder(cfg, w, u, p);
    LiveInOrder(cfg, w, d, q);
    var b :| 0 <= b < |cfg.order| && cfg.order[b] == u;
    assert d in cfg.order[..b];
    var a :| 0 <= a < b && cfg.order[a] == d;
    var i, j := TermsReverse(w.tables.unitToPid, cfg.order, a, b);
  }

  // ---------------------------------------------------------------- afterwards

  predicate InShutdown(p: Phase)
  {
    p.ShuttingDown? || p.Waiting? || p.Killing? || p.LastPoll? || p.Halted?
  }

  /** Nothing is spawned, processes only disappear, and the unit's restart queue does not move. */
  ghost predicate WindsDown(w: World, w': World, u: Name)
  {
    && InShutdown(w'.phase)
    && w'.journal.spawns == w.journal.spawns
    && w'.tables.processes.Keys <= w.tables.processes.Keys
    && PendingOf(w'.tables.pending, u) == PendingOf(w.tables.pending, u)
  }

  lemma ExitWindsDown(cfg: Config, w: World, e: Exit, u: Name)
    requires u in cfg.units && Good(cfg, u, ViewOf(w, u)) && InShutdown(w.phase) && Reaping(w.phase)
    ensures WindsDown(w, ReapChild(w, e), u)
  {
    var t := w.tables;
    if e.pid in t.processes {
      var tp := t.processes[e.pid];
      if tp.unit == u {
        assert e.pid in ViewOf(w, u).procs && ViewOf(w, u).procs[e.pid] == tp;
        assert tp.policy == No;
      }
      RequeueViews(t.pending, tp, e, u);
      hide PendingOf, Requeue, Good;
    }
  }

  lemma StepWindsDown(cfg: Config, w: World, i: Input, u: Name)
    requires u in cfg.units && Good(cfg, u, ViewOf(w, u)) && InShutdown(w.phase) && Enabled(cfg, w, i)
    ensures WindsDown(w, Step(cfg, w, i), u)
  {
    if i.ChildExit? {
      ExitWindsDown(cfg, w, i.exit, u);
    }
    hide PendingOf, Good, ViewOf, ReapChild;
  }

  lemma {:induction false} ExecConcat(cfg: Config, w: World, a: seq<Input>, b: seq<Input>)
    requires Feasible(cfg, w, a) && Feasible(cfg, Exec(cfg, w, a), b)
    ensures Feasible(cfg, w, a + b) && Exec(cfg, w, a + b) == Exec(cfg, Exec(cfg, w, a), b)
  {
    hide Step, Enabled;
    if b == [] {
      assert a + b == a;
    } else {
      var front := b[..|b| - 1];
      ExecConcat(cfg, w, a, front);
      ExecSnoc(cfg, w, a + front, b[|b| - 1]);
      assert a + b == a + front + [b[|b| - 1]];
    }
  }

  lemma ReachableExtends(cfg: Config, w: World, more: seq<Input>)
    requires Reachable(cfg, w) && Feasible(cfg, w, more)
    ensures Reachable(cfg, Exec(cfg, w, more))
  {
    hide Exec, Feasible;
    var start: nat, inputs :| Feasible(cfg, Initial(cfg, start), inputs) && w == Exec(cfg, Initial(cfg, start), inputs);
    ExecConcat(cfg, Initial(cfg, start), inputs, more);
  }

  ghost predicate OnlyKillsFrom(s: seq<Signal>, n: nat)
  {
    forall k :: n <= k < |s| ==> s[k].Kill?
  }

  /**
   `w'` is still in the stop loop that began in `w`, or past it: all its signals
   are sent, and nothing but SIGKILL was sent after them.
   */
  ghost predicate LoopOrPast(cfg: Config, w: World, w': World, steps: seq<Input>)
    requires w.phase.ShuttingDown?
  {
    || (|steps| <= |cfg.order| && steps == Stops(|steps|))
    || (&& InShutdown(w'.phase) && !w'.phase.ShuttingDown?
        && w.journal.signals + StopSignals(w) <= w'.journal.signals
        && OnlyKillsFrom(w'.journal.signals, |w.journal.signals| + |StopSignals(w)|))
  }

  /** After the stop loop a step sends SIGKILL or nothing. */
  lemma LateStep(cfg: Config, w: World, i: Input)
    requires Enabled(cfg, w, i) && InShutdown(w.phase) && (w.phase.ShuttingDown? ==> w.phase.todo == [])
    ensures var w' := Step(cfg, w, i);
      && InShutdown(w'.phase) && !w'.phase.ShuttingDown?
      && (w'.journal.signals == w.journal.signals ||
        (i.KillOne? && w'.journal.signals == w.journal.signals + [Kill(i.victim)]))
  {
    hide Reap, Judge, ActiveCount;
  }

  lemma LoopOrPastStep(cfg: Config, w: World, front: seq<Input>, i: Input)
    requires w.phase == ShuttingDown(cfg.order) && Feasible(cfg, w, front + [i]) && Feasible(cfg, w, front)
    requires Enabled(cfg, Exec(cfg, w, front), i) && Exec(cfg, w, front + [i]) == Step(cfg, Exec(cfg, w, front), i)
    requires LoopOrPast(cfg, w, Exec(cfg, w, front), front)
    ensures LoopOrPast(cfg, w, Exec(cfg, w, front + [i]), front + [i])
  {
    hide Exec, Feasible, Terms, Step;
    var mid := Exec(cfg, w, front);
    if |front| <= |cfg.order| && front == Stops(|front|) {
      StopLoop(cfg, w, |front|);
      if |front| < |cfg.order| {
        assert mid.phase.todo != [];
        assert i == StopNext;
      } else {
        WholeStopLoop(cfg, w);
        assert mid.phase == ShuttingDown([]);
        LateStep(cfg, mid, i);
      }
    } else {
      LateStep(cfg, mid, i);
    }
  }

  /** Every run of shutdown goes through the whole stop loop before anything else. */
  lemma {:induction false} ShutdownRunsStopLoop(cfg: Config, w: World, more: seq<Input>)
    requires w.phase == ShuttingDown(cfg.order) && Feasible(cfg, w, more)
    ensures LoopOrPast(cfg, w, Exec(cfg, w, more), more)
  {
    hide Step, Enabled, StopSignals;
    if more != [] {
      var front, i := more[..|more| - 1], more[|more| - 1];
      assert more == front + [i];
      ShutdownRunsStopLoop(cfg, w, front);
      hide LoopOrPast;
      LoopOrPastStep(cfg, w, front, i);
    }
  }

  lemma {:induction false} TermsThenKills(a: seq<Signal>, s: seq<Signal>, u: Name)
    requires a <= s && OnlyKillsFrom(s, |a|)
    ensures TermCount(s, u) == TermCount(a, u)
    decreases |s|
  {
    if |a| == |s| {
      assert a == s;
    } else {
      TermsThenKills(a, s[..|s| - 1], u);
    }
  }

  /** What was sent since `w`. */
  function SentSince(w: World, w': World): seq<Signal>
    requires w.journal.signals <= w'.journal.signals
  {
    w'.journal.signals[|w.journal.signals|..]
  }

  /**
   However shutdown goes on, a live ordinary unit is never sent a second
   SIGTERM, and once the stop loop is past it has been sent exactly one.
   */
  lemma OneTermEver(cfg: Config, w: World, more: seq<Input>, u: Name, p: int)
    requires Reachable(cfg, w) && w.phase == ShuttingDown(cfg.order) && Feasible(cfg, w, more)
    requires OrdinaryUnit(cfg, u) && p in w.tables.processes && w.tables.processes[p].unit == u
    ensures var w' := Exec(cfg, w, more);
      && w.journal.signals <= w'.journal.signals
      && TermCount(SentSince(w, w'), u) <= 1
      && (!w'.phase.ShuttingDown? ==> TermCount(SentSince(w, w'), u) == 1 && Term(u, p) in SentSince(w, w'))
  {
    hide Exec, Feasible, Reachable, Terms, TermCount;
    var w' := Exec(cfg, w, more);
    ShutdownRunsStopLoop(cfg, w, more);
    OneTermEach(cfg, w, u, p);
    if |more| <= |cfg.order| && more == Stops(|more|) {
      var rest := |cfg.order| - |more|;
      StopLoop(cfg, w, |more|);
      ReachableNoDuplicates(cfg, w);
      TermsCount(w.tables.unitToPid, cfg.order[rest..], u);
      assert SentSince(w, w') == Terms(w.tables.unitToPid, cfg.order[rest..]);
    } else {
      var sent := SentSince(w, w');
      assert StopSignals(w) == sent[..|StopSignals(w)|];
      TermsThenKills(StopSignals(w), sent, u);
    }
  }

  lemma ReachableNoDuplicates(cfg: Config, w: World)
    requires Reachable(cfg, w)
    ensures NoDuplicates(cfg.order)
  {
  }

  /** Whatever happens after shutdown has begun, the system winds down. */
  lemma {:induction false} ShutdownWindsDown(cfg: Config, w: World, more: seq<Input>, u: Name)
    requires Reachable(cfg, w) && OrdinaryUnit(cfg, u) && InShutdown(w.phase) && Feasible(cfg, w, more)
    ensures WindsDown(w, Exec(cfg, w, more), u)
  {
    if more != [] {
      hide Step, Enabled, Reachable, PendingOf, Good, ViewOf;
      var front := more[..|more| - 1];
      ShutdownWindsDown(cfg, w, front, u);
      ReachableExtends(cfg, w, front);
      var mid := Exec(cfg, w, front);
      ReachableIsGood(cfg, mid, u);
      StepWindsDown(cfg, mid, more[|more| - 1], u);
    }
  }

  // ---------------------------------------------------------------- the end

  /** At most fifty polls; then whatever is still tracked has been, or is about to be, killed. */
  ghost predicate KillsCovered(w: World)
  {
    && (w.phase.Waiting? ==> w.phase.polls <= MAX_POLLS)
    && (w.phase.Killing? ==> forall p :: p in w.tables.processes ==> p in w.phase.left || Kill(p) in w.journal.signals)
    && (w.phase.LastPoll? || w.phase.Halted? ==> forall p :: p in w.tables.processes ==> Kill(p) in w.journal.signals)
  }

  lemma StepKeepsKillsCovered(cfg: Config, w: World, i: Input)
    requires KillsCovered(w) && Enabled(cfg, w, i)
    ensures KillsCovered(Step(cfg, w, i))
  {
    hide StartService, Track, ResolvePair, Judge, IsBareTemplate;
    if i.KillOne? {
      var w' := Step(cfg, w, i);
      forall p | p in w.tables.processes
        ensures p in w'.phase.left || Kill(p) in w'.journal.signals
      {
        assert Kill(i.victim) == w'.journal.signals[|w.journal.signals|];
      }
    }
  }

  /** Every process that outlives the wait is sent SIGKILL before the last poll. */
  lemma {:induction false} SurvivorsAreKilled(cfg: Config, start: int, inputs: seq<Input>)
    requires Feasible(cfg, Initial(cfg, start), inputs)
    ensures KillsCovered(Exec(cfg, Initial(cfg, start), inputs))
  {
    if inputs != [] {
      hide Step, Enabled, KillsCovered;
      SurvivorsAreKilled(cfg, start, inputs[..|inputs| - 1]);
      StepKeepsKillsCovered(cfg, Exec(cfg, Initial(cfg, start), inputs[..|inputs| - 1]), inputs[|inputs| - 1]);
    }
  }
}
