/** Everything a world holds about one unit, and how each step changes it. */
module UnitViews {
  import opened UnitFiles
  import opened Processes
  import opened RestartLimiter
  import opened Machine

  datatype Option<T> = None | Some(value: T)

  datatype View = View(
    procs: map<int, TrackedProcess>,
    index: Option<int>,
    pending: seq<PendingRestart>,
    todo: nat,
    ready: nat,
    carried: Option<Meta>,
    grants: seq<Grant>,
    refusals: seq<Refusal>,
    restarts: seq<RestartRecord>,
    now: int,
    muted: bool)

  // ---------------------------------------------------------------- projections

  function Lookup<V>(m: map<Name, V>, u: Name): Option<V>
  {
    if u in m then Some(m[u]) else None
  }

  function ProcsOf(m: map<int, TrackedProcess>, u: Name): map<int, TrackedProcess>
  {
    map p | p in m && m[p].unit == u :: m[p]
  }

  /** The entries of a log or queue that belong to one unit. */
  function Select<T>(s: seq<T>, key: T -> Name, u: Name): seq<T>
  {
    if s == [] then []
    else
      var front := Select(s[..|s| - 1], key, u);
      if key(s[|s| - 1]) == u then front + [s[|s| - 1]] else front
  }

  lemma SelectSnoc<T>(s: seq<T>, x: T, key: T -> Name, u: Name)
    ensures Select(s + [x], key, u) == if key(x) == u then Select(s, key, u) + [x] else Select(s, key, u)
  {
    assert (s + [x])[..|s|] == s;
  }

  function UnitOfPending(x: PendingRestart): Name { x.unit }

  function UnitOfGrant(x: Grant): Name { x.unit }

  function UnitOfRefusal(x: Refusal): Name { x.unit }

  function UnitOfRestart(x: RestartRecord): Name { x.unit }

  function PendingOf(s: seq<PendingRestart>, u: Name): seq<PendingRestart> { Select(s, UnitOfPending, u) }

  function GrantsOf(s: seq<Grant>, u: Name): seq<Grant> { Select(s, UnitOfGrant, u) }

  function RefusalsOf(s: seq<Refusal>, u: Name): seq<Refusal> { Select(s, UnitOfRefusal, u) }

  function RestartsOf(s: seq<RestartRecord>, u: Name): seq<RestartRecord> { Select(s, UnitOfRestart, u) }

  function BootTodo(p: Phase): seq<Name> { if p.Booting? then p.todo else [] }

  function RestartTodo(p: Phase): seq<Name> { if p.Restarting? then p.ready else [] }

  /** Shutdown has passed the unit's turn to be stopped. */
  predicate Muted(p: Phase, u: Name)
  {
    match p
    case ShuttingDown(todo) => u !in todo
    case Waiting(_) | Killing(_) | LastPoll | Halted => true
    case _ => false
  }

  function ViewOf(w: World, u: Name): View
  {
    View(ProcsOf(w.tables.processes, u), Lookup(w.tables.unitToPid, u), PendingOf(w.tables.pending, u),
         multiset(BootTodo(w.phase))[u], multiset(RestartTodo(w.phase))[u], Lookup(w.tables.carried, u),
         GrantsOf(w.journal.grants, u), RefusalsOf(w.journal.refusals, u), RestartsOf(w.journal.restarts, u),
         w.now, Muted(w.phase, u))
  }

  // ---------------------------------------------------------------- steps on views

  function LaunchView(v: View, u: Name, unit: UnitFile, f: Fate): View
  {
    if !Launches(unit, f) then v
    else
      var meta := if v.carried.Some? then v.carried.value else NEW_META;
      v.(procs := v.procs[f.pid := OwnProcess(u, unit, meta)], index := Some(f.pid), carried := None)
  }

  function ExitView(v: View, e: Exit): View
    requires e.pid in v.procs
  {
    var tp := v.procs[e.pid];
    var gone := v.(procs := v.procs - {e.pid}, index := None, now := e.at);
    match Judge(tp, e)
    case NoRestart => gone
    case BurstExhausted => gone.(refusals := v.refusals + [Refusal(tp.unit, e.at, tp.meta)])
    case Restart(entry) =>
      gone.(pending := v.pending + [entry], grants := v.grants + [Grant(entry.unit, e.at, entry.due, entry.meta)])
  }

  function CarriedAfter(c: Option<Meta>, s: seq<PendingRestart>, now: int): Option<Meta>
  {
    if s == [] then c
    else if now >= s[|s| - 1].due then Some(s[|s| - 1].meta)
    else CarriedAfter(c, s[..|s| - 1], now)
  }

  function DrainView(v: View, at: int): View
  {
    v.(pending := NotDue(v.pending, at), ready := |Due(v.pending, at)|,
       carried := CarriedAfter(v.carried, v.pending, at), now := at)
  }

  function StopView(v: View): View
  {
    if v.index.Some? && v.index.value in v.procs then
      v.(procs := v.procs[v.index.value := v.procs[v.index.value].(policy := No)])
    else v
  }

  // ---------------------------------------------------------------- launching

  lemma AddOther(m: map<int, TrackedProcess>, pid: int, tp: TrackedProcess, u: Name)
    requires tp.unit != u && pid !in m
    ensures ProcsOf(m[pid := tp], u) == ProcsOf(m, u)
  {
  }

  lemma AddOwn(m: map<int, TrackedProcess>, pid: int, tp: TrackedProcess, u: Name)
    requires tp.unit == u
    ensures ProcsOf(m[pid := tp], u) == ProcsOf(m, u)[pid := tp]
  {
  }

  lemma LaunchOther(cfg: Config, w: World, name: Name, f: Fate, u: Name)
    requires name in cfg.units && name != u && (f.pid > 0 ==> f.pid !in w.tables.processes)
    ensures ViewOf(Launch(cfg, w, name, f), u) == ViewOf(w, u)
  {
    hide StartService, ParseRestartPolicy, StartWords;
    hide ProcsOf, PendingOf, GrantsOf, RefusalsOf, RestartsOf, Muted;
    if Launches(cfg.units[name], f) {
      var t' := StartService(w.tables, name, cfg.units[name], f);
      StartFacts(w.tables, name, cfg.units[name], f);
      AddOther(w.tables.processes, f.pid, t'.processes[f.pid], u);
    }
  }

  lemma LaunchOwn(cfg: Config, w: World, f: Fate, u: Name)
    requires u in cfg.units && (f.pid > 0 ==> f.pid !in w.tables.processes)
    ensures ViewOf(Launch(cfg, w, u, f), u) == LaunchView(ViewOf(w, u), u, cfg.units[u], f)
  {
    hide StartService, ParseRestartPolicy, StartWords;
    hide ProcsOf, PendingOf, GrantsOf, RefusalsOf, RestartsOf, Muted;
    if Launches(cfg.units[u], f) {
      var t' := StartService(w.tables, u, cfg.units[u], f);
      StartFacts(w.tables, u, cfg.units[u], f);
      AddOwn(w.tables.processes, f.pid, t'.processes[f.pid], u);
    }
  }

  // ---------------------------------------------------------------- accepting and stopping

  lemma AcceptOther(cfg: Config, w: World, k: Name, accepted: bool, pid: int, u: Name)
    requires k in cfg.sockets && k in w.tables.active && (pid > 0 ==> pid !in w.tables.processes)
    requires cfg.sockets[k].accept && Ordinary(cfg, u)
    ensures ViewOf(AcceptConnection(cfg, w, k, accepted, pid), u) == ViewOf(w, u)
  {
    if Serves(cfg, w.tables, k, accepted, pid) {
      var t, t' := w.tables, Accept(cfg, w.tables, k, accepted, pid);
      hide ResolvePair;
      assert ProcsOf(t'.processes, u) == ProcsOf(t.processes, u);
    }
  }

  lemma StopOther(w: World, name: Name, u: Name)
    requires name != u
    requires name in w.tables.unitToPid && w.tables.unitToPid[name] in w.tables.processes ==>
      w.tables.processes[w.tables.unitToPid[name]].unit == name
    ensures ViewOf(Stop(w, name), u) == ViewOf(w, u)
  {
    assert ProcsOf(StopUnit(w.tables, name).processes, u) == ProcsOf(w.tables.processes, u);
  }

  lemma StopOwn(w: World, u: Name)
    requires u in w.tables.unitToPid && w.tables.unitToPid[u] in w.tables.processes ==>
      w.tables.processes[w.tables.unitToPid[u]].unit == u
    ensures ViewOf(Stop(w, u), u) == StopView(ViewOf(w, u))
  {
    var v := ViewOf(w, u);
    assert ProcsOf(StopUnit(w.tables, u).processes, u) == StopView(v).procs;
  }

  // ---------------------------------------------------------------- reaping

  lemma RemoveOther(m: map<int, TrackedProcess>, pid: int, u: Name)
    requires pid in m ==> m[pid].unit != u
    ensures ProcsOf(m - {pid}, u) == ProcsOf(m, u)
  {
  }

  lemma RemoveOwn(m: map<int, TrackedProcess>, pid: int, u: Name)
    ensures ProcsOf(m - {pid}, u) == ProcsOf(m, u) - {pid}
  {
  }

  lemma NoteViews(j: Journal, t: Tables, e: Exit, u: Name)
    requires e.pid in t.processes
    ensures var tp, j' := t.processes[e.pid], Note(j, t, e);
      && j'.restarts == j.restarts
      && GrantsOf(j'.grants, u) == (if tp.unit == u && Judge(tp, e).Restart?
        then GrantsOf(j.grants, u) + [Grant(u, e.at, Judge(tp, e).entry.due, Judge(tp, e).entry.meta)]
        else GrantsOf(j.grants, u))
      && RefusalsOf(j'.refusals, u) == (if tp.unit == u && Judge(tp, e).BurstExhausted?
        then RefusalsOf(j.refusals, u) + [Refusal(u, e.at, tp.meta)]
        else RefusalsOf(j.refusals, u))
  {
    var tp := t.processes[e.pid];
    hide Select, CountExit, DelayMs, ShouldRestart;
    match Judge(tp, e)
    case NoRestart =>
    case BurstExhausted => SelectSnoc(j.refusals, Refusal(tp.unit, e.at, tp.meta), UnitOfRefusal, u);
    case Restart(entry) => SelectSnoc(j.grants, Grant(entry.unit, e.at, entry.due, entry.meta), UnitOfGrant, u);
  }

  lemma RequeueViews(s: seq<PendingRestart>, tp: TrackedProcess, e: Exit, u: Name)
    ensures PendingOf(s + Requeue(tp, e), u) ==
      if tp.unit == u && Judge(tp, e).Restart? then PendingOf(s, u) + [Judge(tp, e).entry] else PendingOf(s, u)
  {
    hide Select, CountExit, DelayMs, ShouldRestart;
    match Judge(tp, e)
    case Restart(entry) => SelectSnoc(s, entry, UnitOfPending, u);
    case _ => assert s + Requeue(tp, e) == s;
  }

  lemma ExitOther(w: World, e: Exit, u: Name)
    requires e.pid in w.tables.processes ==> w.tables.processes[e.pid].unit != u
    ensures ViewOf(ReapChild(w, e), u) == ViewOf(w, u).(now := e.at)
  {
    RemoveOther(w.tables.processes, e.pid, u);
    if e.pid in w.tables.processes {
      NoteViews(w.journal, w.tables, e, u);
      RequeueViews(w.tables.pending, w.tables.processes[e.pid], e, u);
      hide Note, Requeue, PendingOf, GrantsOf, RefusalsOf, RestartsOf, ProcsOf, Muted;
    }
  }

  lemma ReapFacts(t: Tables, e: Exit)
    requires e.pid in t.processes
    ensures var tp, t' := t.processes[e.pid], Reap(t, e);
      && t'.processes == t.processes - {e.pid} && t'.unitToPid == t.unitToPid - {tp.unit}
      && t'.pending == t.pending + Requeue(tp, e) && t'.carried == t.carried
    ensures Judge(t.processes[e.pid], e).Restart? ==> Judge(t.processes[e.pid], e).entry.unit == t.processes[e.pid].unit
  {
    hide Requeue, CountExit, DelayMs, ShouldRestart;
  }

  lemma ProcsMember(m: map<int, TrackedProcess>, p: int, u: Name)
    requires p in m && m[p].unit == u
    ensures p in ProcsOf(m, u) && ProcsOf(m, u)[p] == m[p]
  {
  }

  lemma ExitOwn(w: World, e: Exit, u: Name)
    requires e.pid in w.tables.processes && w.tables.processes[e.pid].unit == u
    ensures e.pid in ViewOf(w, u).procs
    ensures ViewOf(ReapChild(w, e), u) == ExitView(ViewOf(w, u), e)
  {
    hide Reap, Judge, Note, Requeue, PendingOf, GrantsOf, RefusalsOf, RestartsOf, ProcsOf, Muted;
    var tp := w.tables.processes[e.pid];
    ReapFacts(w.tables, e);
    ProcsMember(w.tables.processes, e.pid, u);
    RemoveOwn(w.tables.processes, e.pid, u);
    NoteViews(w.journal, w.tables, e, u);
    RequeueViews(w.tables.pending, tp, e, u);
  }

  // ---------------------------------------------------------------- draining

  lemma DueSnoc(s: seq<PendingRestart>, x: PendingRestart, now: int)
    ensures NotDue(s + [x], now) == if now >= x.due then NotDue(s, now) else NotDue(s, now) + [x]
    ensures Due(s + [x], now) == if now >= x.due then Due(s, now) + [x.unit] else Due(s, now)
    ensures forall c :: CarriedAfter(c, s + [x], now) == if now >= x.due then Some(x.meta) else CarriedAfter(c, s, now)
    ensures forall c ::
      CarryDue(c, s + [x], now) == (if now >= x.due then CarryDue(c, s, now)[x.unit := x.meta] else CarryDue(c, s, now))
  {
    assert (s + [x])[..|s|] == s;
  }

  lemma {:induction false} NotDueProjects(s: seq<PendingRestart>, now: int, u: Name)
    ensures PendingOf(NotDue(s, now), u) == NotDue(PendingOf(s, u), now)
  {
    hide Select, NotDue;
    if s == [] {
      NothingPending(now, u);
    } else {
      var front, last := s[..|s| - 1], s[|s| - 1];
      assert s == front + [last];
      NotDueProjects(front, now, u);
      DueSnoc(front, last, now);
      SelectSnoc(front, last, UnitOfPending, u);
      DueSnoc(PendingOf(front, u), last, now);
      SelectSnoc(NotDue(front, now), last, UnitOfPending, u);
    }
  }

  lemma {:induction false} DueProjects(s: seq<PendingRestart>, now: int, u: Name)
    ensures multiset(Due(s, now))[u] == |Due(PendingOf(s, u), now)|
  {
    hide Select, Due;
    if s == [] {
      NothingPending(now, u);
    } else {
      var front, last := s[..|s| - 1], s[|s| - 1];
      assert s == front + [last];
      DueProjects(front, now, u);
      DueSnoc(front, last, now);
      SelectSnoc(front, last, UnitOfPending, u);
      DueSnoc(PendingOf(front, u), last, now);
      CountSnoc(Due(front, now), last.unit, u);
    }
  }

  lemma {:induction false} CarryProjects(s: seq<PendingRestart>, c: map<Name, Meta>, now: int, u: Name)
    ensures Lookup(CarryDue(c, s, now), u) == CarriedAfter(Lookup(c, u), PendingOf(s, u), now)
  {
    hide Select, CarryDue, CarriedAfter;
    if s == [] {
      NothingCarried(c, now, u);
    } else {
      var front, last := s[..|s| - 1], s[|s| - 1];
      assert s == front + [last];
      CarryProjects(front, c, now, u);
      DueSnoc(front, last, now);
      SelectSnoc(front, last, UnitOfPending, u);
      DueSnoc(PendingOf(front, u), last, now);
    }
  }

  lemma NothingPending(now: int, u: Name)
    ensures PendingOf([], u) == [] && NotDue([], now) == [] && Due([], now) == []
  {
  }

  lemma NothingCarried(c: map<Name, Meta>, now: int, u: Name)
    ensures PendingOf([], u) == [] && CarryDue(c, [], now) == c && CarriedAfter(Lookup(c, u), [], now) == Lookup(c, u)
  {
  }

  lemma CountSnoc(s: seq<Name>, x: Name, u: Name)
    ensures multiset(s + [x])[u] == multiset(s)[u] + if x == u then 1 else 0
  {
  }

  lemma CountFirst(s: seq<Name>, u: Name)
    requires s != []
    ensures multiset(s)[u] == multiset(s[1..])[u] + if s[0] == u then 1 else 0
  {
    assert s == [s[0]] + s[1..];
  }

  lemma DrainAny(cfg: Config, w: World, at: int, u: Name)
    requires w.phase.Polling? && at >= w.now
    ensures ViewOf(Step(cfg, w, Drain(at)), u) == DrainView(ViewOf(w, u), at)
  {
    NotDueProjects(w.tables.pending, at, u);
    DueProjects(w.tables.pending, at, u);
    CarryProjects(w.tables.pending, w.tables.carried, at, u);
    hide PendingOf, GrantsOf, RefusalsOf, RestartsOf, ProcsOf, Due, NotDue, CarryDue, CarriedAfter;
  }
}
