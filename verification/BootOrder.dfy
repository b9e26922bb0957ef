/** `execute(UnitExecute)`: services are started in dependency order. */
module BootOrder {
  import opened UnitFiles
  import opened DependencyResolver
  import opened Processes
  import opened Machine
  import opened Specifiers

  /** The children spawned so far belong to the first `k` units of the order, one after the other. */
  ghost predicate InOrder(order: seq<Name>, k: nat, spawns: seq<SpawnRecord>)
  {
    && (forall i :: 0 <= i < |spawns| ==> spawns[i].unit in order[..Min(k, |order|)])
    && (forall i, j, a, b | 0 <= i < j < |spawns| && 0 <= a < |order| && 0 <= b < |order| ::
          spawns[i].unit == order[a] && spawns[j].unit == order[b] ==> a < b)
  }

  ghost predicate Booted(order: seq<Name>, w: World)
  {
    w.phase.Booting? ==>
      && |w.phase.todo| <= |order|
      && w.phase.todo == order[|order| - |w.phase.todo|..]
      && InOrder(order, |order| - |w.phase.todo|, w.journal.spawns)
  }

  lemma OneMoreInOrder(order: seq<Name>, k: nat, spawns: seq<SpawnRecord>, x: SpawnRecord)
    requires NoDuplicates(order) && k < |order| && InOrder(order, k, spawns) && x.unit == order[k]
    ensures InOrder(order, k + 1, spawns) && InOrder(order, k + 1, spawns + [x])
  {
    var more := spawns + [x];
    assert order[..k + 1] == order[..k] + [order[k]];
    forall i, j, a, b | 0 <= i < j < |more| && 0 <= a < |order| && 0 <= b < |order| &&
      more[i].unit == order[a] && more[j].unit == order[b]
      ensures a < b
    {
      if j == |spawns| {
        assert spawns[i].unit in order[..k];
        var c :| 0 <= c < k && order[..k][c] == spawns[i].unit;
        assert order[c] == order[a] && order[b] == order[k];
      }
    }
  }

  lemma StepKeepsBooted(cfg: Config, w: World, i: Input)
    requires NoDuplicates(cfg.order) && Booted(cfg.order, w) && Enabled(cfg, w, i)
    ensures Booted(cfg.order, Step(cfg, w, i))
  {
    hide StartService, Track, ResolvePair, Reap, IsBareTemplate, InOrder, StartWords, AcceptWords;
    if i.BootUnit? {
      var order, k := cfg.order, |cfg.order| - |w.phase.todo|;
      assert w.phase.todo[0] == order[k];
      assert w.phase.todo[1..] == order[k + 1..];
      var words := if order[k] in cfg.units then StartWords(cfg.units[order[k]]) else [];
      OneMoreInOrder(order, k, w.journal.spawns, SpawnRecord(order[k], i.fate.pid, words));
    }
  }

  lemma {:induction false} AlwaysBooted(cfg: Config, start: int, inputs: seq<Input>)
    requires NoDuplicates(cfg.order) && Feasible(cfg, Initial(cfg, start), inputs)
    ensures Booted(cfg.order, Exec(cfg, Initial(cfg, start), inputs))
  {
    if inputs == [] {
      assert cfg.order[0..] == cfg.order;
    } else {
      hide Step, Enabled, Booted;
      AlwaysBooted(cfg, start, inputs[..|inputs| - 1]);
      StepKeepsBooted(cfg, Exec(cfg, Initial(cfg, start), inputs[..|inputs| - 1]), inputs[|inputs| - 1]);
    }
  }

  /** At every point of the boot, a started unit comes after every started unit it depends on. */
  lemma DependenciesStartFirst(cfg: Config, start: int, inputs: seq<Input>, i: nat, j: nat)
    requires Sound(cfg.units, cfg.order) && Feasible(cfg, Initial(cfg, start), inputs)
    ensures var w := Exec(cfg, Initial(cfg, start), inputs);
      var s := w.journal.spawns;
      w.phase.Booting? && i < |s| && j < |s| && DependsOn(cfg.units, s[i].unit, s[j].unit) ==> j < i
  {
    hide Exec, Feasible, InOrder, DependsOn;
    AlwaysBooted(cfg, start, inputs);
    var w := Exec(cfg, Initial(cfg, start), inputs);
    var s := w.journal.spawns;
    if w.phase.Booting? && i < |s| && j < |s| && DependsOn(cfg.units, s[i].unit, s[j].unit) {
      EarlierInOrder(cfg.units, cfg.order, |cfg.order| - |w.phase.todo|, s, i, j);
    }
  }

  lemma EarlierInOrder(units: Units, order: seq<Name>, k: nat, spawns: seq<SpawnRecord>, i: nat, j: nat)
    requires Sound(units, order) && k <= |order| && InOrder(order, k, spawns) && i < |spawns| && j < |spawns|
    requires DependsOn(units, spawns[i].unit, spawns[j].unit)
    ensures j < i
  {
    var u, d := spawns[i].unit, spawns[j].unit;
    assert u in order[..k];
    var a :| 0 <= a < k && order[..k][a] == u;
    assert order[a] == u && DependsOn(units, order[a], d);
    var b :| 0 <= b < a && order[..a][b] == d;
    assert order[b] == d;
  }

  // ---------------------------------------------------------------- which units boot starts

  /** A template name whose instance is empty. */
  predicate Uninstantiated(n: Name)
  {
    IsTemplateName(n.text) && ContextOf(n.text).instance == ""
  }

  /**
   Unit `n` comes up at its turn `i`: it is loaded and a service with a command,
   not an uninstantiated template, its conditions were met, ExecStartPre did not
   fail, and fork succeeded.
   */
  predicate ComesUp(cfg: Config, n: Name, i: Input)
  {
    && n in cfg.units && cfg.units[n].kind == Service && !Uninstantiated(n)
    && i.BootUnit? && i.conditionsMet
    && i.fate.preOk && cfg.units[n].execStart != "" && StartWords(cfg.units[n]) != [] && i.fate.pid > 0
  }

  /** The children of the first `k` turns, in order. */
  function BootSpawns(cfg: Config, inputs: seq<Input>, k: nat): seq<SpawnRecord>
    requires k <= |inputs| && k <= |cfg.order|
  {
    if k == 0 then []
    else
      var n, i := cfg.order[k - 1], inputs[k - 1];
      BootSpawns(cfg, inputs, k - 1) +
      if ComesUp(cfg, n, i) then [SpawnRecord(n, i.fate.pid, StartWords(cfg.units[n]))] else []
  }

  lemma {:induction false} BootSpawnsPrefix(cfg: Config, a: seq<Input>, b: seq<Input>, k: nat)
    requires k <= |a| && k <= |b| && k <= |cfg.order| && a[..k] == b[..k]
    ensures BootSpawns(cfg, a, k) == BootSpawns(cfg, b, k)
  {
    hide ComesUp;
    if k > 0 {
      assert a[k - 1] == a[..k][k - 1] && a[..k][..k - 1] == a[..k - 1];
      assert b[k - 1] == b[..k][k - 1] && b[..k][..k - 1] == b[..k - 1];
      BootSpawnsPrefix(cfg, a, b, k - 1);
    }
  }

  lemma OneTurn(cfg: Config, w: World, i: Input)
    requires Enabled(cfg, w, i) && (w.phase.Booting? || Step(cfg, w, i).phase.Booting?)
    ensures w.phase.Booting?
    ensures Step(cfg, w, i).phase.Booting? ==>
      && i.BootUnit? && w.phase.todo != [] && Step(cfg, w, i).phase.todo == w.phase.todo[1..]
      && var n := w.phase.todo[0];
        Step(cfg, w, i).journal.spawns == w.journal.spawns +
        if ComesUp(cfg, n, i) then [SpawnRecord(n, i.fate.pid, StartWords(cfg.units[n]))] else []
  {
    hide StartService, StartWords, Accept, Serves, Reap, Note, Due, ContextOf, IsTemplateName, IsBareTemplate;
    if i.BootUnit? {
      BareTemplateHasNoInstance(w.phase.todo[0]);
    }
  }

  /** As long as boot lasts, its inputs are one turn per unit and its children exactly those that come up. */
  lemma {:induction false} BootSpawnsExact(cfg: Config, start: int, inputs: seq<Input>)
    requires Feasible(cfg, Initial(cfg, start), inputs) && Exec(cfg, Initial(cfg, start), inputs).phase.Booting?
    ensures |inputs| <= |cfg.order| && forall k :: 0 <= k < |inputs| ==> inputs[k].BootUnit?
    ensures Exec(cfg, Initial(cfg, start), inputs).phase.todo == cfg.order[|inputs|..]
    ensures Exec(cfg, Initial(cfg, start), inputs).journal.spawns == BootSpawns(cfg, inputs, |inputs|)
  {
    if inputs == [] {
      assert cfg.order[0..] == cfg.order;
    } else {
      hide Step, Enabled, ComesUp, Initial;
      var k, front, i := |inputs| - 1, inputs[..|inputs| - 1], inputs[|inputs| - 1];
      var w := Exec(cfg, Initial(cfg, start), front);
      OneTurn(cfg, w, i);
      BootSpawnsExact(cfg, start, front);
      assert cfg.order[k..][0] == cfg.order[k] && cfg.order[k..][1..] == cfg.order[k + 1..];
      BootSpawnsPrefix(cfg, front, inputs, k);
    }
  }

  function SpawnsOf(s: seq<SpawnRecord>, n: Name): seq<SpawnRecord>
  {
    if s == [] then []
    else SpawnsOf(s[..|s| - 1], n) + if s[|s| - 1].unit == n then [s[|s| - 1]] else []
  }

  lemma SpawnsOfSnoc(s: seq<SpawnRecord>, x: SpawnRecord, n: Name)
    ensures SpawnsOf(s + [x], n) == SpawnsOf(s, n) + if x.unit == n then [x] else []
  {
    assert (s + [x])[..|s|] == s;
  }

  lemma {:induction false} SpawnedOnce(cfg: Config, inputs: seq<Input>, k: nat, p: nat)
    requires NoDuplicates(cfg.order) && k <= |inputs| && k <= |cfg.order| && p < |cfg.order|
    ensures var n := cfg.order[p];
      SpawnsOf(BootSpawns(cfg, inputs, k), n) ==
      if p < k && ComesUp(cfg, n, inputs[p]) then [SpawnRecord(n, inputs[p].fate.pid, StartWords(cfg.units[n]))] else []
  {
    hide Uninstantiated, StartWords, SpawnsOf;
    if k == 0 {
      NoSpawns(cfg.order[p]);
    } else {
      SpawnedOnce(cfg, inputs, k - 1, p);
      var n, i, before := cfg.order[k - 1], inputs[k - 1], BootSpawns(cfg, inputs, k - 1);
      if ComesUp(cfg, n, i) {
        SpawnsOfSnoc(before, SpawnRecord(n, i.fate.pid, StartWords(cfg.units[n])), cfg.order[p]);
      } else {
        assert before + [] == before;
      }
    }
  }

  lemma NoSpawns(n: Name)
    ensures SpawnsOf([], n) == []
  {
  }

  /**
   When the whole order has had its turn, unit `p` of the order has one child if
   it came up and none otherwise; the child executes the unit's words.
   */
  lemma StartedAtBoot(cfg: Config, start: int, inputs: seq<Input>, p: nat)
    requires Feasible(cfg, Initial(cfg, start), inputs) && NoDuplicates(cfg.order) && p < |cfg.order|
    requires Exec(cfg, Initial(cfg, start), inputs).phase == Booting([])
    ensures |inputs| == |cfg.order|
    ensures var n := cfg.order[p];
      SpawnsOf(Exec(cfg, Initial(cfg, start), inputs).journal.spawns, n) ==
      if ComesUp(cfg, n, inputs[p]) then [SpawnRecord(n, inputs[p].fate.pid, StartWords(cfg.units[n]))] else []
  {
    hide Exec, Feasible, Initial, ComesUp, StartWords, SpawnsOf;
    BootSpawnsExact(cfg, start, inputs);
    assert |cfg.order[|inputs|..]| == 0;
    SpawnedOnce(cfg, inputs, |inputs|, p);
  }
}
