/**
 `execute(DependencyResolve)`: Kahn's algorithm over the multigraph of `after`
 entries plus those `requires_` entries that are not already in `after`.
 The two hash maps are walked in an arbitrary order, so every loop over one
 picks the next name nondeterministically.
 */
module DependencyResolver {
  import opened UnitFiles

  // ---------------------------------------------------------------- dependencies

  /** `n` lists the loaded unit `d` in `after` or in `requires_`. */
  predicate DependsOn(units: Units, n: Name, d: Name)
  {
    n in units && d in units && (d in units[n].after || d in units[n].requires_)
  }

  /** A chain of units, each depending on the next. */
  predicate IsWalk(units: Units, w: seq<Name>)
  {
    && w != []
    && w[0] in units
    && (|w| > 1 ==> DependsOn(units, w[0], w[1]) && IsWalk(units, w[1..]))
  }

  ghost predicate Reaches(units: Units, n: Name, c: Name)
  {
    exists w :: IsWalk(units, w) && w[0] == n && w[|w| - 1] == c
  }

  ghost predicate OnCycle(units: Units, c: Name)
  {
    exists w :: IsWalk(units, w) && |w| >= 2 && w[0] == c && w[|w| - 1] == c
  }

  /** Some dependency chain from `n` runs into a cycle. */
  ghost predicate BelowCycle(units: Units, n: Name)
  {
    exists c :: Reaches(units, n, c) && OnCycle(units, c)
  }

  /** The longest dependency chain starting at `n` has `k` links. */
  ghost predicate IsDepth(units: Units, n: Name, k: nat)
  {
    && (exists w :: IsWalk(units, w) && w[0] == n && |w| == k + 1)
    && (forall w :: IsWalk(units, w) && w[0] == n ==> |w| <= k + 1)
  }

  // ---------------------------------------------------------------- what resolution promises

  predicate NoDuplicates(s: seq<Name>)
  {
    forall i, j :: 0 <= i < j < |s| ==> s[i] != s[j]
  }

  /** Loaded units only, none twice, every dependency strictly earlier. */
  ghost predicate Sound(units: Units, order: seq<Name>)
  {
    && NoDuplicates(order)
    && (forall n :: n in order ==> n in units)
    && (forall i, d :: 0 <= i < |order| && DependsOn(units, order[i], d) ==> d in order[..i])
  }

  /** `n` waits for a unit that is left out. */
  ghost predicate Stuck(units: Units, order: seq<Name>, n: Name)
  {
    exists d :: DependsOn(units, n, d) && d !in order
  }

  /** Every unit left out waits for another unit left out. */
  ghost predicate Exhausted(units: Units, order: seq<Name>)
  {
    forall n {:trigger Stuck(units, order, n)} :: n in units && n !in order ==> Stuck(units, order, n)
  }

  ghost predicate IsResolution(units: Units, order: seq<Name>)
  {
    && Sound(units, order)
    && (forall n :: n in units ==> (n in order <==> !BelowCycle(units, n)))
  }

  ghost predicate HasDepth(units: Units, n: Name)
  {
    exists k: nat :: IsDepth(units, n, k)
  }

  /** Every unit has a depth, and units come out in waves: shorter dependency chains first. */
  ghost predicate SortedByDepth(units: Units, order: seq<Name>)
  {
    && (forall i :: 0 <= i < |order| ==> HasDepth(units, order[i]))
    && (forall i, j, a: nat, b: nat ::
      0 <= i < j < |order| && IsDepth(units, order[i], a) && IsDepth(units, order[j], b) ==> a <= b)
  }

  // ---------------------------------------------------------------- soundness excludes cycles

  lemma {:induction false} WalkDescends(units: Units, order: seq<Name>, i: nat, w: seq<Name>)
    requires Sound(units, order) && i < |order|
    requires IsWalk(units, w) && w[0] == order[i] && |w| > 1
    ensures w[|w| - 1] in order[..i]
  {
    assert DependsOn(units, order[i], w[1]);
    var j :| 0 <= j < i && order[j] == w[1];
    if |w| > 2 {
      WalkDescends(units, order, j, w[1..]);
    }
  }

  lemma EmittedIsNotBelowCycle(units: Units, order: seq<Name>, n: Name)
    requires Sound(units, order) && n in order
    ensures !BelowCycle(units, n)
  {
    if BelowCycle(units, n) {
      var c :| Reaches(units, n, c) && OnCycle(units, c);
      var p :| IsWalk(units, p) && p[0] == n && p[|p| - 1] == c;
      var w :| IsWalk(units, w) && |w| >= 2 && w[0] == c && w[|w| - 1] == c;
      var i :| 0 <= i < |order| && order[i] == n;
      if |p| > 1 { WalkDescends(units, order, i, p); }
      var j :| 0 <= j < |order| && order[j] == c;
      WalkDescends(units, order, j, w);
      assert false;
    }
  }

  // ---------------------------------------------------------------- exhaustion exposes a cycle

  lemma {:induction false} LongWalk(units: Units, order: seq<Name>, n: Name, links: nat) returns (w: seq<Name>)
    requires Exhausted(units, order) && n in units && n !in order
    ensures IsWalk(units, w) && w[0] == n && |w| == links + 1
    ensures forall k :: 0 <= k < |w| ==> w[k] in units && w[k] !in order
    decreases links
  {
    if links == 0 {
      w := [n];
    } else {
      assert Stuck(units, order, n);
      var d :| DependsOn(units, n, d) && d !in order;
      var rest := LongWalk(units, order, d, links - 1);
      w := [n] + rest;
      assert w[1..] == rest;
    }
  }

  lemma {:induction false} WalkPrefix(units: Units, w: seq<Name>, k: nat)
    requires IsWalk(units, w) && 1 <= k <= |w|
    ensures IsWalk(units, w[..k])
  {
    if k > 1 {
      WalkPrefix(units, w[1..], k - 1);
      assert w[..k][1..] == w[1..][..k - 1];
    }
  }

  lemma {:induction false} WalkSuffix(units: Units, w: seq<Name>, k: nat)
    requires IsWalk(units, w) && k < |w|
    ensures IsWalk(units, w[k..])
  {
    if k > 0 {
      WalkSuffix(units, w[1..], k - 1);
      assert w[k..] == w[1..][k - 1..];
    }
  }

  lemma {:induction false} Pigeonhole(w: seq<Name>, names: set<Name>) returns (a: nat, b: nat)
    requires |w| > |names|
    requires forall k :: 0 <= k < |w| ==> w[k] in names
    ensures a < b < |w| && w[a] == w[b]
  {
    if last :| 0 <= last < |w| - 1 && w[last] == w[|w| - 1] {
      a, b := last, |w| - 1;
    } else {
      a, b := Pigeonhole(w[..|w| - 1], names - {w[|w| - 1]});
    }
  }

  /** A walk that visits a unit twice leads to a cycle. */
  lemma LoopIsCycle(units: Units, w: seq<Name>, a: nat, b: nat)
    requires IsWalk(units, w) && a < b < |w| && w[a] == w[b]
    ensures BelowCycle(units, w[0])
  {
    hide IsWalk;
    WalkPrefix(units, w, a + 1);
    WalkPrefix(units, w, b + 1);
    WalkSuffix(units, w[..b + 1], a);
    var path, loop := w[..a + 1], w[..b + 1][a..];
    assert path[0] == w[0] && path[|path| - 1] == w[a];
    assert Reaches(units, w[0], w[a]);
    assert |loop| >= 2 && loop[0] == w[a] && loop[|loop| - 1] == w[a];
    assert OnCycle(units, w[a]);
  }

  lemma LeftOutIsBelowCycle(units: Units, order: seq<Name>, n: Name)
    requires Exhausted(units, order) && n in units && n !in order
    ensures BelowCycle(units, n)
  {
    hide *;
    var w := LongWalk(units, order, n, |units|);
    var a, b := Pigeonhole(w, units.Keys);
    LoopIsCycle(units, w, a, b);
  }

  lemma OnCycleIsBelowCycle(units: Units, c: Name)
    requires OnCycle(units, c)
    ensures c in units && BelowCycle(units, c)
  {
    var w :| IsWalk(units, w) && |w| >= 2 && w[0] == c && w[|w| - 1] == c;
    assert Reaches(units, c, c);
  }

  /** The two local conditions together are the exact characterisation. */
  lemma SoundAndExhausted(units: Units, order: seq<Name>)
    requires Sound(units, order) && Exhausted(units, order)
    ensures IsResolution(units, order)
  {
    forall n | n in units
      ensures n in order <==> !BelowCycle(units, n)
    {
      if n in order {
        EmittedIsNotBelowCycle(units, order, n);
      } else {
        LeftOutIsBelowCycle(units, order, n);
      }
    }
  }

  // ---------------------------------------------------------------- consequences

  lemma ResolutionIsSound(units: Units, order: seq<Name>)
    requires IsResolution(units, order)
    ensures Sound(units, order) && NoDuplicates(order)
  {
  }

  /** In the unit files' own terms: whatever loaded unit is listed in After= or Requires= comes earlier. */
  lemma ListedComesEarlier(units: Units, order: seq<Name>, i: nat, d: Name)
    requires IsResolution(units, order) && i < |order|
    ensures order[i] in units
    ensures d in units && (d in units[order[i]].after || d in units[order[i]].requires_) ==> d in order[..i]
  {
    assert order[i] in order;
    assert DependsOn(units, order[i], d) ==> d in order[..i];
  }

  function Names(order: seq<Name>): set<Name>
  {
    set n | n in order
  }

  lemma {:induction false} NamesCount(order: seq<Name>)
    requires NoDuplicates(order)
    ensures |Names(order)| == |order|
  {
    if order != [] {
      var front := order[..|order| - 1];
      NamesCount(front);
      assert Names(order) == Names(front) + {order[|order| - 1]};
    }
  }

  /** The cycle warning ("resolved < total") is raised exactly when there is a cycle. */
  lemma WarningIffCycle(units: Units, order: seq<Name>)
    requires IsResolution(units, order)
    ensures |order| < |units| <==> exists c :: OnCycle(units, c)
  {
    NamesCount(order);
    assert Names(order) <= units.Keys;
    if c :| OnCycle(units, c) {
      OnCycleIsBelowCycle(units, c);
      assert Names(order) <= units.Keys - {c};
      CardinalityMonotone(Names(order), units.Keys - {c});
    } else {
      assert units.Keys <= Names(order);
      CardinalityMonotone(units.Keys, Names(order));
    }
  }

  lemma {:induction false} CardinalityMonotone(a: set<Name>, b: set<Name>)
    requires a <= b
    ensures |a| <= |b|
  {
    if a != {} {
      var x :| x in a;
      CardinalityMonotone(a - {x}, b - {x});
    }
  }

  lemma {:induction false} CountOfMember(s: seq<Name>, n: Name)
    requires NoDuplicates(s)
    ensures multiset(s)[n] == if n in s then 1 else 0
  {
    if s != [] {
      var front := s[..|s| - 1];
      assert s == front + [s[|s| - 1]];
      CountOfMember(front, n);
    }
  }

  /** Whatever order the hash maps are walked in, the same units are emitted. */
  lemma ResolutionsAgree(units: Units, a: seq<Name>, b: seq<Name>)
    requires IsResolution(units, a) && IsResolution(units, b)
    ensures multiset(a) == multiset(b) && |a| == |b|
  {
    forall n
      ensures multiset(a)[n] == multiset(b)[n]
    {
      CountOfMember(a, n);
      CountOfMember(b, n);
      assert n in a <==> n in b;
    }
    assert |multiset(a)| == |a| && |multiset(b)| == |b|;
  }

  // ---------------------------------------------------------------- edges

  /** The entries of `deps` that become edges: loaded, and not in `skip`. */
  function Loaded(units: Units, deps: seq<Name>, skip: seq<Name>): seq<Name>
  {
    if deps == [] then []
    else
      var rest := Loaded(units, deps[..|deps| - 1], skip);
      var d := deps[|deps| - 1];
      if d in units && d !in skip then rest + [d] else rest
  }

  lemma NothingLoaded(units: Units, skip: seq<Name>)
    ensures Loaded(units, [], skip) == []
  {
  }

  lemma LoadedSnoc(units: Units, deps: seq<Name>, i: nat, skip: seq<Name>)
    requires i < |deps|
    ensures Loaded(units, deps[..i + 1], skip) ==
      Loaded(units, deps[..i], skip) + if deps[i] in units && deps[i] !in skip then [deps[i]] else []
  {
    assert deps[..i + 1][..i] == deps[..i];
  }

  /** The sources of the edges into `n`, with repetitions. */
  function Incoming(units: Units, n: Name): seq<Name>
    requires n in units
  {
    Loaded(units, units[n].after, []) + Loaded(units, units[n].requires_, units[n].after)
  }

  lemma {:induction false} LoadedMember(units: Units, deps: seq<Name>, skip: seq<Name>, d: Name)
    ensures d in Loaded(units, deps, skip) <==> d in deps && d in units && d !in skip
  {
    if deps != [] {
      var front := deps[..|deps| - 1];
      LoadedMember(units, front, skip, d);
      assert deps == front + [deps[|deps| - 1]];
    }
  }

  lemma IncomingMember(units: Units, n: Name, d: Name)
    requires n in units
    ensures d in Incoming(units, n) <==> DependsOn(units, n, d)
  {
    LoadedMember(units, units[n].after, [], d);
    LoadedMember(units, units[n].requires_, units[n].after, d);
  }

  /** How many entries of `deps` are not in `gone`. */
  function Left(deps: seq<Name>, gone: seq<Name>): nat
  {
    if deps == [] then 0
    else Left(deps[..|deps| - 1], gone) + (if deps[|deps| - 1] in gone then 0 else 1)
  }

  lemma {:induction false} LeftNothingGone(deps: seq<Name>)
    ensures Left(deps, []) == |deps|
  {
    if deps != [] { LeftNothingGone(deps[..|deps| - 1]); }
  }

  lemma {:induction false} LeftAfter(deps: seq<Name>, gone: seq<Name>, cur: Name)
    requires cur !in gone
    ensures Left(deps, gone) == Left(deps, gone + [cur]) + multiset(deps)[cur]
  {
    if deps != [] {
      var front := deps[..|deps| - 1];
      assert deps == front + [deps[|deps| - 1]];
      LeftAfter(front, gone, cur);
    }
  }

  lemma {:induction false} LeftZero(deps: seq<Name>, gone: seq<Name>)
    ensures Left(deps, gone) == 0 <==> forall d :: d in deps ==> d in gone
  {
    if deps != [] {
      var front := deps[..|deps| - 1];
      assert deps == front + [deps[|deps| - 1]];
      LeftZero(front, gone);
    }
  }

  // ---------------------------------------------------------------- the algorithm

  type Graph = map<Name, seq<Name>>
  type Degrees = map<Name, int>

  /** How often `n` is listed as waiting for `d`. */
  function EdgeCount(graph: Graph, d: Name, n: Name): nat
    requires d in graph
  {
    multiset(graph[d])[n]
  }

  lemma PushEdge(graph: Graph, dep: Name, name: Name)
    requires dep in graph
    ensures var g := graph[dep := graph[dep] + [name]];
      forall d, n :: d in graph ==>
        EdgeCount(g, d, n) == EdgeCount(graph, d, n) + if d == dep && n == name then 1 else 0
  {
  }

  /** `graph` and `degrees` describe the edges into the units of `done`. */
  ghost predicate Describes(units: Units, graph: Graph, degrees: Degrees, done: set<Name>)
  {
    && graph.Keys == units.Keys && degrees.Keys == units.Keys && done <= units.Keys
    && (forall d, x :: d in graph && x !in units ==> EdgeCount(graph, d, x) == 0)
    && (forall n :: n in units ==> degrees[n] == if n in done then |Incoming(units, n)| else 0)
    && (forall d, n :: d in units && n in units ==>
      EdgeCount(graph, d, n) == if n in done then multiset(Incoming(units, n))[d] else 0)
  }

  /** The inner loops of lines 214-222: one edge per loaded entry of `deps`. */
  method AddEdges(units: Units, name: Name, deps: seq<Name>, skip: seq<Name>, graph: Graph, degrees: Degrees)
    returns (g: Graph, deg: Degrees)
    requires graph.Keys == units.Keys && degrees.Keys == units.Keys && name in units
    ensures g.Keys == units.Keys
    ensures forall d, n :: d in units ==>
      EdgeCount(g, d, n) == EdgeCount(graph, d, n) + if n == name then multiset(Loaded(units, deps, skip))[d] else 0
    ensures deg == degrees[name := degrees[name] + |Loaded(units, deps, skip)|]
  {
    hide EdgeCount, Loaded;
    NothingLoaded(units, skip);
    g, deg := graph, degrees;
    for i := 0 to |deps|
      invariant g.Keys == units.Keys
      invariant forall d, n :: d in units ==>
        EdgeCount(g, d, n) ==
          EdgeCount(graph, d, n) + if n == name then multiset(Loaded(units, deps[..i], skip))[d] else 0
      invariant deg == degrees[name := degrees[name] + |Loaded(units, deps[..i], skip)|]
    {
      var dep := deps[i];
      LoadedSnoc(units, deps, i, skip);
      if dep in units && dep !in skip {
        PushEdge(g, dep, name);
        g := g[dep := g[dep] + [name]];
        deg := deg[name := deg[name] + 1];
      }
    }
    assert deps[..|deps|] == deps;
  }

  lemma DescribesKeys(units: Units, graph: Graph, degrees: Degrees, done: set<Name>)
    requires Describes(units, graph, degrees, done)
    ensures graph.Keys == units.Keys && degrees.Keys == units.Keys
  {
  }

  lemma DescribesNothing(units: Units)
    ensures Describes(units, map n | n in units :: [], map n | n in units :: 0, {})
  {
    hide Incoming;
  }

  /** Both edge lists of one more unit have been added. */
  lemma DescribesMore(units: Units, name: Name, graph: Graph, degrees: Degrees, g: Graph, deg: Degrees, done: set<Name>)
    requires name in units && name !in done && Describes(units, graph, degrees, done) && g.Keys == units.Keys
    requires forall d, n :: d in units ==>
      EdgeCount(g, d, n) == EdgeCount(graph, d, n) + if n == name then multiset(Incoming(units, name))[d] else 0
    requires deg == degrees[name := degrees[name] + |Incoming(units, name)|]
    ensures Describes(units, g, deg, done + {name})
  {
    hide EdgeCount, Incoming;
  }

  lemma IncomingCount(units: Units, name: Name)
    requires name in units
    ensures var a, b := Loaded(units, units[name].after, []), Loaded(units, units[name].requires_, units[name].after);
      |Incoming(units, name)| == |a| + |b| &&
      forall d :: multiset(Incoming(units, name))[d] == multiset(a)[d] + multiset(b)[d]
  {
    hide Loaded;
  }

  method BuildGraph(units: Units) returns (graph: Graph, degrees: Degrees)
    ensures Describes(units, graph, degrees, units.Keys)
  {
    hide *;
    graph := map n | n in units :: [];
    degrees := map n | n in units :: 0;
    DescribesNothing(units);
    var todo := units.Keys;
    assert units.Keys - todo == {};
    while todo != {}
      invariant todo <= units.Keys
      invariant Describes(units, graph, degrees, units.Keys - todo)
    {
      var name :| name in todo;
      var unit := units[name];
      DescribesKeys(units, graph, degrees, units.Keys - todo);
      ghost var graph0, degrees0 := graph, degrees;
      graph, degrees := AddEdges(units, name, unit.after, [], graph, degrees);
      graph, degrees := AddEdges(units, name, unit.requires_, unit.after, graph, degrees);
      IncomingCount(units, name);
      DescribesMore(units, name, graph0, degrees0, graph, degrees, units.Keys - todo);
      assert units.Keys - (todo - {name}) == units.Keys - todo + {name};
      todo := todo - {name};
    }
    assert units.Keys - todo == units.Keys;
  }

  /** The queue invariant: units emitted or waiting are those with no edge left to consume. */
  ghost predicate Counted(units: Units, queue: seq<Name>, degrees: Degrees)
  {
    && degrees.Keys == units.Keys
    && NoDuplicates(queue)
    && (forall n :: n in queue ==> n in units)
    && (forall n :: n in units ==> (degrees[n] == 0 <==> n in queue))
  }

  /** `n` depends on a unit of the wave just before its own. */
  ghost predicate Supported(units: Units, queue: seq<Name>, level: map<Name, nat>, n: Name)
  {
    n in level && exists d :: d in queue && d in level && DependsOn(units, n, d) && level[d] + 1 == level[n]
  }

  ghost predicate AllSupported(units: Units, queue: seq<Name>, level: map<Name, nat>)
  {
    forall n {:trigger Supported(units, queue, level, n)} ::
      n in queue && n in level && level[n] > 0 ==> Supported(units, queue, level, n)
  }

  /** Dependencies lie in earlier waves. */
  ghost predicate AboveDependencies(units: Units, queue: seq<Name>, level: map<Name, nat>)
  {
    forall n, d :: n in queue && DependsOn(units, n, d) ==>
      d in queue && n in level && d in level && level[d] < level[n]
  }

  ghost predicate Rising(queue: seq<Name>, level: map<Name, nat>)
  {
    forall i, j :: 0 <= i < j < |queue| ==> queue[i] in level && queue[j] in level && level[queue[i]] <= level[queue[j]]
  }

  /** Wave numbers of the units that are emitted or waiting. */
  ghost predicate Leveled(units: Units, queue: seq<Name>, level: map<Name, nat>)
  {
    && (forall n :: n in queue ==> n in level)
    && AboveDependencies(units, queue, level)
    && AllSupported(units, queue, level)
    && Rising(queue, level)
  }

  /** Each count is the edges left once `order` is emitted, plus those in `rest` not yet consumed. */
  ghost predicate Balanced(units: Units, degrees: Degrees, order: seq<Name>, rest: seq<Name>)
  {
    && degrees.Keys == units.Keys
    && (forall n :: n in rest ==> n in units)
    && (forall n :: n in units ==> degrees[n] == Left(Incoming(units, n), order) + multiset(rest)[n])
  }

  lemma Consume(units: Units, degrees: Degrees, order: seq<Name>, next: seq<Name>, k: nat)
    requires k < |next| && Balanced(units, degrees, order, next[k..])
    ensures next[k] in units && degrees.Keys == units.Keys && degrees[next[k]] > 0
    ensures Balanced(units, degrees[next[k] := degrees[next[k]] - 1], order, next[k + 1..])
  {
    hide Left, Incoming;
    var rest, tail, deg := next[k..], next[k + 1..], degrees[next[k] := degrees[next[k]] - 1];
    assert rest[0] == next[k];
    CountTail(next, k, next[k]);
    forall n | n in tail
      ensures n in units
    {
      var i :| 0 <= i < |tail| && tail[i] == n;
      assert rest[i + 1] == n;
    }
    forall n | n in units
      ensures deg[n] == Left(Incoming(units, n), order) + multiset(tail)[n]
    {
      CountTail(next, k, n);
    }
  }

  lemma CountTail(next: seq<Name>, k: nat, n: Name)
    requires k < |next|
    ensures multiset(next[k..])[n] == multiset(next[k + 1..])[n] + if n == next[k] then 1 else 0
  {
    assert next[k..] == [next[k]] + next[k + 1..];
  }

  /** Lines 231-232: consume the edges out of the unit emitted last. */
  method Release(units: Units, next: seq<Name>, ready: seq<Name>, degrees: Degrees,
                 ghost order: seq<Name>, ghost queue: seq<Name>)
    returns (r: seq<Name>, deg: Degrees, ghost wave: seq<Name>)
    requires Counted(units, queue, degrees) && Balanced(units, degrees, order, next)
    ensures r == ready + wave
    ensures Counted(units, queue + wave, deg) && Balanced(units, deg, order, [])
    ensures forall n :: n in wave ==> n in next
  {
    hide *;
    r, deg, wave := ready, degrees, [];
    assert queue + wave == queue;
    assert next[0..] == next;
    for k := 0 to |next|
      invariant r == ready + wave
      invariant Counted(units, queue + wave, deg) && Balanced(units, deg, order, next[k..])
      invariant forall n :: n in wave ==> n in next
    {
      var n := next[k];
      Consume(units, deg, order, next, k);
      Decrement(units, queue + wave, deg, n);
      deg := deg[n := deg[n] - 1];
      if deg[n] == 0 {
        r := r + [n];
        assert queue + (wave + [n]) == (queue + wave) + [n];
        wave := wave + [n];
      }
    }
    assert next[|next|..] == [];
  }

  lemma Decrement(units: Units, queue: seq<Name>, degrees: Degrees, n: Name)
    requires Counted(units, queue, degrees) && n in units && degrees[n] > 0
    ensures var deg := degrees[n := degrees[n] - 1];
      Counted(units, if deg[n] == 0 then queue + [n] else queue, deg)
  {
  }

  /** Lines 225-226: the initial queue, in an arbitrary order. */
  method Roots(units: Units, degrees: Degrees) returns (ready: seq<Name>)
    requires degrees.Keys == units.Keys
    ensures Counted(units, ready, degrees)
  {
    ready := [];
    var todo := degrees.Keys;
    while todo != {}
      invariant todo <= units.Keys && NoDuplicates(ready)
      invariant forall n :: n in ready <==> n in units.Keys - todo && degrees[n] == 0
    {
      var name :| name in todo;
      if degrees[name] == 0 {
        ready := ready + [name];
      }
      todo := todo - {name};
    }
  }

  /** A unit whose edges are all consumed may be emitted. */
  lemma EmitKeepsSound(units: Units, order: seq<Name>, cur: Name)
    requires Sound(units, order) && cur in units && cur !in order
    requires Left(Incoming(units, cur), order) == 0
    ensures Sound(units, order + [cur])
  {
    var order' := order + [cur];
    forall i, d | 0 <= i < |order'| && DependsOn(units, order'[i], d)
      ensures d in order'[..i]
    {
      if i < |order| {
        assert d in order[..i] && order'[..i] == order[..i];
      } else {
        IncomingMember(units, cur, d);
        LeftZero(Incoming(units, cur), order);
        assert order'[..i] == order;
      }
    }
  }

  /** Everything still unemitted when the queue runs dry is stuck behind something unemitted. */
  lemma DryQueueIsExhausted(units: Units, order: seq<Name>, degrees: Degrees)
    requires Counted(units, order, degrees)
    requires forall n :: n in units ==> degrees[n] == Left(Incoming(units, n), order)
    ensures Exhausted(units, order)
  {
    forall n | n in units && n !in order
      ensures Stuck(units, order, n)
    {
      LeftZero(Incoming(units, n), order);
      var d :| d in Incoming(units, n) && d !in order;
      IncomingMember(units, n, d);
    }
  }

  /** The wave numbers with `wave` added as the wave after position `c`. */
  ghost function NextLevels(queue: seq<Name>, c: nat, wave: seq<Name>, level: map<Name, nat>): map<Name, nat>
    requires c < |queue| && forall n :: n in queue ==> n in level
  {
    map n | n in queue + wave :: if n in queue then level[n] else level[queue[c]] + 1
  }

  lemma WaveIsNew(queue: seq<Name>, wave: seq<Name>, n: Name)
    requires NoDuplicates(queue + wave) && n in wave
    ensures n !in queue
  {
    var all := queue + wave;
    var j :| 0 <= j < |wave| && wave[j] == n;
    assert all[|queue| + j] == n;
    forall i | 0 <= i < |queue|
      ensures queue[i] != n
    {
      assert all[i] == queue[i];
    }
  }

  lemma WaveLevels(queue: seq<Name>, c: nat, wave: seq<Name>, level: map<Name, nat>)
    requires c < |queue| && (forall n :: n in queue ==> n in level) && NoDuplicates(queue + wave)
    ensures var level' := NextLevels(queue, c, wave, level);
      && (forall n :: n in queue + wave ==> n in level')
      && (forall n :: n in queue ==> level'[n] == level[n])
      && (forall n :: n in wave ==> n in level' && level'[n] == level[queue[c]] + 1)
  {
    forall n | n in wave
      ensures n !in queue
    {
      WaveIsNew(queue, wave, n);
    }
  }

  lemma NextRising(queue: seq<Name>, c: nat, wave: seq<Name>, level: map<Name, nat>)
    requires c < |queue| && (forall n :: n in queue ==> n in level) && NoDuplicates(queue + wave)
    requires Rising(queue, level) && Narrow(queue, c, level)
    ensures Rising(queue + wave, NextLevels(queue, c, wave, level))
  {
    hide NextLevels, NoDuplicates;
    var all, level' := queue + wave, NextLevels(queue, c, wave, level);
    WaveLevels(queue, c, wave, level);
    forall i, j | 0 <= i < j < |all|
      ensures all[i] in level' && all[j] in level' && level'[all[i]] <= level'[all[j]]
    {
      assert i < |queue| ==> all[i] == queue[i];
      assert j < |queue| ==> all[j] == queue[j];
      assert i >= |queue| ==> all[i] in wave;
      assert j >= |queue| ==> all[j] in wave;
    }
  }

  lemma NextAbove(units: Units, queue: seq<Name>, c: nat, wave: seq<Name>, level: map<Name, nat>)
    requires c < |queue| && (forall n :: n in queue ==> n in level) && NoDuplicates(queue + wave)
    requires AboveDependencies(units, queue, level) && Rising(queue, level)
    requires forall n, d :: n in wave && DependsOn(units, n, d) ==> d in queue[..c + 1]
    ensures AboveDependencies(units, queue + wave, NextLevels(queue, c, wave, level))
  {
    hide NextLevels, NoDuplicates, DependsOn;
    var all, level' := queue + wave, NextLevels(queue, c, wave, level);
    WaveLevels(queue, c, wave, level);
    forall n, d | n in all && DependsOn(units, n, d)
      ensures d in all && n in level' && d in level' && level'[d] < level'[n]
    {
      if n !in queue {
        assert n in wave;
        var i :| 0 <= i < c + 1 && queue[..c + 1][i] == d;
        assert queue[i] == d;
      }
    }
  }

  lemma NextSupported(units: Units, queue: seq<Name>, c: nat, wave: seq<Name>, level: map<Name, nat>)
    requires c < |queue| && (forall n :: n in queue ==> n in level) && NoDuplicates(queue + wave)
    requires AllSupported(units, queue, level)
    requires forall n :: n in wave ==> DependsOn(units, n, queue[c])
    ensures AllSupported(units, queue + wave, NextLevels(queue, c, wave, level))
  {
    hide NextLevels, NoDuplicates, DependsOn;
    var all, level' := queue + wave, NextLevels(queue, c, wave, level);
    WaveLevels(queue, c, wave, level);
    forall n | n in all && n in level' && level'[n] > 0
      ensures Supported(units, all, level', n)
    {
      if n in queue {
        assert Supported(units, queue, level, n);
        var d :| d in queue && d in level && DependsOn(units, n, d) && level[d] + 1 == level[n];
        assert d in all && level'[d] == level[d];
      } else {
        assert n in wave && queue[c] in queue && queue[c] in all;
      }
    }
  }

  /** Newly released units form the wave after the unit that released them. */
  lemma NextWave(units: Units, queue: seq<Name>, c: nat, wave: seq<Name>, level: map<Name, nat>)
    returns (level': map<Name, nat>)
    requires Leveled(units, queue, level) && NoDuplicates(queue + wave)
    requires c < |queue| && Narrow(queue, c, level)
    requires forall n :: n in wave ==> DependsOn(units, n, queue[c])
    requires forall n, d :: n in wave && DependsOn(units, n, d) ==> d in queue[..c + 1]
    ensures Leveled(units, queue + wave, level')
    ensures forall n :: n in queue ==> level'[n] == level[n]
    ensures forall n :: n in wave ==> level'[n] == level[queue[c]] + 1
  {
    hide NextLevels, NoDuplicates, DependsOn, Narrow, AboveDependencies, AllSupported, Rising;
    level' := NextLevels(queue, c, wave, level);
    WaveLevels(queue, c, wave, level);
    NextAbove(units, queue, c, wave, level);
    NextSupported(units, queue, c, wave, level);
    NextRising(queue, c, wave, level);
  }

  /** Waiting units are at most one wave beyond position `c`. */
  ghost predicate Narrow(queue: seq<Name>, c: nat, level: map<Name, nat>)
    requires forall n :: n in queue ==> n in level
  {
    forall i :: c <= i < |queue| ==> level[queue[i]] <= level[queue[c]] + 1
  }

  lemma StillNarrow(units: Units, queue: seq<Name>, c: nat, wave: seq<Name>,
                    level: map<Name, nat>, level': map<Name, nat>)
    requires c < |queue| && Leveled(units, queue, level) && Narrow(queue, c, level)
    requires Leveled(units, queue + wave, level')
    requires forall n :: n in queue ==> level'[n] == level[n]
    requires forall n :: n in wave ==> level'[n] == level[queue[c]] + 1
    ensures Narrow(queue + wave, c + 1, level')
  {
    var all := queue + wave;
    forall i | c + 1 <= i < |all|
      ensures level'[all[i]] <= level'[all[c + 1]] + 1
    {
      assert all[c] == queue[c];
      assert i < |queue| ==> all[i] == queue[i];
      assert i >= |queue| ==> all[i] in wave;
    }
  }

  /** The invariant of the queue loop; `queue` lists the units emitted and waiting. */
  ghost predicate Progress(units: Units, order: seq<Name>, ready: seq<Name>, degrees: Degrees,
                           queue: seq<Name>, level: map<Name, nat>)
  {
    && queue == order + ready
    && Counted(units, queue, degrees)
    && (forall n :: n in units ==> degrees[n] == Left(Incoming(units, n), order))
    && Sound(units, order)
    && Leveled(units, queue, level)
    && Narrow(queue, |order|, level)
  }

  /** Lines 225-233: the queue loop. */
  method Drain(units: Units, graph: Graph, degrees: Degrees) returns (order: seq<Name>)
    requires Describes(units, graph, degrees, units.Keys)
    ensures Sound(units, order) && Exhausted(units, order) && SortedByDepth(units, order)
  {
    hide *;
    var deg := degrees;
    FinishedGraph(units, graph, deg);
    var ready := Roots(units, deg);
    order := [];
    ghost var queue := ready;
    ghost var level := FirstWave(units, degrees, queue);
    while ready != []
      invariant Progress(units, order, ready, deg, queue, level)
      decreases |units| - |order|
    {
      var cur := ready[0];
      Emit(units, graph, order, ready, deg, queue, level);
      ready := ready[1..];
      order := order + [cur];
      ghost var wave;
      ready, deg, wave := Release(units, graph[cur], ready, deg, order, queue);
      level := Advance(units, order, ready, queue, wave, graph, deg, level);
      queue := queue + wave;
    }
    DryQueue(units, order, deg, queue, level);
  }

  lemma FinishedGraph(units: Units, graph: Graph, degrees: Degrees)
    requires Describes(units, graph, degrees, units.Keys)
    ensures graph.Keys == units.Keys && degrees.Keys == units.Keys
    ensures forall n :: n in units ==> degrees[n] == |Incoming(units, n)|
  {
  }

  /** Taking the front unit off the queue: it is sound to emit, and its edges are all still counted. */
  lemma Emit(units: Units, graph: Graph, order: seq<Name>, ready: seq<Name>, degrees: Degrees,
             queue: seq<Name>, level: map<Name, nat>)
    requires exists start :: Describes(units, graph, start, units.Keys)
    requires Progress(units, order, ready, degrees, queue, level) && ready != []
    ensures var cur, order' := ready[0], order + [ready[0]];
      && cur in graph && graph.Keys == units.Keys && Sound(units, order') && |order'| <= |units|
      && queue == order' + ready[1..] && Counted(units, queue, degrees) && Leveled(units, queue, level)
      && Narrow(queue, |order|, level)
      && (forall n :: n in units ==> EdgeCount(graph, cur, n) == multiset(Incoming(units, n))[cur])
      && Balanced(units, degrees, order', graph[cur])
  {
    hide Sound, Leveled, Narrow, Counted, Left, Incoming;
    var cur := ready[0];
    FrontUnit(units, order, ready, degrees, queue);
    ConsumeEdges(units, graph, order, cur);
    EmitKeepsSound(units, order, cur);
    RoomLeft(units, order + [cur]);
  }

  lemma FrontUnit(units: Units, order: seq<Name>, ready: seq<Name>, degrees: Degrees, queue: seq<Name>)
    requires Counted(units, queue, degrees) && queue == order + ready && ready != []
    ensures degrees.Keys == units.Keys && ready[0] in units && degrees[ready[0]] == 0 && ready[0] !in order
    ensures queue == order + [ready[0]] + ready[1..]
  {
    assert queue[|order|] == ready[0];
    forall i | 0 <= i < |order| ensures order[i] != ready[0] { assert queue[i] == order[i]; }
  }

  lemma DryQueue(units: Units, order: seq<Name>, degrees: Degrees, queue: seq<Name>, level: map<Name, nat>)
    requires Progress(units, order, [], degrees, queue, level)
    ensures Sound(units, order) && Exhausted(units, order) && SortedByDepth(units, order)
  {
    assert queue == order;
    DryQueueIsExhausted(units, order, degrees);
    WavesAreDepths(units, order, level);
  }

  /** The edges out of `cur` are exactly those its dependents still count. */
  lemma ConsumeEdges(units: Units, graph: Graph, order: seq<Name>, cur: Name)
    requires graph.Keys == units.Keys && cur in units && cur !in order
    requires forall x :: x !in units ==> EdgeCount(graph, cur, x) == 0
    requires forall n :: n in units ==> EdgeCount(graph, cur, n) == multiset(Incoming(units, n))[cur]
    ensures forall n :: n in graph[cur] ==> n in units
    ensures forall n :: n in units ==>
      Left(Incoming(units, n), order) == Left(Incoming(units, n), order + [cur]) + multiset(graph[cur])[n]
  {
    forall n | n in graph[cur]
      ensures n in units
    {
      assert EdgeCount(graph, cur, n) > 0;
    }
    forall n | n in units
      ensures Left(Incoming(units, n), order) == Left(Incoming(units, n), order + [cur]) + multiset(graph[cur])[n]
    {
      LeftAfter(Incoming(units, n), order, cur);
      assert EdgeCount(graph, cur, n) == multiset(graph[cur])[n];
    }
  }

  lemma FirstWave(units: Units, degrees: Degrees, queue: seq<Name>) returns (level: map<Name, nat>)
    requires Counted(units, queue, degrees)
    requires forall n :: n in units ==> degrees[n] == |Incoming(units, n)|
    ensures Progress(units, [], queue, degrees, queue, level)
  {
    level := map n | n in units :: 0;
    forall n, d | n in queue && DependsOn(units, n, d)
      ensures false
    {
      IncomingMember(units, n, d);
    }
    forall n | n in units
      ensures degrees[n] == Left(Incoming(units, n), [])
    {
      LeftNothingGone(Incoming(units, n));
    }
  }

  lemma RoomLeft(units: Units, order: seq<Name>)
    requires Sound(units, order)
    ensures |order| <= |units|
  {
    NamesCount(order);
    assert Names(order) <= units.Keys;
    CardinalityMonotone(Names(order), units.Keys);
  }

  /** The invariant is restored once the released units are queued. */
  lemma Advance(units: Units, order: seq<Name>, ready: seq<Name>, queue: seq<Name>, wave: seq<Name>, graph: Graph,
                degrees: Degrees, level: map<Name, nat>) returns (level': map<Name, nat>)
    requires order != [] && order + ready == queue + wave && |order| <= |queue|
    requires Sound(units, order) && order[|order| - 1] in graph
    requires forall n :: n in units ==>
      EdgeCount(graph, order[|order| - 1], n) == multiset(Incoming(units, n))[order[|order| - 1]]
    requires Counted(units, queue + wave, degrees) && Balanced(units, degrees, order, [])
    requires forall n :: n in wave ==> n in graph[order[|order| - 1]]
    requires Leveled(units, queue, level) && Narrow(queue, |order| - 1, level)
    ensures Progress(units, order, ready, degrees, queue + wave, level')
  {
    hide Counted, Sound, Leveled, Left, Incoming, EdgeCount, DependsOn;
    var c := |order| - 1;
    assert queue[..c + 1] == (queue + wave)[..c + 1] == order;
    assert queue[c] == queue[..c + 1][c];
    ReleasedUnits(units, queue, c, wave, graph, degrees);
    level' := NextWave(units, queue, c, wave, level);
    StillNarrow(units, queue, c, wave, level, level');
    assert queue + wave == order + ready;
  }

  lemma ReleasedUnits(units: Units, queue: seq<Name>, c: nat, wave: seq<Name>, graph: Graph, degrees: Degrees)
    requires c < |queue| && queue[c] in graph
    requires forall n :: n in units ==> EdgeCount(graph, queue[c], n) == multiset(Incoming(units, n))[queue[c]]
    requires Counted(units, queue + wave, degrees)
    requires forall n :: n in units ==> degrees[n] == Left(Incoming(units, n), queue[..c + 1])
    requires forall n :: n in wave ==> n in graph[queue[c]]
    ensures NoDuplicates(queue + wave)
    ensures forall n :: n in wave ==> DependsOn(units, n, queue[c])
    ensures forall n, d :: n in wave && DependsOn(units, n, d) ==> d in queue[..c + 1]
  {
    forall n | n in wave
      ensures DependsOn(units, n, queue[c])
      ensures forall d :: DependsOn(units, n, d) ==> d in queue[..c + 1]
    {
      assert n in queue + wave;
      ReleasedUnit(units, queue, c, graph, n);
    }
  }

  lemma ReleasedUnit(units: Units, queue: seq<Name>, c: nat, graph: Graph, n: Name)
    requires c < |queue| && queue[c] in graph && n in units && n in graph[queue[c]]
    requires EdgeCount(graph, queue[c], n) == multiset(Incoming(units, n))[queue[c]]
    requires Left(Incoming(units, n), queue[..c + 1]) == 0
    ensures DependsOn(units, n, queue[c])
    ensures forall d :: DependsOn(units, n, d) ==> d in queue[..c + 1]
  {
    assert queue[c] in multiset(Incoming(units, n));
    IncomingMember(units, n, queue[c]);
    LeftZero(Incoming(units, n), queue[..c + 1]);
    forall d | DependsOn(units, n, d)
      ensures d in queue[..c + 1]
    {
      IncomingMember(units, n, d);
    }
  }

  // ---------------------------------------------------------------- waves are depths

  lemma {:induction false} WalkIsShort(units: Units, order: seq<Name>, level: map<Name, nat>, w: seq<Name>)
    requires Leveled(units, order, level)
    requires IsWalk(units, w) && w[0] in order
    ensures |w| <= level[w[0]] + 1
  {
    if |w| > 1 {
      assert DependsOn(units, w[0], w[1]);
      assert w[1] in units;
      WalkIsShort(units, order, level, w[1..]);
    }
  }

  lemma {:induction false} WalkOfLevel(units: Units, order: seq<Name>, level: map<Name, nat>, n: Name)
    returns (w: seq<Name>)
    requires Leveled(units, order, level) && n in order && n in units
    ensures IsWalk(units, w) && w[0] == n && |w| == level[n] + 1
    decreases level[n]
  {
    if level[n] == 0 {
      w := [n];
    } else {
      assert Supported(units, order, level, n);
      var d :| d in order && DependsOn(units, n, d) && level[d] + 1 == level[n];
      var rest := WalkOfLevel(units, order, level, d);
      w := [n] + rest;
      assert w[1..] == rest;
    }
  }

  /** The depth of a unit is its wave number, and nothing else is. */
  lemma LevelIsDepth(units: Units, order: seq<Name>, level: map<Name, nat>, n: Name, k: nat)
    requires Leveled(units, order, level) && n in order && n in units
    ensures IsDepth(units, n, k) <==> k == level[n]
  {
    hide AboveDependencies, AllSupported, Rising;
    var w := WalkOfLevel(units, order, level, n);
    forall v | IsWalk(units, v) && v[0] == n
      ensures |v| <= level[n] + 1
    {
      WalkIsShort(units, order, level, v);
    }
  }

  lemma WavesAreDepths(units: Units, order: seq<Name>, level: map<Name, nat>)
    requires Leveled(units, order, level) && forall n :: n in order ==> n in units
    ensures SortedByDepth(units, order)
  {
    hide IsDepth, AboveDependencies, AllSupported;
    forall i, k: nat | 0 <= i < |order|
      ensures IsDepth(units, order[i], k) <==> k == level[order[i]]
    {
      LevelIsDepth(units, order, level, order[i], k);
    }
    forall i | 0 <= i < |order|
      ensures HasDepth(units, order[i])
    {
      assert IsDepth(units, order[i], level[order[i]]);
    }
  }

  /**
   `execute(DependencyResolve)`.  Units in or below a dependency cycle are left
   out, and nothing else is; every other unit comes once, after all the loaded
   units it names, in waves of growing dependency depth.
   */
  method Resolve(units: Units) returns (order: seq<Name>, warned: bool)
    ensures IsResolution(units, order)
    ensures SortedByDepth(units, order)
    ensures warned <==> exists c :: OnCycle(units, c)
  {
    var graph, degrees := BuildGraph(units);
    order := Drain(units, graph, degrees);
    SoundAndExhausted(units, order);
    WarningIffCycle(units, order);
    warned := |order| < |units|;
  }
}
