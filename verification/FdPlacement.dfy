/**
 The child's descriptor shuffle in `spawn_with_socket_fds`: the passed
 descriptors should end up at 3, 4, 5, ... (the sd_listen_fds convention).
 A descriptor table maps open descriptors to the files they name.
 */
module FdPlacement {

  const LISTEN_FDS_START := 3

  type FdTable = map<int, int>

  function Target(i: int): int { LISTEN_FDS_START + i }

  // ---------------------------------------------------------------- what is wanted, and when it happens

  /** The child did not give up, and descriptor 3+i names the file that `fds[i]` named before. */
  predicate Placed(fds: seq<int>, before: FdTable, ok: bool, after: FdTable)
  {
    ok && forall i :: 0 <= i < |fds| ==> fds[i] in before && Target(i) in after && after[Target(i)] == before[fds[i]]
  }

  predicate AllOpen(fds: seq<int>, table: FdTable)
  {
    forall i :: 0 <= i < |fds| ==> fds[i] in table
  }

  predicate Distinct(fds: seq<int>)
  {
    forall i, j :: 0 <= i < j < |fds| ==> fds[i] != fds[j]
  }

  /** No descriptor sits on the target of an earlier entry. */
  predicate NoClash(fds: seq<int>)
  {
    forall i, j :: 0 <= i < j < |fds| ==> fds[j] != Target(i)
  }

  // ---------------------------------------------------------------- the loop

  /** The locals: the working copy of the list, the table, and whether `dup2` failed. */
  datatype State = State(w: seq<int>, table: FdTable, failed: bool)

  /** Line 222: later entries equal to entry `i` now refer to its new place. */
  function Redirect(w: seq<int>, i: nat, tgt: int): (r: seq<int>)
    requires i < |w|
    ensures |r| == |w|
    ensures forall j :: 0 <= j < |w| ==> r[j] == if j > i && w[j] == w[i] then tgt else w[j]
  {
    seq(|w|, j requires 0 <= j < |w| => if j > i && w[j] == w[i] then tgt else w[j])
  }

  /** Lines 223-224. */
  predicate StillNeeded(w: seq<int>, i: nat)
    requires i < |w|
  {
    exists j :: i < j < |w| && w[j] == w[i]
  }

  function PlaceOne(s: State, i: nat): State
    requires i < |s.w|
  {
    var tgt := Target(i);
    if s.failed || s.w[i] == tgt then s
    else
      var closed := s.table - {tgt};
      if s.w[i] !in closed then s.(table := closed, failed := true)
      else
        var doubled := closed[tgt := closed[s.w[i]]];
        var w := Redirect(s.w, i, tgt);
        State(w, if StillNeeded(w, i) then doubled else doubled - {w[i]}, false)
  }

  function PlaceFirst(fds: seq<int>, table: FdTable, n: nat): (s: State)
    requires n <= |fds|
    ensures |s.w| == |fds|
  {
    if n == 0 then State(fds, table, false) else PlaceOne(PlaceFirst(fds, table, n - 1), n - 1)
  }

  /** The loop of lines 216-226, in place on a copy of the list. */
  method Rearrange(fds: seq<int>, table: FdTable) returns (ok: bool, t: FdTable)
    ensures ok == !PlaceFirst(fds, table, |fds|).failed && t == PlaceFirst(fds, table, |fds|).table
    ensures Placed(fds, table, ok, t) <==> AllOpen(fds, table) && Distinct(fds) && NoClash(fds)
  {
    var w := new int[|fds|](j requires 0 <= j < |fds| => fds[j]);
    ok, t := true, table;
    assert w[..] == fds;
    var i := 0;
    while i < w.Length
      invariant 0 <= i <= w.Length == |fds|
      invariant PlaceFirst(fds, table, i) == State(w[..], t, !ok)
    {
      if ok {
        ok, t := MoveOne(w, i, t);
      }
      i := i + 1;
    }
    PlacementExact(fds, table);
  }

  /** One turn of the loop; `ok` is false where the child exits with 125. */
  method MoveOne(w: array<int>, i: nat, table: FdTable) returns (ok: bool, t: FdTable)
    requires i < w.Length
    modifies w
    ensures State(w[..], t, !ok) == PlaceOne(State(old(w[..]), table, false), i)
  {
    var tgt := Target(i);
    ok, t := true, table;
    if w[i] == tgt {
      return;
    }
    t := t - {tgt};
    if w[i] !in t {
      ok := false;
      return;
    }
    t := t[tgt := t[w[i]]];
    ghost var before := w[..];
    for j := i + 1 to w.Length
      invariant forall k :: 0 <= k < j ==> w[k] == Redirect(before, i, tgt)[k]
      invariant forall k :: j <= k < w.Length ==> w[k] == before[k]
    {
      if w[j] == w[i] {
        w[j] := tgt;
      }
    }
    assert w[..] == Redirect(before, i, tgt);
    var keep := false;
    for j := i + 1 to w.Length
      invariant keep <==> exists k :: i < k < j && w[k] == w[i]
    {
      if w[j] == w[i] {
        keep := true;
      }
    }
    assert keep <==> StillNeeded(w[..], i);
    if !keep {
      t := t - {w[i]};
    }
  }

  // ---------------------------------------------------------------- the good case

  /** The table after `n` turns when nothing clashes. */
  function Expected(fds: seq<int>, table: FdTable, n: nat): FdTable
    requires n <= |fds| && AllOpen(fds, table)
  {
    map k |
      && k in table.Keys + (set i | 0 <= i < n :: Target(i))
      && (LISTEN_FDS_START <= k < Target(n) || k !in fds[..n]) ::
      if LISTEN_FDS_START <= k < Target(n) then table[fds[k - LISTEN_FDS_START]] else table[k]
  }

  lemma ExpectedAt(fds: seq<int>, table: FdTable, n: nat, k: int)
    requires n <= |fds| && AllOpen(fds, table)
    ensures k in Expected(fds, table, n) <==> LISTEN_FDS_START <= k < Target(n) || (k in table && k !in fds[..n])
    ensures LISTEN_FDS_START <= k < Target(n) ==> Expected(fds, table, n)[k] == table[fds[k - LISTEN_FDS_START]]
    ensures k in Expected(fds, table, n) && !(LISTEN_FDS_START <= k < Target(n)) ==>
      Expected(fds, table, n)[k] == table[k]
  {
    if LISTEN_FDS_START <= k < Target(n) {
      assert k == Target(k - LISTEN_FDS_START);
    }
  }

  lemma NothingRedirected(fds: seq<int>, i: nat, tgt: int)
    requires i < |fds| && Distinct(fds)
    ensures Redirect(fds, i, tgt) == fds && !StillNeeded(fds, i)
  {
  }

  lemma {:induction false} GoodPrefix(fds: seq<int>, table: FdTable, n: nat)
    requires n <= |fds| && AllOpen(fds, table) && Distinct(fds) && NoClash(fds)
    ensures PlaceFirst(fds, table, n) == State(fds, Expected(fds, table, n), false)
  {
    if n == 0 {
      forall k { ExpectedAt(fds, table, 0, k); }
      assert Expected(fds, table, 0) == table;
    } else {
      var i := n - 1;
      GoodPrefix(fds, table, i);
      NothingRedirected(fds, i, Target(i));
      GoodTurn(fds, table, i);
    }
  }

  lemma GoodTurn(fds: seq<int>, table: FdTable, i: nat)
    requires i < |fds| && AllOpen(fds, table) && Distinct(fds) && NoClash(fds)
    requires Redirect(fds, i, Target(i)) == fds && !StillNeeded(fds, i)
    ensures PlaceOne(State(fds, Expected(fds, table, i), false), i) == State(fds, Expected(fds, table, i + 1), false)
  {
    hide Expected;
    var now, next, tgt := Expected(fds, table, i), Expected(fds, table, i + 1), Target(i);
    assert fds[..i + 1] == fds[..i] + [fds[i]];
    assert fds[i] !in fds[..i];
    ExpectedAt(fds, table, i, fds[i]);
    assert fds[i] == Target(fds[i] - LISTEN_FDS_START);
    assert !(LISTEN_FDS_START <= fds[i] < tgt);
    var result := PlaceOne(State(fds, now, false), i).table;
    forall k
      ensures k in result <==> k in next
      ensures k in result ==> result[k] == next[k]
    {
      ExpectedAt(fds, table, i, k);
      ExpectedAt(fds, table, i + 1, k);
    }
    assert result == next;
  }

  // ---------------------------------------------------------------- the bad case

  /** Some earlier target is closed, or the child has given up; neither is ever repaired. */
  ghost predicate Broken(s: State, i: nat)
  {
    s.failed || exists k :: 0 <= k < i && Target(k) !in s.table
  }

  predicate OnEarlierTarget(fd: int, i: nat)
  {
    LISTEN_FDS_START <= fd < Target(i)
  }

  /** The entries handled so far were neither repeated nor on an earlier target. */
  predicate Clean(fds: seq<int>, n: nat)
    requires n <= |fds|
  {
    forall j :: 0 <= j < n ==> !OnEarlierTarget(fds[j], j) && fds[j] !in fds[..j]
  }

  /** Entries to come are as given, or redirected; a repetition of a handled entry is redirected. */
  ghost predicate Traced(s: State, fds: seq<int>, i: nat)
  {
    && |s.w| == |fds| && i <= |fds|
    && forall j :: i <= j < |fds| ==>
      && (s.w[j] == fds[j] || OnEarlierTarget(s.w[j], i))
      && (fds[j] in fds[..i] ==> OnEarlierTarget(s.w[j], i))
  }

  lemma BrokenStays(s: State, i: nat)
    requires i < |s.w| && Broken(s, i)
    ensures Broken(PlaceOne(s, i), i + 1)
  {
    if !s.failed {
      var k :| 0 <= k < i && Target(k) !in s.table;
      assert Target(k) != Target(i);
    }
  }

  lemma NeverStillNeeded(w: seq<int>, i: nat, tgt: int)
    requires i < |w| && w[i] != tgt
    ensures !StillNeeded(Redirect(w, i, tgt), i)
  {
  }

  /** Moving a file off an earlier target leaves that target closed. */
  lemma ClashBreaks(s: State, i: nat)
    requires i < |s.w| && OnEarlierTarget(s.w[i], i)
    ensures Broken(PlaceOne(s, i), i + 1)
  {
    NeverStillNeeded(s.w, i, Target(i));
    var k := s.w[i] - LISTEN_FDS_START;
    assert Target(k) == s.w[i] && 0 <= k < i;
  }

  lemma TraceGoesOn(s: State, fds: seq<int>, i: nat)
    requires i < |fds| && Traced(s, fds, i) && !OnEarlierTarget(s.w[i], i)
    ensures Traced(PlaceOne(s, i), fds, i + 1) || PlaceOne(s, i).failed
    ensures !OnEarlierTarget(fds[i], i) && fds[i] !in fds[..i]
  {
    var s' := PlaceOne(s, i);
    assert s.w[i] == fds[i];
    if !s'.failed {
      forall j | i + 1 <= j < |fds|
        ensures s'.w[j] == fds[j] || OnEarlierTarget(s'.w[j], i + 1)
        ensures fds[j] in fds[..i + 1] ==> OnEarlierTarget(s'.w[j], i + 1)
      {
        assert fds[..i + 1] == fds[..i] + [fds[i]];
      }
    }
  }

  lemma {:induction false} BadPrefix(fds: seq<int>, table: FdTable, n: nat)
    requires n <= |fds|
    ensures var s := PlaceFirst(fds, table, n);
      Broken(s, n) || (Traced(s, fds, n) && Clean(fds, n))
  {
    if n > 0 {
      var i := n - 1;
      BadPrefix(fds, table, i);
      hide PlaceOne, Traced, Broken;
      var s := PlaceFirst(fds, table, i);
      if Broken(s, i) {
        BrokenStays(s, i);
      } else if OnEarlierTarget(s.w[i], i) {
        ClashBreaks(s, i);
      } else {
        TraceGoesOn(s, fds, i);
        FailedIsBroken(PlaceOne(s, i), n);
        assert Clean(fds, n);
      }
    }
  }

  lemma FailedIsBroken(s: State, n: nat)
    ensures s.failed ==> Broken(s, n)
  {
  }

  lemma CleanMeans(fds: seq<int>)
    ensures Clean(fds, |fds|) <==> Distinct(fds) && NoClash(fds)
  {
    if Clean(fds, |fds|) {
      forall i, j | 0 <= i < j < |fds|
        ensures fds[i] != fds[j] && fds[j] != Target(i)
      {
        assert fds[..j][i] == fds[i];
      }
    } else {
      var j :| 0 <= j < |fds| && (OnEarlierTarget(fds[j], j) || fds[j] in fds[..j]);
      if OnEarlierTarget(fds[j], j) {
        assert fds[j] == Target(fds[j] - LISTEN_FDS_START);
      }
    }
  }

  // ---------------------------------------------------------------- exactly when

  /**
   For every list whatsoever: the descriptors end up in place if and only if
   they are open, pairwise distinct, and none sits on the target of an earlier one.
   */
  lemma PlacementExact(fds: seq<int>, table: FdTable)
    ensures var s := PlaceFirst(fds, table, |fds|);
      Placed(fds, table, !s.failed, s.table) <==> AllOpen(fds, table) && Distinct(fds) && NoClash(fds)
  {
    hide PlaceFirst, Distinct, NoClash, Expected;
    var s, n := PlaceFirst(fds, table, |fds|), |fds|;
    CleanMeans(fds);
    if AllOpen(fds, table) && Distinct(fds) && NoClash(fds) {
      GoodPrefix(fds, table, n);
      forall i | 0 <= i < n
        ensures Target(i) in s.table && s.table[Target(i)] == table[fds[i]]
      {
        ExpectedAt(fds, table, n, Target(i));
      }
    } else if AllOpen(fds, table) {
      BadPrefix(fds, table, n);
    }
  }

  /** In that case other descriptors are untouched, and the old places outside the target range are closed. */
  lemma PlacementFrame(fds: seq<int>, table: FdTable, k: int)
    requires AllOpen(fds, table) && Distinct(fds) && NoClash(fds)
    requires !(LISTEN_FDS_START <= k < Target(|fds|))
    ensures var t := PlaceFirst(fds, table, |fds|).table;
      && (k in t <==> k in table && k !in fds)
      && (k in t ==> t[k] == table[k])
  {
    GoodPrefix(fds, table, |fds|);
    ExpectedAt(fds, table, |fds|, k);
    assert fds[..|fds|] == fds;
  }

  /** So every strictly increasing list that starts at 3 or above is placed correctly. */
  lemma IncreasingIsFine(fds: seq<int>)
    requires forall i, j :: 0 <= i < j < |fds| ==> fds[i] < fds[j]
    requires fds != [] ==> fds[0] >= LISTEN_FDS_START
    ensures Distinct(fds) && NoClash(fds)
  {
    forall j | 0 <= j < |fds|
      ensures fds[j] >= Target(j)
    {
      IncreasingBound(fds, j);
    }
  }

  lemma {:induction false} IncreasingBound(fds: seq<int>, j: nat)
    requires j < |fds| && fds[0] >= LISTEN_FDS_START
    requires forall a, b :: 0 <= a < b < |fds| ==> fds[a] < fds[b]
    ensures fds[j] >= Target(j)
  {
    if j > 0 {
      IncreasingBound(fds, j - 1);
    }
  }

  predicate AllFrom(fds: seq<int>, base: int)
  {
    forall i :: 0 <= i < |fds| ==> fds[i] >= base
  }

  /** The descriptors from `base` on, the lowest of them last. */
  function LowestLast(base: int, n: nat): seq<int>
    requires n >= 1
  {
    seq(n, i => if i < n - 1 then base + 1 + i else base)
  }

  lemma LowestLastClashes(base: int, n: nat)
    requires base >= LISTEN_FDS_START && n > base - 2
    ensures var fds := LowestLast(base, n);
      |fds| == n && Distinct(fds) && AllFrom(fds, base) && !NoClash(fds)
  {
    var fds := LowestLast(base, n);
    assert fds[n - 1] == Target(base - LISTEN_FDS_START) && base - LISTEN_FDS_START < n - 1;
  }

  /**
   When the lower descriptors are taken by other files, short lists are safe in
   any order: every list of `n` distinct descriptors from `base` up avoids a
   clash if and only if `n <= base - 2`.
   */
  lemma OrderIsFreeUpTo(base: int, n: nat)
    requires base >= LISTEN_FDS_START
    ensures (forall fds :: |fds| == n && Distinct(fds) && AllFrom(fds, base) ==> NoClash(fds)) <==> n <= base - 2
  {
    if n > base - 2 {
      LowestLastClashes(base, n);
    }
  }

  /**
   The program: signalfd and epoll hold 3 and 4 when sockets are bound, so
   three sockets are safe in any order, and four are not: 6, 7, 8, 5 is misplaced.
   */
  lemma FourSocketsCanFail(table: FdTable)
    requires {3, 4, 5, 6, 7, 8} <= table.Keys
    ensures forall fds :: |fds| <= 3 && Distinct(fds) && AllFrom(fds, 5) ==> NoClash(fds)
    ensures var s := PlaceFirst([6, 7, 8, 5], table, 4);
      !Placed([6, 7, 8, 5], table, !s.failed, s.table)
  {
    forall fds | |fds| <= 3 && Distinct(fds) && AllFrom(fds, 5)
      ensures NoClash(fds)
    {
      OrderIsFreeUpTo(5, |fds|);
    }
    hide PlaceFirst, Placed;
    PlacementExact([6, 7, 8, 5], table);
    assert [6, 7, 8, 5][3] == Target(2);
  }
}
