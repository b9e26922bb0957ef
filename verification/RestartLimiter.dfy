/**
 The theory of one unit's restart history: capped exponential backoff and a
 fixed-window burst counter, seen as a sequence of granted restarts.
 */
module RestartLimiter {
  import opened UnitFiles
  import opened Processes

  // ---------------------------------------------------------------- backoff

  lemma {:induction false} Pow2Monotone(a: nat, b: nat)
    requires a <= b
    ensures 1 <= Pow2(a) <= Pow2(b)
    decreases b
  {
    if a < b {
      Pow2Monotone(a, b - 1);
    } else if a > 0 {
      Pow2Monotone(a - 1, b - 1);
    }
  }

  lemma Pow2Table()
    ensures Pow2(6) == 64 && Pow2(7) == 128 && Pow2(12) == 4096 && Pow2(13) == 8192
  {
    assert Pow2(4) == 16;
    assert Pow2(8) == 256;
    assert Pow2(12) == 4096;
  }

  /** Clamping the exponent at 13 never changes the delay, and the cap is reached exactly there. */
  lemma BackoffRefinement(n: nat)
    ensures DelayMs(n) == Min(BASE_DELAY_MS * Pow2(n), MAX_DELAY_MS)
    ensures DelayMs(n) == MAX_DELAY_MS == 10 * 60 * 1000 <==> n >= 13
    ensures 100 == BASE_DELAY_MS <= DelayMs(n) <= MAX_DELAY_MS
  {
    Pow2Table();
    if n >= 13 {
      Pow2Monotone(13, n);
    } else {
      Pow2Monotone(0, n);
      Pow2Monotone(n, 12);
    }
  }

  lemma BackoffMonotone(a: nat, b: nat)
    requires a <= b
    ensures DelayMs(a) <= DelayMs(b)
  {
    BackoffRefinement(a);
    BackoffRefinement(b);
    Pow2Monotone(a, b);
  }

  // ---------------------------------------------------------------- histories

  /** A granted restart: when the process exited, when the restart is due, and the metadata queued with it. */
  datatype Grant = Grant(unit: Name, at: int, due: int, meta: Meta)

  /** The limiter's state after the grants in `g`. */
  function MetaAfter(g: seq<Grant>): Meta
  {
    if g == [] then NEW_META else g[|g| - 1].meta
  }

  /** No exit comes before the restart granted last was due. */
  predicate NotBeforeDue(g: seq<Grant>, at: int)
  {
    0 <= at && (g != [] ==> g[|g| - 1].due <= at)
  }

  /** `x` is what the limiter grants next, after `g`. */
  predicate GrantedNext(g: seq<Grant>, x: Grant, limit: int, interval: int)
  {
    var m := CountExit(MetaAfter(g), x.at, interval);
    && NotBeforeDue(g, x.at)
    && m.burst <= limit
    && x.meta == m.(restarts := m.restarts + 1)
    && x.due == x.at + DelayMs(MetaAfter(g).restarts) * MILLISECOND
  }

  /** One limiter, fed with the exit times of `g`, granted them all. */
  predicate Chain(g: seq<Grant>, limit: int, interval: int)
  {
    g != [] ==>
      var front := g[..|g| - 1];
      Chain(front, limit, interval) && GrantedNext(front, g[|g| - 1], limit, interval)
  }

  lemma ChainSnoc(g: seq<Grant>, x: Grant, limit: int, interval: int)
    requires Chain(g, limit, interval) && GrantedNext(g, x, limit, interval)
    ensures Chain(g + [x], limit, interval)
  {
    assert (g + [x])[..|g|] == g;
  }

  lemma {:induction false} ChainPrefix(g: seq<Grant>, limit: int, interval: int, i: nat)
    requires Chain(g, limit, interval) && i <= |g|
    ensures Chain(g[..i], limit, interval)
    ensures i < |g| ==> GrantedNext(g[..i], g[i], limit, interval)
  {
    if i < |g| {
      var front := g[..|g| - 1];
      if i < |g| - 1 {
        ChainPrefix(front, limit, interval, i);
        assert front[..i] == g[..i];
      }
    } else {
      assert g[..i] == g;
    }
  }

  /** The facts about one grant that the counting arguments use. */
  lemma {:induction false} GrantFacts(g: seq<Grant>, limit: int, interval: int, i: nat)
    requires Chain(g, limit, interval) && i < |g|
    ensures g[i].meta.restarts == i + 1
    ensures 1 <= g[i].meta.burst <= limit
    ensures 0 <= g[i].meta.window <= g[i].at < g[i].due
    ensures g[i].due == g[i].at + DelayMs(i) * MILLISECOND
    ensures i > 0 ==> g[i - 1].due <= g[i].at
    ensures i > 0 ==>
      || (g[i].meta.window == g[i - 1].meta.window && g[i].meta.burst == g[i - 1].meta.burst + 1)
      || (g[i].meta.window == g[i].at > g[i - 1].meta.window + interval * SECOND)
  {
    ChainPrefix(g, limit, interval, i);
    BackoffRefinement(i);
    if i > 0 {
      GrantFacts(g, limit, interval, i - 1);
    }
  }

  /** An exit is counted in the open window as long as that lasts, and opens a new one with count 1 after that. */
  lemma WindowLaw(g: seq<Grant>, limit: int, interval: int, i: nat)
    requires Chain(g, limit, interval) && i < |g|
    ensures var window, burst := if i == 0 then 0 else g[i - 1].meta.window, if i == 0 then 0 else g[i - 1].meta.burst;
      if g[i].at <= window + interval * SECOND then g[i].meta.window == window && g[i].meta.burst == burst + 1
      else g[i].meta.window == g[i].at && g[i].meta.burst == 1
  {
    ChainPrefix(g, limit, interval, i);
  }

  lemma {:induction false} Ordered(g: seq<Grant>, limit: int, interval: int, i: nat, j: nat)
    requires Chain(g, limit, interval) && i <= j < |g|
    ensures g[i].at <= g[j].at && g[i].due <= g[j].due
    ensures i < j ==> g[i].due <= g[j].at
    decreases j
  {
    GrantFacts(g, limit, interval, j);
    if i < j {
      Ordered(g, limit, interval, i, j - 1);
      GrantFacts(g, limit, interval, j - 1);
    }
  }

  // ---------------------------------------------------------------- rate limit

  /** Between two grants either one window counts on, or a later window opened after `i`. */
  lemma {:induction false} Windows(g: seq<Grant>, limit: int, interval: int, i: nat, j: nat)
    requires Chain(g, limit, interval) && i <= j < |g| && interval >= 0
    ensures
      || (g[j].meta.window == g[i].meta.window && g[j].meta.burst == g[i].meta.burst + (j - i))
      || (g[j].meta.window > g[i].meta.window + interval * SECOND && g[j].meta.window >= g[i].at)
    decreases j
  {
    if i < j {
      Windows(g, limit, interval, i, j - 1);
      GrantFacts(g, limit, interval, j);
      Ordered(g, limit, interval, i, j);
    }
  }

  /** `(k + 1) * limit` grants further on, `k` whole windows have passed. */
  lemma {:induction false} WindowsPass(g: seq<Grant>, limit: int, interval: int, i: nat, j: nat, k: nat)
    requires Chain(g, limit, interval) && i <= j < |g| && interval >= 0
    requires j - i >= (k + 1) * limit
    ensures k >= 1 ==> g[j].at > g[i].at + k * (interval * SECOND)
    ensures g[j].meta.window >= g[i].at + k * (interval * SECOND)
    decreases k
  {
    GrantFacts(g, limit, interval, i);
    GrantFacts(g, limit, interval, j);
    assert (k + 1) * limit == k * limit + limit;
    var h := j - limit;
    if k == 0 {
      Windows(g, limit, interval, i, j);
    } else {
      assert k * limit >= 0;
      WindowsPass(g, limit, interval, i, h, k - 1);
      GrantFacts(g, limit, interval, h);
      Windows(g, limit, interval, h, j);
      assert k * (interval * SECOND) == (k - 1) * (interval * SECOND) + interval * SECOND;
    }
  }

  /** The grants whose exit falls in the closed interval from `a` to `b`. */
  function GrantsWithin(g: seq<Grant>, a: int, b: int): set<nat>
  {
    set i: nat | i < |g| && a <= g[i].at <= b
  }

  lemma {:induction false} SpanBound(s: set<nat>, lo: nat, span: nat)
    requires forall i :: i in s ==> lo <= i < lo + span
    ensures |s| <= span
  {
    if span == 0 {
      assert s == {};
    } else {
      SpanBound(s - {lo + span - 1}, lo, span - 1);
    }
  }

  lemma LeastIndex(s: set<nat>) returns (lo: nat)
    requires s != {}
    ensures lo in s && forall i :: i in s ==> lo <= i
  {
    var x :| x in s;
    if s == {x} {
      lo := x;
    } else {
      var rest := s - {x};
      assert s == rest + {x};
      var m := LeastIndex(rest);
      lo := if x < m then x else m;
    }
  }

  /**
   Rate limit: in any time interval of `k` windows at most `(k + 1) * limit`
   restarts are granted.
   */
  lemma RateLimit(g: seq<Grant>, limit: int, interval: int, a: int, k: nat)
    requires Chain(g, limit, interval) && interval >= 0 && limit >= 0 && k >= 1
    ensures |GrantsWithin(g, a, a + k * (interval * SECOND))| <= (k + 1) * limit
  {
    var b := a + k * (interval * SECOND);
    var s := GrantsWithin(g, a, b);
    if s != {} {
      var lo := LeastIndex(s);
      forall i | i in s
        ensures lo <= i < lo + (k + 1) * limit
      {
        if i >= lo + (k + 1) * limit {
          WindowsPass(g, limit, interval, lo, i, k);
        }
      }
      GrantFacts(g, limit, interval, lo);
      SpanBound(s, lo, (k + 1) * limit);
    }
  }

  // ---------------------------------------------------------------- rate under backoff alone

  /** The first `n` delays together, in milliseconds. */
  function DelaySum(n: nat): nat
  {
    if n == 0 then 0 else DelaySum(n - 1) + (BackoffRefinement(n - 1); DelayMs(n - 1))
  }

  /** Exits `i` and `j` are at least the delays of the restarts between them apart. */
  lemma {:induction false} Spacing(g: seq<Grant>, limit: int, interval: int, i: nat, j: nat)
    requires Chain(g, limit, interval) && i <= j < |g|
    ensures g[j].at >= g[i].at + (DelaySum(j) - DelaySum(i)) * MILLISECOND
    decreases j
  {
    if i < j {
      Spacing(g, limit, interval, i, j - 1);
      GrantFacts(g, limit, interval, j - 1);
      GrantFacts(g, limit, interval, j);
    }
  }

  /** Later delays are no shorter. */
  lemma {:induction false} LaterDelays(i: nat, n: nat)
    ensures DelaySum(i + n) - DelaySum(i) >= DelaySum(n)
  {
    if n > 0 {
      LaterDelays(i, n - 1);
      BackoffMonotone(n - 1, i + n - 1);
    }
  }

  /** Backoff alone limits the rate, whatever limit and window are configured. */
  lemma BackoffRate(g: seq<Grant>, limit: int, interval: int, a: int, span: int, n: nat)
    requires Chain(g, limit, interval) && span < DelaySum(n) * MILLISECOND
    ensures |GrantsWithin(g, a, a + span)| <= n
  {
    var s := GrantsWithin(g, a, a + span);
    if s != {} {
      var lo := LeastIndex(s);
      forall i | i in s
        ensures lo <= i < lo + n
      {
        if i >= lo + n {
          Spacing(g, limit, interval, lo, lo + n);
          LaterDelays(lo, n);
          Ordered(g, limit, interval, lo + n, i);
        }
      }
      SpanBound(s, lo, n);
    }
  }

  /** The history of a unit that exits at `t0` and then again the moment each restart is due. */
  function Eager(u: Name, t0: nat, interval: int, n: nat): seq<Grant>
  {
    if n == 0 then []
    else
      var g := Eager(u, t0, interval, n - 1);
      var at := t0 + DelaySum(n - 1) * MILLISECOND;
      var m := CountExit(MetaAfter(g), at, interval);
      g + [Grant(u, at, at + DelayMs(n - 1) * MILLISECOND, m.(restarts := m.restarts + 1))]
  }

  lemma {:induction false} EagerFacts(u: Name, t0: nat, interval: int, n: nat)
    ensures var g := Eager(u, t0, interval, n);
      && |g| == n && MetaAfter(g).restarts == n && MetaAfter(g).burst <= n
      && (n > 0 ==> g[n - 1].due == t0 + DelaySum(n) * MILLISECOND)
      && (forall i :: 0 <= i < n ==> t0 <= g[i].at <= t0 + DelaySum(n - 1) * MILLISECOND)
  {
    if n > 0 {
      EagerFacts(u, t0, interval, n - 1);
    }
  }

  lemma EagerGranted(u: Name, t0: nat, limit: int, interval: int, n: nat)
    requires MetaAfter(Eager(u, t0, interval, n + 1)).burst <= limit
    ensures var g, more := Eager(u, t0, interval, n), Eager(u, t0, interval, n + 1);
      |g| == n && |more| == n + 1 && more == g + [more[n]] && GrantedNext(g, more[n], limit, interval)
  {
    EagerFacts(u, t0, interval, n);
    hide DelayMs, DelaySum, CountExit;
  }

  /** Such a history is granted as far as its burst counts stay within the limit. */
  lemma {:induction false} EagerChain(u: Name, t0: nat, limit: int, interval: int, n: nat)
    requires forall k: nat :: k <= n ==> MetaAfter(Eager(u, t0, interval, k)).burst <= limit
    ensures Chain(Eager(u, t0, interval, n), limit, interval)
  {
    hide DelayMs, DelaySum, CountExit, GrantedNext, MetaAfter;
    if n > 0 {
      EagerChain(u, t0, limit, interval, n - 1);
      hide Eager, Chain;
      EagerGranted(u, t0, limit, interval, n - 1);
      ChainSnoc(Eager(u, t0, interval, n - 1), Eager(u, t0, interval, n)[n - 1], limit, interval);
    }
  }

  lemma {:induction false} AllWithin(g: seq<Grant>, a: int, b: int)
    requires forall i :: 0 <= i < |g| ==> a <= g[i].at <= b
    ensures |GrantsWithin(g, a, b)| == |g|
  {
    if g != [] {
      var front := g[..|g| - 1];
      AllWithin(front, a, b);
      assert GrantsWithin(g, a, b) == GrantsWithin(front, a, b) + {|g| - 1};
    }
  }

  lemma EagerWithin(u: Name, t0: nat, interval: int, n: nat, span: int)
    requires n > 0 && DelaySum(n - 1) * MILLISECOND <= span
    ensures |GrantsWithin(Eager(u, t0, interval, n), t0, t0 + span)| == n
  {
    hide Eager, DelaySum, GrantsWithin;
    EagerFacts(u, t0, interval, n);
    AllWithin(Eager(u, t0, interval, n), t0, t0 + span);
  }

  /** Some interval of length `span` holds `n` grants of some history. */
  ghost predicate ManyWithin(limit: int, interval: int, span: int, n: nat)
  {
    exists g, a: nat, b :: b == a + span && Chain(g, limit, interval) && |GrantsWithin(g, a, b)| >= n
  }

  /**
   The bound is exact: under a limit of at least `n` the grants in some interval
   of length `span` reach `n` if and only if the first `n - 1` delays fit in it.
   */
  lemma BackoffRateExact(limit: int, interval: int, span: nat, n: nat)
    requires 1 <= n <= limit
    ensures ManyWithin(limit, interval, span, n) <==> DelaySum(n - 1) * MILLISECOND <= span
  {
    hide Chain, Eager, DelaySum, GrantsWithin, MetaAfter;
    if DelaySum(n - 1) * MILLISECOND <= span {
      var u, a: nat := Name(""), 0;
      EagerWithin(u, a, interval, n, span);
      forall k: nat | k <= n
        ensures MetaAfter(Eager(u, a, interval, k)).burst <= limit
      {
        EagerFacts(u, a, interval, k);
      }
      EagerChain(u, a, limit, interval, n);
    } else if ManyWithin(limit, interval, span, n) {
      var g, a: nat, b :| b == a + span && Chain(g, limit, interval) && |GrantsWithin(g, a, b)| >= n;
      BackoffRate(g, limit, interval, a, span, n - 1);
      assert false;
    }
  }

  // ---------------------------------------------------------------- both together

  lemma {:induction false} DelaySumGrows(a: nat, b: nat)
    requires a < b
    ensures DelaySum(a) + BASE_DELAY_MS <= DelaySum(b)
    decreases b
  {
    BackoffRefinement(b - 1);
    if a < b - 1 {
      DelaySumGrows(a, b - 1);
    }
  }

  /** Where the eager history's first `limit` exits fill the window that ends at `interval`. */
  function FillingStart(limit: nat, interval: int): int
    requires limit >= 1
  {
    interval * SECOND - DelaySum(limit - 1) * MILLISECOND
  }

  /** Exit `k` falls in the first window, opens the second, or falls in the second. */
  lemma TwoWindows(limit: nat, interval: int, k: nat)
    requires limit >= 1 && k < 2 * limit && DelaySum(2 * limit - 1) * MILLISECOND <= interval * SECOND
    ensures var t0, at := FillingStart(limit, interval), FillingStart(limit, interval) + DelaySum(k) * MILLISECOND;
      && (k < limit ==> at <= interval * SECOND)
      && (k == limit ==> at > interval * SECOND)
      && (k > limit ==> at - (t0 + DelaySum(limit) * MILLISECOND) <= interval * SECOND)
  {
    hide DelaySum;
    if k < limit - 1 { DelaySumGrows(k, limit - 1); }
    DelaySumGrows(limit - 1, limit);
    if k < 2 * limit - 1 { DelaySumGrows(k, 2 * limit - 1); }
  }

  lemma {:induction false} TwoBursts(u: Name, t0: nat, limit: nat, interval: int, k: nat)
    requires limit >= 1 && t0 == FillingStart(limit, interval) && k <= 2 * limit
    requires DelaySum(2 * limit - 1) * MILLISECOND <= interval * SECOND
    ensures MetaAfter(Eager(u, t0, interval, k)) ==
      if k <= limit then Meta(k, k, 0) else Meta(k, k - limit, t0 + DelaySum(limit) * MILLISECOND)
  {
    hide DelaySum;
    if k > 0 {
      TwoBursts(u, t0, limit, interval, k - 1);
      hide Eager, MetaAfter, FillingStart;
      EagerStep(u, t0, interval, k - 1);
      TwoWindows(limit, interval, k - 1);
    }
  }

  /**
   One window's length can hold twice the limit if and only if the delays of
   that many restarts fit in it: the limiter's bound for `k = 1` is attained
   then, and backoff keeps the rate below it otherwise.
   */
  lemma RateLimitAttained(limit: nat, interval: int)
    requires limit >= 1 && interval >= 0
    ensures ManyWithin(limit, interval, interval * SECOND, 2 * limit) <==>
      DelaySum(2 * limit - 1) * MILLISECOND <= interval * SECOND
  {
    hide Chain, Eager, DelaySum, GrantsWithin, MetaAfter;
    var span := interval * SECOND;
    if DelaySum(2 * limit - 1) * MILLISECOND <= span {
      FillingStartFits(limit, interval);
      var u, t0: nat := Name(""), FillingStart(limit, interval);
      forall k: nat | k <= 2 * limit
        ensures MetaAfter(Eager(u, t0, interval, k)).burst <= limit
      {
        TwoBursts(u, t0, limit, interval, k);
      }
      EagerChain(u, t0, limit, interval, 2 * limit);
      EagerWithin(u, t0, interval, 2 * limit, span);
    } else if ManyWithin(limit, interval, span, 2 * limit) {
      var g, a: nat, b :| b == a + span && Chain(g, limit, interval) && |GrantsWithin(g, a, b)| >= 2 * limit;
      BackoffRate(g, limit, interval, a, span, 2 * limit - 1);
      assert false;
    }
  }

  lemma FillingStartFits(limit: nat, interval: int)
    requires limit >= 1 && DelaySum(2 * limit - 1) * MILLISECOND <= interval * SECOND
    ensures FillingStart(limit, interval) >= 0
  {
    hide DelaySum;
    DelaySumGrows(limit - 1, 2 * limit - 1);
  }

  lemma DelaySumTable()
    ensures DelaySum(0) == 0 && DelaySum(1) == 100 && DelaySum(2) == 300 && DelaySum(3) == 700
    ensures DelaySum(4) == 1500 && DelaySum(5) == 3100 && DelaySum(6) == 6300 && DelaySum(7) == 12700
  {
    assert Pow2(3) == 8;
    Pow2Table();
    assert DelaySum(3) == 700;
    assert DelaySum(5) == 3100;
  }

  lemma EagerStep(u: Name, t0: nat, interval: int, n: nat)
    ensures MetaAfter(Eager(u, t0, interval, n + 1)) ==
      CountExit(MetaAfter(Eager(u, t0, interval, n)), t0 + DelaySum(n) * MILLISECOND, interval).(restarts := n + 1)
  {
    EagerFacts(u, t0, interval, n);
  }

  /** At the defaults, five restarts per ten seconds, the most that ten seconds ever hold is seven. */
  lemma DefaultRate(n: nat)
    ensures ManyWithin(DEFAULT_BURST, DEFAULT_INTERVAL, DEFAULT_INTERVAL * SECOND, n) <==> n <= 7
  {
    hide Chain, DelaySum, GrantsWithin;
    var limit, interval, span := DEFAULT_BURST, DEFAULT_INTERVAL, DEFAULT_INTERVAL * SECOND;
    DelaySumTable();
    if n <= 7 {
      SevenAtDefaults(Name(""));
    } else if ManyWithin(limit, interval, span, n) {
      var g, a: nat, b :| b == a + span && Chain(g, limit, interval) && |GrantsWithin(g, a, b)| >= n;
      BackoffRate(g, limit, interval, a, span, 7);
      assert false;
    }
  }

  /** The first exit comes at nine seconds, so a new window opens at the fifth. */
  lemma SevenAtDefaults(u: Name)
    ensures ManyWithin(DEFAULT_BURST, DEFAULT_INTERVAL, DEFAULT_INTERVAL * SECOND, 7)
  {
    var t0: nat := 9 * SECOND;
    SevenBursts(u);
    EagerChain(u, t0, DEFAULT_BURST, DEFAULT_INTERVAL, 7);
    DelaySumTable();
    EagerWithin(u, t0, DEFAULT_INTERVAL, 7, DEFAULT_INTERVAL * SECOND);
  }

  lemma SevenBursts(u: Name)
    ensures forall k: nat :: k <= 7 ==> MetaAfter(Eager(u, 9 * SECOND, DEFAULT_INTERVAL, k)).burst <= DEFAULT_BURST
  {
    var t0: nat := 9 * SECOND;
    assert MetaAfter(Eager(u, t0, DEFAULT_INTERVAL, 0)) == NEW_META;
    hide Eager, MetaAfter, DelaySum;
    DelaySumTable();
    EagerStep(u, t0, DEFAULT_INTERVAL, 0);
    EagerStep(u, t0, DEFAULT_INTERVAL, 1);
    EagerStep(u, t0, DEFAULT_INTERVAL, 2);
    EagerStep(u, t0, DEFAULT_INTERVAL, 3);
    EagerStep(u, t0, DEFAULT_INTERVAL, 4);
    EagerStep(u, t0, DEFAULT_INTERVAL, 5);
    EagerStep(u, t0, DEFAULT_INTERVAL, 6);
    forall k: nat | k <= 7
      ensures MetaAfter(Eager(u, t0, DEFAULT_INTERVAL, k)).burst <= DEFAULT_BURST
    {
      assert k == 0 || k == 1 || k == 2 || k == 3 || k == 4 || k == 5 || k == 6 || k == 7;
    }
  }

  // ---------------------------------------------------------------- backoff overtakes the limiter

  /**
   Once some granted delay exceeds the burst window, an exit after the restart
   always opens a fresh window, so a positive limit never rejects again.
   */
  lemma BackoffOvertakes(g: seq<Grant>, limit: int, interval: int, i: nat, at: int)
    requires Chain(g, limit, interval) && i < |g|
    requires g[i].due - g[i].at > interval * SECOND
    requires NotBeforeDue(g, at)
    ensures CountExit(MetaAfter(g), at, interval) == Meta(|g|, 1, at)
  {
    var last := |g| - 1;
    GrantFacts(g, limit, interval, i);
    GrantFacts(g, limit, interval, last);
    BackoffMonotone(i, last);
  }

  /** With the default 10 s window this happens from the eighth granted restart on, not before. */
  lemma DefaultWindowOvertaken(n: nat)
    ensures DelayMs(n) * MILLISECOND > DEFAULT_INTERVAL * SECOND <==> n >= 7
  {
    Pow2Table();
    BackoffRefinement(n);
    if n >= 7 { BackoffMonotone(7, n); BackoffRefinement(7); } else { BackoffMonotone(n, 6); BackoffRefinement(6); }
  }
}
