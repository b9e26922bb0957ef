/**
 The main loop and the wait at the end, in terms of what the outside world
 sent: which turn is the last, what can still happen after it, and how long
 shutdown waits.
 */
module Turns {
  import opened UnitFiles
  import opened Processes
  import opened Machine
  import opened Shutdown
  import Consistency

  /** The world before input `j` of a run. */
  function Before(cfg: Config, start: int, inputs: seq<Input>, j: nat): World
    requires Feasible(cfg, Initial(cfg, start), inputs) && j <= |inputs|
  {
    PrefixFeasible(cfg, Initial(cfg, start), inputs, j);
    Exec(cfg, Initial(cfg, start), inputs[..j])
  }

  lemma {:induction false} PrefixFeasible(cfg: Config, w: World, inputs: seq<Input>, j: nat)
    requires Feasible(cfg, w, inputs) && j <= |inputs|
    ensures Feasible(cfg, w, inputs[..j])
  {
    hide Enabled, Exec;
    if j == |inputs| {
      assert inputs[..j] == inputs;
    } else {
      var front := inputs[..|inputs| - 1];
      PrefixFeasible(cfg, w, front, j);
      assert front[..j] == inputs[..j];
    }
  }

  /** One input leads from one such world to the next. */
  lemma NextWorld(cfg: Config, start: int, inputs: seq<Input>, j: nat)
    requires Feasible(cfg, Initial(cfg, start), inputs) && j < |inputs|
    ensures Enabled(cfg, Before(cfg, start, inputs, j), inputs[j])
    ensures Before(cfg, start, inputs, j + 1) == Step(cfg, Before(cfg, start, inputs, j), inputs[j])
  {
    hide Enabled, Step, Initial;
    PrefixFeasible(cfg, Initial(cfg, start), inputs, j + 1);
    var more := inputs[..j + 1];
    assert more[..j] == inputs[..j] && more[j] == inputs[j];
  }

  // ---------------------------------------------------------------- the last turn

  ghost predicate Requested(inputs: seq<Input>, j: nat)
    requires j <= |inputs|
  {
    exists i :: 0 <= i < j && inputs[i].RequestShutdown?
  }

  lemma StepRequests(cfg: Config, w: World, i: Input)
    requires Enabled(cfg, w, i)
    ensures Step(cfg, w, i).requested <==> w.requested || i.RequestShutdown?
  {
    hide StartService, Launches, Accept, Serves, Reap, Note, Due;
  }

  lemma {:induction false} RequestedExact(cfg: Config, start: int, inputs: seq<Input>, j: nat)
    requires Feasible(cfg, Initial(cfg, start), inputs) && j <= |inputs|
    ensures Before(cfg, start, inputs, j).requested <==> Requested(inputs, j)
  {
    hide Step, Enabled, Before;
    if j == 0 {
      AtTheStart(cfg, start, inputs);
    } else {
      RequestedExact(cfg, start, inputs, j - 1);
      NextWorld(cfg, start, inputs, j - 1);
      StepRequests(cfg, Before(cfg, start, inputs, j - 1), inputs[j - 1]);
    }
  }

  lemma AtTheStart(cfg: Config, start: int, inputs: seq<Input>)
    requires Feasible(cfg, Initial(cfg, start), inputs)
    ensures Before(cfg, start, inputs, 0) == Initial(cfg, start)
  {
    assert inputs[..0] == [];
  }

  /**
   A turn is the last one if and only if the user quit in it, or shutdown was
   requested at any time before its end; shutdown then begins with the full order.
   */
  lemma TurnEndsExact(cfg: Config, start: int, inputs: seq<Input>, j: nat)
    requires Feasible(cfg, Initial(cfg, start), inputs) && j < |inputs| && inputs[j].EndTurn?
    ensures Before(cfg, start, inputs, j + 1).phase ==
      if inputs[j].quit || Requested(inputs, j) then ShuttingDown(cfg.order) else Polling
  {
    hide Before, Requested;
    NextWorld(cfg, start, inputs, j);
    RequestedExact(cfg, start, inputs, j);
  }

  /** Inputs that belong to boot or to the main loop. */
  predicate OfMainLoop(i: Input)
  {
    i.BootUnit? || i.EndBoot? || i.Connection? || i.Drain? || i.RestartUnit? || i.EndTurn?
  }

  lemma StepInShutdown(cfg: Config, w: World, i: Input)
    requires Enabled(cfg, w, i)
    ensures InShutdown(w.phase) ==> InShutdown(Step(cfg, w, i).phase) && !OfMainLoop(i)
    ensures InShutdown(Step(cfg, w, i).phase) && !InShutdown(w.phase) ==>
      i.EndTurn? && Step(cfg, w, i).phase == ShuttingDown(cfg.order)
  {
    hide StartService, Launches, Accept, Serves, Reap, Note, Due, ActiveCount;
  }

  lemma {:induction false} ShutdownLasts(cfg: Config, start: int, inputs: seq<Input>, j: nat, k: nat)
    requires Feasible(cfg, Initial(cfg, start), inputs) && j <= k <= |inputs|
    requires InShutdown(Before(cfg, start, inputs, j).phase)
    ensures InShutdown(Before(cfg, start, inputs, k).phase)
    ensures forall i :: j <= i < k ==> !OfMainLoop(inputs[i])
  {
    hide Step, Enabled, Before, OfMainLoop, InShutdown;
    if j < k {
      ShutdownLasts(cfg, start, inputs, j, k - 1);
      NextWorld(cfg, start, inputs, k - 1);
      StepInShutdown(cfg, Before(cfg, start, inputs, k - 1), inputs[k - 1]);
    }
  }

  /**
   A request for shutdown is obeyed at the end of the turn: the phase after it
   is shutdown with the full order, and from then on nothing is drained,
   restarted or accepted, and no further turn ends.
   */
  lemma RequestIsObeyed(cfg: Config, start: int, inputs: seq<Input>, i: nat, j: nat)
    requires Feasible(cfg, Initial(cfg, start), inputs) && i < j < |inputs|
    requires inputs[i].RequestShutdown? && inputs[j].EndTurn?
    ensures Before(cfg, start, inputs, j + 1).phase == ShuttingDown(cfg.order)
    ensures forall k :: j < k < |inputs| ==> !OfMainLoop(inputs[k])
  {
    hide Before, OfMainLoop;
    assert Requested(inputs, j);
    TurnEndsExact(cfg, start, inputs, j);
    ShutdownLasts(cfg, start, inputs, j + 1, |inputs|);
  }

  /** `j` is the input that ended the main loop. */
  ghost predicate LastTurn(inputs: seq<Input>, j: nat)
    requires j < |inputs|
  {
    inputs[j].EndTurn? && (inputs[j].quit || Requested(inputs, j))
  }

  /** Shutdown begins only at the end of a turn, after a request or a quit. */
  lemma {:induction false} ShutdownHasCause(cfg: Config, start: int, inputs: seq<Input>, k: nat) returns (j: nat)
    requires Feasible(cfg, Initial(cfg, start), inputs) && k <= |inputs|
    requires InShutdown(Before(cfg, start, inputs, k).phase)
    ensures j < k && LastTurn(inputs, j)
    ensures Before(cfg, start, inputs, j + 1).phase == ShuttingDown(cfg.order)
    decreases k
  {
    hide Step, Enabled, Before, Requested;
    if k == 0 {
      AtTheStart(cfg, start, inputs);
      assert false;
    } else {
      var w := Before(cfg, start, inputs, k - 1);
      NextWorld(cfg, start, inputs, k - 1);
      StepInShutdown(cfg, w, inputs[k - 1]);
      if InShutdown(w.phase) {
        j := ShutdownHasCause(cfg, start, inputs, k - 1);
      } else {
        j := k - 1;
        TurnEndsExact(cfg, start, inputs, j);
      }
    }
  }

  // ---------------------------------------------------------------- the wait

  /** How many polls the wait has made so far. */
  function Polls(inputs: seq<Input>, j: nat): nat
    requires j <= |inputs|
  {
    if j == 0 then 0 else Polls(inputs, j - 1) + if inputs[j - 1].PollAgain? then 1 else 0
  }

  /** Before the wait no poll of it has been made, and during the wait the phase counts them. */
  ghost predicate PollsCounted(w: World, polls: nat)
  {
    match w.phase
    case Waiting(n) => n == polls <= 50
    case Killing(_) | LastPoll | Halted => polls <= 50
    case _ => polls == 0
  }

  lemma StepCountsPolls(cfg: Config, w: World, i: Input, polls: nat)
    requires Enabled(cfg, w, i) && PollsCounted(w, polls)
    ensures PollsCounted(Step(cfg, w, i), polls + if i.PollAgain? then 1 else 0)
  {
    hide StartService, Launches, Accept, Serves, Reap, Note, Due, ActiveCount;
  }

  lemma {:induction false} AlwaysCounted(cfg: Config, start: int, inputs: seq<Input>, j: nat)
    requires Feasible(cfg, Initial(cfg, start), inputs) && j <= |inputs|
    ensures PollsCounted(Before(cfg, start, inputs, j), Polls(inputs, j))
  {
    hide Step, Enabled, Before, PollsCounted;
    if j == 0 {
      AtTheStart(cfg, start, inputs);
      NoneAtTheStart(cfg, start);
    } else {
      AlwaysCounted(cfg, start, inputs, j - 1);
      NextWorld(cfg, start, inputs, j - 1);
      StepCountsPolls(cfg, Before(cfg, start, inputs, j - 1), inputs[j - 1], Polls(inputs, j - 1));
    }
  }

  lemma NoneAtTheStart(cfg: Config, start: int)
    ensures PollsCounted(Initial(cfg, start), 0)
  {
  }

  /** Shutdown polls while processes are left and fifty polls are not over, and stops waiting otherwise. */
  lemma WaitExact(cfg: Config, start: int, inputs: seq<Input>, j: nat)
    requires Feasible(cfg, Initial(cfg, start), inputs) && j < |inputs|
    requires inputs[j].PollAgain? || inputs[j].EndWait?
    ensures inputs[j].PollAgain? <==>
      Polls(inputs, j) < 50 && Before(cfg, start, inputs, j).tables.processes != map[]
  {
    hide Step, ActiveCount, Polls;
    AlwaysCounted(cfg, start, inputs, j);
    NextWorld(cfg, start, inputs, j);
    PrefixFeasible(cfg, Initial(cfg, start), inputs, j);
    Consistency.AlwaysConsistent(cfg, start, inputs[..j]);
    Consistency.ActiveCountIsTracked(Before(cfg, start, inputs, j));
  }

  // ---------------------------------------------------------------- nothing is left behind

  ghost predicate NoneOverdue(w: World)
  {
    forall k :: 0 <= k < |w.tables.pending| ==> w.tables.pending[k].due > w.now
  }

  lemma {:induction false} KeptIsNotDue(pending: seq<PendingRestart>, now: int)
    ensures forall k :: 0 <= k < |NotDue(pending, now)| ==> NotDue(pending, now)[k].due > now
  {
    if pending != [] {
      KeptIsNotDue(pending[..|pending| - 1], now);
    }
  }

  lemma StepLeavesNoneOverdue(cfg: Config, w: World, i: Input)
    requires Enabled(cfg, w, i) && (w.phase.Restarting? ==> NoneOverdue(w))
    ensures Step(cfg, w, i).phase.Restarting? ==> NoneOverdue(Step(cfg, w, i))
  {
    hide Launches, Accept, Serves, Reap, Note, Due, NotDue, CarryDue, ParseRestartPolicy;
    if i.Drain? {
      KeptIsNotDue(w.tables.pending, i.at);
    }
  }

  lemma {:induction false} DrainedWhileRestarting(cfg: Config, start: int, inputs: seq<Input>, j: nat)
    requires Feasible(cfg, Initial(cfg, start), inputs) && j <= |inputs|
    ensures Before(cfg, start, inputs, j).phase.Restarting? ==> NoneOverdue(Before(cfg, start, inputs, j))
  {
    hide Step, Enabled, Before, NoneOverdue;
    if j == 0 {
      AtTheStart(cfg, start, inputs);
    } else {
      DrainedWhileRestarting(cfg, start, inputs, j - 1);
      NextWorld(cfg, start, inputs, j - 1);
      StepLeavesNoneOverdue(cfg, Before(cfg, start, inputs, j - 1), inputs[j - 1]);
    }
  }

  /** No turn ends while a restart that is due is still queued or waiting to be started. */
  lemma NothingOverdue(cfg: Config, start: int, inputs: seq<Input>, j: nat)
    requires Feasible(cfg, Initial(cfg, start), inputs) && j < |inputs| && inputs[j].EndTurn?
    ensures NoneOverdue(Before(cfg, start, inputs, j)) && Before(cfg, start, inputs, j).phase == Restarting([])
  {
    hide Step, Before, NoneOverdue;
    NextWorld(cfg, start, inputs, j);
    DrainedWhileRestarting(cfg, start, inputs, j);
  }
}
