/** How a pull ends after an error: the pool is told to stop, and it can end at
    once, without starting any task that is left. */
module PullEnds {
  import opened PullProtocol

  /** Once an error is recorded, the pool is stopped or about to be. */
  ghost predicate ToldToStop(s: State) {
    s.errors != {} ==> s.stop || exists w :: 0 <= w < |s.workers| && s.workers[w].Stopping?
  }

  lemma StepTellsToStop(s: State, step: Step)
    requires ToldToStop(s) && Enabled(s, step)
    ensures ToldToStop(Take(s, step))
  {
    var s' := Take(s, step);
    if step.Record? {
      assert s'.workers[step.w].Stopping?;
    } else if s.errors != {} && !s.stop && !step.Stop? {
      var w :| 0 <= w < |s.workers| && s.workers[w].Stopping?;
      assert s'.workers[w].Stopping?;
    }
  }

  /** In every run an error stops the pool. */
  lemma {:induction false} ErrorsStopThePool(run: seq<State>)
    requires IsRun(run)
    ensures ToldToStop(run[|run| - 1])
  {
    if |run| > 1 {
      hide Take, Enabled, ToldToStop;
      var before := run[..|run| - 1];
      assert IsRun(before) by { assert forall i | 0 <= i < |before| - 1 :: Next(run[i], run[i + 1]); }
      ErrorsStopThePool(before);
      assert Next(run[|run| - 2], run[|run| - 2 + 1]);
      var step :| Enabled(run[|run| - 2], step) && run[|run| - 1] == Take(run[|run| - 2], step);
      StepTellsToStop(run[|run| - 2], step);
    } else {
      NoErrorsYet(run[0]);
    }
  }

  lemma NoErrorsYet(s: State)
    requires Init(s)
    ensures ToldToStop(s)
  {
  }

  ghost predicate Leads(run: seq<State>, s: State) {
    |run| > 0 && run[0] == s && forall i | 0 <= i < |run| - 1 :: Next(run[i], run[i + 1])
  }

  /** The next step of a stopped pool that starts nothing. */
  function Quit(s: State, w: nat): Step
    requires w < |s.workers|
  {
    match s.workers[w]
    case Running(_) => Finish(w, false)
    case Failing(_) => Record(w)
    case Stopping => Stop(w)
    case Idle => SeeStop(w)
    case Returned => CloseDone
  }

  /** From any state with an error and the pool stopped, whatever the workers are
      doing, the pull can end as failed with no more tasks started. */
  lemma {:induction false} FailsFast(s: State) returns (run: seq<State>)
    requires StopInv(s) && s.stop && s.errors != {} && !s.main.Saved?
    ensures Leads(run, s) && run[|run| - 1].main.Failed? && run[|run| - 1].started == s.started
    decreases Left(s)
  {
    hide Left;
    if s.main.Failed? {
      run := [s];
    } else {
      var step: Step := CloseTasks;
      if s.main.Offering? && s.main.task >= s.tasks {
      } else if s.done {
        step := if s.main.Waiting? then Collect else Drop;
      } else if AllReturned(s.workers) {
        step := CloseDone;
      } else {
        var w :| 0 <= w < |s.workers| && !s.workers[w].Returned?;
        step := Quit(s, w);
      }
      assert Enabled(s, step);
      var s' := Take(s, step);
      StepKeepsStop(s, step);
      StepDecreases(s, step);
      var rest := FailsFast(s');
      run := [s] + rest;
      assert Next(s, s');
      assert forall i | 0 <= i < |rest| :: run[i + 1] == rest[i];
      Prepend(s, s', rest);
    }
  }

  lemma Prepend(s: State, s': State, rest: seq<State>)
    requires Next(s, s') && Leads(rest, s')
    ensures Leads([s] + rest, s)
  {
    var run := [s] + rest;
    forall i | 0 <= i < |run| - 1 ensures Next(run[i], run[i + 1]) {
      if i > 0 { assert run[i] == rest[i - 1] && run[i + 1] == rest[i]; }
    }
  }
}
