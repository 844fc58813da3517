/** The worker pool (lib/concurrency/worker_pool.go) and the pull that drives it
    (lib/registry/client.go): any number of workers, interleaved at every channel
    operation. Push runs the same protocol. */
module PullProtocol {
  import opened Wrappers

  type Task = nat

  datatype Worker =
    | Idle                       // in its select
    | Running(task: Task)
    | Failing(task: Task)        // about to record the error
    | Stopping                   // recorded it, about to call Stop
    | Returned
  {
    predicate HasTask() { Running? || Failing? }
  }

  datatype Main =
    | Offering(task: Task)       // in Do, offering the task
    | Waiting                    // in Wait, the task channel closed
    | Saved                      // no error: the manifest is saved
    | Failed

  /** `tasks` tasks are offered in order. */
  datatype State = State(
    tasks: nat,
    workers: seq<Worker>,
    main: Main,
    stop: bool,
    done: bool,
    started: seq<Task>,
    pulled: set<Task>,
    errors: set<Task>,
    dropped: set<Task>)

  datatype Step =
    | HandOff(w: nat)
    | Drop
    | Finish(w: nat, ok: bool)
    | Record(w: nat)
    | Stop(w: nat)
    | SeeStop(w: nat)
    | SeeClosed(w: nat)
    | CloseDone
    | CloseTasks
    | Collect

  function WorkerOf(step: Step): Option<nat> {
    match step
    case HandOff(w) => Some(w)
    case Finish(w, _) => Some(w)
    case Record(w) => Some(w)
    case Stop(w) => Some(w)
    case SeeStop(w) => Some(w)
    case SeeClosed(w) => Some(w)
    case _ => None
  }

  predicate AllReturned(workers: seq<Worker>) {
    forall w | 0 <= w < |workers| :: workers[w].Returned?
  }

  /** Can this step be taken now? */
  predicate Enabled(s: State, step: Step) {
    && (WorkerOf(step).Some? ==> WorkerOf(step).value < |s.workers|)
    && match step
       case HandOff(w) => s.main.Offering? && s.main.task < s.tasks && s.workers[w].Idle?
       case Drop => s.main.Offering? && s.main.task < s.tasks && s.done
       case Finish(w, _) => s.workers[w].Running?
       case Record(w) => s.workers[w].Failing?
       case Stop(w) => s.workers[w].Stopping?
       case SeeStop(w) => s.workers[w].Idle? && s.stop
       case SeeClosed(w) => s.workers[w].Idle? && !s.main.Offering?
       case CloseDone => AllReturned(s.workers) && !s.done
       case CloseTasks => s.main.Offering? && s.main.task >= s.tasks
       case Collect => s.main.Waiting? && s.done
  }

  function Take(s: State, step: Step): State
    requires Enabled(s, step)
  {
    match step
    case HandOff(w) =>
      s.(workers := s.workers[w := Running(s.main.task)], started := s.started + [s.main.task],
         main := Offering(s.main.task + 1))
    case Drop => s.(dropped := s.dropped + {s.main.task}, main := Offering(s.main.task + 1))
    case Finish(w, ok) =>
      if ok then s.(workers := s.workers[w := Idle], pulled := s.pulled + {s.workers[w].task})
      else s.(workers := s.workers[w := Failing(s.workers[w].task)])
    case Record(w) => s.(workers := s.workers[w := Stopping], errors := s.errors + {s.workers[w].task})
    case Stop(w) => s.(workers := s.workers[w := Idle], stop := true)
    case SeeStop(w) => s.(workers := s.workers[w := Returned])
    case SeeClosed(w) => s.(workers := s.workers[w := Returned])
    case CloseDone => s.(done := true)
    case CloseTasks => s.(main := Waiting)
    case Collect => s.(main := if s.errors == {} then Saved else Failed)
  }

  predicate Init(s: State) {
    && s.main == Offering(0) && !s.stop && !s.done
    && s.started == [] && s.pulled == {} && s.errors == {} && s.dropped == {}
    && forall w | 0 <= w < |s.workers| :: s.workers[w].Idle?
  }

  ghost predicate IsRun(run: seq<State>) {
    |run| > 0 && Init(run[0]) && forall i | 0 <= i < |run| - 1 :: Next(run[i], run[i + 1])
  }

  ghost predicate Next(s: State, s': State) {
    exists step :: Enabled(s, step) && s' == Take(s, step)
  }

  // ----- what every state keeps -----

  /** Tasks below this one have been offered. */
  function Offered(s: State): nat {
    if s.main.Offering? then s.main.task else s.tasks
  }

  /** Workers stop early only after an error has been recorded. */
  ghost predicate StopInv(s: State) {
    && (s.main.Offering? ==> s.main.task <= s.tasks)
    && (s.stop ==> s.errors != {})
    && (forall w | 0 <= w < |s.workers| && s.workers[w].Stopping? :: s.errors != {})
    && (forall w | 0 <= w < |s.workers| && s.workers[w].Returned? :: s.stop || !s.main.Offering?)
    && (s.done ==> AllReturned(s.workers))
    && (s.dropped != {} ==> s.done)
    && (s.dropped != {} && |s.workers| > 0 ==> s.stop)
    && (s.main.Saved? || s.main.Failed? ==> s.done)
    && (s.main.Saved? ==> s.errors == {})
    && (s.main.Failed? ==> s.errors != {})
  }

  /** Tasks are taken in order. */
  ghost predicate OrderInv(s: State) {
    && (forall i, j | 0 <= i < j < |s.started| :: s.started[i] < s.started[j])
    && (forall t | t in s.started :: t < Offered(s))
    && (forall t | t in s.dropped :: t < Offered(s) && t !in s.started)
    && (forall t: Task | t < Offered(s) :: t in s.dropped || t in s.started)
  }

  /** A task taken is with one worker, or pulled, or an error. */
  ghost predicate TaskInv(workers: seq<Worker>, started: seq<Task>, pulled: set<Task>, errors: set<Task>) {
    && (forall t | t in started :: t in pulled || t in errors || Held(workers, t))
    && (forall t | t in pulled :: t in started && t !in errors)
    && (forall t | t in errors :: t in started)
    && (forall w | 0 <= w < |workers| && workers[w].HasTask() :: Mine(workers[w].task, started, pulled, errors))
    && (forall v, w | 0 <= v < w < |workers| && workers[v].HasTask() && workers[w].HasTask() ::
          workers[v].task != workers[w].task)
  }

  ghost predicate Held(workers: seq<Worker>, t: Task) {
    exists w :: 0 <= w < |workers| && workers[w].HasTask() && workers[w].task == t
  }

  predicate Mine(t: Task, started: seq<Task>, pulled: set<Task>, errors: set<Task>) {
    t in started && t !in pulled && t !in errors
  }

  ghost predicate Inv(s: State) {
    StopInv(s) && OrderInv(s) && TaskInv(s.workers, s.started, s.pulled, s.errors)
  }

  lemma StepKeepsStop(s: State, step: Step)
    requires StopInv(s) && Enabled(s, step)
    ensures StopInv(Take(s, step))
  {
    if step.Drop? && |s.workers| > 0 {
      assert s.workers[0].Returned?;
    }
  }

  lemma StepKeepsOrder(s: State, step: Step)
    requires s.main.Offering? ==> s.main.task <= s.tasks
    requires OrderInv(s) && Enabled(s, step)
    ensures OrderInv(Take(s, step))
  {
    if step.HandOff? {
      HandOffKeepsOrder(s, s.main.task);
    } else {
      assert Take(s, step).started == s.started;
    }
  }

  lemma HandOffKeepsOrder(s: State, t: Task)
    requires OrderInv(s) && s.main == Offering(t) && t < s.tasks
    ensures OrderInv(s.(started := s.started + [t], main := Offering(t + 1)))
  {
    var started := s.started + [t];
    assert forall x | x in started :: x in s.started || x == t;
    assert forall x | x in s.started :: x in started;
    assert t in started;
    forall i, j | 0 <= i < j < |started| ensures started[i] < started[j] {
      assert started[i] == s.started[i] && s.started[i] in s.started;
    }
  }

  /** A worker changes what it holds; the tasks of the others stay with them. */
  lemma OthersHold(workers: seq<Worker>, w: nat, to: Worker, t: Task)
    requires w < |workers| && Held(workers, t) && !(workers[w].HasTask() && workers[w].task == t)
    ensures Held(workers[w := to], t)
  {
    var v :| 0 <= v < |workers| && workers[v].HasTask() && workers[v].task == t;
    assert workers[w := to][v] == workers[v];
  }

  lemma HandOffKeepsTasks(workers: seq<Worker>, started: seq<Task>, pulled: set<Task>, errors: set<Task>, w: nat,
      t: Task)
    requires TaskInv(workers, started, pulled, errors) && w < |workers| && !workers[w].HasTask() && t !in started
    ensures TaskInv(workers[w := Running(t)], started + [t], pulled, errors)
  {
    var workers' := workers[w := Running(t)];
    forall x | x in started + [t] ensures x in pulled || x in errors || Held(workers', x) {
      if x == t {
        assert workers'[w].HasTask();
      } else if Held(workers, x) {
        OthersHold(workers, w, Running(t), x);
      }
    }
    forall v | 0 <= v < |workers'| && workers'[v].HasTask()
        ensures Mine(workers'[v].task, started + [t], pulled, errors) {
      if v != w { assert workers[v] == workers'[v]; }
    }
  }

  /** A worker is done with its task, which is pulled or an error from then on. */
  lemma ResolveKeepsTasks(
    workers: seq<Worker>, started: seq<Task>, pulled: set<Task>, errors: set<Task>, w: nat, to: Worker, ok: bool)
    requires TaskInv(workers, started, pulled, errors) && w < |workers| && workers[w].HasTask() && !to.HasTask()
    ensures var t := workers[w].task;
            TaskInv(workers[w := to], started, if ok then pulled + {t} else pulled, if ok then errors else errors + {t})
  {
    var t := workers[w].task;
    assert Mine(t, started, pulled, errors);
    forall x | x in started && x != t && Held(workers, x) ensures Held(workers[w := to], x) {
      OthersHold(workers, w, to, x);
    }
    forall v | 0 <= v < |workers| && v != w && workers[v].HasTask() ensures workers[v].task != t {
      if v < w { assert workers[v].task != workers[w].task; }
    }
  }

  /** A worker changes, but not the task it holds. */
  lemma SameTaskKeepsTasks(workers: seq<Worker>, started: seq<Task>, pulled: set<Task>, errors: set<Task>, w: nat,
      to: Worker)
    requires TaskInv(workers, started, pulled, errors) && w < |workers|
    requires workers[w].HasTask() == to.HasTask() && (to.HasTask() ==> to.task == workers[w].task)
    ensures TaskInv(workers[w := to], started, pulled, errors)
  {
    forall x | x in started && Held(workers, x) ensures Held(workers[w := to], x) {
      if to.HasTask() && to.task == x {
        assert workers[w := to][w].HasTask();
      } else {
        OthersHold(workers, w, to, x);
      }
    }
  }

  lemma StepKeepsTasks(s: State, step: Step)
    requires OrderInv(s) && TaskInv(s.workers, s.started, s.pulled, s.errors) && Enabled(s, step)
    ensures var s' := Take(s, step); TaskInv(s'.workers, s'.started, s'.pulled, s'.errors)
  {
    hide TaskInv;
    match step
    case HandOff(w) => HandOffKeepsTasks(s.workers, s.started, s.pulled, s.errors, w, s.main.task);
    case Finish(w, ok) =>
      if ok { ResolveKeepsTasks(s.workers, s.started, s.pulled, s.errors, w, Idle, true); }
      else { SameTaskKeepsTasks(s.workers, s.started, s.pulled, s.errors, w, Failing(s.workers[w].task)); }
    case Record(w) => ResolveKeepsTasks(s.workers, s.started, s.pulled, s.errors, w, Stopping, false);
    case Stop(w) => SameTaskKeepsTasks(s.workers, s.started, s.pulled, s.errors, w, Idle);
    case SeeStop(w) => SameTaskKeepsTasks(s.workers, s.started, s.pulled, s.errors, w, Returned);
    case SeeClosed(w) => SameTaskKeepsTasks(s.workers, s.started, s.pulled, s.errors, w, Returned);
    case _ =>
  }

  lemma {:induction false} ReachableInv(run: seq<State>)
    requires IsRun(run)
    ensures Inv(run[|run| - 1])
  {
    if |run| == 1 {
      InitInv(run[0]);
    } else {
      var before := run[..|run| - 1];
      var s, s' := run[|run| - 2], run[|run| - 1];
      assert IsRun(before) by { assert forall i | 0 <= i < |before| - 1 :: Next(run[i], run[i + 1]); }
      ReachableInv(before);
      assert Next(run[|run| - 2], run[|run| - 2 + 1]);
      var step :| Enabled(s, step) && s' == Take(s, step);
      hide *;
      assert StopInv(s) && OrderInv(s) && TaskInv(s.workers, s.started, s.pulled, s.errors)
          && (s.main.Offering? ==> s.main.task <= s.tasks) by { InvParts(s); }
      StepKeepsStop(s, step);
      StepKeepsOrder(s, step);
      StepKeepsTasks(s, step);
      InvWhole(s');
    }
  }

  lemma InitInv(s: State)
    requires Init(s)
    ensures Inv(s)
  {
  }

  lemma InvParts(s: State)
    requires Inv(s)
    ensures StopInv(s) && OrderInv(s) && TaskInv(s.workers, s.started, s.pulled, s.errors)
            && (s.main.Offering? ==> s.main.task <= s.tasks)
  {
  }

  lemma InvWhole(s: State)
    requires StopInv(s) && OrderInv(s) && TaskInv(s.workers, s.started, s.pulled, s.errors)
    ensures Inv(s)
  {
  }

  // ----- what a pull guarantees -----

  lemma Ends(s: State)
    requires Inv(s) && |s.workers| > 0 && (s.main.Saved? || s.main.Failed?)
    ensures forall t: Task | t < s.tasks :: t in s.dropped || t in s.pulled || t in s.errors
    ensures s.dropped != {} ==> s.errors != {}
  {
    forall t: Task | t < s.tasks ensures t in s.dropped || t in s.pulled || t in s.errors {
      assert t < Offered(s);
      assert !Held(s.workers, t);
    }
  }

  /** The manifest is saved exactly when every task was carried out successfully. */
  lemma SavedMeansPulled(run: seq<State>)
    requires IsRun(run) && |run[0].workers| > 0
    requires var s := run[|run| - 1]; s.main.Saved? || s.main.Failed?
    ensures var s := run[|run| - 1];
            s.main.Saved? <==> forall t: Task | t < s.tasks :: t in s.pulled
  {
    ReachableInv(run);
    SameWorkers(run);
    var s := run[|run| - 1];
    Ends(s);
    if s.main.Failed? {
      var t :| t in s.errors;
      assert t in s.started;
      assert t < s.tasks && t !in s.pulled;
    }
  }

  /** No task is taken twice, none is both taken and dropped, and a dropped task
      comes with a recorded error. */
  lemma NoTaskRunsTwice(run: seq<State>)
    requires IsRun(run) && |run[0].workers| > 0
    ensures var s := run[|run| - 1];
            && (forall i, j | 0 <= i < j < |s.started| :: s.started[i] != s.started[j])
            && (forall t | t in s.dropped :: t !in s.started)
            && (s.dropped != {} ==> s.errors != {})
            && s.pulled * s.errors == {}
  {
    ReachableInv(run);
    SameWorkers(run);
  }

  lemma {:induction false} SameWorkers(run: seq<State>)
    requires IsRun(run)
    ensures |run[|run| - 1].workers| == |run[0].workers| && run[|run| - 1].tasks == run[0].tasks
  {
    if |run| > 1 {
      var before := run[..|run| - 1];
      assert IsRun(before) by { assert forall i | 0 <= i < |before| - 1 :: Next(run[i], run[i + 1]); }
      SameWorkers(before);
      assert Next(run[|run| - 2], run[|run| - 2 + 1]);
    }
  }

  // ----- every pull ends -----

  function WorkerWeight(w: Worker): nat {
    match w
    case Running(_) => 4
    case Failing(_) => 3
    case Stopping => 2
    case Idle => 1
    case Returned => 0
  }

  function WorkersWeight(workers: seq<Worker>): nat {
    if workers == [] then 0 else WorkerWeight(workers[0]) + WorkersWeight(workers[1..])
  }

  lemma {:induction false} WeightOfUpdate(workers: seq<Worker>, w: nat, to: Worker)
    requires w < |workers|
    ensures WorkersWeight(workers[w := to]) == WorkersWeight(workers) - WorkerWeight(workers[w]) + WorkerWeight(to)
  {
    if w == 0 {
      assert workers[w := to][1..] == workers[1..];
    } else {
      WeightOfUpdate(workers[1..], w - 1, to);
      assert workers[w := to][1..] == workers[1..][w - 1 := to];
    }
  }

  /** What is left to do. */
  function Left(s: State): nat {
    WorkersWeight(s.workers) + (if s.done then 0 else 1) +
    match s.main
    case Offering(t) => 2 + 4 * (if t < s.tasks then s.tasks - t else 0)
    case Waiting => 1
    case _ => 0
  }

  /** Every step leaves less to do, so no run is longer than that. */
  lemma StepDecreases(s: State, step: Step)
    requires Enabled(s, step)
    ensures Left(Take(s, step)) < Left(s)
  {
    hide WorkersWeight;
    if WorkerOf(step).Some? {
      var w := WorkerOf(step).value;
      WeightOfUpdate(s.workers, w, Take(s, step).workers[w]);
      assert Take(s, step).workers == s.workers[w := Take(s, step).workers[w]];
    }
  }

  lemma {:induction false} RunsAreBounded(run: seq<State>)
    requires IsRun(run)
    ensures |run| - 1 + Left(run[|run| - 1]) <= Left(run[0])
  {
    if |run| > 1 {
      hide Left;
      var before := run[..|run| - 1];
      assert IsRun(before) by { assert forall i | 0 <= i < |before| - 1 :: Next(run[i], run[i + 1]); }
      RunsAreBounded(before);
      assert Next(run[|run| - 2], run[|run| - 2 + 1]);
      var step :| Enabled(run[|run| - 2], step) && run[|run| - 1] == Take(run[|run| - 2], step);
      StepDecreases(run[|run| - 2], step);
    }
  }

  ghost predicate CanStep(s: State) {
    exists step :: Enabled(s, step)
  }

  /** A pull that has not ended can take a step. */
  lemma NeverStuck(run: seq<State>)
    requires IsRun(run)
    requires var s := run[|run| - 1]; !s.main.Saved? && !s.main.Failed?
    ensures CanStep(run[|run| - 1])
  {
    var s := run[|run| - 1];
    if s.main.Offering? && s.main.task >= s.tasks {
      assert Enabled(s, CloseTasks);
    } else if s.done {
      assert Enabled(s, if s.main.Waiting? then Collect else Drop);
    } else if AllReturned(s.workers) {
      assert Enabled(s, CloseDone);
    } else {
      var w :| 0 <= w < |s.workers| && !s.workers[w].Returned?;
      match s.workers[w]
      case Running(_) => assert Enabled(s, Finish(w, true));
      case Failing(_) => assert Enabled(s, Record(w));
      case Stopping => assert Enabled(s, Stop(w));
      case Idle => assert Enabled(s, if s.main.Waiting? then SeeClosed(w) else HandOff(w));
    }
  }

  // ----- a pool without workers -----

  ghost predicate AllPulled(s: State) {
    forall t: Task | t < s.tasks :: t in s.pulled
  }

  ghost predicate NothingDone(s: State) {
    s.workers == [] && s.started == [] && s.pulled == {} && s.errors == {} && !s.main.Failed?
  }

  /** Without workers no run starts, pulls or reports anything: every task is
      dropped and the manifest is saved nevertheless. */
  lemma {:induction false} NoWorkersSavesNothing(run: seq<State>)
    requires IsRun(run) && run[0].workers == []
    ensures var s := run[|run| - 1];
            && NothingDone(s)
            && (s.main.Saved? ==> forall t: Task | t < s.tasks :: t in s.dropped)
  {
    NothingIsDone(run);
    ReachableInv(run);
    var s := run[|run| - 1];
    if s.main.Saved? {
      forall t: Task | t < s.tasks ensures t in s.dropped { assert t < Offered(s); }
    }
  }

  lemma {:induction false} NothingIsDone(run: seq<State>)
    requires IsRun(run) && run[0].workers == []
    ensures NothingDone(run[|run| - 1])
  {
    if |run| > 1 {
      var before := run[..|run| - 1];
      assert IsRun(before) by { assert forall i | 0 <= i < |before| - 1 :: Next(run[i], run[i + 1]); }
      NothingIsDone(before);
      assert Next(run[|run| - 2], run[|run| - 2 + 1]);
    }
  }

  /** However many tasks there are, such a run can reach the end. */
  lemma {:induction false} DropsAll(tasks: nat, k: nat) returns (run: seq<State>)
    requires k <= tasks
    ensures IsRun(run) && run[0].workers == [] && run[0].tasks == tasks
    ensures var s := run[|run| - 1]; s.tasks == tasks && s.main == Offering(k) && s.done
  {
    if k == 0 {
      var s := State(tasks, [], Offering(0), false, false, [], {}, {}, {});
      run := [s];
      run := Extended(run, CloseDone);
    } else {
      run := DropsAll(tasks, k - 1);
      run := Extended(run, Drop);
    }
  }

  lemma Extended(run: seq<State>, step: Step) returns (longer: seq<State>)
    requires IsRun(run) && Enabled(run[|run| - 1], step)
    ensures IsRun(longer) && longer[0] == run[0] && longer[|longer| - 1] == Take(run[|run| - 1], step)
  {
    var s := Take(run[|run| - 1], step);
    longer := run + [s];
    assert Next(run[|run| - 1], s);
    forall i | 0 <= i < |longer| - 1 ensures Next(longer[i], longer[i + 1]) {
      if i < |run| - 1 { assert Next(run[i], run[i + 1]); }
    }
  }

  /** A pull of so many tasks with so many workers. */
  ghost predicate Saves(run: seq<State>, workers: nat, tasks: nat) {
    IsRun(run) && |run[0].workers| == workers && run[0].tasks == tasks && run[|run| - 1].main.Saved?
  }

  /** Saving the manifest means that everything was pulled, in every run, if and
      only if there is a worker or nothing to pull. */
  lemma SavingIsSafeExactly(workers: nat, tasks: nat)
    ensures (forall run | Saves(run, workers, tasks) :: AllPulled(run[|run| - 1])) <==> workers > 0 || tasks == 0
  {
    if workers > 0 || tasks == 0 {
      forall run | Saves(run, workers, tasks) ensures AllPulled(run[|run| - 1]) {
        SameWorkers(run);
        if workers > 0 { SavedMeansPulled(run); }
      }
    } else {
      var run := DropsAll(tasks, tasks);
      run := Extended(run, CloseTasks);
      run := Extended(run, Collect);
      NoWorkersSavesNothing(run);
      SameWorkers(run);
      assert Saves(run, workers, tasks);
      var first: Task := 0;
      assert first < run[|run| - 1].tasks && first !in run[|run| - 1].pulled;
    }
  }

  // ----- the tasks of an image -----

  function Deduplicated<D(==)>(layers: seq<D>): seq<D> {
    if layers == [] then []
    else
      var rest := Deduplicated(layers[..|layers| - 1]);
      var l := layers[|layers| - 1];
      if l in layers[..|layers| - 1] then rest else rest + [l]
  }

  /** Each of these stands in the list, later than all that come before it. */
  ghost predicate ByFirst<D>(ds: seq<D>, layers: seq<D>) {
    forall i: nat | i < |ds| :: HasFirst(ds, i, layers)
  }

  ghost predicate HasFirst<D>(ds: seq<D>, i: nat, layers: seq<D>)
    requires i < |ds|
  {
    exists k: nat :: k < |layers| && FirstOf(ds, i, layers, k)
  }

  ghost predicate FirstOf<D>(ds: seq<D>, i: nat, layers: seq<D>, k: nat)
    requires i < |ds| && k < |layers|
  {
    layers[k] == ds[i] && ds[i] !in layers[..k] && forall j | 0 <= j < i :: ds[j] in layers[..k]
  }

  lemma {:induction false} DeduplicatedIsByFirst<D>(layers: seq<D>)
    ensures var ds := Deduplicated(layers);
            && ByFirst(ds, layers) && (forall d :: d in ds <==> d in layers)
            && forall i, j | 0 <= i < j < |ds| :: ds[i] != ds[j]
  {
    if layers != [] {
      var front, l := layers[..|layers| - 1], layers[|layers| - 1];
      DeduplicatedIsByFirst(front);
      var ds, ds' := Deduplicated(front), Deduplicated(layers);
      forall i: nat | i < |ds'| ensures HasFirst(ds', i, layers) {
        if i < |ds| {
          assert HasFirst(ds, i, front);
          var k: nat :| k < |front| && FirstOf(ds, i, front, k);
          assert layers[..k] == front[..k];
          assert FirstOf(ds', i, layers, k);
        } else {
          assert layers[..|layers| - 1] == front;
          assert FirstOf(ds', i, layers, |layers| - 1);
        }
      }
    }
  }

  /** The tasks Pull offers: every distinct layer in the order in which they first
      stand in the manifest, then the config. */
  method PullTasks<D(==)>(layers: seq<D>, config: D) returns (tasks: seq<D>)
    ensures tasks == Deduplicated(layers) + [config]
    ensures |tasks| > 0 && tasks[|tasks| - 1] == config && ByFirst(tasks[..|tasks| - 1], layers)
    ensures forall d :: d in tasks <==> d in layers || d == config
    ensures forall i, j | 0 <= i < j < |tasks| - 1 :: tasks[i] != tasks[j]
  {
    tasks := [];
    var layerSet: set<D> := {};
    for i := 0 to |layers|
      invariant tasks == Deduplicated(layers[..i])
      invariant forall d :: d in layerSet <==> d in layers[..i]
      invariant forall d :: d in tasks <==> d in layers[..i]
      invariant forall j, k | 0 <= j < k < |tasks| :: tasks[j] != tasks[k]
    {
      var l := layers[i];
      assert layers[..i + 1][..i] == layers[..i];
      if l !in layerSet {
        layerSet := layerSet + {l};
        tasks := tasks + [l];
      }
    }
    assert layers[..|layers|] == layers;
    DeduplicatedIsByFirst(layers);
    assert (tasks + [config])[..|tasks|] == tasks;
    tasks := tasks + [config];
  }

  /** The manifest is saved only if each of its layers and its config was pulled. */
  lemma SavedImageIsComplete<D>(run: seq<State>, layers: seq<D>, config: D, tasks: seq<D>, d: D)
    requires IsRun(run) && |run[0].workers| > 0 && run[0].tasks == |tasks| && run[|run| - 1].main.Saved?
    requires (forall x :: x in tasks <==> x in layers || x == config) && (d in layers || d == config)
    ensures exists t :: 0 <= t < |tasks| && tasks[t] == d && t in run[|run| - 1].pulled
  {
    SavedMeansPulled(run);
    SameWorkers(run);
    assert d in tasks;
  }
}
