/** Every call of the file map ends once no new calls come: each step leaves it
    less to do, and while one is unfinished some call can step. */
module FileMapEnds {
  import opened Wrappers
  import opened FileMapProtocol
  import opened FileMapSafety

  /** How many steps a call can still take. */
  function Steps(th: Thread): nat {
    PcSteps(th.pc) + if th.kind.TryStore? then PcSteps(Oldest) + 1 else 0
  }

  /** The same but for the eviction that follows a TryStore. */
  function PcSteps(pc: Pc): nat {
    match pc
    case Done => 0
    case Unlocking(_) => 1
    case Dropped(_) => 2
    case Dropping(_) => 3
    case Callback(_) => 4
    case Checked(_, _) => 5
    case Locked(_) => 6
    case Announced(_) => 7
    case WantEntry(_) => 8
    case Looked(_) => 9
    case Picked(_) => 9
    case Look => 10
    case Oldest => 10
  }

  /** What all calls together have left to do. */
  ghost function Left(threads: map<Tid, Thread>): nat {
    if threads == map[] then 0
    else
      var t :| t in threads;
      Steps(threads[t]) + Left(threads - {t})
  }

  lemma {:induction false} LeftOf(threads: map<Tid, Thread>, t: Tid)
    requires t in threads
    ensures Left(threads) == Steps(threads[t]) + Left(threads - {t})
  {
    hide Steps;
    var x :| x in threads && Left(threads) == Steps(threads[x]) + Left(threads - {x});
    if x != t {
      LeftOf(threads - {x}, t);
      LeftOf(threads - {t}, x);
      assert threads - {x} - {t} == threads - {t} - {x};
    }
  }

  lemma LeftAfter(threads: map<Tid, Thread>, t: Tid, th: Thread)
    requires t in threads && Steps(th) < Steps(threads[t])
    ensures Left(threads[t := th]) < Left(threads)
  {
    LeftOf(threads, t);
    LeftOf(threads[t := th], t);
    assert threads[t := th] - {t} == threads - {t};
  }

  lemma CallHasLess(s: State, t: Tid, ok: bool, s': State)
    requires t in s.threads && Named(s.names, s.threads[t]) && Step(s, t, ok) == Some(s')
    ensures t in s'.threads && s'.threads == s.threads[t := s'.threads[t]]
    ensures Steps(s'.threads[t]) < Steps(s.threads[t])
  {
    hide Enter, Leave, LockStep, Return, Named, Steps;
    var th := s.threads[t];
    if th.WantsMutex() {
      EnterHasLess(s.size, s.index, th);
    } else if th.InMutex() {
      LeaveHasLess(s.names, th);
    } else if th.AtLock() {
      LockHasLess(s.names, s.locks[th.pc.e], t, th);
    } else {
      ReturnHasLess(th, ok);
    }
  }

  lemma EnterHasLess(size: int, m: Index, th: Thread)
    requires th.WantsMutex()
    ensures Steps(th.(pc := Enter(size, m, th).1)) < Steps(th)
  {
    hide Touched, Removed, Added, Find;
  }

  lemma LeaveHasLess(names: map<Eid, Name>, th: Thread)
    requires Named(names, th) && th.InMutex()
    ensures Steps(Leave(names, th)) < Steps(th)
  {
  }

  lemma LockHasLess(names: map<Eid, Name>, l: RWLock, t: Tid, th: Thread)
    requires th.AtLock() && LockStep(l, t, th).Some?
    ensures Steps(LockStep(l, t, th).value.1) < Steps(th)
  {
  }

  lemma ReturnHasLess(th: Thread, ok: bool)
    requires th.pc.Callback?
    ensures Steps(Return(th, ok)) < Steps(th)
  {
  }

  /** Every step leaves less to do. */
  lemma StepLeavesLess(s: State, t: Tid, ok: bool, s': State)
    requires Inv(s) && t in s.threads && Step(s, t, ok) == Some(s')
    ensures Left(s'.threads) < Left(s.threads)
  {
    Facts(s, t);
    hide *;
    CallHasLess(s, t, ok, s');
    LeftAfter(s.threads, t, s'.threads[t]);
  }

  // ----- runs without new calls -----

  ghost predicate CallSteps(s: State, s': State) {
    exists t, ok :: t in s.threads && Step(s, t, ok) == Some(s')
  }

  /** From `s` on, only calls already begun take steps. */
  ghost predicate GoesOn(run: seq<State>, s: State) {
    |run| > 0 && run[0] == s && forall i | 0 <= i < |run| - 1 :: CallSteps(run[i], run[i + 1])
  }

  predicate AllDone(s: State) {
    forall t | t in s.threads :: s.threads[t].pc.Done?
  }

  lemma {:induction false} KeepsInv(run: seq<State>, s: State)
    requires GoesOn(run, s) && Inv(s)
    ensures Inv(run[|run| - 1])
    ensures |run| - 1 + Left(run[|run| - 1].threads) <= Left(s.threads)
  {
    if |run| > 1 {
      var before := run[..|run| - 1];
      var m, e := run[|run| - 2], run[|run| - 1];
      assert GoesOn(before, s) by { assert forall i | 0 <= i < |before| - 1 :: CallSteps(run[i], run[i + 1]); }
      assert CallSteps(run[|run| - 2], run[|run| - 2 + 1]);
      hide *;
      KeepsInv(before, s);
      OneStep(m, e);
    }
  }

  lemma OneStep(s: State, s': State)
    requires Inv(s) && CallSteps(s, s')
    ensures Inv(s') && Left(s'.threads) < Left(s.threads)
  {
    hide Inv, Step, Left;
    var t, ok :| t in s.threads && Step(s, t, ok) == Some(s');
    StepKeepsInv(s, t, ok, s');
    StepLeavesLess(s, t, ok, s');
  }

  /** Without new calls a run is no longer than what is left to do at its start. */
  lemma RunsAreBounded(history: seq<State>, run: seq<State>)
    requires IsRun(history) && GoesOn(run, history[|history| - 1])
    ensures |run| - 1 <= Left(history[|history| - 1].threads)
  {
    ReachableInv(history);
    hide *;
    KeepsInv(run, history[|history| - 1]);
  }

  /** However far such a run has come, it can go on until every call has ended. */
  lemma {:induction false} EveryCallEnds(history: seq<State>, run: seq<State>) returns (longer: seq<State>)
    requires |history| > 0 && |run| > 0 && IsRun(history) && GoesOn(run, history[|history| - 1])
    ensures |longer| > 0 && GoesOn(longer, history[|history| - 1]) && run <= longer && AllDone(longer[|longer| - 1])
    decreases Left(run[|run| - 1].threads)
  {
    hide *;
    GoodEnd(history, run);
    var s, e := history[|history| - 1], run[|run| - 1];
    if AllDone(e) {
      longer := run;
    } else {
      var next := SomeStep(e);
      OneStep(e, next);
      Extends(run, s, next);
      longer := EveryCallEnds(history, run + [next]);
    }
  }

  lemma GoodEnd(history: seq<State>, run: seq<State>)
    requires IsRun(history) && GoesOn(run, history[|history| - 1])
    ensures |history| > 0 && |run| > 0 && Inv(run[|run| - 1])
  {
    ReachableInv(history);
    KeepsInv(run, history[|history| - 1]);
    hide Inv, Left, CallSteps;
  }

  lemma SomeStep(s: State) returns (s': State)
    requires Inv(s) && !AllDone(s)
    ensures CallSteps(s, s')
  {
    hide Inv, Step;
    var t :| t in s.threads && !s.threads[t].pc.Done?;
    var x := SomeoneMoves(s, t);
    s' := Step(s, x, true).value;
  }

  lemma Extends(run: seq<State>, s: State, next: State)
    requires |run| > 0 && GoesOn(run, s) && CallSteps(run[|run| - 1], next)
    ensures GoesOn(run + [next], s)
  {
    hide CallSteps;
    var longer := run + [next];
    forall i | 0 <= i < |longer| - 1 ensures CallSteps(longer[i], longer[i + 1]) {
      if i < |run| - 1 { assert CallSteps(run[i], run[i + 1]); }
    }
  }

  ghost predicate Stuck(s: State) {
    forall s' :: !CallSteps(s, s')
  }

  /** A run without new calls that cannot go on has ended every call. */
  lemma StuckMeansDone(history: seq<State>, run: seq<State>)
    requires IsRun(history) && GoesOn(run, history[|history| - 1])
    requires Stuck(run[|run| - 1])
    ensures AllDone(run[|run| - 1])
  {
    ReachableInv(history);
    KeepsInv(run, history[|history| - 1]);
    hide Inv, Step, CallSteps;
    if !AllDone(run[|run| - 1]) {
      var next := SomeStep(run[|run| - 1]);
    }
  }
}
