/** When the key-value store of the cache manager ends with the latest push of
    an ID (lib/cache/cache_manager.go): background pushes finish in any order. */
module CacheLag {
  import opened Wrappers
  import opened CacheEntries
  import opened CacheManager

  predicate IsJobOf(s: State, j: nat, id: Id) {
    j in s.jobs && s.jobs[j].id == id
  }

  function EntryOf(s: State, j: nat): string
    requires j in s.jobs
  {
    CreateEntry(s.jobs[j].pair)
  }

  /** The entry of the latest push of an ID. */
  function LatestEntry(s: State, id: Id): string
    requires LatestPush(s.pushes, id).Some?
  {
    CreateEntry(LatestPush(s.pushes, id).value.pair)
  }

  /** The store holds the latest push. */
  predicate UpToDate(s: State, id: Id)
    requires LatestPush(s.pushes, id).Some?
  {
    id in s.kv && s.kv[id] == LatestEntry(s, id)
  }

  /** Everything still under way for the ID is as new as its latest push, and if
      nothing is, the store is up to date already. */
  ghost predicate Settled(s: State, id: Id)
    requires LatestPush(s.pushes, id).Some?
  {
    && (forall j | IsJobOf(s, j, id) :: EntryOf(s, j) == LatestEntry(s, id))
    && ((exists j :: IsJobOf(s, j, id)) || UpToDate(s, id))
  }

  // ----- steps that leave an ID to its background pushes -----

  predicate Writes(step: Step, id: Id) {
    || (step.PushCache? && step.push.id == id)
    || (step.OtherPut? && step.id == id)
    || (step.OtherDrop? && step.id == id)
  }

  /** A step after which the ID has no new push and no other host wrote it. */
  ghost predicate NextQuiet(s: State, s': State, id: Id) {
    exists step :: Enabled(s, step) && !Writes(step, id) && s' == Take(s, step)
  }

  ghost predicate Continues(run: seq<State>, s: State, id: Id) {
    |run| > 0 && run[0] == s && forall i | 0 <= i < |run| - 1 :: NextQuiet(run[i], run[i + 1], id)
  }

  lemma QuietKeepsLatest(s: State, step: Step, id: Id)
    requires Enabled(s, step) && !Writes(step, id)
    ensures LatestPush(Take(s, step).pushes, id) == LatestPush(s.pushes, id)
  {
    if step.PushCache? { LatestOfMore(s.pushes, step.push, id); }
  }

  lemma QuietKeepsSettled(s: State, step: Step, id: Id)
    requires Enabled(s, step) && !Writes(step, id) && !Take(s, step).failed
    requires LatestPush(s.pushes, id).Some? && Settled(s, id)
    ensures LatestPush(Take(s, step).pushes, id).Some? && Settled(Take(s, step), id)
  {
    QuietKeepsLatest(s, step, id);
    hide LatestPush, CreateEntry, Pull;
    var s' := Take(s, step);
    forall j | IsJobOf(s', j, id) ensures EntryOf(s', j) == LatestEntry(s', id) {
      assert IsJobOf(s, j, id);
    }
    if !exists j :: IsJobOf(s', j, id) {
      JobsGoByPut(s, step, id);
    }
  }

  /** The last job of an ID goes only when it has been stored. */
  lemma JobsGoByPut(s: State, step: Step, id: Id)
    requires Enabled(s, step) && !Writes(step, id) && !Take(s, step).failed
    requires forall j :: !IsJobOf(Take(s, step), j, id)
    ensures var s' := Take(s, step);
            if exists j :: IsJobOf(s, j, id) then
              step.Put? && IsJobOf(s, step.job, id) && id in s'.kv && s'.kv[id] == EntryOf(s, step.job)
            else (id in s'.kv <==> id in s.kv) && (id in s.kv ==> s'.kv[id] == s.kv[id])
  {
    hide CreateEntry, Pull;
    var s' := Take(s, step);
    if j :| IsJobOf(s, j, id) {
      assert !IsJobOf(s', j, id);
    }
    if step.Put? && step.job in s.jobs && s.jobs[step.job].id == id { assert IsJobOf(s, step.job, id); }
  }

  lemma FailureStays(s: State, step: Step)
    requires Enabled(s, step) && s.failed
    ensures Take(s, step).failed
  {
  }

  lemma {:induction false} StaysSettled(run: seq<State>, s: State, id: Id)
    requires Continues(run, s, id) && !run[|run| - 1].failed
    requires LatestPush(s.pushes, id).Some? && Settled(s, id)
    ensures var e := run[|run| - 1]; LatestPush(e.pushes, id) == LatestPush(s.pushes, id) && Settled(e, id)
  {
    hide Settled, LatestPush, Take, Enabled;
    if |run| > 1 {
      var before := run[..|run| - 1];
      var m, e := run[|run| - 2], run[|run| - 1];
      assert Continues(before, s, id) by {
        assert forall i | 0 <= i < |before| - 1 :: NextQuiet(run[i], run[i + 1], id);
      }
      assert NextQuiet(run[|run| - 2], run[|run| - 2 + 1], id);
      var step :| Enabled(m, step) && !Writes(step, id) && e == Take(m, step);
      if m.failed { FailureStays(m, step); }
      StaysSettled(before, s, id);
      QuietKeepsLatest(m, step, id);
      QuietKeepsSettled(m, step, id);
    }
  }

  // ----- letting the background finish -----

  lemma Extend(run: seq<State>, s: State, id: Id, step: Step) returns (longer: seq<State>)
    requires Continues(run, s, id) && Enabled(run[|run| - 1], step) && !Writes(step, id)
    ensures Continues(longer, s, id) && longer[|longer| - 1] == Take(run[|run| - 1], step)
  {
    hide Take, Enabled, Writes;
    var e := Take(run[|run| - 1], step);
    longer := run + [e];
    assert NextQuiet(run[|run| - 1], e, id);
    forall i | 0 <= i < |longer| - 1 ensures NextQuiet(longer[i], longer[i + 1], id) {
      if i < |run| - 1 { assert NextQuiet(run[i], run[i + 1], id); }
    }
  }

  /** What one job leaves when it is carried out successfully. */
  ghost predicate Done(s: State, j: nat, s': State) {
    && j in s.jobs && s'.jobs == s.jobs - {j} && s'.failed == s.failed && s'.pushes == s.pushes
    && s'.kv == s.kv[s.jobs[j].id := EntryOf(s, j)]
  }

  lemma FinishJob(run: seq<State>, s: State, id: Id, j: nat) returns (longer: seq<State>)
    requires Continues(run, s, id) && j in run[|run| - 1].jobs
    requires run[|run| - 1].jobs[j].uploaded ==> run[|run| - 1].jobs[j].pair.Some?
    ensures Continues(longer, s, id) && Done(run[|run| - 1], j, longer[|longer| - 1])
  {
    hide CreateEntry;
    var e := run[|run| - 1];
    longer := run;
    if e.jobs[j].pair.Some? && !e.jobs[j].uploaded {
      longer := Extend(longer, s, id, Upload(j, true));
      var u := longer[|longer| - 1];
      assert u.jobs - {j} == e.jobs - {j};
    }
    longer := Extend(longer, s, id, Put(j, true));
  }

  ghost predicate Uploads(s: State) {
    forall j | j in s.jobs && s.jobs[j].uploaded :: s.jobs[j].pair.Some?
  }

  /** All jobs but `kept` are done; without jobs of its own among them the ID's
      entry is as before. */
  ghost predicate DoneBut(s: State, s': State, id: Id, kept: set<nat>) {
    && s'.failed == s.failed && s'.pushes == s.pushes && Uploads(s')
    && s'.jobs == (map j | j in s.jobs && j in kept :: s.jobs[j])
    && ((forall j | IsJobOf(s, j, id) :: j in kept) ==>
          (id in s'.kv <==> id in s.kv) && (id in s.kv ==> s'.kv[id] == s.kv[id]))
  }

  lemma {:induction false} FinishBut(run: seq<State>, s: State, id: Id, kept: set<nat>) returns (longer: seq<State>)
    requires Continues(run, s, id) && Uploads(run[|run| - 1])
    ensures Continues(longer, s, id) && DoneBut(run[|run| - 1], longer[|longer| - 1], id, kept)
    decreases |run[|run| - 1].jobs.Keys - kept|
  {
    hide CreateEntry, Continues, DoneBut, Done, Uploads;
    IsNotEmpty(run, s, id);
    var e := run[|run| - 1];
    var todo := e.jobs.Keys - kept;
    if todo == {} {
      longer := run;
      NothingToDo(e, id, kept);
    } else {
      var j :| j in todo;
      UploadedHasPair(e, j);
      var next := FinishJob(run, s, id, j);
      IsNotEmpty(next, s, id);
      OneLess(e, next[|next| - 1], j, kept);
      longer := FinishBut(next, s, id, kept);
      IsNotEmpty(longer, s, id);
      OneMoreDone(e, next[|next| - 1], longer[|longer| - 1], id, kept, j);
    }
  }

  lemma IsNotEmpty(run: seq<State>, s: State, id: Id)
    requires Continues(run, s, id)
    ensures |run| > 0
  {
  }

  lemma UploadedHasPair(s: State, j: nat)
    requires Uploads(s) && j in s.jobs
    ensures s.jobs[j].uploaded ==> s.jobs[j].pair.Some?
  {
  }

  lemma NothingToDo(s: State, id: Id, kept: set<nat>)
    requires Uploads(s) && s.jobs.Keys - kept == {}
    ensures DoneBut(s, s, id, kept)
  {
    assert forall j | j in s.jobs :: j in kept || j in s.jobs.Keys - kept;
    assert s.jobs == map j | j in s.jobs && j in kept :: s.jobs[j];
  }

  lemma OneLess(s: State, n: State, j: nat, kept: set<nat>)
    requires Uploads(s) && Done(s, j, n) && j !in kept
    ensures Uploads(n) && |n.jobs.Keys - kept| < |s.jobs.Keys - kept|
  {
    assert n.jobs.Keys - kept == (s.jobs.Keys - kept) - {j};
  }

  lemma OneMoreDone(s: State, n: State, s': State, id: Id, kept: set<nat>, j: nat)
    requires Done(s, j, n) && DoneBut(n, s', id, kept) && j !in kept
    ensures DoneBut(s, s', id, kept)
  {
    hide CreateEntry, Uploads;
    assert (map i | i in n.jobs && i in kept :: n.jobs[i]) == (map i | i in s.jobs && i in kept :: s.jobs[i]);
    assert forall i | IsJobOf(n, i, id) :: IsJobOf(s, i, id);
    if forall i | IsJobOf(s, i, id) :: i in kept { assert !IsJobOf(s, j, id); }
  }

  /** Unless it is settled, an ID can end with something else than its latest push. */
  lemma UnsettledLags(s: State, id: Id) returns (run: seq<State>)
    requires !s.failed && Uploads(s) && LatestPush(s.pushes, id).Some? && !Settled(s, id)
    ensures Continues(run, s, id)
    ensures var e := run[|run| - 1];
            && e.jobs == map[] && !e.failed && LatestPush(e.pushes, id) == LatestPush(s.pushes, id) && !UpToDate(e, id)
  {
    hide CreateEntry, LatestPush;
    run := [s];
    if j :| IsJobOf(s, j, id) && EntryOf(s, j) != LatestEntry(s, id) {
      run := FinishBut(run, s, id, {j});
      assert run[|run| - 1].jobs == map[j := s.jobs[j]];
      run := FinishJob(run, s, id, j);
      assert run[|run| - 1].jobs == map[];
    } else {
      assert forall i :: !IsJobOf(s, i, id);
      run := FinishBut(run, s, id, {});
      assert run[|run| - 1].jobs == map[];
    }
  }

  /** From any reachable state without errors: every way the background pushes
      can finish leaves the store with the latest push of an ID, if and only if
      everything under way for the ID is as new as that push, and if nothing is,
      the store holds it already. */
  lemma EndsUpToDateExactly(history: seq<State>, id: Id)
    requires IsRun(history)
    requires var s := history[|history| - 1]; !s.failed && LatestPush(s.pushes, id).Some?
    ensures var s := history[|history| - 1];
            Settled(s, id) <==>
            forall run: seq<State> | Continues(run, s, id) && Idle(run[|run| - 1]) ::
              LatestPush(run[|run| - 1].pushes, id).Some? && UpToDate(run[|run| - 1], id)
  {
    ReachableInv(history);
    var s := history[|history| - 1];
    if Settled(s, id) {
      forall run: seq<State> | Continues(run, s, id) && Idle(run[|run| - 1])
        ensures LatestPush(run[|run| - 1].pushes, id).Some? && UpToDate(run[|run| - 1], id)
      {
        StaysSettled(run, s, id);
      }
    } else {
      var run := UnsettledLags(s, id);
      assert Idle(run[|run| - 1]);
    }
  }

  predicate Idle(s: State) {
    s.jobs == map[] && !s.failed
  }

  // ----- one push of an ID at a time -----

  /** A push of the ID waits until no job of the ID is outstanding, and no other
      host writes the ID. */
  ghost predicate NextInTurn(s: State, s': State, id: Id) {
    exists step :: Enabled(s, step) && InTurn(s, step, id) && s' == Take(s, step)
  }

  ghost predicate InTurn(s: State, step: Step, id: Id) {
    Writes(step, id) ==> step.PushCache? && forall j :: !IsJobOf(s, j, id)
  }

  ghost predicate IsOrderly(run: seq<State>, id: Id) {
    |run| > 0 && Init(run[0]) && forall i | 0 <= i < |run| - 1 :: NextInTurn(run[i], run[i + 1], id)
  }

  /** If pushes of an ID never overlap, an idle manager without errors has the
      latest one in the store. */
  lemma OneAtATimeIsUpToDate(run: seq<State>, id: Id)
    requires IsOrderly(run, id) && Idle(run[|run| - 1]) && LatestPush(run[|run| - 1].pushes, id).Some?
    ensures UpToDate(run[|run| - 1], id)
  {
    OrderlyIsSettled(run, id);
  }

  lemma {:induction false} OrderlyIsSettled(run: seq<State>, id: Id)
    requires IsOrderly(run, id) && !run[|run| - 1].failed
    ensures var s := run[|run| - 1];
            if LatestPush(s.pushes, id).Some? then Settled(s, id) else forall j :: !IsJobOf(s, j, id)
  {
    if |run| > 1 {
      var before := run[..|run| - 1];
      var m, e := run[|run| - 2], run[|run| - 1];
      assert IsOrderly(before, id) by {
        assert forall i | 0 <= i < |before| - 1 :: NextInTurn(run[i], run[i + 1], id);
      }
      assert NextInTurn(run[|run| - 2], run[|run| - 2 + 1], id);
      hide *;
      StaysWithoutFailure(m, e, id);
      OrderlyIsSettled(before, id);
      TurnKeepsSettled(m, e, id);
    }
  }

  lemma StaysWithoutFailure(s: State, s': State, id: Id)
    requires NextInTurn(s, s', id) && !s'.failed
    ensures !s.failed
  {
    hide Take, Enabled, InTurn;
    var step :| Enabled(s, step) && InTurn(s, step, id) && s' == Take(s, step);
    if s.failed { FailureStays(s, step); }
  }

  lemma TurnKeepsSettled(s: State, s': State, id: Id)
    requires NextInTurn(s, s', id) && !s'.failed
    requires if LatestPush(s.pushes, id).Some? then Settled(s, id) else forall j :: !IsJobOf(s, j, id)
    ensures if LatestPush(s'.pushes, id).Some? then Settled(s', id) else forall j :: !IsJobOf(s', j, id)
  {
    hide Settled, LatestPush, Take, Enabled;
    var step :| Enabled(s, step) && InTurn(s, step, id) && s' == Take(s, step);
    if Writes(step, id) {
      PushSettles(s, step, id);
    } else {
      QuietKeepsLatest(s, step, id);
      if LatestPush(s.pushes, id).Some? {
        QuietKeepsSettled(s, step, id);
      } else {
        NoNewJobs(s, step, id);
      }
    }
  }

  lemma PushSettles(s: State, step: Step, id: Id)
    requires Enabled(s, step) && step.PushCache? && step.push.id == id && !Take(s, step).failed
    requires forall j :: !IsJobOf(s, j, id)
    ensures LatestPush(Take(s, step).pushes, id).Some? && Settled(Take(s, step), id)
  {
    LatestOfMore(s.pushes, step.push, id);
    hide LatestPush, CreateEntry;
    var s' := Take(s, step);
    assert IsJobOf(s', step.job, id);
    forall j | IsJobOf(s', j, id) ensures j == step.job { assert !IsJobOf(s, j, id); }
  }

  lemma NoNewJobs(s: State, step: Step, id: Id)
    requires Enabled(s, step) && !Writes(step, id) && forall j :: !IsJobOf(s, j, id)
    ensures forall j :: !IsJobOf(Take(s, step), j, id)
  {
    forall j ensures !IsJobOf(Take(s, step), j, id) { assert !IsJobOf(s, j, id); }
  }

  /** Two pushes of one ID under way with different entries: the store may end
      with the older one. */
  lemma StoreCanLag(history: seq<State>, id: Id, i: nat, j: nat) returns (run: seq<State>)
    requires IsRun(history) && !history[|history| - 1].failed
    requires var s := history[|history| - 1];
             IsJobOf(s, i, id) && IsJobOf(s, j, id) && EntryOf(s, i) != EntryOf(s, j)
    ensures var s := history[|history| - 1];
            && Continues(run, s, id) && Idle(run[|run| - 1])
            && LatestPush(run[|run| - 1].pushes, id).Some? && !UpToDate(run[|run| - 1], id)
  {
    ReachableInv(history);
    var s := history[|history| - 1];
    LatestOfJob(s.pushes, Push(s.jobs[i].id, s.jobs[i].pair));
    run := UnsettledLags(s, id);
  }

  lemma {:induction false} LatestOfJob(pushes: seq<Push>, p: Push)
    requires p in pushes
    ensures LatestPush(pushes, p.id).Some?
  {
    if pushes[|pushes| - 1].id != p.id { LatestOfJob(pushes[..|pushes| - 1], p); }
  }
}
