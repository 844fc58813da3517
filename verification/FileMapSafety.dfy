/** What the locks of the file map buy: a callback always runs on the entry its
    name leads to, and calls never block each other altogether. */
module FileMapSafety {
  import opened Wrappers
  import opened Queues
  import opened FileMapProtocol

  // ----- the map and its queue -----

  lemma TouchKeeps(m: Index, names: map<Eid, Name>, name: Name)
    requires Bijection(m, names)
    ensures Bijection(Touched(m, name), names)
  {
    if name in m.elements {
      var e := m.elements[name];
      RemoveIs(m.queue, e);
      assert forall x :: x in MoveToFront(m.queue, e) <==> x in m.queue;
    }
  }

  lemma AddKeeps(m: Index, names: map<Eid, Name>, name: Name, e: Eid)
    requires Bijection(m, names) && name !in m.elements && e in names && names[e] == name
    ensures Bijection(Added(m, name, e), names)
  {
    assert forall x :: x in [e] + m.queue <==> x == e || x in m.queue;
    assert e !in m.queue;
  }

  lemma RemoveKeeps(m: Index, names: map<Eid, Name>, name: Name)
    requires Bijection(m, names)
    ensures Bijection(Removed(m, name), names)
  {
    if name in m.elements { RemoveIs(m.queue, m.elements[name]); }
  }

  lemma EnterKeepsBijection(size: int, m: Index, names: map<Eid, Name>, th: Thread)
    requires Bijection(m, names) && th.WantsMutex() && Named(names, th)
    ensures Bijection(Enter(size, m, th).0, names)
  {
    hide Bijection, Touched, Removed, Added;
    match th.pc
    case Look => TouchKeeps(m, names, th.name);
    case Locked(e) =>
      TouchKeeps(m, names, th.name);
      if th.kind.TryStore? && th.name !in m.elements { AddKeeps(m, names, th.name, e); }
    case Dropping(e) => RemoveKeeps(m, names, th.name);
    case Oldest =>
  }

  // ----- the map mutex -----

  lemma StepKeepsMutex(s: State, t: Tid, ok: bool, s': State)
    requires t in s.threads && MutexOwned(s) && Step(s, t, ok) == Some(s')
    ensures MutexOwned(s')
  {
    hide Touched, Removed, Added, Find;
  }

  // ----- the entry locks -----

  predicate SameHold(th: Thread, th': Thread) {
    th'.Entry() == th.Entry() && th'.Reads() == th.Reads() && th'.pc.Announced? == th.pc.Announced?
  }

  lemma HoldsAsBefore(locks: map<Eid, RWLock>, threads: map<Tid, Thread>, t: Tid, th': Thread)
    requires LocksOwned(locks, threads) && t in threads && SameHold(threads[t], th')
    ensures LocksOwned(locks, threads[t := th'])
  {
  }

  lemma OnlyLocksChangeHolds(s: State, t: Tid, ok: bool, s': State)
    requires t in s.threads && !s.threads[t].AtLock() && Step(s, t, ok) == Some(s') && Named(s.names, s.threads[t])
    ensures t in s'.threads && s'.threads == s.threads[t := s'.threads[t]] && s'.locks == s.locks && s'.names == s.names
    ensures SameHold(s.threads[t], s'.threads[t])
  {
    hide Touched, Removed, Added, Find;
  }

  /** A goroutine changes its hold on one lock. */
  lemma LockKeeps(locks: map<Eid, RWLock>, threads: map<Tid, Thread>, t: Tid)
    requires LocksOwned(locks, threads) && t in threads && threads[t].AtLock() && threads[t].pc.e in locks
    requires LockStep(locks[threads[t].pc.e], t, threads[t]).Some?
    ensures var e := threads[t].pc.e;
            var (l, th') := LockStep(locks[e], t, threads[t]).value;
            LocksOwned(locks[e := l], threads[t := th'])
  {
    var e := threads[t].pc.e;
    var th := threads[t];
    var (l, th') := LockStep(locks[e], t, th).value;
    OthersKeep(locks, threads, t);
  }

  /** The other holders are not disturbed. */
  lemma OthersKeep(locks: map<Eid, RWLock>, threads: map<Tid, Thread>, t: Tid)
    requires LocksOwned(locks, threads) && t in threads && threads[t].AtLock() && threads[t].pc.e in locks
    requires LockStep(locks[threads[t].pc.e], t, threads[t]).Some?
    ensures var e := threads[t].pc.e;
            var (l, th') := LockStep(locks[e], t, threads[t]).value;
            && Owns(locks[e := l], t, th')
            && (forall x | x in threads && x != t :: Owns(locks[e := l], x, threads[x]))
  {
  }

  lemma StepKeepsLocks(s: State, t: Tid, ok: bool, s': State)
    requires t in s.threads && LocksOwned(s.locks, s.threads) && Named(s.names, s.threads[t])
             && Step(s, t, ok) == Some(s')
    ensures LocksOwned(s'.locks, s'.threads)
  {
    hide LocksOwned, Enter, LockStep, Leave, SameHold;
    if s.threads[t].AtLock() {
      LockKeeps(s.locks, s.threads, t);
    } else {
      OnlyLocksChangeHolds(s, t, ok, s');
      HoldsAsBefore(s.locks, s.threads, t, s'.threads[t]);
    }
  }

  // ----- names and callbacks -----

  lemma StepKeepsNamed(s: State, t: Tid, ok: bool, s': State)
    requires t in s.threads && Bijection(s.index, s.names) && Named(s.names, s.threads[t]) && Step(s, t, ok) == Some(s')
    ensures s'.names == s.names && t in s'.threads && s'.threads == s.threads[t := s'.threads[t]]
    ensures Named(s'.names, s'.threads[t])
  {
    hide Enter, Leave, LockStep, Return, Named;
    var th := s.threads[t];
    if th.WantsMutex() {
      EnterKeepsNamed(s.size, s.index, s.names, th);
    } else if th.InMutex() {
      LeaveKeepsNamed(s.names, th);
    } else if th.AtLock() {
      LockKeepsNamed(s.names, s.locks[th.pc.e], t, th);
    } else {
      ReturnKeepsNamed(s.names, th, ok);
    }
  }

  lemma EnterKeepsNamed(size: int, m: Index, names: map<Eid, Name>, th: Thread)
    requires Bijection(m, names) && Named(names, th) && th.WantsMutex()
    ensures Named(names, th.(pc := Enter(size, m, th).1))
  {
    hide Touched, Removed, Added;
  }

  lemma LeaveKeepsNamed(names: map<Eid, Name>, th: Thread)
    requires Named(names, th) && th.InMutex()
    ensures Named(names, Leave(names, th))
  {
  }

  lemma LockKeepsNamed(names: map<Eid, Name>, l: RWLock, t: Tid, th: Thread)
    requires Named(names, th) && th.AtLock() && LockStep(l, t, th).Some?
    ensures Named(names, LockStep(l, t, th).value.1)
  {
  }

  lemma ReturnKeepsNamed(names: map<Eid, Name>, th: Thread, ok: bool)
    requires Named(names, th) && th.pc.Callback?
    ensures Named(names, Return(th, ok))
  {
  }

  /** A call that has been validated is alone with its entry unless it only reads. */
  lemma ExclusiveOrShared(s: State, t: Tid, x: Tid)
    requires Inv(s) && t in s.threads && x in s.threads && t != x
    requires s.threads[t].Validated() && s.threads[x].Validated() && s.threads[t].name == s.threads[x].name
    ensures s.threads[t].Reads() && s.threads[x].Reads()
  {
    assert Owns(s.locks, t, s.threads[t]) && Owns(s.locks, x, s.threads[x]);
    assert LeadsThere(s.index, s.threads[t]) && LeadsThere(s.index, s.threads[x]);
  }

  lemma StepKeepsLeads(s: State, t: Tid, ok: bool, s': State, x: Tid)
    requires Inv(s) && t in s.threads && x in s.threads && Step(s, t, ok) == Some(s')
    ensures x in s'.threads && LeadsThere(s'.index, s'.threads[x])
  {
    hide Inv, LocksOwned, MutexOwned, Bijection, Touched, Removed;
    assert LeadsThere(s.index, s.threads[t]) && LeadsThere(s.index, s.threads[x])
        && Named(s.names, s.threads[t]) by { Facts(s, t); Facts(s, x); }
    var th := s.threads[t];
    TouchSameElements(s.index, th.name);
    RemoveElements(s.index, th.name);
    if th.pc.Dropping? && x != t && s.threads[x].Validated() && s.threads[x].name == th.name {
      ExclusiveOrShared(s, t, x);
    }
  }

  lemma Facts(s: State, t: Tid)
    requires Inv(s) && t in s.threads
    ensures LeadsThere(s.index, s.threads[t]) && Named(s.names, s.threads[t])
  {
  }

  lemma TouchSameElements(m: Index, name: Name)
    ensures Touched(m, name).elements == m.elements
  {
  }

  lemma RemoveElements(m: Index, name: Name)
    ensures Removed(m, name).elements == m.elements - {name}
  {
  }

  // ----- every reachable state -----

  lemma StepKeepsInv(s: State, t: Tid, ok: bool, s': State)
    requires Inv(s) && t in s.threads && Step(s, t, ok) == Some(s')
    ensures Inv(s')
  {
    StepKeepsNamed(s, t, ok, s');
    StepKeepsMutex(s, t, ok, s');
    StepKeepsLocks(s, t, ok, s');
    forall x | x in s.threads ensures LeadsThere(s'.index, s'.threads[x]) { StepKeepsLeads(s, t, ok, s', x); }
    StepKeepsBijection(s, t, ok, s');
    hide Bijection, MutexOwned, LocksOwned, Named, LeadsThere, Step;
    assert s'.locks.Keys == s.locks.Keys by { StepKeepsKeys(s, t, ok, s'); }
  }

  lemma StepKeepsBijection(s: State, t: Tid, ok: bool, s': State)
    requires t in s.threads && Bijection(s.index, s.names) && Named(s.names, s.threads[t]) && Step(s, t, ok) == Some(s')
    ensures Bijection(s'.index, s'.names)
  {
    hide Bijection, Enter, Leave, LockStep;
    if s.threads[t].WantsMutex() { EnterKeepsBijection(s.size, s.index, s.names, s.threads[t]); }
  }

  lemma StepKeepsKeys(s: State, t: Tid, ok: bool, s': State)
    requires t in s.threads && Step(s, t, ok) == Some(s')
    ensures s'.locks.Keys == s.locks.Keys
  {
    hide Enter, Leave, LockStep;
  }

  lemma BeginKeepsInv(s: State, t: Tid, kind: Kind, name: Name, e: Eid, s': State)
    requires Inv(s) && Begin(s, t, kind, name, e) == Some(s')
    ensures Inv(s')
  {
    BeginKeepsLocks(s, t, kind, name, e, s');
    BeginKeepsBijection(s, t, kind, name, e, s');
    BeginKeepsMutex(s, t, kind, name, e, s');
    hide LocksOwned, Named, Bijection, MutexOwned, LeadsThere;
    forall x | x in s'.threads ensures Named(s'.names, s'.threads[x]) && LeadsThere(s'.index, s'.threads[x]) {
      if x != t {
        Facts(s, x);
      } else {
        Unvalidated(s'.index, s'.threads[t]);
      }
      StillNamed(s.names, s'.names, s'.threads[x], x != t, name);
    }
  }

  lemma Unvalidated(m: Index, th: Thread)
    requires th.pc.Look? || th.pc.WantEntry?
    ensures LeadsThere(m, th)
  {
  }

  lemma BeginKeepsMutex(s: State, t: Tid, kind: Kind, name: Name, e: Eid, s': State)
    requires MutexOwned(s) && Begin(s, t, kind, name, e) == Some(s')
    ensures MutexOwned(s')
  {
  }

  lemma StillNamed(names: map<Eid, Name>, names': map<Eid, Name>, th: Thread, known: bool, name: Name)
    requires forall e | e in names :: e in names' && names'[e] == names[e]
    requires if known then Named(names, th)
             else th.pc.Look? || (th.pc.WantEntry? && th.pc.e in names' && names'[th.pc.e] == th.name)
    ensures Named(names', th)
  {
  }

  lemma BeginKeepsBijection(s: State, t: Tid, kind: Kind, name: Name, e: Eid, s': State)
    requires Bijection(s.index, s.names) && s.locks.Keys == s.names.Keys && Begin(s, t, kind, name, e) == Some(s')
    ensures Bijection(s'.index, s'.names)
  {
  }

  lemma BeginKeepsLocks(s: State, t: Tid, kind: Kind, name: Name, e: Eid, s': State)
    requires LocksOwned(s.locks, s.threads) && Begin(s, t, kind, name, e) == Some(s')
    ensures LocksOwned(s'.locks, s'.threads)
  {
    assert s'.threads[t].Entry() == None;
    forall x | x in s'.threads ensures Owns(s'.locks, x, s'.threads[x]) {
      assert x != t ==> Owns(s.locks, x, s.threads[x]);
    }
  }

  lemma {:induction false} ReachableInv(run: seq<State>)
    requires IsRun(run)
    ensures Inv(run[|run| - 1])
  {
    if |run| == 1 {
      assert Init(run[0]);
    } else {
      var before := run[..|run| - 1];
      var s, s' := run[|run| - 2], run[|run| - 1];
      assert IsRun(before) by { assert forall i | 0 <= i < |before| - 1 :: Next(run[i], run[i + 1]); }
      ReachableInv(before);
      assert Next(run[|run| - 2], run[|run| - 2 + 1]);
      hide Inv, Begin, Step, IsRun;
      if exists t, kind, name, e :: Begin(s, t, kind, name, e) == Some(s') {
        var t, kind, name, e :| Begin(s, t, kind, name, e) == Some(s');
        BeginKeepsInv(s, t, kind, name, e, s');
      } else {
        var t, ok :| t in s.threads && Step(s, t, ok) == Some(s');
        StepKeepsInv(s, t, ok, s');
      }
    }
  }

  /** While a callback runs, its name leads to its entry, the entry is in the
      queue, and no other call on that name runs one unless both only read. */
  lemma CallbacksAreSafe(run: seq<State>, t: Tid)
    requires IsRun(run)
    requires var s := run[|run| - 1]; t in s.threads && s.threads[t].pc.Callback?
    ensures var s := run[|run| - 1]; var th := s.threads[t];
            && th.name in s.index.elements && s.index.elements[th.name] == th.pc.e && th.pc.e in s.index.queue
            && (forall x | x in s.threads && x != t && s.threads[x].pc.Callback? && s.threads[x].name == th.name ::
                  th.Reads() && s.threads[x].Reads())
  {
    ReachableInv(run);
    var s := run[|run| - 1];
    assert LeadsThere(s.index, s.threads[t]);
    forall x | x in s.threads && x != t && s.threads[x].pc.Callback? && s.threads[x].name == s.threads[t].name
      ensures s.threads[t].Reads() && s.threads[x].Reads()
    {
      ExclusiveOrShared(s, t, x);
    }
  }

  /** The map and its queue hold the same entries, each once and under its own name. */
  lemma IndexIsConsistent(run: seq<State>)
    requires IsRun(run)
    ensures var s := run[|run| - 1];
            && (forall e :: e in s.index.queue <==> exists n :: n in s.index.elements && s.index.elements[n] == e)
            && |s.index.queue| == |s.index.elements|
            && (forall n | n in s.index.elements :: s.index.elements[n] in s.names && s.names[s.index.elements[n]] == n)
  {
    ReachableInv(run);
    var s := run[|run| - 1];
    hide IsRun, Inv;
    assert Bijection(s.index, s.names) by { BijectionHolds(s); }
    SameCount(s.index, s.names);
    forall e | e in s.index.queue ensures exists n :: n in s.index.elements && s.index.elements[n] == e {
      assert s.names[e] in s.index.elements;
    }
  }

  lemma BijectionHolds(s: State)
    requires Inv(s)
    ensures Bijection(s.index, s.names)
  {
  }

  lemma SameCount(m: Index, names: map<Eid, Name>)
    requires Bijection(m, names)
    ensures |m.queue| == |m.elements|
  {
    var keys := seq(|m.queue|, i requires 0 <= i < |m.queue| => names[m.queue[i]]);
    assert forall i, j | 0 <= i < j < |keys| :: keys[i] != keys[j] by {
      forall i, j | 0 <= i < j < |keys| ensures keys[i] != keys[j] {
        assert m.elements[keys[i]] == m.queue[i] && m.elements[keys[j]] == m.queue[j];
      }
    }
    forall n ensures n in m.elements.Keys <==> n in keys {
      if n in m.elements.Keys {
        var i :| 0 <= i < |m.queue| && m.queue[i] == m.elements[n];
        assert keys[i] == n;
      }
    }
    DistinctCount(keys, m.elements.Keys);
  }

  // ----- some call can step -----

  /** Which goroutine a waiting one can wait for next. */
  predicate CanStep(s: State, t: Tid)
    requires t in s.threads
  {
    Step(s, t, true).Some?
  }

  lemma FreeOrReleasable(s: State, t: Tid)
    requires Inv(s) && t in s.threads && s.threads[t].InMutex()
    ensures CanStep(s, t)
  {
    Facts(s, t);
    hide Leave;
  }

  /** A holder of an entry lock moves as soon as the map mutex is free, unless
      it is a writer that waits for readers. */
  lemma HolderMoves(s: State, t: Tid)
    requires Inv(s) && t in s.threads && s.threads[t].Entry().Some? && !s.threads[t].pc.Announced? && s.mutex.None?
    ensures CanStep(s, t)
  {
    Facts(s, t);
    assert Owns(s.locks, t, s.threads[t]);
    hide Leave, Enter;
  }

  lemma WaiterHasHolder(s: State, t: Tid) returns (x: Tid)
    requires Inv(s) && t in s.threads && s.mutex.None? && !s.threads[t].pc.Done?
    ensures x in s.threads && CanStep(s, x)
  {
    var th := s.threads[t];
    x := t;
    Facts(s, t);
    if th.pc.WantEntry? && s.locks[th.pc.e].writer.Some? {
      x := s.locks[th.pc.e].writer.value;
      assert Writes(s.threads[x], th.pc.e);
    }
    if s.threads[x].pc.Announced? {
      Facts(s, x);
      assert Owns(s.locks, x, s.threads[x]);
      var e := s.threads[x].pc.e;
      if s.locks[e].readers != {} {
        var y :| y in s.locks[e].readers;
        assert ReadsIn(s.threads[y], e);
        assert Owns(s.locks, y, s.threads[y]);
        x := y;
        HolderMoves(s, x);
      }
    } else if s.threads[x].Entry().Some? {
      HolderMoves(s, x);
    }
  }

  /** While a call is unfinished some call can step. */
  lemma SomeoneMoves(s: State, t: Tid) returns (x: Tid)
    requires Inv(s) && t in s.threads && !s.threads[t].pc.Done?
    ensures x in s.threads && Step(s, x, true).Some?
  {
    if s.mutex.Some? {
      x := s.mutex.value;
      FreeOrReleasable(s, x);
    } else {
      x := WaiterHasHolder(s, t);
    }
  }

  /** No reachable state leaves a call unfinished with every call stuck. */
  lemma NoDeadlock(run: seq<State>)
    requires IsRun(run)
    requires var s := run[|run| - 1]; exists t :: t in s.threads && !s.threads[t].pc.Done?
    ensures var s := run[|run| - 1]; exists x :: x in s.threads && Step(s, x, true).Some?
  {
    ReachableInv(run);
    var s := run[|run| - 1];
    hide IsRun, Step, Inv;
    var t :| t in s.threads && !s.threads[t].pc.Done?;
    var x := SomeoneMoves(s, t);
    assert Step(s, x, true).Some?;
  }
}
