/** What the calls of the file map do when they are left alone: each of them, run
    from start to end with nobody else moving, changes the map as one operation. */
module FileMapCalls {
  import opened Wrappers
  import opened Queues
  import opened FileMapProtocol

  /** Every call has ended and every lock is free. */
  ghost predicate Quiet(s: State) {
    && s.mutex == None && (forall t | t in s.threads :: s.threads[t].pc.Done?)
    && (forall e | e in s.locks :: s.locks[e] == RWLock(None, {}))
    && Bijection(s.index, s.names) && (forall e | e in s.names :: e in s.locks)
  }

  /** Steps of one call; the callback returns `ok`. */
  function Go(s: State, t: Tid, ok: bool, n: nat): Option<State> {
    if n == 0 then Some(s)
    else
      match Go(s, t, ok, n - 1)
      case None => None
      case Some(x) => if t in x.threads then Step(x, t, ok) else None
  }

  ghost predicate Reaches(s: State, t: Tid, ok: bool, s': State) {
    exists n: nat :: Go(s, t, ok, n) == Some(s')
  }

  lemma {:induction false} GoOn(s: State, t: Tid, ok: bool, n: nat, k: nat)
    requires Go(s, t, ok, n).Some?
    ensures Go(s, t, ok, n + k) == Go(Go(s, t, ok, n).value, t, ok, k)
  {
    hide Step;
    if k > 0 { GoOn(s, t, ok, n, k - 1); }
  }

  lemma Then(s: State, t: Tid, ok: bool, s': State, s'': State)
    requires Reaches(s, t, ok, s') && Reaches(s', t, ok, s'')
    ensures Reaches(s, t, ok, s'')
  {
    var n: nat :| Go(s, t, ok, n) == Some(s');
    var k: nat :| Go(s', t, ok, k) == Some(s'');
    GoOn(s, t, ok, n, k);
    assert Go(s, t, ok, n + k) == Some(s'');
  }

  lemma Now(s: State, t: Tid, ok: bool, s': State)
    requires t in s.threads && Step(s, t, ok) == Some(s')
    ensures Reaches(s, t, ok, s')
  {
    hide Step;
    assert Go(s, t, ok, 0) == Some(s);
    assert Go(s, t, ok, 1) == Some(s');
  }

  /** The state with one call at this point, and this much changed. */
  function With(s: State, t: Tid, th: Thread, m: Index, locks: map<Eid, RWLock>): State {
    s.(threads := s.threads[t := th], index := m, locks := locks)
  }

  lemma WithAgain(s: State, t: Tid, th: Thread, th': Thread, m: Index, m': Index, locks: map<Eid, RWLock>,
      locks': map<Eid, RWLock>)
    ensures With(With(s, t, th, m, locks), t, th', m', locks') == With(s, t, th', m', locks')
  {
    assert s.threads[t := th][t := th'] == s.threads[t := th'];
  }

  // ----- the parts of a call -----

  /** Whatever is done under the map mutex is done in one go. */
  lemma UnderMutex(s: State, t: Tid, th: Thread, m: Index, locks: map<Eid, RWLock>, ok: bool)
    requires s.mutex == None && th.WantsMutex()
    requires var (m', pc) := Enter(s.size, m, th);
             th.(pc := pc).InMutex() && (pc.Picked? && pc.victim.Some? ==> pc.victim.value in s.names)
    ensures var (m', pc) := Enter(s.size, m, th);
            Reaches(With(s, t, th, m, locks), t, ok, With(s, t, Leave(s.names, th.(pc := pc)), m', locks))
  {
    var (m', pc) := Enter(s.size, m, th);
    var a := With(s, t, th, m, locks);
    var b := With(s, t, th.(pc := pc), m', locks).(mutex := Some(t));
    var c := With(s, t, Leave(s.names, th.(pc := pc)), m', locks);
    assert a.threads[t := th.(pc := pc)] == s.threads[t := th.(pc := pc)];
    assert Step(a, t, ok) == Some(b);
    assert b.threads[t := Leave(s.names, th.(pc := pc))] == c.threads;
    assert Step(b, t, ok) == Some(c);
    hide Step, With;
    Now(a, t, ok, b);
    Now(b, t, ok, c);
    Then(a, t, ok, b, c);
  }

  function Held(t: Tid, th: Thread): RWLock {
    if th.Reads() then RWLock(None, {t}) else RWLock(Some(t), {})
  }

  /** A free entry lock is taken. */
  lemma TakesLock(s: State, t: Tid, th: Thread, m: Index, locks: map<Eid, RWLock>, ok: bool)
    requires th.pc.WantEntry? && th.pc.e in locks && locks[th.pc.e] == RWLock(None, {})
    ensures Reaches(With(s, t, th, m, locks), t, ok,
                With(s, t, th.(pc := Locked(th.pc.e)), m, locks[th.pc.e := Held(t, th)]))
  {
    var e := th.pc.e;
    var a := With(s, t, th, m, locks);
    var c := With(s, t, th.(pc := Locked(e)), m, locks[e := Held(t, th)]);
    if th.Reads() {
      assert {} + {t} == {t};
      assert a.threads[t := th.(pc := Locked(e))] == c.threads;
      assert Step(a, t, ok) == Some(c);
      Now(a, t, ok, c);
    } else {
      var b := With(s, t, th.(pc := Announced(e)), m, locks[e := Held(t, th)]);
      assert a.threads[t := th.(pc := Announced(e))] == b.threads;
      assert Step(a, t, ok) == Some(b);
      assert b.threads[t := th.(pc := Locked(e))] == c.threads;
      assert b.locks[e := b.locks[e]] == b.locks;
      assert Step(b, t, ok) == Some(c);
      hide Step, With;
      Now(a, t, ok, b);
      Now(b, t, ok, c);
      Then(a, t, ok, b, c);
    }
  }

  /** And given back. */
  lemma LeavesLock(s: State, t: Tid, th: Thread, m: Index, locks: map<Eid, RWLock>, ok: bool)
    requires th.pc.Unlocking? && th.pc.e in locks && locks[th.pc.e] == Held(t, th)
    ensures var th' := if th.kind.TryStore? then Thread(Evict, th.name, Oldest) else th.(pc := Done);
            Reaches(With(s, t, th, m, locks), t, ok, With(s, t, th', m, locks[th.pc.e := RWLock(None, {})]))
  {
    var th' := if th.kind.TryStore? then Thread(Evict, th.name, Oldest) else th.(pc := Done);
    var a, c := With(s, t, th, m, locks), With(s, t, th', m, locks[th.pc.e := RWLock(None, {})]);
    assert {t} - {t} == {};
    assert a.threads[t := th'] == c.threads;
    assert Step(a, t, ok) == Some(c);
    Now(a, t, ok, c);
  }

  /** The callback runs. */
  lemma Returns(s: State, t: Tid, th: Thread, m: Index, locks: map<Eid, RWLock>, ok: bool)
    requires th.pc.Callback?
    ensures Reaches(With(s, t, th, m, locks), t, ok, With(s, t, Return(th, ok), m, locks))
  {
    var a, c := With(s, t, th, m, locks), With(s, t, Return(th, ok), m, locks);
    assert a.threads[t := Return(th, ok)] == c.threads;
    assert Step(a, t, ok) == Some(c);
    Now(a, t, ok, c);
  }

  // ----- whole calls -----

  /** The call runs, and in the end every call has ended and the index is `m`. */
  ghost predicate EndsWith(s: State, t: Tid, ok: bool, m: Index) {
    exists s' :: Reaches(s, t, ok, s') && Quiet(s') && s'.index == m && s'.size == s.size
  }

  /** On the way, the callback of a call of this kind runs on the entry. */
  ghost predicate CallsBack(s: State, t: Tid, ok: bool, kind: Kind, name: Name, e: Eid) {
    exists s' :: Reaches(s, t, ok, s') && t in s'.threads && s'.threads[t] == Thread(kind, name, Callback(e))
  }

  /** The index with one entry moved to the front, and without it. */
  function InFront(m: Index, a: seq<Eid>, e: Eid, b: seq<Eid>): Index {
    Index(m.elements, [e] + a + b)
  }

  function Without(m: Index, name: Name, a: seq<Eid>, b: seq<Eid>): Index {
    Index(m.elements - {name}, a + b)
  }

  lemma Apart(q: seq<Eid>, a: seq<Eid>, e: Eid, b: seq<Eid>)
    requires NoDuplicates(q) && q == a + [e] + b
    ensures e !in a && e !in b && NoDuplicates(a + b)
  {
    assert q[|a|] == e;
    assert forall i | 0 <= i < |a| :: a[i] == q[i];
    assert forall i | 0 <= i < |b| :: b[i] == q[|a| + 1 + i];
    assert forall i | 0 <= i < |a + b| :: (a + b)[i] == q[if i < |a| then i else i + 1];
  }

  lemma Around(m: Index, a: seq<Eid>, e: Eid, b: seq<Eid>)
    requires NoDuplicates(m.queue) && m.queue == a + [e] + b
    ensures e !in a && e !in b && NoDuplicates(a + b) && NoDuplicates([e] + a + b)
    ensures forall x :: x in m.queue <==> x in [e] + a + b
    ensures forall x :: x in a + b <==> x in m.queue && x != e
  {
    Apart(m.queue, a, e, b);
    assert [e] + a + b == [e] + (a + b);
    assert forall x :: x in a + b <==> x in a || x in b;
  }

  lemma Moves(m: Index, name: Name, a: seq<Eid>, e: Eid, b: seq<Eid>)
    requires NoDuplicates(m.queue) && m.queue == a + [e] + b
    requires name in m.elements && m.elements[name] == e
    ensures e !in a && e !in b
    ensures Touched(m, name) == InFront(m, a, e, b)
    ensures Touched(InFront(m, a, e, b), name) == InFront(m, a, e, b)
    ensures Removed(InFront(m, a, e, b), name) == Without(m, name, a, b)
  {
    Around(m, a, e, b);
    hide NoDuplicates;
    RemoveAt(a, e, b);
    RemoveAt([], e, a + b);
    assert [] + [e] + (a + b) == [e] + a + b;
    assert [] + (a + b) == a + b;
    assert [e] + (a + b) == [e] + a + b;
  }

  /** From validating a name it finds to the callback. */
  lemma ToCallback(s: State, t: Tid, th: Thread, m: Index, a: seq<Eid>, b: seq<Eid>, ok: bool)
    requires s.mutex == None && !th.kind.TryStore? && th.pc.WantEntry?
    requires NoDuplicates(m.queue) && m.queue == a + [th.pc.e] + b
    requires th.name in m.elements && m.elements[th.name] == th.pc.e
    requires th.pc.e in s.locks && s.locks[th.pc.e] == RWLock(None, {})
    ensures Reaches(With(s, t, th, m, s.locks), t, ok,
                With(s, t, th.(pc := Callback(th.pc.e)), InFront(m, a, th.pc.e, b), s.locks[th.pc.e := Held(t, th)]))
  {
    var e := th.pc.e;
    var l := s.locks[e := Held(t, th)];
    Moves(m, th.name, a, e, b);
    TakesLock(s, t, th, m, s.locks, ok);
    UnderMutex(s, t, th.(pc := Locked(e)), m, l, ok);
    hide Reaches, With;
    Then(With(s, t, th, m, s.locks), t, ok, With(s, t, th.(pc := Locked(e)), m, l),
        With(s, t, th.(pc := Callback(e)), InFront(m, a, e, b), l));
  }

  /** From releasing the entry lock to the end, for all calls but TryStore. */
  lemma Leaves(s: State, t: Tid, th: Thread, m: Index, ok: bool)
    requires !th.kind.TryStore? && th.pc.Unlocking?
    requires th.pc.e in s.locks && s.locks[th.pc.e] == RWLock(None, {})
    ensures Reaches(With(s, t, th, m, s.locks[th.pc.e := Held(t, th)]), t, ok, With(s, t, th.(pc := Done), m, s.locks))
  {
    LeavesLock(s, t, th, m, s.locks[th.pc.e := Held(t, th)], ok);
    assert s.locks[th.pc.e := Held(t, th)][th.pc.e := RWLock(None, {})] == s.locks;
  }

  /** From the callback to the end, for all calls but TryStore. */
  lemma FromCallback(s: State, t: Tid, th: Thread, m: Index, ok: bool)
    requires s.mutex == None && !th.kind.TryStore? && th.pc.Callback?
    requires th.pc.e in s.locks && s.locks[th.pc.e] == RWLock(None, {})
    ensures var drop := th.kind.Evict? || (th.kind.Delete? && ok);
            Reaches(With(s, t, th, m, s.locks[th.pc.e := Held(t, th)]), t, ok,
                With(s, t, th.(pc := Done), if drop then Removed(m, th.name) else m, s.locks))
  {
    var e := th.pc.e;
    var l := s.locks[e := Held(t, th)];
    var from := With(s, t, th, m, l);
    Returns(s, t, th, m, l, ok);
    if th.kind.Evict? || (th.kind.Delete? && ok) {
      var m' := Removed(m, th.name);
      UnderMutex(s, t, th.(pc := Dropping(e)), m, l, ok);
      Leaves(s, t, th.(pc := Unlocking(e)), m', ok);
      hide Reaches, With;
      Then(from, t, ok, With(s, t, th.(pc := Dropping(e)), m, l), With(s, t, th.(pc := Unlocking(e)), m', l));
      Then(from, t, ok, With(s, t, th.(pc := Unlocking(e)), m', l), With(s, t, th.(pc := Done), m', s.locks));
    } else {
      Leaves(s, t, th.(pc := Unlocking(e)), m, ok);
      hide Reaches, With;
      Then(from, t, ok, With(s, t, th.(pc := Unlocking(e)), m, l), With(s, t, th.(pc := Done), m, s.locks));
    }
  }

  /** A state is quiet again when the call is done and the index is in bijection. */
  lemma QuietAgain(s: State, t: Tid, ok: bool, from: State, th: Thread, m: Index)
    requires s.mutex == None && (forall x | x in s.threads && x != t :: s.threads[x].pc.Done?) && th.pc.Done?
    requires (forall e | e in s.locks :: s.locks[e] == RWLock(None, {})) && (forall e | e in s.names :: e in s.locks)
    requires Bijection(m, s.names) && from.size == s.size
    requires Reaches(from, t, ok, With(s, t, th, m, s.locks))
    ensures EndsWith(from, t, ok, m)
  {
    assert Quiet(With(s, t, th, m, s.locks));
  }

  lemma StaysBijection(m: Index, names: map<Eid, Name>, name: Name, a: seq<Eid>, e: Eid, b: seq<Eid>)
    requires Bijection(m, names) && m.queue == a + [e] + b && e in names && names[e] == name
    ensures name in m.elements && m.elements[name] == e && NoDuplicates(m.queue)
    ensures Bijection(InFront(m, a, e, b), names)
    ensures Bijection(Without(m, name, a, b), names)
  {
    assert m.queue[|a|] == e;
    Around(m, a, e, b);
    hide NoDuplicates;
  }

  /** A load or a delete of a name that is not there changes nothing. */
  lemma AbsentCall(s: State, t: Tid, kind: Kind, name: Name, e: Eid, ok: bool)
    requires Quiet(s) && t !in s.threads && !kind.TryStore? && !kind.Evict? && name !in s.index.elements
    ensures Begin(s, t, kind, name, e).Some? && EndsWith(Begin(s, t, kind, name, e).value, t, ok, s.index)
  {
    var th := Thread(kind, name, Look);
    assert Begin(s, t, kind, name, e).value == With(s, t, th, s.index, s.locks);
    UnderMutex(s, t, th, s.index, s.locks, ok);
    QuietAgain(s, t, ok, With(s, t, th, s.index, s.locks), th.(pc := Done), s.index);
  }

  lemma PresentRun(s: State, t: Tid, th: Thread, a: seq<Eid>, e: Eid, b: seq<Eid>, ok: bool)
    requires s.mutex == None && !th.kind.TryStore? && !th.kind.Evict? && th.pc.Look?
    requires NoDuplicates(s.index.queue) && s.index.queue == a + [e] + b
    requires th.name in s.index.elements && s.index.elements[th.name] == e
    requires e in s.locks && s.locks[e] == RWLock(None, {})
    ensures var from := With(s, t, th, s.index, s.locks);
            var m' := if th.kind.Delete? && ok then Without(s.index, th.name, a, b) else InFront(s.index, a, e, b);
            CallsBack(from, t, ok, th.kind, th.name, e)
            && Reaches(from, t, ok, With(s, t, th.(pc := Done), m', s.locks))
  {
    var m := InFront(s.index, a, e, b);
    var from, want := With(s, t, th, s.index, s.locks), With(s, t, th.(pc := WantEntry(e)), m, s.locks);
    var at := With(s, t, th.(pc := Callback(e)), m, s.locks[e := Held(t, th)]);
    Moves(s.index, th.name, a, e, b);
    Around(s.index, a, e, b);
    assert Reaches(from, t, ok, want) by { UnderMutex(s, t, th, s.index, s.locks, ok); }
    assert m.queue == [] + [e] + (a + b) && [e] + [] + (a + b) == m.queue;
    assert InFront(m, [], e, a + b) == m;
    assert at.threads[t] == Thread(th.kind, th.name, Callback(e));
    hide NoDuplicates, Reaches, With, InFront, Without;
    ToCallback(s, t, th.(pc := WantEntry(e)), m, [], a + b, ok);
    FromCallback(s, t, th.(pc := Callback(e)), m, ok);
    var m' := if th.kind.Delete? && ok then Removed(m, th.name) else m;
    Along(from, t, ok, want, at, With(s, t, th.(pc := Done), m', s.locks));
  }

  lemma Along(from: State, t: Tid, ok: bool, x: State, y: State, end: State)
    requires Reaches(from, t, ok, x) && Reaches(x, t, ok, y) && Reaches(y, t, ok, end)
    ensures Reaches(from, t, ok, y) && Reaches(from, t, ok, end)
  {
    Then(from, t, ok, x, y);
    Then(from, t, ok, y, end);
  }

  /** A load or a delete of a name that is there calls back on its entry; the entry
      moves to the front, or the name goes when it is a delete that is agreed to. */
  lemma PresentCall(s: State, t: Tid, kind: Kind, name: Name, a: seq<Eid>, e: Eid, b: seq<Eid>, ok: bool)
    requires Quiet(s) && t !in s.threads && !kind.TryStore? && !kind.Evict?
    requires s.index.queue == a + [e] + b && s.names[e] == name
    ensures Begin(s, t, kind, name, e).Some? && CallsBack(Begin(s, t, kind, name, e).value, t, ok, kind, name, e)
    ensures EndsWith(Begin(s, t, kind, name, e).value, t, ok,
                if kind.Delete? && ok then Without(s.index, name, a, b) else InFront(s.index, a, e, b))
  {
    var th := Thread(kind, name, Look);
    var m := InFront(s.index, a, e, b);
    assert s.index.queue[|a|] == e;
    StaysBijection(s.index, s.names, name, a, e, b);
    Moves(s.index, name, a, e, b);
    assert Begin(s, t, kind, name, e).value == With(s, t, th, s.index, s.locks);
    hide Bijection, NoDuplicates, Reaches, EndsWith, CallsBack, Touched, With;
    PresentRun(s, t, th, a, e, b, ok);
    var m' := if kind.Delete? && ok then Without(s.index, name, a, b) else m;
    QuietAgain(s, t, ok, With(s, t, th, s.index, s.locks), th.(pc := Done), m');
  }

  // ----- storing and evicting -----

  /** Above its capacity a map gives up the name at the back. */
  function Trimmed(size: int, m: Index, names: map<Eid, Name>): Index
    requires forall e <- m.queue :: e in names
  {
    if 0 < size < |m.queue| then
      var last := |m.queue| - 1;
      Index(m.elements - {names[m.queue[last]]}, m.queue[..last])
    else m
  }

  /** From taking the oldest entry to its removal. */
  lemma EvictRun(s: State, t: Tid, th: Thread, m: Index, a: seq<Eid>, e: Eid, ok: bool)
    requires s.mutex == None && th.kind.Evict? && th.pc.Oldest? && 0 < s.size < |m.queue|
    requires NoDuplicates(m.queue) && m.queue == a + [e] + []
    requires e in s.names && s.names[e] in m.elements && m.elements[s.names[e]] == e
    requires e in s.locks && s.locks[e] == RWLock(None, {})
    ensures Reaches(With(s, t, th, m, s.locks), t, ok,
                With(s, t, Thread(Evict, s.names[e], Done), Without(m, s.names[e], a, []), s.locks))
  {
    var victim := Thread(Evict, s.names[e], WantEntry(e));
    var from, want := With(s, t, th, m, s.locks), With(s, t, victim, m, s.locks);
    var at := With(s, t, victim.(pc := Callback(e)), InFront(m, a, e, []), s.locks[e := Held(t, victim)]);
    assert m.queue[|m.queue| - 1] == e;
    assert Reaches(from, t, ok, want) by { UnderMutex(s, t, th, m, s.locks, ok); }
    Moves(m, s.names[e], a, e, []);
    hide NoDuplicates, Reaches, With, InFront, Without;
    ToCallback(s, t, victim, m, a, [], ok);
    FromCallback(s, t, victim.(pc := Callback(e)), InFront(m, a, e, []), ok);
    Along(from, t, ok, want, at, With(s, t, victim.(pc := Done), Without(m, s.names[e], a, []), s.locks));
  }

  /** The eviction after a TryStore. */
  lemma Evicts(s: State, t: Tid, name: Name, m: Index, ok: bool)
    requires s.mutex == None && (forall x | x in s.threads && x != t :: s.threads[x].pc.Done?)
    requires (forall e | e in s.locks :: s.locks[e] == RWLock(None, {})) && (forall e | e in s.names :: e in s.locks)
    requires Bijection(m, s.names)
    ensures EndsWith(With(s, t, Thread(Evict, name, Oldest), m, s.locks), t, ok, Trimmed(s.size, m, s.names))
  {
    var th := Thread(Evict, name, Oldest);
    if 0 < s.size < |m.queue| {
      var a, e := m.queue[..|m.queue| - 1], m.queue[|m.queue| - 1];
      assert m.queue == a + [e] + [] && a + [] == a;
      StaysBijection(m, s.names, s.names[e], a, e, []);
      hide Bijection, NoDuplicates, Reaches, EndsWith, With;
      EvictRun(s, t, th, m, a, e, ok);
      QuietAgain(s, t, ok, With(s, t, th, m, s.locks), Thread(Evict, s.names[e], Done), Without(m, s.names[e], a, []));
    } else {
      UnderMutex(s, t, th, m, s.locks, ok);
      QuietAgain(s, t, ok, With(s, t, th, m, s.locks), th.(pc := Done), m);
    }
  }

  lemma GoesOn(s: State, t: Tid, ok: bool, s': State, m: Index)
    requires Reaches(s, t, ok, s') && EndsWith(s', t, ok, m) && s'.size == s.size
    ensures EndsWith(s, t, ok, m)
  {
    var s'' :| Reaches(s', t, ok, s'') && Quiet(s'') && s''.index == m && s''.size == s'.size;
    Then(s, t, ok, s', s'');
  }

  /** The index after a TryStore of a new name, before anything is evicted. */
  function Stored(m: Index, name: Name, e: Eid, ok: bool): Index {
    if ok then Index(m.elements[name := e], [e] + m.queue) else m
  }

  lemma MoreNames(m: Index, names: map<Eid, Name>, e: Eid, name: Name)
    requires Bijection(m, names) && e !in names
    ensures e !in m.queue && Bijection(m, names[e := name])
  {
    hide NoDuplicates;
  }

  lemma AddedBijection(m: Index, names: map<Eid, Name>, name: Name, e: Eid)
    requires Bijection(m, names) && e in names && names[e] == name && e !in m.queue && name !in m.elements
    ensures Bijection(Added(m, name, e), names)
  {
    var q := Added(m, name, e).queue;
    assert forall x <- q :: x == e || x in m.queue;
    assert forall x <- m.queue :: x in q by {
      forall i | 0 <= i < |m.queue| ensures m.queue[i] in q { assert q[i + 1] == m.queue[i]; }
    }
    assert e == q[0];
    assert NoDuplicates(q);
    hide NoDuplicates;
  }

  /** Adding and removing leaves what was there. */
  lemma AddRemove(m: Index, name: Name, e: Eid)
    requires e !in m.queue && name !in m.elements
    ensures Removed(Added(m, name, e), name) == m
  {
    RemoveAt([], e, m.queue);
    assert [] + [e] + m.queue == [e] + m.queue && [] + m.queue == m.queue;
    assert m.elements[name := e] - {name} == m.elements;
  }

  /** From a TryStore's callback to its eviction. */
  lemma FromStored(s: State, t: Tid, name: Name, m: Index, e: Eid, ok: bool)
    requires s.mutex == None && e in s.locks && s.locks[e] == RWLock(None, {})
    requires Removed(Added(m, name, e), name) == m
    ensures var l := s.locks[e := RWLock(Some(t), {})];
            Reaches(With(s, t, Thread(TryStore, name, Callback(e)), Added(m, name, e), l), t, ok,
                With(s, t, Thread(Evict, name, Oldest), Stored(m, name, e, ok), s.locks))
  {
    var th := Thread(TryStore, name, Callback(e));
    var l := s.locks[e := RWLock(Some(t), {})];
    var m1, m2 := Added(m, name, e), Stored(m, name, e, ok);
    var from := With(s, t, th, m1, l);
    var leaving := With(s, t, th.(pc := Unlocking(e)), m2, l);
    Returns(s, t, th, m1, l, ok);
    if !ok {
      UnderMutex(s, t, th.(pc := Dropping(e)), m1, l, ok);
      Then(from, t, ok, With(s, t, th.(pc := Dropping(e)), m1, l), leaving);
    }
    LeavesLock(s, t, th.(pc := Unlocking(e)), m2, l, ok);
    assert l[e := RWLock(None, {})] == s.locks;
    var end := With(s, t, Thread(Evict, name, Oldest), m2, s.locks);
    assert Reaches(leaving, t, ok, end);
    Then(from, t, ok, leaving, end);
  }

  lemma NewRun(s: State, t: Tid, name: Name, m: Index, e: Eid, ok: bool)
    requires s.mutex == None && e in s.locks && s.locks[e] == RWLock(None, {}) && name !in m.elements
    requires Removed(Added(m, name, e), name) == m
    ensures var from := With(s, t, Thread(TryStore, name, WantEntry(e)), m, s.locks);
            CallsBack(from, t, ok, TryStore, name, e)
            && Reaches(from, t, ok, With(s, t, Thread(Evict, name, Oldest), Stored(m, name, e, ok), s.locks))
  {
    var th := Thread(TryStore, name, WantEntry(e));
    var l := s.locks[e := RWLock(Some(t), {})];
    var from, locked := With(s, t, th, m, s.locks), With(s, t, th.(pc := Locked(e)), m, l);
    var at := With(s, t, th.(pc := Callback(e)), Added(m, name, e), l);
    assert Reaches(from, t, ok, locked) by { TakesLock(s, t, th, m, s.locks, ok); }
    assert Reaches(locked, t, ok, at) by { UnderMutex(s, t, th.(pc := Locked(e)), m, l, ok); }
    assert at.threads[t] == Thread(TryStore, name, Callback(e));
    hide Reaches, With;
    FromStored(s, t, name, m, e, ok);
    Along(from, t, ok, locked, at, With(s, t, Thread(Evict, name, Oldest), Stored(m, name, e, ok), s.locks));
  }

  /** A TryStore brings an entry with a free lock of its own. */
  lemma BringsEntry(s: State, t: Tid, name: Name, e: Eid)
    requires Quiet(s) && t !in s.threads && e !in s.locks
    ensures Begin(s, t, TryStore, name, e).Some? && e !in s.names && Bijection(s.index, s.names)
    ensures var s1 := Begin(s, t, TryStore, name, e).value;
            && s1 == With(s1, t, Thread(TryStore, name, WantEntry(e)), s.index, s1.locks)
            && s1.mutex == None && s1.size == s.size && s1.names == s.names[e := name] && e in s1.locks
            && (forall x | x in s1.threads && x != t :: s1.threads[x].pc.Done?)
            && (forall x | x in s1.locks :: s1.locks[x] == RWLock(None, {}))
            && (forall x | x in s1.names :: x in s1.locks)
  {
    hide Bijection;
  }

  /** A TryStore of a new name calls back on its entry, which goes in front if the
      callback agrees; then the name at the back goes if there are too many. */
  lemma StoreNew(s: State, t: Tid, name: Name, e: Eid, ok: bool)
    requires Quiet(s) && t !in s.threads && e !in s.locks && name !in s.index.elements
    ensures Begin(s, t, TryStore, name, e).Some?
    ensures CallsBack(Begin(s, t, TryStore, name, e).value, t, ok, TryStore, name, e)
    ensures forall x <- Stored(s.index, name, e, ok).queue :: x in s.names[e := name]
    ensures EndsWith(Begin(s, t, TryStore, name, e).value, t, ok,
                Trimmed(s.size, Stored(s.index, name, e, ok), s.names[e := name]))
  {
    BringsEntry(s, t, name, e);
    MoreNames(s.index, s.names, e, name);
    var s1 := Begin(s, t, TryStore, name, e).value;
    AddedBijection(s.index, s1.names, name, e);
    AddRemove(s.index, name, e);
    hide Quiet, Begin, Bijection, NoDuplicates, Reaches, EndsWith, CallsBack, Trimmed;
    NewRun(s1, t, name, s.index, e, ok);
    var stored := With(s1, t, Thread(Evict, name, Oldest), Stored(s.index, name, e, ok), s1.locks);
    Evicts(s1, t, name, Stored(s.index, name, e, ok), ok);
    GoesOn(s1, t, ok, stored, Trimmed(s.size, Stored(s.index, name, e, ok), s1.names));
  }

  /** From a TryStore that finds its name to its eviction. */
  lemma FromKnown(s: State, t: Tid, th: Thread, m: Index, m': Index, e: Eid, ok: bool)
    requires s.mutex == None && th == Thread(TryStore, th.name, WantEntry(e))
    requires e in s.locks && s.locks[e] == RWLock(None, {})
    requires th.name in m.elements && Touched(m, th.name) == m'
    ensures Reaches(With(s, t, th, m, s.locks), t, ok, With(s, t, Thread(Evict, th.name, Oldest), m', s.locks))
  {
    var l := s.locks[e := RWLock(Some(t), {})];
    TakesLock(s, t, th, m, s.locks, ok);
    UnderMutex(s, t, th.(pc := Locked(e)), m, l, ok);
    LeavesLock(s, t, th.(pc := Unlocking(e)), m', l, ok);
    assert l[e := RWLock(None, {})] == s.locks;
    var from, leaving := With(s, t, th, m, s.locks), With(s, t, th.(pc := Unlocking(e)), m', l);
    var after := With(s, t, Thread(Evict, th.name, Oldest), m', s.locks);
    assert Reaches(leaving, t, ok, after);
    Then(from, t, ok, With(s, t, th.(pc := Locked(e)), m, l), leaving);
    Then(from, t, ok, leaving, after);
  }

  lemma KnownRun(s: State, t: Tid, th: Thread, m: Index, m': Index, e: Eid, ok: bool)
    requires s.mutex == None && th == Thread(TryStore, th.name, WantEntry(e)) && e in s.locks
    requires forall x | x in s.threads && x != t :: s.threads[x].pc.Done?
    requires (forall e | e in s.locks :: s.locks[e] == RWLock(None, {})) && (forall e | e in s.names :: e in s.locks)
    requires th.name in m.elements && Touched(m, th.name) == m' && Bijection(m', s.names)
    ensures EndsWith(With(s, t, th, m, s.locks), t, ok, Trimmed(s.size, m', s.names))
  {
    var from, after := With(s, t, th, m, s.locks), With(s, t, Thread(Evict, th.name, Oldest), m', s.locks);
    FromKnown(s, t, th, m, m', e, ok);
    Evicts(s, t, th.name, m', ok);
    GoesOn(from, t, ok, after, Trimmed(s.size, m', s.names));
  }

  lemma FrontOfKnown(m: Index, names: map<Eid, Name>, name: Name, a: seq<Eid>, x: Eid, b: seq<Eid>, e: Eid)
    requires Bijection(m, names) && m.queue == a + [x] + b && x in names && names[x] == name && e !in names
    ensures name in m.elements && Touched(m, name) == InFront(m, a, x, b)
    ensures Bijection(InFront(m, a, x, b), names[e := name])
    ensures forall y <- InFront(m, a, x, b).queue :: y in names && y != e
  {
    StaysBijection(m, names, name, a, x, b);
    Moves(m, name, a, x, b);
    MoreNames(InFront(m, a, x, b), names, e, name);
  }

  /** A TryStore of a known name moves its entry to the front; the new entry is not
      used. */
  lemma StoreKnown(s: State, t: Tid, name: Name, a: seq<Eid>, x: Eid, b: seq<Eid>, e: Eid, ok: bool)
    requires Quiet(s) && t !in s.threads && e !in s.locks
    requires s.index.queue == a + [x] + b && s.names[x] == name
    ensures Begin(s, t, TryStore, name, e).Some?
    ensures forall y <- InFront(s.index, a, x, b).queue :: y in s.names
    ensures EndsWith(Begin(s, t, TryStore, name, e).value, t, ok, Trimmed(s.size, InFront(s.index, a, x, b), s.names))
  {
    BringsEntry(s, t, name, e);
    FrontOfKnown(s.index, s.names, name, a, x, b, e);
    hide Quiet, Begin, Bijection, NoDuplicates, EndsWith, Touched, InFront, With, Trimmed;
    var s1 := Begin(s, t, TryStore, name, e).value;
    KnownRun(s1, t, Thread(TryStore, name, WantEntry(e)), s.index, InFront(s.index, a, x, b), e, ok);
    SameTrimmed(s.size, InFront(s.index, a, x, b), s.names, e, name);
  }

  lemma SameTrimmed(size: int, m: Index, names: map<Eid, Name>, e: Eid, name: Name)
    requires forall y <- m.queue :: y in names && y != e
    ensures Trimmed(size, m, names[e := name]) == Trimmed(size, m, names)
  {
    if m.queue != [] { assert m.queue[|m.queue| - 1] in m.queue; }
  }

  // ----- beside other calls -----

  /** A read gets to its callback however many others are reading, once nobody writes
      or holds the mutex. */
  lemma ReadersShare(s: State, t: Tid, kind: Kind, name: Name, e: Eid, ok: bool)
    requires s.mutex == None && t !in s.threads && (kind.LoadForRead? || kind.LoadForPeek?)
    requires name in s.index.elements && s.index.elements[name] == e && e in s.locks && s.locks[e].writer == None
    ensures Begin(s, t, kind, name, e).Some? && CallsBack(Begin(s, t, kind, name, e).value, t, ok, kind, name, e)
  {
    var th := Thread(kind, name, Look);
    var m := Touched(s.index, name);
    var l := s.locks[e := RWLock(None, s.locks[e].readers + {t})];
    var from, want := With(s, t, th, s.index, s.locks), With(s, t, th.(pc := WantEntry(e)), m, s.locks);
    var locked, at := With(s, t, th.(pc := Locked(e)), m, l), With(s, t, th.(pc := Callback(e)), Touched(m, name), l);
    assert Begin(s, t, kind, name, e).value == from;
    UnderMutex(s, t, th, s.index, s.locks, ok);
    assert want.threads[t := th.(pc := Locked(e))] == locked.threads;
    assert Step(want, t, ok) == Some(locked);
    Now(want, t, ok, locked);
    UnderMutex(s, t, th.(pc := Locked(e)), m, l, ok);
    assert at.threads[t] == Thread(kind, name, Callback(e));
    Then(from, t, ok, want, locked);
    Then(from, t, ok, locked, at);
  }

  /** A state in which every call has ended is quiet. */
  lemma EndedIsQuiet(s: State)
    requires Inv(s) && forall t | t in s.threads :: s.threads[t].pc.Done?
    ensures Quiet(s)
  {
    hide Bijection;
    forall e | e in s.locks ensures s.locks[e] == RWLock(None, {}) {
      assert forall t | t in s.locks[e].readers :: t in s.threads && ReadsIn(s.threads[t], e);
    }
  }
}
