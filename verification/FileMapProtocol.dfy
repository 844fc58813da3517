/** The locking protocol of the file map (lib/storage/base/file_map.go): calls
    of any number of goroutines, interleaved at every lock operation. */
module FileMapProtocol {
  import opened Wrappers
  import opened Queues

  type Name = string
  type Tid = nat
  type Eid = nat

  /** A call in progress; an eviction follows every TryStore. */
  datatype Kind = TryStore | LoadForWrite | LoadForRead | LoadForPeek | Delete | Evict

  datatype Pc =
    | Look                                  // wants the map mutex to look the name up
    | Looked(found: Option<Eid>)            // holds the map mutex
    | WantEntry(e: Eid)                     // wants the entry lock
    | Announced(e: Eid)                     // a writer waiting for readers to leave
    | Locked(e: Eid)                        // holds the entry lock, wants the map mutex
    | Checked(e: Eid, ok: bool)             // holds both, the name was validated or not
    | Callback(e: Eid)                      // runs the caller's function
    | Dropping(e: Eid)                      // wants the map mutex to remove the name
    | Dropped(e: Eid)                       // holds both, the name is removed
    | Unlocking(e: Eid)                     // about to release the entry lock
    | Oldest                                // wants the map mutex to find a victim
    | Picked(victim: Option<Eid>)           // holds the map mutex
    | Done

  datatype Thread = Thread(kind: Kind, name: Name, pc: Pc)
  {
    predicate Reads() { kind.LoadForRead? || kind.LoadForPeek? }

    predicate WantsMutex() { pc.Look? || pc.Locked? || pc.Dropping? || pc.Oldest? }

    predicate AtLock() { pc.WantEntry? || pc.Announced? || pc.Unlocking? }

    predicate InMutex() { pc.Looked? || pc.Checked? || pc.Dropped? || pc.Picked? }

    /** The entry whose lock the thread holds, or is next to get. */
    function Entry(): Option<Eid> {
      match pc
      case Announced(e) => Some(e)
      case Locked(e) => Some(e)
      case Checked(e, _) => Some(e)
      case Callback(e) => Some(e)
      case Dropping(e) => Some(e)
      case Dropped(e) => Some(e)
      case Unlocking(e) => Some(e)
      case _ => None
    }

    /** Where the name has been validated and not yet removed. */
    predicate Validated() {
      pc.Callback? || pc.Dropping? || (pc.Checked? && pc.ok)
    }
  }

  /** sync.RWMutex: a writer first keeps other writers and new readers out, then
      waits for the readers inside. */
  datatype RWLock = RWLock(writer: Option<Tid>, readers: set<Tid>)

  /** What the map mutex protects. */
  datatype Index = Index(elements: map<Name, Eid>, queue: seq<Eid>)

  datatype State = State(
    size: int,
    mutex: Option<Tid>,
    index: Index,
    names: map<Eid, Name>,
    locks: map<Eid, RWLock>,
    threads: map<Tid, Thread>)

  // ----- steps -----

  /** A goroutine enters the map; TryStore brings a new entry. */
  function Begin(s: State, t: Tid, kind: Kind, name: Name, e: Eid): Option<State> {
    if t in s.threads || kind.Evict? then None
    else if kind.TryStore? then
      if e in s.locks then None
      else Some(s.(names := s.names[e := name],
                   locks := s.locks[e := RWLock(None, {})],
                   threads := s.threads[t := Thread(kind, name, WantEntry(e))]))
    else Some(s.(threads := s.threads[t := Thread(kind, name, Look)]))
  }

  function Find(elements: map<Name, Eid>, name: Name): Option<Eid> {
    if name in elements then Some(elements[name]) else None
  }

  /** fm.get: a name that is found moves to the front. */
  function Touched(m: Index, name: Name): Index {
    if name in m.elements then m.(queue := MoveToFront(m.queue, m.elements[name])) else m
  }

  /** fm.add. */
  function Added(m: Index, name: Name, e: Eid): Index {
    Index(m.elements[name := e], [e] + m.queue)
  }

  /** fm.remove. */
  function Removed(m: Index, name: Name): Index {
    if name in m.elements then Index(m.elements - {name}, Remove(m.queue, m.elements[name])) else m
  }

  /** What is done right after the map mutex is taken. */
  function Enter(size: int, m: Index, th: Thread): (Index, Pc)
    requires th.WantsMutex()
  {
    match th.pc
    case Look => (Touched(m, th.name), Looked(Find(m.elements, th.name)))
    case Locked(e) =>
      if th.kind.TryStore? && th.name !in m.elements then (Added(m, th.name, e), Checked(e, true))
      else (Touched(m, th.name), Checked(e, !th.kind.TryStore? && Find(m.elements, th.name) == Some(e)))
    case Dropping(e) => (Removed(m, th.name), Dropped(e))
    case Oldest =>
      (m, Picked(if size <= 0 || |m.queue| <= size then None else Some(m.queue[|m.queue| - 1])))
  }

  /** Where a call goes on after it gives the map mutex back. */
  function Leave(names: map<Eid, Name>, th: Thread): Thread
    requires th.InMutex()
    requires th.pc.Picked? && th.pc.victim.Some? ==> th.pc.victim.value in names
  {
    match th.pc
    case Looked(None) => th.(pc := Done)
    case Looked(Some(e)) => th.(pc := WantEntry(e))
    case Checked(e, valid) => th.(pc := if valid then Callback(e) else Unlocking(e))
    case Dropped(e) => th.(pc := Unlocking(e))
    case Picked(None) => th.(pc := Done)
    case Picked(Some(e)) => Thread(Evict, names[e], WantEntry(e))
  }

  /** Taking or releasing the entry lock, if that is possible now. */
  function LockStep(l: RWLock, t: Tid, th: Thread): Option<(RWLock, Thread)>
    requires th.AtLock()
  {
    match th.pc
    case WantEntry(e) =>
      if l.writer.Some? then None
      else if th.Reads() then Some((l.(readers := l.readers + {t}), th.(pc := Locked(e))))
      else Some((l.(writer := Some(t)), th.(pc := Announced(e))))
    case Announced(e) =>
      if l.readers != {} then None else Some((l, th.(pc := Locked(e))))
    case Unlocking(e) =>
      Some((if th.Reads() then l.(readers := l.readers - {t}) else l.(writer := None),
            if th.kind.TryStore? then Thread(Evict, th.name, Oldest) else th.(pc := Done)))
  }

  /** The callback returns; what it returns decides whether the name is removed. */
  function Return(th: Thread, ok: bool): Thread
    requires th.pc.Callback?
  {
    var drop := th.kind.Evict? || (th.kind.Delete? && ok) || (th.kind.TryStore? && !ok);
    th.(pc := if drop then Dropping(th.pc.e) else Unlocking(th.pc.e))
  }

  /** The next step of a call, if it is not waiting for a lock; `ok` is what a
      callback returns. */
  function Step(s: State, t: Tid, ok: bool): Option<State>
    requires t in s.threads
  {
    var th := s.threads[t];
    if th.WantsMutex() then
      if s.mutex.Some? then None
      else
        var (m, pc) := Enter(s.size, s.index, th);
        Some(s.(mutex := Some(t), index := m, threads := s.threads[t := th.(pc := pc)]))
    else if th.InMutex() then
      if th.pc.Picked? && th.pc.victim.Some? && th.pc.victim.value !in s.names then None
      else Some(s.(mutex := None, threads := s.threads[t := Leave(s.names, th)]))
    else if th.AtLock() then
      if th.pc.e !in s.locks then None
      else
        var r := LockStep(s.locks[th.pc.e], t, th);
        if r.None? then None
        else Some(s.(locks := s.locks[th.pc.e := r.value.0], threads := s.threads[t := r.value.1]))
    else if th.pc.Callback? then Some(s.(threads := s.threads[t := Return(th, ok)]))
    else None
  }

  predicate Init(s: State) {
    s == State(s.size, None, Index(map[], []), map[], map[], map[])
  }

  ghost predicate Next(s: State, s': State) {
    || (exists t, kind, name, e :: Begin(s, t, kind, name, e) == Some(s'))
    || (exists t, ok :: t in s.threads && Step(s, t, ok) == Some(s'))
  }

  ghost predicate IsRun(run: seq<State>) {
    |run| > 0 && Init(run[0]) && forall i | 0 <= i < |run| - 1 :: Next(run[i], run[i + 1])
  }

  // ----- what every state keeps -----

  /** `elements` and `queue` are in bijection, each entry under its own name. */
  ghost predicate Bijection(m: Index, names: map<Eid, Name>) {
    && NoDuplicates(m.queue)
    && (forall n | n in m.elements :: m.elements[n] in m.queue && m.elements[n] in names && names[m.elements[n]] == n)
    && (forall e | e in m.queue :: e in names && names[e] in m.elements && m.elements[names[e]] == e)
  }

  ghost predicate MutexOwned(s: State) {
    && (s.mutex.Some? ==> s.mutex.value in s.threads && s.threads[s.mutex.value].InMutex())
    && forall t | t in s.threads && s.threads[t].InMutex() :: s.mutex == Some(t)
  }

  ghost predicate LocksOwned(locks: map<Eid, RWLock>, threads: map<Tid, Thread>) {
    && (forall e | e in locks && locks[e].writer.Some? ::
         locks[e].writer.value in threads && Writes(threads[locks[e].writer.value], e))
    && (forall e, t | e in locks && t in locks[e].readers :: t in threads && ReadsIn(threads[t], e))
    && (forall t | t in threads :: Owns(locks, t, threads[t]))
  }

  predicate Writes(th: Thread, e: Eid) {
    !th.Reads() && th.Entry() == Some(e)
  }

  predicate ReadsIn(th: Thread, e: Eid) {
    th.Reads() && th.Entry() == Some(e)
  }

  predicate Owns(locks: map<Eid, RWLock>, t: Tid, th: Thread) {
    th.Entry().Some? ==>
      var e := th.Entry().value;
      && e in locks
      && if th.Reads() then t in locks[e].readers && !th.pc.Announced?
         else locks[e].writer == Some(t) && (!th.pc.Announced? ==> locks[e].readers == {})
  }

  /** Each call works on entries of its own name. */
  predicate Named(names: map<Eid, Name>, th: Thread) {
    && (th.pc.WantEntry? ==> th.pc.e in names && names[th.pc.e] == th.name)
    && (th.Entry().Some? ==> th.Entry().value in names && names[th.Entry().value] == th.name)
    && (th.pc.Looked? && th.pc.found.Some? ==> th.pc.found.value in names && names[th.pc.found.value] == th.name)
    && (th.pc.Picked? && th.pc.victim.Some? ==> th.pc.victim.value in names)
    && (th.pc.Oldest? || th.pc.Picked? ==> th.kind.Evict?)
    && (th.pc.Dropping? ==> !th.Reads())
  }

  /** The name of a validated call leads to its entry. */
  predicate LeadsThere(m: Index, th: Thread) {
    th.Validated() ==> th.name in m.elements && Some(m.elements[th.name]) == th.Entry()
  }

  ghost predicate Inv(s: State) {
    && Bijection(s.index, s.names) && MutexOwned(s)
    && s.locks.Keys == s.names.Keys && LocksOwned(s.locks, s.threads)
    && (forall t | t in s.threads :: Named(s.names, s.threads[t]))
    && (forall t | t in s.threads :: LeadsThere(s.index, s.threads[t]))
  }
}
