/** Where the files of a store are, on values: what each operation of
    lib/storage/base/file_op.go does to memory and disk, and what that keeps. */
module StorePlaces {
  import opened Wrappers
  import opened LruFileMap

  datatype StoreError = Exist | NotExist | WrongState(state: FileState) | InvalidSize

  type Content = seq<int>
  type Disk = map<(FileState, string), Content>
  type Home = map<string, FileState>
  type Outside = map<string, Content>

  // ----- agreement -----

  /** The file of a name in memory is in its state's directory. */
  ghost predicate Backed(home: Home, disk: Disk) {
    forall n | n in home :: (home[n], n) in disk
  }

  /** No name is in two directories. */
  ghost predicate Single(disk: Disk) {
    forall s, t, n | (s, n) in disk && (t, n) in disk :: s == t
  }

  /** Every file on disk is in memory. */
  ghost predicate Loaded(home: Home, disk: Disk) {
    forall s, n | (s, n) in disk :: n in home
  }

  /** In memory with a state exactly when on disk in its directory. */
  lemma AgreementIsExact(home: Home, disk: Disk)
    ensures Backed(home, disk) && Single(disk) && Loaded(home, disk) <==>
            forall s, n :: (s, n) in disk <==> n in home && home[n] == s
  {
    if forall s, n :: (s, n) in disk <==> n in home && home[n] == s {
      assert forall n | n in home :: (home[n], n) in disk;
    }
  }

  // ----- finding a file -----

  /** The first of these directories that holds the name. */
  function OnDisk(disk: Disk, name: string, states: seq<FileState>): (r: Option<FileState>)
    ensures r.Some? ==> r.value in states && (r.value, name) in disk
    ensures r.None? ==> forall s | s in states :: (s, name) !in disk
  {
    if states == [] then None
    else if (states[0], name) in disk then Some(states[0])
    else OnDisk(disk, name, states[1..])
  }

  /** Memory first, then the acceptable directories. */
  function WhereIs(home: Home, disk: Disk, name: string, states: seq<FileState>): Option<FileState> {
    if name in home then Some(home[name]) else OnDisk(disk, name, states)
  }

  // ----- what operations leave -----

  predicate Forgotten(home: Home, disk: Disk, name: string, home': Home, disk': Disk) {
    name in home && home' == home - {name} && disk' == disk - {(home[name], name)}
  }

  /** A name just put in place stays; one other is forgotten with its file
      exactly when there are too many. */
  ghost predicate Stored(size: int, home: Home, disk: Disk, name: string, home': Home, disk': Disk) {
    if 0 < size < |home| then exists v | v in home :: v != name && Forgotten(home, disk, v, home', disk')
    else home' == home && disk' == disk
  }

  /** A name that was known stays without further ado; one that was not may push
      another one out. */
  ghost predicate After(known: bool, size: int, home: Home, disk: Disk, name: string, home': Home, disk': Disk) {
    if known then home' == home && disk' == disk else Stored(size, home, disk, name, home', disk')
  }

  function Zeros(len: int): Content {
    if len <= 0 then [] else seq(len, i => 0)
  }

  function NewContent(outside: Outside, source: Option<string>, len: int): Content {
    if source.Some? && source.value in outside then outside[source.value] else Zeros(len)
  }

  /** What a request to create a file asks for. */
  datatype Request = Request(name: string, target: FileState, source: Option<string>, len: int)
  {
    /** Whether the file can be placed. */
    function Placing(disk: Disk, outside: Outside): Result<(), StoreError> {
      if (target, name) in disk then Err(Exist)
      else
        match source
        case Some(path) => if path in outside then Ok(()) else Err(NotExist)
        case None => if len < 0 then Err(InvalidSize) else Ok(())
    }

    function Placed(disk: Disk, outside: Outside): Disk {
      disk[(target, name) := NewContent(outside, source, len)]
    }
  }

  /** A new file is where it was asked for, and the source is gone. */
  ghost predicate Created(
    size: int, home: Home, disk: Disk, outside: Outside, q: Request,
    r: Result<(), StoreError>, home': Home, disk': Disk, outside': Outside)
  {
    && r == q.Placing(disk, outside)
    && (r.Err? ==> home' == home && disk' == disk && outside' == outside)
    && (r.Ok? ==>
          && Stored(size, home[q.name := q.target], q.Placed(disk, outside), q.name, home', disk')
          && outside' == if q.source.Some? then outside - {q.source.value} else outside)
  }

  /** createFileHelper: a file that is found is refused, and loaded if it was not
      in memory; one that is not found is created. */
  ghost predicate CreateOutcome(
    size: int, home: Home, disk: Disk, outside: Outside, q: Request, states: seq<FileState>,
    r: Result<(), StoreError>, home': Home, disk': Disk, outside': Outside)
  {
    match WhereIs(home, disk, q.name, states)
    case Some(s) =>
      && r == Err(if s in states then Exist else WrongState(s)) && outside' == outside
      && After(q.name in home, size, home[q.name := s], disk, q.name, home', disk')
    case None => Created(size, home, disk, outside, q, r, home', disk', outside')
  }

  function MovedDisk(disk: Disk, from: FileState, to: FileState, name: string): Disk
    requires (from, name) in disk
  {
    (disk - {(from, name)})[(to, name) := disk[(from, name)]]
  }

  /** MoveFile: the checks in their order, then the contents change directory. */
  ghost predicate MoveOutcome(
    size: int, home: Home, disk: Disk, name: string, target: FileState, states: seq<FileState>,
    r: Result<(), StoreError>, home': Home, disk': Disk)
  {
    match WhereIs(home, disk, name, states)
    case None => r == Err(NotExist) && home' == home && disk' == disk
    case Some(s) =>
      && (s, name) in disk
      && r == (if s == target then Err(Exist) else if s !in states then Err(WrongState(s)) else Ok(()))
      && if r.Err? then After(name in home, size, home[name := s], disk, name, home', disk')
         else After(name in home, size, home[name := target], MovedDisk(disk, s, target, name), name, home', disk')
  }

  /** DeleteFile: one other name may have been pushed out while the file was loaded. */
  ghost predicate DeleteOutcome(
    size: int, home: Home, disk: Disk, name: string, states: seq<FileState>,
    r: Result<(), StoreError>, home': Home, disk': Disk)
  {
    match WhereIs(home, disk, name, states)
    case None => r == Err(NotExist) && home' == home && disk' == disk
    case Some(s) =>
      && (s, name) in disk
      && r == (if s in states then Ok(()) else Err(WrongState(s)))
      && exists h, d :: DeletedVia(size, home, disk, name, s, r, h, d, home', disk')
  }

  /** From memory and disk as they were reached, the file goes if that is allowed. */
  ghost predicate DeletedVia(
    size: int, home: Home, disk: Disk, name: string, s: FileState, r: Result<(), StoreError>,
    h: Home, d: Disk, home': Home, disk': Disk)
  {
    && After(name in home, size, home[name := s], disk, name, h, d)
    && if r.Err? then home' == h && disk' == d else Forgotten(h, d, name, home', disk')
  }

  /** Reading: the contents of a file in an acceptable state. */
  ghost predicate ReadOutcome(
    size: int, home: Home, disk: Disk, name: string, states: seq<FileState>,
    r: Result<Content, StoreError>, home': Home, disk': Disk)
  {
    match WhereIs(home, disk, name, states)
    case None => r == Err(NotExist) && home' == home && disk' == disk
    case Some(s) =>
      && (s, name) in disk
      && r == (if s in states then Ok(disk[(s, name)]) else Err(WrongState(s)))
      && After(name in home, size, home[name := s], disk, name, home', disk')
  }

  // ----- what becomes of the contents -----

  /** Every file that is left was there before, with the same contents. */
  ghost predicate KeepsFiles(disk: Disk, disk': Disk) {
    forall k | k in disk' :: k in disk && disk'[k] == disk[k]
  }

  /** The file has moved with its contents; every other file that is left has its own. */
  ghost predicate Carries(disk: Disk, disk': Disk, name: string, from: FileState, to: FileState) {
    && (from, name) in disk && (from, name) !in disk'
    && (to, name) in disk' && disk'[(to, name)] == disk[(from, name)]
    && forall k | k in disk' && k != (to, name) :: k in disk && disk'[k] == disk[k]
  }

  /** The contents a new file was asked to have: those of its source, or as many
      zeros as its length says. */
  ghost predicate Asked(q: Request, outside: Outside, c: Content) {
    match q.source
    case Some(path) => path in outside && c == outside[path]
    case None => |c| == q.len && forall i | 0 <= i < |c| :: c[i] == 0
  }

  /** The new file is where it was asked for, as it was asked for; every other file
      that is left has its own contents. */
  ghost predicate Adds(disk: Disk, outside: Outside, q: Request, disk': Disk, outside': Outside) {
    && (q.target, q.name) !in disk && (q.target, q.name) in disk'
    && Asked(q, outside, disk'[(q.target, q.name)])
    && (forall k | k in disk' && k != (q.target, q.name) :: k in disk && disk'[k] == disk[k])
    && (forall p :: p in outside' <==> p in outside && q.source != Some(p))
    && forall p | p in outside' :: outside'[p] == outside[p]
  }

  lemma StoredKeeps(size: int, home: Home, disk: Disk, name: string, home': Home, disk': Disk)
    requires Stored(size, home, disk, name, home', disk')
    ensures KeepsFiles(disk, disk')
    ensures forall s | (s, name) in disk :: (s, name) in disk'
  {
  }

  lemma AfterKeepsFiles(known: bool, size: int, home: Home, disk: Disk, name: string, home': Home, disk': Disk)
    requires After(known, size, home, disk, name, home', disk')
    ensures KeepsFiles(disk, disk')
    ensures forall s | (s, name) in disk :: (s, name) in disk'
  {
  }

  lemma PlacedAsAsked(q: Request, disk: Disk, outside: Outside)
    requires q.Placing(disk, outside).Ok?
    ensures Asked(q, outside, q.Placed(disk, outside)[(q.target, q.name)]) && (q.target, q.name) !in disk
    ensures forall k | k in q.Placed(disk, outside) && k != (q.target, q.name) ::
              k in disk && q.Placed(disk, outside)[k] == disk[k]
  {
  }

  /** A create that succeeds adds the file as asked; one that fails changes no file. */
  lemma CreateAdds(
    size: int, home: Home, disk: Disk, outside: Outside, q: Request, states: seq<FileState>,
    r: Result<(), StoreError>, home': Home, disk': Disk, outside': Outside)
    requires CreateOutcome(size, home, disk, outside, q, states, r, home', disk', outside')
    ensures if r.Ok? then Adds(disk, outside, q, disk', outside')
            else KeepsFiles(disk, disk') && outside' == outside
  {
    hide Stored, After;
    var w := WhereIs(home, disk, q.name, states);
    if w.Some? {
      AfterKeepsFiles(q.name in home, size, home[q.name := w.value], disk, q.name, home', disk');
    } else if r.Ok? {
      PlacedAsAsked(q, disk, outside);
      StoredKeeps(size, home[q.name := q.target], q.Placed(disk, outside), q.name, home', disk');
    }
  }

  /** Which creates succeed, and how the others fail. */
  lemma CreateSucceedsExactly(
    size: int, home: Home, disk: Disk, outside: Outside, q: Request, states: seq<FileState>,
    r: Result<(), StoreError>, home': Home, disk': Disk, outside': Outside)
    requires CreateOutcome(size, home, disk, outside, q, states, r, home', disk', outside')
    ensures var w := WhereIs(home, disk, q.name, states);
            && (r.Ok? <==>
                && w.None? && (q.target, q.name) !in disk
                && if q.source.Some? then q.source.value in outside else q.len >= 0)
            && (r == Err(InvalidSize) ==> q.source.None? && q.len < 0)
            && (r == Err(NotExist) ==> q.source.Some? && q.source.value !in outside)
            && (r == Err(Exist) ==>
                (q.target, q.name) in disk || (w.Some? && w.value in states))
            && (r.Err? && r.error.WrongState? ==> w == Some(r.error.state) && r.error.state !in states)
  {
    hide Stored, After;
  }

  /** A move that succeeds carries the contents over; one that fails changes no file. */
  lemma MoveCarries(
    size: int, home: Home, disk: Disk, name: string, target: FileState, states: seq<FileState>,
    r: Result<(), StoreError>, home': Home, disk': Disk)
    requires MoveOutcome(size, home, disk, name, target, states, r, home', disk')
    ensures if r.Ok? then
              var w := WhereIs(home, disk, name, states);
              w.Some? && Carries(disk, disk', name, w.value, target)
            else KeepsFiles(disk, disk')
  {
    hide Stored, After;
    var w := WhereIs(home, disk, name, states);
    if w.Some? {
      var d := if r.Err? then disk else MovedDisk(disk, w.value, target, name);
      var h := home[name := if r.Err? then w.value else target];
      AfterKeepsFiles(name in home, size, h, d, name, home', disk');
    }
  }

  lemma DeleteKeepsFiles(
    size: int, home: Home, disk: Disk, name: string, states: seq<FileState>,
    r: Result<(), StoreError>, home': Home, disk': Disk)
    requires DeleteOutcome(size, home, disk, name, states, r, home', disk')
    ensures KeepsFiles(disk, disk')
    ensures r.Ok? ==>
              var w := WhereIs(home, disk, name, states); w.Some? && (w.value, name) !in disk' && name !in home'
  {
    hide Stored, After;
    var w := WhereIs(home, disk, name, states);
    if w.Some? {
      var h, d :| DeletedVia(size, home, disk, name, w.value, r, h, d, home', disk');
      AfterKeepsFiles(name in home, size, home[name := w.value], disk, name, h, d);
      if r.Ok? { AfterStands(name in home, size, home[name := w.value], disk, name, h, d); }
    }
  }

  /** A name just reached is in memory in its state. */
  lemma AfterStands(known: bool, size: int, home: Home, disk: Disk, name: string, home': Home, disk': Disk)
    requires After(known, size, home, disk, name, home', disk') && name in home
    ensures name in home' && home'[name] == home[name]
  {
  }

  lemma ReadKeepsFiles(
    size: int, home: Home, disk: Disk, name: string, states: seq<FileState>,
    r: Result<Content, StoreError>, home': Home, disk': Disk)
    requires ReadOutcome(size, home, disk, name, states, r, home', disk')
    ensures KeepsFiles(disk, disk')
    ensures r.Ok? ==> exists s :: (s, name) in disk' && disk'[(s, name)] == r.value
  {
    hide Stored, After;
    var w := WhereIs(home, disk, name, states);
    if w.Some? {
      AfterKeepsFiles(name in home, size, home[name := w.value], disk, name, home', disk');
      assert (w.value, name) in disk';
    }
  }

  // ----- what they keep -----

  /** Memory and disk agree as far as memory goes, or altogether. */
  ghost predicate Good(home: Home, disk: Disk, all: bool) {
    Backed(home, disk) && Single(disk) && (all ==> Loaded(home, disk))
  }

  lemma AfterKeeps(known: bool, size: int, home: Home, disk: Disk, name: string, home': Home, disk': Disk, all: bool)
    requires Good(home, disk, all) && After(known, size, home, disk, name, home', disk')
    ensures Good(home', disk', all)
  {
  }

  lemma FoundKeeps(home: Home, disk: Disk, name: string, s: FileState, all: bool)
    requires Good(home, disk, all) && (s, name) in disk
    ensures Good(home[name := s], disk, all)
  {
  }

  lemma WhereIsThere(home: Home, disk: Disk, name: string, states: seq<FileState>)
    requires Backed(home, disk)
    ensures WhereIs(home, disk, name, states).Some? ==> (WhereIs(home, disk, name, states).value, name) in disk
  {
  }

  /** Would this request, placed, leave the name in two directories? */
  ghost predicate Duplicates(home: Home, disk: Disk, outside: Outside, q: Request, states: seq<FileState>) {
    && WhereIs(home, disk, q.name, states).None? && q.Placing(disk, outside).Ok?
    && exists s :: (s, q.name) in disk
  }

  /** Creating keeps every name in one directory exactly when the file is found
      in memory or an acceptable directory, or cannot be placed, or is nowhere on
      disk: a file hidden in another directory is duplicated. */
  lemma CreateKeeps(
    size: int, home: Home, disk: Disk, outside: Outside, q: Request, states: seq<FileState>,
    r: Result<(), StoreError>, home': Home, disk': Disk, outside': Outside)
    requires Backed(home, disk) && Single(disk)
    requires CreateOutcome(size, home, disk, outside, q, states, r, home', disk', outside')
    ensures Single(disk') <==> !Duplicates(home, disk, outside, q, states)
  {
    var w := WhereIs(home, disk, q.name, states);
    if w.Some? {
      WhereIsThere(home, disk, q.name, states);
      FoundKeeps(home, disk, q.name, w.value, false);
      AfterKeeps(q.name in home, size, home[q.name := w.value], disk, q.name, home', disk', false);
    } else if r.Ok? {
      var h, d := home[q.name := q.target], q.Placed(disk, outside);
      if s :| (s, q.name) in disk {
        TwoPlaces(size, h, d, q.name, s, q.target, home', disk');
      } else {
        AfterKeeps(false, size, h, d, q.name, home', disk', false);
      }
    }
  }

  lemma TwoPlaces(size: int, home: Home, disk: Disk, name: string, s: FileState, t: FileState, home': Home, disk': Disk)
    requires (s, name) in disk && (t, name) in disk && s != t && Stored(size, home, disk, name, home', disk')
    ensures !Single(disk')
  {
    assert (s, name) in disk' && (t, name) in disk';
  }

  /** With every file in memory nothing is hidden, and that stays so. */
  lemma CreateKeepsLoaded(
    size: int, home: Home, disk: Disk, outside: Outside, q: Request, states: seq<FileState>,
    r: Result<(), StoreError>, home': Home, disk': Disk, outside': Outside)
    requires Good(home, disk, true)
    requires CreateOutcome(size, home, disk, outside, q, states, r, home', disk', outside')
    ensures Good(home', disk', true)
  {
    var w := WhereIs(home, disk, q.name, states);
    if w.Some? {
      WhereIsThere(home, disk, q.name, states);
      FoundKeeps(home, disk, q.name, w.value, true);
      AfterKeeps(q.name in home, size, home[q.name := w.value], disk, q.name, home', disk', true);
    } else if r.Ok? {
      AfterKeeps(false, size, home[q.name := q.target], q.Placed(disk, outside), q.name, home', disk', true);
    }
  }

  lemma MovingKeeps(home: Home, disk: Disk, name: string, s: FileState, target: FileState, all: bool)
    requires Good(home, disk, all) && (s, name) in disk
    ensures Good(home[name := target], MovedDisk(disk, s, target, name), all)
  {
  }

  lemma MoveKeeps(
    size: int, home: Home, disk: Disk, name: string, target: FileState, states: seq<FileState>,
    r: Result<(), StoreError>, home': Home, disk': Disk, all: bool)
    requires Good(home, disk, all) && MoveOutcome(size, home, disk, name, target, states, r, home', disk')
    ensures Good(home', disk', all)
  {
    var w := WhereIs(home, disk, name, states);
    if w.Some? {
      if r.Err? {
        FoundKeeps(home, disk, name, w.value, all);
        AfterKeeps(name in home, size, home[name := w.value], disk, name, home', disk', all);
      } else {
        var d := MovedDisk(disk, w.value, target, name);
        MovingKeeps(home, disk, name, w.value, target, all);
        hide Good, MovedDisk, After;
        AfterKeeps(name in home, size, home[name := target], d, name, home', disk', all);
      }
    }
  }

  lemma ForgettingKeeps(home: Home, disk: Disk, name: string, home': Home, disk': Disk, all: bool)
    requires Good(home, disk, all) && Forgotten(home, disk, name, home', disk')
    ensures Good(home', disk', all)
  {
  }

  lemma DeleteKeeps(
    size: int, home: Home, disk: Disk, name: string, states: seq<FileState>,
    r: Result<(), StoreError>, home': Home, disk': Disk, all: bool)
    requires Good(home, disk, all) && DeleteOutcome(size, home, disk, name, states, r, home', disk')
    ensures Good(home', disk', all)
  {
    var w := WhereIs(home, disk, name, states);
    if w.Some? {
      var h, d :| DeletedVia(size, home, disk, name, w.value, r, h, d, home', disk');
      hide Good, After, WhereIs, Forgotten;
      FoundKeeps(home, disk, name, w.value, all);
      AfterKeeps(name in home, size, home[name := w.value], disk, name, h, d, all);
      if r.Ok? { ForgettingKeeps(h, d, name, home', disk', all); }
    }
  }

  lemma ReadKeeps(
    size: int, home: Home, disk: Disk, name: string, states: seq<FileState>,
    r: Result<Content, StoreError>, home': Home, disk': Disk, all: bool)
    requires Good(home, disk, all) && ReadOutcome(size, home, disk, name, states, r, home', disk')
    ensures Good(home', disk', all)
  {
    var w := WhereIs(home, disk, name, states);
    if w.Some? {
      FoundKeeps(home, disk, name, w.value, all);
      AfterKeeps(name in home, size, home[name := w.value], disk, name, home', disk', all);
    }
  }
}
