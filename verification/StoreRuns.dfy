/** Whole runs of the file store: opening it over what an earlier run left on
    disk (lib/storage/layer_tar_store.go) and any commands after that. */
module StoreRuns {
  import opened Wrappers
  import opened LruFileMap
  import opened StorePlaces
  import opened FileStore

  datatype Command =
    | Create(request: Request, states: seq<FileState>)
    | MoveTo(name: string, target: FileState, states: seq<FileState>)
    | Delete(name: string, states: seq<FileState>)
    | Read(name: string, states: seq<FileState>)

  // ----- what a file holds -----

  /** The last command of a run that created the name, if any did. */
  function LastCreate(commands: seq<Command>, done: seq<bool>, name: string): (k: int)
    requires |done| == |commands|
    ensures -1 <= k < |commands|
    ensures k >= 0 ==> Creates(commands[k], done[k], name)
    ensures forall j | k < j < |commands| :: !Creates(commands[j], done[j], name)
  {
    var n := |commands| - 1;
    if commands == [] then -1
    else if Creates(commands[n], done[n], name) then n
    else LastCreate(commands[..n], done[..n], name)
  }

  predicate Creates(c: Command, done: bool, name: string) {
    done && c.Create? && c.request.name == name
  }

  /** These contents are what the name was last asked to have, or what it had when
      the run began. */
  ghost predicate HasKept(disk: Disk, outside: Outside, commands: seq<Command>, done: seq<bool>, name: string,
      c: Content)
    requires |done| == |commands|
  {
    var k := LastCreate(commands, done, name);
    if k >= 0 then Asked(commands[k].request, outside, c) else exists s :: (s, name) in disk && disk[(s, name)] == c
  }

  ghost predicate AllKept(disk: Disk, outside: Outside, commands: seq<Command>, done: seq<bool>, disk': Disk)
    requires |done| == |commands|
  {
    forall s, n | (s, n) in disk' :: HasKept(disk, outside, commands, done, n, disk'[(s, n)])
  }

  /** What is outside was there from the start. */
  ghost predicate StillOutside(outside: Outside, outside': Outside) {
    forall p | p in outside' :: p in outside && outside'[p] == outside[p]
  }

  /** One command: a file it created is as asked, any other has the contents of a
      file of its name. */
  ghost predicate Does(c: Command, done: bool, disk: Disk, outside: Outside, disk': Disk) {
    forall s, n | (s, n) in disk' ::
      if Creates(c, done, n) then Asked(c.request, outside, disk'[(s, n)])
      else exists t :: (t, n) in disk && disk[(t, n)] == disk'[(s, n)]
  }

  lemma AddsDoes(c: Command, disk: Disk, outside: Outside, disk': Disk, outside': Outside)
    requires c.Create? && Adds(disk, outside, c.request, disk', outside') && Single(disk')
    ensures Does(c, true, disk, outside, disk')
  {
    hide Asked;
    forall s, n | (s, n) in disk' && !Creates(c, true, n)
      ensures exists t :: (t, n) in disk && disk[(t, n)] == disk'[(s, n)]
    {
      assert (s, n) in disk;
    }
  }

  lemma CarriesDoes(c: Command, disk: Disk, outside: Outside, disk': Disk, name: string, from: FileState,
      to: FileState)
    requires !c.Create? && Carries(disk, disk', name, from, to)
    ensures Does(c, true, disk, outside, disk')
  {
    forall s, n | (s, n) in disk' ensures exists t :: (t, n) in disk && disk[(t, n)] == disk'[(s, n)] {
      if (s, n) == (to, name) { assert (from, n) in disk; } else { assert (s, n) in disk; }
    }
  }

  lemma KeepsDoes(c: Command, done: bool, disk: Disk, outside: Outside, disk': Disk)
    requires (c.Create? ==> !done) && KeepsFiles(disk, disk')
    ensures Does(c, done, disk, outside, disk')
  {
    forall s, n | (s, n) in disk' ensures exists t :: (t, n) in disk && disk[(t, n)] == disk'[(s, n)] {
      assert (s, n) in disk;
    }
  }

  lemma OneMoreKept(disk: Disk, outside: Outside, commands: seq<Command>, done: seq<bool>, c: Command, ok: bool,
      d: Disk, o: Outside, d': Disk)
    requires |done| == |commands| && AllKept(disk, outside, commands, done, d)
    requires StillOutside(outside, o) && Does(c, ok, d, o, d')
    ensures AllKept(disk, outside, commands + [c], done + [ok], d')
  {
    var cs, ds := commands + [c], done + [ok];
    assert cs[..|commands|] == commands && ds[..|commands|] == done;
    forall s, n | (s, n) in d' ensures HasKept(disk, outside, cs, ds, n, d'[(s, n)]) {
      if !Creates(c, ok, n) {
        var t :| (t, n) in d && d[(t, n)] == d'[(s, n)];
        assert HasKept(disk, outside, commands, done, n, d[(t, n)]);
      }
    }
  }

  lemma NothingDone(disk: Disk, outside: Outside)
    ensures AllKept(disk, outside, [], [], disk) && StillOutside(outside, outside)
  {
    forall s, n | (s, n) in disk ensures HasKept(disk, outside, [], [], n, disk[(s, n)]) {
    }
  }

  lemma OutsideStill(outside: Outside, o: Outside, o': Outside)
    requires StillOutside(outside, o) && StillOutside(o, o')
    ensures StillOutside(outside, o')
  {
  }

  // ----- runs -----

  method Perform(store: Store, c: Command) returns (ok: bool)
    requires store.Valid() && Good(store.home, store.disk, true)
    modifies store, store.files, store.entries
    ensures store.Valid() && Good(store.home, store.disk, true) && fresh(store.entries - old(store.entries))
    ensures Does(c, ok, old(store.disk), old(store.outside), store.disk)
    ensures StillOutside(old(store.outside), store.outside)
  {
    hide *;
    ghost var size, h, d, o := store.files.size, store.home, store.disk, store.outside;
    match c {
      case Create(q, states) =>
        var r := store.CreateFile(q, states);
        ok := r.Ok?;
        CreateKeepsLoaded(size, h, d, o, q, states, r, store.home, store.disk, store.outside);
        CreateDoes(c, r, d, o, store.home, store.disk, store.outside);
      case MoveTo(name, target, states) =>
        var r := store.MoveFile(name, target, states);
        ok := r.Ok?;
        MoveKeeps(size, h, d, name, target, states, r, store.home, store.disk, true);
        if ok { CarriesDoes(c, d, o, store.disk, name, WhereIs(h, d, name, states).value, target); }
        else { KeepsDoes(c, ok, d, o, store.disk); }
        NothingDone(d, o);
      case Delete(name, states) =>
        var r := store.DeleteFile(name, states);
        ok := r.Ok?;
        DeleteKeeps(size, h, d, name, states, r, store.home, store.disk, true);
        KeepsDoes(c, ok, d, o, store.disk);
        NothingDone(d, o);
      case Read(name, states) =>
        var r := store.ReadFile(name, states);
        ok := r.Ok?;
        ReadKeeps(size, h, d, name, states, r, store.home, store.disk, true);
        KeepsDoes(c, ok, d, o, store.disk);
        NothingDone(d, o);
    }
  }

  lemma CreateDoes(c: Command, r: Result<(), StoreError>, d: Disk, o: Outside, home: Home, disk: Disk,
      outside: Outside)
    requires c.Create? && Good(home, disk, true)
    requires if r.Ok? then Adds(d, o, c.request, disk, outside) else KeepsFiles(d, disk) && outside == o
    ensures Does(c, r.Ok?, d, o, disk) && StillOutside(o, outside)
  {
    hide Asked;
    if r.Ok? { AddsDoes(c, d, o, disk, outside); } else { KeepsDoes(c, false, d, o, disk); }
    hide Does;
  }

  /** After any run, whatever was evicted on the way, a name is in memory with a
      state exactly when its file is in that state's directory, and the file holds
      what it was last created with, wherever it has been moved. `done` says which
      commands succeeded. */
  method Run(store: Store, commands: seq<Command>) returns (done: seq<bool>)
    requires store.Valid() && Good(store.home, store.disk, true)
    modifies store, store.files, store.entries
    ensures store.Valid() && fresh(store.entries - old(store.entries))
    ensures forall s, n :: (s, n) in store.disk <==> n in store.files.elements && store.files.elements[n].state == s
    ensures store.files.size > 0 ==> |store.files.elements| <= store.files.size
    ensures |done| == |commands| && AllKept(old(store.disk), old(store.outside), commands, done, store.disk)
  {
    hide *;
    done := [];
    NothingDone(store.disk, store.outside);
    for k := 0 to |commands|
      invariant store.Valid() && Good(store.home, store.disk, true) && fresh(store.entries - old(store.entries))
      invariant |done| == k && AllKept(old(store.disk), old(store.outside), commands[..k], done, store.disk)
      invariant StillOutside(old(store.outside), store.outside)
    {
      ghost var d, o := store.disk, store.outside;
      var ok := Perform(store, commands[k]);
      OneMoreKept(old(store.disk), old(store.outside), commands[..k], done, commands[k], ok, d, o, store.disk);
      OutsideStill(old(store.outside), o, store.outside);
      assert commands[..k] + [commands[k]] == commands[..k + 1];
      done := done + [ok];
    }
    assert commands[..|commands|] == commands;
    RunEnds(store);
  }

  /** A file read after a run holds what it was last created with. */
  method RunAndRead(store: Store, commands: seq<Command>, name: string, states: seq<FileState>)
    returns (done: seq<bool>, r: Result<Content, StoreError>)
    requires store.Valid() && Good(store.home, store.disk, true)
    modifies store, store.files, store.entries
    ensures |done| == |commands|
    ensures r.Ok? ==> HasKept(old(store.disk), old(store.outside), commands, done, name, r.value)
  {
    hide Agree, Backed, Paired, ByUse, HasKept, Good;
    done := Run(store, commands);
    ghost var h, d := store.home, store.disk;
    r := store.ReadFile(name, states);
    ReadIsThere(store.files.size, h, d, name, states, r, store.home, store.disk);
  }

  lemma ReadIsThere(
    size: int, home: Home, disk: Disk, name: string, states: seq<FileState>,
    r: Result<Content, StoreError>, home': Home, disk': Disk)
    requires ReadOutcome(size, home, disk, name, states, r, home', disk')
    ensures r.Ok? ==> exists s :: (s, name) in disk && disk[(s, name)] == r.value
  {
    hide After;
  }

  lemma RunEnds(store: Store)
    requires store.Valid() && Good(store.home, store.disk, true)
    ensures forall s, n :: (s, n) in store.disk <==> n in store.files.elements && store.files.elements[n].state == s
    ensures store.files.size > 0 ==> |store.files.elements| <= store.files.size
  {
    AgreementIsExact(store.home, store.disk);
    AgreeSize(store.files.elements, store.home);
  }

  // ----- opening a store -----

  /** Only the cache directory holds files, and the names read from it cover them. */
  ghost predicate CacheOnly(disk: Disk, cache: FileState, names: seq<string>) {
    forall s, n | (s, n) in disk :: s == cache && n in names
  }

  /** What is still to be loaded. */
  ghost predicate LoadedBut(home: Home, disk: Disk, rest: seq<string>) {
    forall s, n | (s, n) in disk :: n in home || n in rest
  }

  /** NewLayerTarStore: every name in the cache directory is looked at, one that
      has no file is deleted. However many files there are, those that exceed the
      capacity go, and all the others are in memory. */
  method OpenStore(size: int, disk: Disk, outside: Outside, cache: FileState, names: seq<string>)
    returns (store: Store)
    requires CacheOnly(disk, cache, names)
    ensures fresh(store) && fresh(store.files) && fresh(store.entries)
    ensures store.Valid() && Good(store.home, store.disk, true) && KeepsFiles(disk, store.disk)
    ensures store.outside == outside
  {
    hide *;
    store := new Store(size, disk, outside);
    OpensGood(disk, cache, names);
    for i := 0 to |names|
      invariant fresh(store) && fresh(store.files) && fresh(store.entries)
      invariant store.Valid() && Good(store.home, store.disk, false) && store.files.size == size
      invariant LoadedBut(store.home, store.disk, names[i..]) && KeepsFiles(disk, store.disk)
      invariant store.outside == outside
      invariant CacheOnly(store.disk, cache, names)
    {
      ghost var h, d := store.home, store.disk;
      var r := store.ReadFile(names[i], [cache]);
      OneMoreOpened(size, h, d, cache, names, i, r, store.home, store.disk);
      StillKept(disk, d, store.disk);
      if r.Err? {
        ghost var h1, d1 := store.home, store.disk;
        var deleted := store.DeleteFile(names[i], [cache]);
        StillKept(disk, d1, store.disk);
        NothingToDelete(size, h1, d1, cache, names, i, r, deleted, store.home, store.disk);
      }
    }
    AllOpened(store.home, store.disk, names);
  }

  lemma StillKept(disk: Disk, d: Disk, d': Disk)
    requires KeepsFiles(disk, d) && KeepsFiles(d, d')
    ensures KeepsFiles(disk, d')
  {
  }

  lemma OpensGood(disk: Disk, cache: FileState, names: seq<string>)
    requires CacheOnly(disk, cache, names)
    ensures Good(map[], disk, false) && LoadedBut(map[], disk, names[0..]) && KeepsFiles(disk, disk)
  {
  }

  lemma OneMoreOpened(
    size: int, h: Home, d: Disk, cache: FileState, names: seq<string>, i: nat,
    r: Result<Content, StoreError>, home: Home, disk: Disk)
    requires i < |names| && Good(h, d, false) && LoadedBut(h, d, names[i..]) && CacheOnly(d, cache, names)
    requires ReadOutcome(size, h, d, names[i], [cache], r, home, disk)
    ensures Good(home, disk, false) && LoadedBut(home, disk, names[i + 1..])
    ensures CacheOnly(disk, cache, names)
    ensures r.Err? ==> names[i] !in home && (cache, names[i]) !in disk
  {
    ReadKeeps(size, h, d, names[i], [cache], r, home, disk, false);
    WhereIsThere(h, d, names[i], [cache]);
    assert names[i..] == [names[i]] + names[i + 1..];
  }

  lemma NothingToDelete(
    size: int, h: Home, d: Disk, cache: FileState, names: seq<string>, i: nat, read: Result<Content, StoreError>,
    r: Result<(), StoreError>, home: Home, disk: Disk)
    requires i < |names| && read.Err? && names[i] !in h && (cache, names[i]) !in d
    requires DeleteOutcome(size, h, d, names[i], [cache], r, home, disk)
    ensures home == h && disk == d
  {
  }

  lemma AllOpened(home: Home, disk: Disk, names: seq<string>)
    requires Good(home, disk, false) && LoadedBut(home, disk, names[|names|..])
    ensures Good(home, disk, true)
  {
  }

  /** A store opened over the files of an earlier run agrees with the disk after
      any further run, and each file holds what it was last created with, or what
      the earlier run left in it. */
  method OpenAndRun(
    size: int, disk: Disk, outside: Outside, cache: FileState, names: seq<string>, commands: seq<Command>)
    returns (store: Store, done: seq<bool>)
    requires CacheOnly(disk, cache, names)
    ensures store.Valid()
    ensures forall s, n :: (s, n) in store.disk <==> n in store.files.elements && store.files.elements[n].state == s
    ensures |done| == |commands| && AllKept(disk, outside, commands, done, store.disk)
  {
    hide HasKept, Agree, Backed, Paired, ByUse, Good;
    store := OpenStore(size, disk, outside, cache, names);
    ghost var d := store.disk;
    done := Run(store, commands);
    KeptFromBefore(disk, d, outside, commands, done, store.disk);
  }

  lemma KeptFromBefore(disk: Disk, d: Disk, outside: Outside, commands: seq<Command>, done: seq<bool>, disk': Disk)
    requires |done| == |commands| && KeepsFiles(disk, d) && AllKept(d, outside, commands, done, disk')
    ensures AllKept(disk, outside, commands, done, disk')
  {
    hide Asked;
    forall s, n | (s, n) in disk' ensures HasKept(disk, outside, commands, done, n, disk'[(s, n)]) {
      assert HasKept(d, outside, commands, done, n, disk'[(s, n)]);
    }
  }

  // ----- a store that was not opened -----

  /** Why it must be opened first: asked to create a file that is on disk in a
      directory that is not acceptable, it makes a second one. */
  method CreateHidden(store: Store, name: string, hidden: FileState, target: FileState, states: seq<FileState>)
    returns (r: Result<(), StoreError>)
    requires store.Valid() && Single(store.disk) && name !in store.home && (hidden, name) in store.disk
    requires hidden !in states && hidden != target
    modifies store, store.files
    ensures store.Valid() && r == Ok(()) && !Single(store.disk)
  {
    hide Agree, Backed, Paired, ByUse, CreateOutcome;
    ghost var h, d, o := store.home, store.disk, store.outside;
    var q := Request(name, target, None, 0);
    HiddenIsDuplicated(h, d, o, q, hidden, states);
    r := store.CreateFile(q, states);
    HiddenIsCreated(store.files.size, h, d, o, q, hidden, states, r, store.home, store.disk, store.outside);
  }

  lemma HiddenIsDuplicated(h: Home, d: Disk, o: Outside, q: Request, hidden: FileState, states: seq<FileState>)
    requires Single(d) && q.name !in h && (hidden, q.name) in d && hidden !in states && hidden != q.target
    requires q.source == None && q.len == 0
    ensures Duplicates(h, d, o, q, states)
  {
  }

  lemma HiddenIsCreated(
    size: int, h: Home, d: Disk, o: Outside, q: Request, hidden: FileState, states: seq<FileState>,
    r: Result<(), StoreError>, h': Home, d': Disk, o': Outside)
    requires Duplicates(h, d, o, q, states) && CreateOutcome(size, h, d, o, q, states, r, h', d', o')
    ensures r == Ok(())
  {
  }
}
