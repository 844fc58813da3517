/** The file store (lib/storage/base/file_op.go and file_entry.go) used by one
    goroutine at a time: the file map and the files on disk agree. */
module FileStore {
  import opened Wrappers
  import opened LruFileMap
  import opened StorePlaces

  class Store {
    const files: LruFileMap
    var disk: Disk
    /** Files outside the store, by path. */
    var outside: Outside
    /** The state each name has in memory. */
    ghost var home: Home
    /** The entries made so far. */
    ghost var entries: set<FileEntry>

    /** The map agrees with `home`, and what is in memory is on disk. */
    ghost predicate Tracks()
      reads this, files, entries
    {
      files.Valid() && home.Keys == files.elements.Keys && Agree(files.elements, entries, home) && Backed(home, disk)
    }

    ghost predicate Valid()
      reads this, files, entries
    {
      Tracks() && (files.size > 0 ==> |home| <= files.size)
    }

    /** A new store over what is on disk; nothing is in memory yet. */
    constructor (size: int, disk: Disk, outside: Outside)
      ensures Valid() && fresh(files) && files.size == size && home == map[] && entries == {}
      ensures this.disk == disk && this.outside == outside
    {
      files := new LruFileMap(size);
      this.disk, this.outside, home, entries := disk, outside, map[], {};
    }

    // ----- TryStore -----

    /** The end of TryStore: an evicted entry takes its file with it. */
    method EvictIfNeeded() returns (victim: Option<string>)
      requires Tracks() && (files.size > 0 ==> |home| <= files.size + 1)
      modifies this`disk, this`home, files
      ensures Valid()
      ensures Evicted(files.size, old(files.elements), old(files.lastUsed), old(home), old(disk), victim, home, disk)
    {
      hide Agree, Backed, Paired, ByUse, IsOldest, Evicted;
      ghost var elements, lastUsed := files.elements, files.lastUsed;
      AgreeSize(elements, home);
      assert Agree(elements, entries, home);
      victim := None;
      var e := files.RemoveOldestIfNeeded();
      NoneEvicted(files.size, elements, lastUsed, home, disk);
      if e.Some? {
        assert Agree(elements, entries, home);
        EvictFacts(files.size, elements, entries, lastUsed, home, disk, e.value.name);
        victim := Some(e.value.name);
        DeleteEvicted(e.value);
      }
    }

    /** The evicted entry's file is deleted. */
    method DeleteEvicted(e: FileEntry)
      requires Agree(files.elements, entries, home - {e.name})
      modifies this`disk, this`home
      ensures disk == old(disk) - {(e.state, e.name)} && home == old(home) - {e.name}
      ensures Agree(files.elements, entries, home)
    {
      hide Agree;
      disk := disk - {(e.state, e.name)};
      home := home - {e.name};
    }

    /** The entry is in memory from here on, and the latest used. */
    method PutInMemory(e: FileEntry)
      requires files.Valid() && home.Keys == files.elements.Keys && Agree(files.elements, entries, home)
      requires e.name !in home && Backed(home[e.name := e.state], disk)
      modifies this`entries, this`home, files
      ensures Tracks() && entries == old(entries) + {e} && home == old(home)[e.name := e.state]
      ensures files.elements == old(files.elements)[e.name := e]
      ensures files.lastUsed == old(files.lastUsed)[e.name := old(files.uses)]
    {
      hide Agree, Backed, Paired, ByUse;
      ghost var elements, places, es := files.elements, home, entries + {e};
      var stored := files.StoreNew(e.name, e, true);
      home, entries := home[e.name := e.state], es;
      AgreePut(elements, old(entries), places, e);
      assert Agree(files.elements, es, home);
    }

    /** TryStore of an entry whose file is there already: nothing else on disk changes
        but for the file of an evicted name. */
    method Remember(e: FileEntry)
      requires files.Valid() && home.Keys == files.elements.Keys && Agree(files.elements, entries, home)
      requires e.name !in home && Backed(home[e.name := e.state], disk) && (files.size > 0 ==> |home| <= files.size)
      modifies this`entries, this`disk, this`home, files
      ensures Valid() && entries == old(entries) + {e}
      ensures Stored(files.size, old(home)[e.name := e.state], old(disk), e.name, home, disk)
    {
      hide Agree, Backed, Paired, ByUse, IsOldest, Evicted, Stored;
      ghost var elements, places := files.elements, home;
      ghost var lastUsed, uses, before := files.lastUsed, files.uses, disk;
      UsesAreOver(elements, files.queue, lastUsed, uses);
      PutSize(places, e.name, e.state);
      AgreeSize(elements, places);
      PutInMemory(e);
      var victim := EvictIfNeeded();
      NewcomerStays(files.size, elements, lastUsed, places, before, e, uses, victim, home, disk);
    }

    /** TryStore whose callback failed. */
    method AbandonStore(e: FileEntry)
      requires Valid() && e.name !in home
      modifies this`disk, this`home, files
      ensures Valid() && home == old(home) && disk == old(disk)
    {
      hide Agree, Backed, Paired, ByUse, IsOldest;
      AgreeSize(files.elements, home);
      var stored := files.StoreNew(e.name, e, false);
      var none := EvictIfNeeded();
    }

    // ----- reload and lookup -----

    /** reloadFileEntryHelper: a name not in memory is looked for on disk. */
    method Reload(name: string, states: seq<FileState>) returns (r: Result<bool, StoreError>)
      requires Valid()
      modifies this`entries, this`disk, this`home, files
      ensures Valid() && fresh(entries - old(entries))
      ensures var w := WhereIs(old(home), old(disk), name, states);
              && r == (if name in old(home) then Ok(false) else if w.Some? then Ok(true) else Err(NotExist))
              && (r != Ok(true) ==> home == old(home) && disk == old(disk))
              && (r == Ok(true) ==> Stored(files.size, old(home)[name := w.value], old(disk), name, home, disk))
    {
      hide Agree, Backed, Paired, ByUse, Stored;
      if files.Contains(name) {
        return Ok(false);
      }
      assert states[0..] == states;
      for k := 0 to |states|
        invariant OnDisk(disk, name, states) == OnDisk(disk, name, states[k..])
      {
        if (states[k], name) in disk {
          LoadFrom(name, states[k]);
          return Ok(true);
        }
      }
      return Err(NotExist);
    }

    method LoadFrom(name: string, state: FileState)
      requires Valid() && name !in home && (state, name) in disk
      modifies this`entries, this`disk, this`home, files
      ensures Valid() && fresh(entries - old(entries))
      ensures Stored(files.size, old(home)[name := state], old(disk), name, home, disk)
    {
      hide Agree, Backed, Paired, ByUse, Stored;
      LoadBacked(home, disk, name, state);
      var e := new FileEntry(name, state);
      Remember(e);
    }

    /** LoadForRead, LoadForWrite and LoadForPeek: only the recency changes. */
    method LookUp(name: string) returns (r: Option<FileEntry>)
      requires Valid()
      modifies files
      ensures Valid() && files.elements == old(files.elements)
      ensures r.Some? <==> name in home
      ensures r.Some? ==>
              InMemory(files.elements, home, name, r.value) && r.value.state == home[name]
              && r.value in entries
    {
      hide Agree, Backed, Paired, ByUse;
      ghost var elements := files.elements;
      r := files.Load(name);
      assert Agree(elements, entries, home);
      if r.Some? {
        EntryAt(elements, entries, home, name);
      }
    }

    /** Reloading the name if need be and locking its entry. */
    method Reach(name: string, states: seq<FileState>) returns (e: Option<FileEntry>)
      requires Valid()
      modifies this`entries, this`disk, this`home, files
      ensures Valid() && fresh(entries - old(entries))
      ensures Reached(files.size, old(home), old(disk), name, states, home, disk)
      ensures e.Some? <==> name in home
      ensures e.Some? ==>
              InMemory(files.elements, home, name, e.value) && e.value.state == home[name]
              && e.value in entries
    {
      hide Agree, Backed, Paired, ByUse, Stored, Reached;
      var r := Reload(name, states);
      ReloadReaches(files.size, old(home), old(disk), name, states, r, home, disk);
      e := LookUp(name);
    }

    // ----- creating -----

    /** MoveFrom or Create of a new entry, the callback of TryStore. */
    method PlaceFile(e: FileEntry, source: Option<string>, len: int) returns (r: Result<(), StoreError>)
      modifies this`disk, this`outside
      ensures var q := Request(e.name, e.state, source, len);
              && r == q.Placing(old(disk), old(outside))
              && disk == (if r.Ok? then q.Placed(old(disk), old(outside)) else old(disk))
              && outside == if r.Ok? && source.Some? then old(outside) - {source.value} else old(outside)
    {
      if (e.state, e.name) in disk {
        return Err(Exist);
      }
      match source {
        case Some(path) =>
          if path !in outside {
            return Err(NotExist);
          }
          disk := disk[(e.state, e.name) := outside[path]];
          outside := outside - {path};
        case None =>
          if len < 0 {
            return Err(InvalidSize);
          }
          disk := disk[(e.state, e.name) := Zeros(len)];
      }
      return Ok(());
    }

    /** createFileHelper: a name found in memory or in an acceptable directory is
        refused, any other gets its file in the target directory. */
    method CreateFile(q: Request, states: seq<FileState>) returns (r: Result<(), StoreError>)
      requires Valid()
      modifies this`entries, this`disk, this`home, this`outside, files
      ensures Valid() && fresh(entries - old(entries))
      ensures CreateOutcome(files.size, old(home), old(disk), old(outside), q, states, r, home, disk, outside)
      ensures Single(old(disk)) ==>
                (Single(disk) <==> !Duplicates(old(home), old(disk), old(outside), q, states))
      ensures r.Ok? <==>
                && WhereIs(old(home), old(disk), q.name, states).None? && (q.target, q.name) !in old(disk)
                && if q.source.Some? then q.source.value in old(outside) else q.len >= 0
      ensures if r.Ok? then Adds(old(disk), old(outside), q, disk, outside)
              else KeepsFiles(old(disk), disk) && outside == old(outside)
    {
      hide Agree, Backed, Paired, ByUse, CreateOutcome, Duplicates, Single, Adds, KeepsFiles;
      ghost var h, d, o := home, disk, outside;
      assert Backed(h, d);
      var known := LookUp(q.name);
      if known.Some? {
        r := Err(if known.value.state in states then Exist else WrongState(known.value.state));
        KnownIsRefused(files.size, h, d, o, q, states, r);
      } else {
        r := CreateUnknown(q, states);
      }
      if Single(d) { CreateKeeps(files.size, h, d, o, q, states, r, home, disk, outside); }
      CreateAdds(files.size, h, d, o, q, states, r, home, disk, outside);
      CreateSucceedsExactly(files.size, h, d, o, q, states, r, home, disk, outside);
    }

    method CreateUnknown(q: Request, states: seq<FileState>) returns (r: Result<(), StoreError>)
      requires Valid() && q.name !in home
      modifies this`entries, this`disk, this`home, this`outside, files
      ensures Valid() && fresh(entries - old(entries))
      ensures CreateOutcome(files.size, old(home), old(disk), old(outside), q, states, r, home, disk, outside)
    {
      hide Agree, Backed, Paired, ByUse, Created, Stored;
      var loaded := Reload(q.name, states);
      if loaded == Ok(true) {
        return Err(Exist);
      }
      r := StoreNewFile(q);
    }

    /** TryStore of a name that was found nowhere. */
    method StoreNewFile(q: Request) returns (r: Result<(), StoreError>)
      requires Valid() && q.name !in home
      modifies this`entries, this`disk, this`home, this`outside, files
      ensures Valid() && fresh(entries - old(entries))
      ensures Created(files.size, old(home), old(disk), old(outside), q, r, home, disk, outside)
    {
      hide Agree, Backed, Paired, ByUse, Stored, Created;
      ghost var h, d, o := home, disk, outside;
      PlaceBacked(h, d, o, q);
      var e := new FileEntry(q.name, q.target);
      r := PlaceFile(e, q.source, q.len);
      if r.Err? {
        AbandonStore(e);
      } else {
        Remember(e);
      }
      CreatedIs(files.size, h, d, o, q, r, home, disk, outside);
    }

    // ----- moving, deleting, reading -----

    /** A file moves to the target directory with its contents. */
    method MoveFile(name: string, target: FileState, states: seq<FileState>) returns (r: Result<(), StoreError>)
      requires Valid()
      modifies this`entries, this`disk, this`home, files, entries
      ensures Valid() && fresh(entries - old(entries))
      ensures MoveOutcome(files.size, old(home), old(disk), name, target, states, r, home, disk)
      ensures if r.Ok? then
                var w := WhereIs(old(home), old(disk), name, states);
                w.Some? && Carries(old(disk), disk, name, w.value, target)
              else KeepsFiles(old(disk), disk)
    {
      hide Agree, Backed, Paired, ByUse, Reached, MoveOutcome, Moved, Carries, KeepsFiles;
      ghost var h, d := home, disk;
      assert Backed(h, d);
      var e := Reach(name, states);
      ghost var h1, d1 := home, disk;
      if e.None? {
        r := Err(NotExist);
      } else if e.value.state == target {
        r := Err(Exist);
      } else if e.value.state !in states {
        r := Err(WrongState(e.value.state));
      } else {
        MoveEntry(e.value, target);
        r := Ok(());
      }
      MoveIs(files.size, h, d, name, target, states, h1, d1, r, home, disk);
      MoveCarries(files.size, h, d, name, target, states, r, home, disk);
    }

    /** entry.Move: the file is renamed, then the state in memory follows. */
    method MoveEntry(e: FileEntry, target: FileState)
      requires Valid() && InMemory(files.elements, home, e.name, e) && e in entries
      requires e.state == home[e.name] && e.state != target
      modifies this`disk, this`home, e
      ensures Valid() && Moved(old(home), old(disk), e.name, target, home, disk)
    {
      hide Agree, Backed, Paired, ByUse;
      AgreeElse(files.elements, entries, home, e);
      MoveBacked(home, disk, e.name, target);
      ghost var before := home;
      var contents := disk[(e.state, e.name)];
      disk := (disk - {(e.state, e.name)})[(target, e.name) := contents];
      e.state := target;
      home := home[e.name := target];
      assert forall n | n in files.elements && n != e.name :: files.elements[n].state == before[n];
      IntroAgree(files.elements, entries, home);
    }

    method DeleteFile(name: string, states: seq<FileState>) returns (r: Result<(), StoreError>)
      requires Valid()
      modifies this`entries, this`disk, this`home, files
      ensures Valid() && fresh(entries - old(entries))
      ensures DeleteOutcome(files.size, old(home), old(disk), name, states, r, home, disk)
      ensures KeepsFiles(old(disk), disk)
      ensures r.Ok? ==>
                var w := WhereIs(old(home), old(disk), name, states);
                w.Some? && (w.value, name) !in disk && name !in home
    {
      hide Agree, Backed, Paired, ByUse, Reached, DeleteOutcome, Forgotten, KeepsFiles;
      ghost var h, d := home, disk;
      assert Backed(h, d);
      var e := Reach(name, states);
      ghost var h1, d1 := home, disk;
      if e.None? {
        r := Err(NotExist);
      } else if e.value.state !in states {
        r := Err(WrongState(e.value.state));
      } else {
        DeleteEntry(e.value);
        r := Ok(());
      }
      DeleteIs(files.size, h, d, name, states, h1, d1, r, home, disk);
      DeleteKeepsFiles(files.size, h, d, name, states, r, home, disk);
    }

    /** The file goes first, then the name. */
    method DeleteEntry(e: FileEntry)
      requires Valid() && InMemory(files.elements, home, e.name, e) && e.state == home[e.name]
      modifies this`disk, this`home, files
      ensures Valid() && Forgotten(old(home), old(disk), e.name, home, disk)
    {
      hide Agree, Backed, Paired, ByUse;
      ghost var elements := files.elements;
      assert Agree(elements, entries, home);
      DropBacked(home, disk, e.name);
      DropSize(home, e.name);
      var gone := files.Delete(e.name, true);
      assert Agree(elements, entries, home);
      AgreeDrop(elements, entries, home, e.name);
      DeleteEvicted(e);
    }

    /** GetFileReader: the contents of a file in an acceptable state. GetFileStat
        finds the file in the same way. */
    method ReadFile(name: string, states: seq<FileState>) returns (r: Result<Content, StoreError>)
      requires Valid()
      modifies this`entries, this`disk, this`home, files
      ensures Valid() && fresh(entries - old(entries))
      ensures ReadOutcome(files.size, old(home), old(disk), name, states, r, home, disk)
      ensures KeepsFiles(old(disk), disk)
      ensures r.Ok? ==> exists s :: (s, name) in disk && disk[(s, name)] == r.value
    {
      hide Agree, Paired, ByUse, Reached, ReadOutcome, KeepsFiles;
      ghost var h, d := home, disk;
      var e := Reach(name, states);
      if e.None? {
        r := Err(NotExist);
      } else if e.value.state !in states {
        r := Err(WrongState(e.value.state));
      } else {
        r := Ok(disk[(e.value.state, name)]);
      }
      ReadIs(files.size, h, d, name, states, r, home, disk);
      ReadKeepsFiles(files.size, h, d, name, states, r, home, disk);
    }
  }

  // ----- how the pieces fit -----

  /** Memory and disk after a name was reloaded if need be. */
  ghost predicate Reached(size: int, home: Home, disk: Disk, name: string, states: seq<FileState>, home': Home,
      disk': Disk) {
    match WhereIs(home, disk, name, states)
    case None => home' == home && disk' == disk
    case Some(s) => After(name in home, size, home[name := s], disk, name, home', disk')
  }

  predicate Moved(home: Home, disk: Disk, name: string, target: FileState, home': Home, disk': Disk) {
    && name in home && (home[name], name) in disk && home' == home[name := target]
    && disk' == MovedDisk(disk, home[name], target, name)
  }

  lemma ReloadReaches(
    size: int, home: Home, disk: Disk, name: string, states: seq<FileState>,
    r: Result<bool, StoreError>, home': Home, disk': Disk)
    requires var w := WhereIs(home, disk, name, states);
             && r == (if name in home then Ok(false) else if w.Some? then Ok(true) else Err(NotExist))
             && (r != Ok(true) ==> home' == home && disk' == disk)
             && (r == Ok(true) ==> Stored(size, home[name := w.value], disk, name, home', disk'))
    ensures Reached(size, home, disk, name, states, home', disk')
  {
    assert name in home ==> home[name := home[name]] == home;
  }

  /** Reaching a name leaves it in memory where it was found, if it was found. */
  lemma ReachedAt(size: int, home: Home, disk: Disk, name: string, states: seq<FileState>, home': Home, disk': Disk)
    requires Backed(home, disk) && Reached(size, home, disk, name, states, home', disk')
    ensures var w := WhereIs(home, disk, name, states);
            && (w.Some? <==> name in home')
            && (w.Some? ==> home'[name] == w.value && (w.value, name) in disk && (w.value, name) in disk'
                            && disk'[(w.value, name)] == disk[(w.value, name)])
  {
  }

  lemma KnownIsRefused(
    size: int, home: Home, disk: Disk, outside: Outside, q: Request, states: seq<FileState>, r: Result<(), StoreError>)
    requires q.name in home && r == Err(if home[q.name] in states then Exist else WrongState(home[q.name]))
    ensures CreateOutcome(size, home, disk, outside, q, states, r, home, disk, outside)
  {
    assert home[q.name := home[q.name]] == home;
  }

  lemma CreatedIs(
    size: int, home: Home, disk: Disk, outside: Outside, q: Request,
    r: Result<(), StoreError>, home': Home, disk': Disk, outside': Outside)
    requires r == q.Placing(disk, outside)
    requires outside' == if r.Ok? && q.source.Some? then outside - {q.source.value} else outside
    requires if r.Ok? then Stored(size, home[q.name := q.target], q.Placed(disk, outside), q.name, home', disk')
             else home' == home && disk' == disk
    ensures Created(size, home, disk, outside, q, r, home', disk', outside')
  {
  }

  lemma MoveIs(
    size: int, home: Home, disk: Disk, name: string, target: FileState, states: seq<FileState>,
    h: Home, d: Disk, r: Result<(), StoreError>, home': Home, disk': Disk)
    requires Backed(home, disk) && Reached(size, home, disk, name, states, h, d)
    requires r == if name !in h then Err(NotExist) else if h[name] == target then Err(Exist)
                  else if h[name] !in states then Err(WrongState(h[name])) else Ok(())
    requires if r.Ok? then Moved(h, d, name, target, home', disk') else home' == h && disk' == d
    ensures MoveOutcome(size, home, disk, name, target, states, r, home', disk')
  {
    ReachedAt(size, home, disk, name, states, h, d);
    hide MovedDisk, Backed, Stored;
    var w := WhereIs(home, disk, name, states);
    if r.Ok? {
      if name in home {
        assert home[name := w.value] == home;
      } else {
        MovesAfterPush(size, home, disk, name, w.value, target, h, d);
      }
    }
  }

  /** Moving a file commutes with pushing another one out. */
  lemma MovesAfterPush(
    size: int, home: Home, disk: Disk, name: string, s: FileState, target: FileState, h: Home, d: Disk)
    requires (s, name) in disk && (s, name) in d && name in h
    requires Stored(size, home[name := s], disk, name, h, d)
    ensures Stored(size, home[name := target], MovedDisk(disk, s, target, name), name, h[name := target],
            MovedDisk(d, s, target, name))
  {
    SameSize(home, name, s, target);
    hide MovedDisk, Forgotten;
    if 0 < size < |home[name := s]| {
      var v :| v in home[name := s] && v != name && Forgotten(home[name := s], disk, v, h, d);
      MovesAroundVictim(home, disk, name, s, target, v, h, d);
    }
  }

  lemma MovesAroundVictim(
    home: Home, disk: Disk, name: string, s: FileState, target: FileState, v: string, h: Home, d: Disk)
    requires (s, name) in disk && (s, name) in d && v != name && Forgotten(home[name := s], disk, v, h, d)
    ensures v in home[name := target]
    ensures Forgotten(home[name := target], MovedDisk(disk, s, target, name), v, h[name := target],
            MovedDisk(d, s, target, name))
  {
    hide MovedDisk;
    assert v in home;
    MoveSkips(disk, (home[v], v), s, target, name);
    PutSkips(home, v, name, s, target);
  }

  lemma MoveSkips(disk: Disk, k: (FileState, string), s: FileState, target: FileState, name: string)
    requires (s, name) in disk && k.1 != name
    ensures MovedDisk(disk - {k}, s, target, name) == MovedDisk(disk, s, target, name) - {k}
  {
  }

  lemma PutSkips(home: Home, v: string, name: string, s: FileState, target: FileState)
    requires v != name
    ensures (home[name := s] - {v})[name := target] == home[name := target] - {v}
  {
  }

  lemma SameSize(home: Home, name: string, s: FileState, t: FileState)
    ensures |home[name := s]| == |home[name := t]|
  {
    assert home[name := s].Keys == home[name := t].Keys;
    assert |home[name := s]| == |home[name := s].Keys| && |home[name := t]| == |home[name := t].Keys|;
  }

  lemma DeleteIs(
    size: int, home: Home, disk: Disk, name: string, states: seq<FileState>,
    h: Home, d: Disk, r: Result<(), StoreError>, home': Home, disk': Disk)
    requires Backed(home, disk) && Reached(size, home, disk, name, states, h, d)
    requires r == if name !in h then Err(NotExist) else if h[name] !in states then Err(WrongState(h[name])) else Ok(())
    requires if r.Ok? then Forgotten(h, d, name, home', disk') else home' == h && disk' == d
    ensures DeleteOutcome(size, home, disk, name, states, r, home', disk')
  {
    ReachedAt(size, home, disk, name, states, h, d);
    hide Backed, Stored;
    var w := WhereIs(home, disk, name, states);
    if w.Some? {
      assert DeletedVia(size, home, disk, name, w.value, r, h, d, home', disk');
    }
  }

  lemma ReadIs(
    size: int, home: Home, disk: Disk, name: string, states: seq<FileState>,
    r: Result<Content, StoreError>, home': Home, disk': Disk)
    requires Backed(home, disk) && Backed(home', disk') && Reached(size, home, disk, name, states, home', disk')
    requires r == if name !in home' then Err(NotExist) else if home'[name] !in states then Err(WrongState(home'[name]))
                  else Ok(disk'[(home'[name], name)])
    ensures ReadOutcome(size, home, disk, name, states, r, home', disk')
  {
    ReachedAt(size, home, disk, name, states, home', disk');
  }

  lemma LoadBacked(home: Home, disk: Disk, name: string, state: FileState)
    requires Backed(home, disk) && (state, name) in disk
    ensures Backed(home[name := state], disk)
  {
  }

  lemma PlaceBacked(home: Home, disk: Disk, outside: Outside, q: Request)
    requires Backed(home, disk)
    ensures Backed(home[q.name := q.target], q.Placed(disk, outside))
  {
  }

  lemma DropBacked(home: Home, disk: Disk, name: string)
    requires Backed(home, disk) && name in home
    ensures Backed(home - {name}, disk - {(home[name], name)})
  {
  }

  lemma MoveBacked(home: Home, disk: Disk, name: string, target: FileState)
    requires Backed(home, disk) && name in home
    ensures (home[name], name) in disk && Backed(home[name := target], MovedDisk(disk, home[name], target, name))
    ensures |home[name := target]| == |home|
  {
    assert home[name := home[name]] == home;
    SameSize(home, name, home[name], target);
  }

  // ----- entries -----

  /** Each name has its entry, in the state of its home. */
  ghost predicate Agree(elements: Elements, entries: set<FileEntry>, home: Home)
    reads entries
  {
    && elements.Values <= entries && home.Keys == elements.Keys
    && forall n | n in elements :: elements[n].name == n && elements[n].state == home[n]
  }

  predicate InMemory(elements: Elements, home: Home, name: string, e: FileEntry) {
    name in elements && elements[name] == e && e.name == name && name in home
  }

  lemma EntryAt(elements: Elements, entries: set<FileEntry>, home: Home, n: string)
    requires Agree(elements, entries, home) && n in elements
    ensures n in home && elements[n].state == home[n] && elements[n].name == n && elements[n] in entries
  {
  }

  lemma AgreePut(elements: Elements, entries: set<FileEntry>, home: Home, e: FileEntry)
    requires Agree(elements, entries, home)
    ensures Agree(elements[e.name := e], entries + {e}, home[e.name := e.state])
  {
  }

  lemma AgreeDrop(elements: Elements, entries: set<FileEntry>, home: Home, n: string)
    requires Agree(elements, entries, home) && n in elements
    ensures elements[n].name == n && n in home && elements[n].state == home[n]
    ensures Agree(elements - {n}, entries, home - {n})
  {
  }

  /** The entries of other names are other entries. */
  lemma AgreeElse(elements: Elements, entries: set<FileEntry>, home: Home, e: FileEntry)
    requires Agree(elements, entries, home)
    ensures elements.Values <= entries
    ensures forall n | n in elements && n != e.name ::
            elements[n] != e && elements[n].name == n && elements[n].state == home[n]
  {
  }

  lemma IntroAgree(elements: Elements, entries: set<FileEntry>, home: Home)
    requires elements.Values <= entries
    requires home.Keys == elements.Keys && forall n | n in elements ::
             elements[n].name == n && elements[n].state == home[n]
    ensures Agree(elements, entries, home)
  {
  }

  // ----- eviction -----

  /** The oldest name is forgotten, with its file, exactly when there are too many. */
  ghost predicate Evicted(
    size: int, elements: Elements, lastUsed: map<string, nat>, home: Home, disk: Disk,
    victim: Option<string>, home': Home, disk': Disk)
  {
    && (victim.Some? <==> 0 < size < |home|)
    && (victim.None? ==> home' == home && disk' == disk)
    && (victim.Some? ==> elements.Keys == lastUsed.Keys && IsOldest(victim.value, elements, lastUsed)
                         && Forgotten(home, disk, victim.value, home', disk'))
  }

  lemma NoneEvicted(size: int, elements: Elements, lastUsed: map<string, nat>, home: Home, disk: Disk)
    ensures !(0 < size < |home|) ==> Evicted(size, elements, lastUsed, home, disk, None, home, disk)
  {
  }

  lemma EvictFacts(
    size: int, elements: Elements, entries: set<FileEntry>, lastUsed: map<string, nat>, home: Home, disk: Disk,
    n: string)
    requires Agree(elements, entries, home) && n in elements && Backed(home, disk) && 0 < size < |home|
    requires elements.Keys == lastUsed.Keys && IsOldest(n, elements, lastUsed)
    ensures elements[n].name == n && n in home && elements[n].state == home[n]
    ensures Agree(elements - {n}, entries, home - {n})
    ensures Backed(home - {n}, disk - {(home[n], n)}) && |home - {n}| == |home| - 1
    ensures Evicted(size, elements, lastUsed, home, disk, Some(n), home - {n}, disk - {(home[n], n)})
  {
    hide IsOldest;
    AgreeDrop(elements, entries, home, n);
    DropBacked(home, disk, n);
    DropSize(home, n);
  }

  /** What was just stored is not what is evicted. */
  lemma NewcomerStays(
    size: int, elements: Elements, lastUsed: map<string, nat>, home: Home, disk: Disk, e: FileEntry, uses: nat,
    victim: Option<string>, home': Home, disk': Disk)
    requires elements.Keys == lastUsed.Keys == home.Keys && |elements| == |home| && e.name !in elements
    requires forall n | n in lastUsed :: lastUsed[n] < uses
    requires var h := home[e.name := e.state];
             Evicted(size, elements[e.name := e], lastUsed[e.name := uses], h, disk, victim, home', disk')
    ensures Stored(size, home[e.name := e.state], disk, e.name, home', disk')
  {
    hide IsOldest;
    PutSize(home, e.name, e.state);
    if victim.Some? {
      OldestWas(elements, lastUsed, e.name, e, uses, victim.value);
      OldestIsIn(victim.value, elements, lastUsed);
    }
  }

  lemma PutSize(home: Home, n: string, state: FileState)
    requires n !in home
    ensures |home[n := state]| == |home| + 1
  {
    assert home[n := state].Keys == home.Keys + {n};
    assert |home| == |home.Keys| && |home[n := state]| == |home[n := state].Keys|;
  }

  lemma DropSize(home: Home, n: string)
    requires n in home
    ensures |home - {n}| == |home| - 1
  {
    assert (home - {n}).Keys == home.Keys - {n};
    assert |home| == |home.Keys| && |home - {n}| == |(home - {n}).Keys|;
  }

  lemma AgreeSize(elements: Elements, home: Home)
    requires home.Keys == elements.Keys
    ensures |home| == |elements|
  {
    assert |home| == |home.Keys| && |elements| == |elements.Keys|;
  }
}
