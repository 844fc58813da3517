/** Creating a layer by scanning the disk (createLayerByScan in
    lib/snapshot/mem_fs.go, walk in lib/snapshot/utils.go) and applying a layer
    in the order in which it is written (rangeFiles in lib/snapshot/mem_layer.go). */
module DiskScan {
  import opened Wrappers
  import opened Paths
  import opened Queues
  import opened TarHeaders
  import opened Layers
  import opened ScanTheory
  import opened MemTree
  import opened MemFiles
  import opened SortedPaths
  import Spec = Ancestors
  import Steps = LayerSteps

  // ----- the walk -----

  ghost function Subtree(d: Disk, p: Path): set<Path> {
    set q | q in d && Within(p, q)
  }

  ghost function Subtrees(d: Disk, cs: seq<Path>): set<Path> {
    set q | q in d && exists c :: c in cs && Within(c, q)
  }

  function ReadDir(d: Disk, p: Path): set<Path> {
    set c | c in d && c.Sub? && c.parent == p
  }

  /** The callback of the walk at one path. */
  method Visit(fs: MemFS, l: MemLayer, disk: Disk, p: Path, now: int, ghost v: View, ghost seen: set<Path>)
    returns (r: Result<(), FsError>)
    requires Scannable(v) && IsDisk(disk) && Steps.Visited(disk, seen) && Steps.Next(disk, seen, p)
    requires fs.Valid() && State(fs, l) == Steps.ScanState(v, disk, seen)
    modifies fs`at, fs.at.Values, l
    ensures fs.Valid() && fresh(fs.at.Values - old(fs.at.Values))
    ensures seen + {p} <= disk.Keys && Steps.Visited(disk, seen + {p})
    ensures r.Ok? && State(fs, l) == Steps.ScanState(v, disk, seen + {p})
  {
    hide *;
    VisitBegins(fs, l, disk, p, v, seen);
    ghost var order;
    r, order := MaybeAddToLayer(fs, l, p, p, disk[p], true, disk, now);
    NothingOrdered();
    VisitEnds(disk, p, v, seen, order, now, r.Ok?);
  }

  /** Before the callback runs: what it may white out is what is gone. */
  lemma VisitBegins(fs: MemFS, l: MemLayer, disk: Disk, p: Path, v: View, seen: set<Path>)
    requires Scannable(v) && IsDisk(disk) && Steps.Visited(disk, seen) && Steps.Next(disk, seen, p)
    requires fs.Valid() && State(fs, l) == Steps.ScanState(v, disk, seen)
    ensures p in disk && seen <= disk.Keys && Root in v && Root in Steps.Partial(v, disk, seen)
    ensures Steps.DirsAbove(fs.View(), p)
    ensures if disk[p].IsDir() && p in fs.at then MissingChildren(fs.View(), disk, p) == Steps.GoneBelow(v, disk, p)
            else Steps.GoneBelow(v, disk, p) == {}
  {
    Steps.RootIsThere(v, disk, seen);
    Steps.SeenAbove(v, disk, seen, p);
    Steps.DiskIsAlive(disk, seen, p);
    if Steps.GoneBelow(v, disk, p) != {} { Steps.GoneMeansThere(v, disk, p); }
    if disk[p].IsDir() && p in fs.at {
      forall c: Path | c.Sub? && c.parent == p
        ensures c in Steps.Partial(v, disk, seen) <==> c in v
        ensures c in Steps.Partial(v, disk, seen) ==> Steps.Partial(v, disk, seen)[c].src == c
      {
        assert c == Sub(p, c.name) && c !in seen;
      }
    }
  }

  lemma VisitEnds(disk: Disk, p: Path, v: View, seen: set<Path>, order: seq<Path>, now: int, ok: bool)
    requires Scannable(v) && IsDisk(disk) && Steps.Visited(disk, seen) && Steps.Next(disk, seen, p)
    requires NoDuplicates(order) && SetOf(order) <= Steps.GoneBelow(v, disk, p)
    requires ok ==> Lists(order, Steps.GoneBelow(v, disk, p))
    ensures seen + {p} <= disk.Keys && Steps.Visited(disk, seen + {p}) && Root in Steps.Partial(v, disk, seen)
    ensures var r := Steps.AddIfUpdated(Steps.ScanState(v, disk, seen), p, p, disk[p], Spec.Owner(0, 0, now));
            && r.Ok?
            && Steps.WhiteOutAll(r.value, order, Spec.Owner(0, 0, now)).Ok?
            && (ok ==>
                Steps.WhiteOutAll(r.value, order, Spec.Owner(0, 0, now))
                == Ok(Steps.ScanState(v, disk, seen + {p})))
  {
    hide *;
    Steps.VisitNeverFails(v, disk, seen, p, order, Spec.Owner(0, 0, now));
    VisitedGrows(disk, seen, p);
    if ok {
      Steps.VisitStep(v, disk, seen, p, order, Spec.Owner(0, 0, now));
    }
  }

  lemma VisitedGrows(disk: Disk, seen: set<Path>, p: Path)
    requires Steps.Visited(disk, seen) && Steps.Next(disk, seen, p)
    ensures seen + {p} <= disk.Keys && Steps.Visited(disk, seen + {p})
  {
  }

  /** filepath.Walk from `p`: the callback, then the entries of the directory in
      the order of their names. */
  method Walk(fs: MemFS, l: MemLayer, disk: Disk, p: Path, now: int, ghost v: View, ghost seen: set<Path>)
    returns (r: Result<(), FsError>)
    requires Scannable(v) && IsDisk(disk) && Steps.Visited(disk, seen) && Steps.Next(disk, seen, p)
    requires fs.Valid() && State(fs, l) == Steps.ScanState(v, disk, seen)
    modifies fs`at, fs.at.Values, l
    ensures fs.Valid() && fresh(fs.at.Values - old(fs.at.Values))
    ensures seen + Subtree(disk, p) <= disk.Keys && Steps.Visited(disk, seen + Subtree(disk, p))
    ensures r.Ok? && State(fs, l) == Steps.ScanState(v, disk, seen + Subtree(disk, p))
    decreases disk.Keys - seen
  {
    hide *;
    r := Visit(fs, l, disk, p, now, v, seen);
    var entries := SortPaths(if disk[p].IsDir() then ReadDir(disk, p) else {});
    ghost var done := seen + {p};
    WalkStarts(disk, p, v, seen, entries);
    for i := 0 to |entries|
      invariant fs.Valid() && fresh(fs.at.Values - old(fs.at.Values)) && r.Ok?
      invariant done == seen + {p} + Subtrees(disk, entries[..i])
      invariant done <= disk.Keys && Steps.Visited(disk, done)
      invariant State(fs, l) == Steps.ScanState(v, disk, done)
    {
      WalkStep(disk, p, seen, entries, i, done);
      r := Walk(fs, l, disk, entries[i], now, v, done);
      done := done + Subtree(disk, entries[i]);
    }
    WalkEnds(disk, p, seen, entries, done);
  }

  ghost predicate EntriesOf(disk: Disk, p: Path, entries: seq<Path>) {
    p in disk && Lists(entries, if disk[p].IsDir() then ReadDir(disk, p) else {})
  }

  lemma WalkStarts(disk: Disk, p: Path, v: View, seen: set<Path>, entries: seq<Path>)
    requires Scannable(v) && Steps.Next(disk, seen, p)
    requires p in disk ==> Lists(entries, if disk[p].IsDir() then ReadDir(disk, p) else {})
    ensures Root in v && EntriesOf(disk, p, entries)
    ensures seen + {p} == seen + {p} + Subtrees(disk, entries[..0])
  {
  }

  lemma WalkStep(disk: Disk, p: Path, seen: set<Path>, entries: seq<Path>, i: nat, done: set<Path>)
    requires Steps.Visited(disk, seen) && Steps.Next(disk, seen, p) && EntriesOf(disk, p, entries)
    requires i < |entries| && done == seen + {p} + Subtrees(disk, entries[..i])
    ensures p !in seen && p in disk && seen <= done && p in done
    ensures Steps.Next(disk, done, entries[i])
    ensures done + Subtree(disk, entries[i]) == seen + {p} + Subtrees(disk, entries[..i + 1])
  {
    var e := entries[i];
    assert e in entries;
    assert e == Sub(p, e.name);
    BelowIsStrict(p, e);
    if e in Subtrees(disk, entries[..i]) {
      var c :| c in entries[..i] && Within(c, e);
      assert c in entries;
      Siblings(p, c, e);
    }
    assert entries[..i + 1] == entries[..i] + [e];
  }

  lemma Siblings(p: Path, c: Path, e: Path)
    requires c.Sub? && e.Sub? && c.parent == p && e.parent == p
    ensures Within(c, e) <==> c == e
  {
    if Within(c, p) { WithinDepth(c, p); }
  }

  lemma WalkEnds(disk: Disk, p: Path, seen: set<Path>, entries: seq<Path>, done: set<Path>)
    requires IsDisk(disk) && EntriesOf(disk, p, entries)
    requires done == seen + {p} + Subtrees(disk, entries[..|entries|])
    ensures done == seen + Subtree(disk, p)
  {
    assert entries[..|entries|] == entries;
    forall q | q in disk
      ensures q in Subtrees(disk, entries) + {p} <==> Within(p, q)
    {
      if q in Subtrees(disk, entries) {
        var c :| c in entries && Within(c, q);
        ChildAboveIsBelow(p, c, q);
      }
      WithinCases(p, q);
      if Below(p, q) {
        var c := ChildTowards(p, q);
        assert c == Sub(p, c.name);
        DiskAncestors(disk, c, q);
        assert c in entries;
      }
    }
  }

  /** createLayerByScan: the tree becomes the merged view and the layer is the
      scan layer, whatever order the children of a node come up in. */
  method CreateLayerByScan(fs: MemFS, disk: Disk, now: int) returns (r: Result<(), FsError>, l: MemLayer)
    requires fs.Valid() && Scannable(fs.View()) && IsDisk(disk)
    modifies fs`at, fs.at.Values
    ensures fs.Valid() && fresh(fs.at.Values - old(fs.at.Values)) && fresh(l)
    ensures r.Ok?
    ensures fs.View() == Merged(old(fs.View()), disk)
    ensures l.files == ScanLayer(old(fs.View()), disk)
  {
    hide *;
    l := new MemLayer();
    ghost var v := fs.View();
    ScanBegins(fs, l, disk);
    r := Walk(fs, l, disk, Root, now, v, {});
    ScanFinishes(fs, l, disk, v);
  }

  lemma ScanBegins(fs: MemFS, l: MemLayer, disk: Disk)
    requires fs.Valid() && Scannable(fs.View()) && IsDisk(disk) && l.files == map[]
    ensures {} <= disk.Keys && Root in fs.View()
    ensures State(fs, l) == Steps.ScanState(fs.View(), disk, {})
    ensures Steps.Visited(disk, {}) && Steps.Next(disk, {}, Root)
  {
    Steps.ScanStarts(fs.View(), disk);
  }

  lemma ScanFinishes(fs: MemFS, l: MemLayer, disk: Disk, v: View)
    requires fs.Valid() && Scannable(v) && IsDisk(disk) && {} + Subtree(disk, Root) <= disk.Keys
    requires State(fs, l) == Steps.ScanState(v, disk, {} + Subtree(disk, Root))
    ensures Root in v && fs.View() == Merged(v, disk) && l.files == ScanLayer(v, disk)
  {
    forall q ensures Within(Root, q) { RootWithin(q); }
    assert {} + Subtree(disk, Root) == disk.Keys;
    Steps.ScanEnds(v, disk);
    ViewIs(fs, l);
  }

  // ----- rangeFiles -----

  /** The layers this package builds: whiteout-named paths became whiteouts. */
  ghost predicate NoWhiteoutContent(l: Layer) {
    forall k | k in l && l[k].Content? && l[k].file.dst.Sub? :: !IsWhiteoutName(l[k].file.dst.name)
  }

  /** Apply a layer's entries to a tree in the order of rangeFiles. */
  method ApplyLayer(fs: MemFS, l: MemLayer) returns (r: Result<(), TreeError>, ghost keys: seq<Path>)
    requires fs.Valid() && NoWhiteoutContent(l.files)
    modifies fs`at, fs.at.Values
    ensures fs.Valid() && fresh(fs.at.Values - old(fs.at.Values))
    ensures Sorted(keys) && Lists(keys, l.files.Keys)
    ensures Replay(old(fs.View()), l.files, keys) == if r.Ok? then Ok(fs.View()) else Err(MissingIntermediate)
    ensures WellFormed(l.files) ==> r.Ok? && fs.View() == Overlay(old(fs.View()), l.files)
  {
    hide *;
    var order := SortPaths(l.files.Keys);
    keys := order;
    ghost var v := fs.View();
    ReplayStarts(v, l.files, order);
    ReplayMeans(fs, l.files, order);
    for i := 0 to |order|
      invariant fs.Valid() && fresh(fs.at.Values - old(fs.at.Values))
      invariant l.files == old(l.files)
      invariant forall k | k in order :: k in l.files
      invariant Replay(v, l.files, order[..i]) == Ok(fs.View())
    {
      ReplayNext(v, l.files, order, i);
      EditedInTree(fs, l.files[order[i]]);
      r := Update(fs, l.files[order[i]]);
      if r.Err? {
        ReplayStops(v, l.files, order, i + 1);
        return;
      }
    }
    assert order[..|order|] == order;
    return Ok(()), order;
  }

  lemma ReplayStarts(v: View, l: Layer, order: seq<Path>)
    requires Lists(order, l.Keys)
    ensures forall k | k in order :: k in l
    ensures Replay(v, l, order[..0]) == Ok(v)
  {
  }

  lemma ReplayNext(v: View, l: Layer, order: seq<Path>, i: nat)
    requires i < |order| && (forall k | k in order :: k in l) && NoWhiteoutContent(l)
    ensures order[i] in l && (forall k | k in order[..i] :: k in l) && (forall k | k in order[..i + 1] :: k in l)
    ensures l[order[i]].Content? && l[order[i]].file.dst.Sub? ==> !IsWhiteoutName(l[order[i]].file.dst.name)
    ensures var r := Replay(v, l, order[..i]);
            r.Ok? ==> Replay(v, l, order[..i + 1]) == Put(r.value, l[order[i]])
  {
    assert order[..i + 1][..i] == order[..i];
    assert order[..i + 1][i] == order[i];
  }

  /** An error ends the replay. */
  lemma {:induction false} ReplayStops(v: View, l: Layer, order: seq<Path>, i: nat)
    requires i <= |order| && forall k | k in order :: k in l
    requires (forall k | k in order[..i] :: k in l) && Replay(v, l, order[..i]).Err?
    ensures Replay(v, l, order) == Err(MissingIntermediate)
    decreases |order| - i
  {
    if i < |order| {
      assert order[..i + 1][..i] == order[..i];
      ReplayStops(v, l, order, i + 1);
    } else {
      assert order[..i] == order;
      match Replay(v, l, order).error
      case MissingIntermediate =>
    }
  }

  lemma ReplayMeans(fs: MemFS, l: Layer, order: seq<Path>)
    requires fs.Valid() && Sorted(order) && Lists(order, l.Keys)
    ensures WellFormed(l) ==>
            (forall k | k in order :: k in l)
            && Replay(fs.View(), l, order) == Ok(Overlay(fs.View(), l))
  {
    if WellFormed(l) {
      fs.ViewIsTree();
      SortedIsAncestorsFirst(order);
      WholeReplayIsOverlay(fs.View(), l, order);
    }
  }

  // ----- the diff law, on the running code -----

  /** A scan of one copy of the tree, then the layer applied to another copy:
      both end as the merged view, and no step fails. */
  method ScanThenApply(fs: MemFS, replica: MemFS, disk: Disk, now: int)
    requires fs.Valid() && replica.Valid() && replica.View() == fs.View()
    requires fs != replica && fs.at.Values !! replica.at.Values
    requires Scannable(fs.View()) && IsDisk(disk)
    modifies fs`at, fs.at.Values, replica`at, replica.at.Values
    ensures fs.Valid() && replica.Valid()
    ensures replica.View() == fs.View() == Merged(old(fs.View()), disk)
    ensures fs.View().Keys == disk.Keys
    ensures forall p | p in disk && p.Sub? :: Similar(fs.View()[p].hdr, disk[p], false)
  {
    hide *;
    ghost var v := fs.View();
    ScanLayerApplies(v, disk);
    var r, l := CreateLayerByScan(fs, disk, now);
    var a, keys := ApplyLayer(replica, l);
  }

  lemma ScanLayerApplies(v: View, d: Disk)
    requires Scannable(v) && IsDisk(d)
    ensures WellFormed(ScanLayer(v, d)) && NoWhiteoutContent(ScanLayer(v, d))
    ensures Overlay(v, ScanLayer(v, d)) == Merged(v, d) && Merged(v, d).Keys == d.Keys
    ensures forall p | p in d && p.Sub? :: Similar(Merged(v, d)[p].hdr, d[p], false)
  {
    LayerIsWellFormed(v, d, d.Keys);
    ScanLayerIsTheDiff(v, d);
    forall p | p in d && p.Sub? ensures Similar(Merged(v, d)[p].hdr, d[p], false) && MergedFile(v, d, p).dst == p {
      MergedKeepsType(v, d, p);
    }
  }
}
