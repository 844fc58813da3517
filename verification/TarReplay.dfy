/** Applying a written layer the way cached and base layers are applied
    (UpdateFromTarReader in lib/snapshot/mem_fs.go): every header read from the
    tar goes through the same comparison as a file found on disk. */
module TarReplay {
  import opened Wrappers
  import opened Paths
  import opened PathStrings
  import opened TarHeaders
  import opened Layers
  import opened ScanTheory
  import opened MemTree
  import Spec = Ancestors
  import Steps = LayerSteps
  import opened MemFiles
  import opened SortedPaths
  import opened DiskScan

  type FsState = Spec.FsState
  type FsError = Spec.FsError
  type Owner = Spec.Owner

  /** What the tar reader delivers: a path and its header. */
  datatype TarEntry = TarEntry(path: Path, hdr: Header)

  function WhiteoutPath(k: Path): Path {
    if k.Sub? then Sub(k.parent, WHITEOUT_PREFIX + k.name) else k
  }

  /** How an entry of a layer is written (memFile.commit): a whiteout is an
      empty file with a prefixed name. */
  function Written(f: MemFile): TarEntry {
    match f
    case Content(c) => TarEntry(c.dst, c.hdr)
    case Whiteout(del) => TarEntry(WhiteoutPath(del),
        Header(Render(WhiteoutPath(del))[1..], TypeRegA, "", 0, 0, 0, 0, 0))
  }

  function UpdateAll(st: FsState, entries: seq<TarEntry>, owner: Owner): (r: Result<FsState, FsError>)
    requires Root in st.view
    ensures r.Ok? ==> Root in r.value.view
  {
    if entries == [] then Ok(st)
    else
      match UpdateAll(st, entries[..|entries| - 1], owner)
      case Err(e) => Err(e)
      case Ok(st') =>
        var e := entries[|entries| - 1];
        Steps.AddIfUpdated(st', e.path, e.path, e.hdr, owner)
  }

  // ----- the loop -----

  /** The entries added as they are read: all but hard links. */
  function Direct(entries: seq<TarEntry>): seq<TarEntry> {
    if entries == [] then []
    else
      var e := entries[|entries| - 1];
      Direct(entries[..|entries| - 1]) + if e.hdr.typeflag.TypeLink? then [] else [e]
  }

  /** Hard links are kept for a second pass, the last one of each path, with
      their targets made absolute. */
  function HardLinks(entries: seq<TarEntry>): map<Path, Header> {
    if entries == [] then map[]
    else
      var e := entries[|entries| - 1];
      var links := HardLinks(entries[..|entries| - 1]);
      if e.hdr.typeflag.TypeLink? then links[e.path := e.hdr.(linkname := AbsPath(e.hdr.linkname))] else links
  }

  /** Some of the hard links, each once, in any order. */
  ghost predicate SomeOf(order: seq<TarEntry>, links: map<Path, Header>) {
    && (forall e | e in order :: e.path in links && links[e.path] == e.hdr)
    && (forall i, j | 0 <= i < j < |order| :: order[i].path != order[j].path)
  }

  /** One entry goes through maybeAddToLayer without whiteouts for missing children. */
  method AddOne(fs: MemFS, l: MemLayer, e: TarEntry, now: int, ghost st0: FsState, ghost before: seq<TarEntry>)
    returns (r: Result<(), FsError>)
    requires fs.Valid() && Root in st0.view && UpdateAll(st0, before, Spec.Owner(0, 0, now)) == Ok(State(fs, l))
    modifies fs`at, fs.at.Values, l
    ensures fs.Valid() && fresh(fs.at.Values - old(fs.at.Values))
    ensures UpdateAll(st0, before + [e], Spec.Owner(0, 0, now)) ==
            match r case Ok(_) => Ok(State(fs, l)) case Err(x) => Err(x)
  {
    hide *;
    ghost var st := State(fs, l);
    ghost var order;
    RootIsKept(st0, before, st, Spec.Owner(0, 0, now));
    r, order := MaybeAddToLayer(fs, l, e.path, e.path, e.hdr, false, map[], now);
    AddsNext(st0, before, e, st, order, Spec.Owner(0, 0, now));
  }

  lemma RootIsKept(st0: FsState, entries: seq<TarEntry>, st: FsState, owner: Owner)
    requires Root in st0.view && UpdateAll(st0, entries, owner) == Ok(st)
    ensures Root in st.view
  {
  }

  lemma AddsNext(st0: FsState, before: seq<TarEntry>, e: TarEntry, st: FsState, order: seq<Path>, owner: Owner)
    requires Root in st0.view && Root in st.view && UpdateAll(st0, before, owner) == Ok(st) && order == []
    ensures UpdateAll(st0, before + [e], owner) == Steps.AddIfUpdated(st, e.path, e.path, e.hdr, owner)
    ensures forall s: FsState | Root in s.view :: Steps.WhiteOutAll(s, order, owner) == Ok(s)
  {
    assert (before + [e])[..|before|] == before;
  }

  /** The tar is read once; its hard links come last, in whatever order the map
      of them is ranged over. `order` is the order in which entries were added. */
  method UpdateFromTar(fs: MemFS, entries: seq<TarEntry>, now: int)
    returns (r: Result<(), FsError>, l: MemLayer, ghost order: seq<TarEntry>)
    requires fs.Valid()
    modifies fs`at, fs.at.Values
    ensures fs.Valid() && fresh(fs.at.Values - old(fs.at.Values)) && fresh(l)
    ensures Root in old(fs.View())
    ensures UpdateAll(Spec.FsState(old(fs.View()), map[]), order, Spec.Owner(0, 0, now)) ==
            match r case Ok(_) => Ok(State(fs, l)) case Err(x) => Err(x)
    ensures order <= Direct(entries) ||
            (Direct(entries) <= order && SomeOf(order[|Direct(entries)|..], HardLinks(entries)))
    ensures r.Ok? ==> Direct(entries) <= order && forall p | p in HardLinks(entries) ::
              TarEntry(p, HardLinks(entries)[p]) in order[|Direct(entries)|..]
  {
    hide *;
    l := new MemLayer();
    ghost var st0 := Spec.FsState(fs.View(), map[]);
    TarStarts(fs, l, entries, Spec.Owner(0, 0, now));
    order := [];
    var hardlinks: map<Path, Header> := map[];
    for i := 0 to |entries|
      invariant fs.Valid() && fresh(fs.at.Values - old(fs.at.Values))
      invariant Root in st0.view && st0 == Spec.FsState(old(fs.View()), map[])
      invariant order == Direct(entries[..i]) && hardlinks == HardLinks(entries[..i])
      invariant UpdateAll(st0, order, Spec.Owner(0, 0, now)) == Ok(State(fs, l))
    {
      var e := entries[i];
      OneMoreRead(entries, i);
      if IsHardLink(e) {
        hardlinks := hardlinks[e.path := e.hdr.(linkname := AbsPath(e.hdr.linkname))];
      } else {
        r := AddOne(fs, l, e, now, st0, order);
        order := order + [e];
        if r.Err? {
          DirectPrefix(entries, i + 1);
          return;
        }
      }
    }
    assert entries[..|entries|] == entries;
    r, order := SecondPass(fs, l, hardlinks, now, st0, order);
  }

  predicate IsHardLink(e: TarEntry) {
    e.hdr.typeflag.TypeLink?
  }

  method SecondPass(fs: MemFS, l: MemLayer, hardlinks: map<Path, Header>, now: int, ghost st0: FsState,
      ghost first: seq<TarEntry>)
    returns (r: Result<(), FsError>, ghost order: seq<TarEntry>)
    requires fs.Valid() && Root in st0.view && UpdateAll(st0, first, Spec.Owner(0, 0, now)) == Ok(State(fs, l))
    modifies fs`at, fs.at.Values, l
    ensures fs.Valid() && fresh(fs.at.Values - old(fs.at.Values))
    ensures UpdateAll(st0, order, Spec.Owner(0, 0, now)) == match r case Ok(_) => Ok(State(fs, l)) case Err(x) => Err(x)
    ensures first <= order && SomeOf(order[|first|..], hardlinks)
    ensures r.Ok? ==> forall p | p in hardlinks :: TarEntry(p, hardlinks[p]) in order[|first|..]
  {
    hide *;
    var todo := hardlinks.Keys;
    ghost var done := [];
    assert first + done == first;
    NoneDone(hardlinks);
    while todo != {}
      invariant fs.Valid() && fresh(fs.at.Values - old(fs.at.Values))
      invariant Root in st0.view && UpdateAll(st0, first + done, Spec.Owner(0, 0, now)) == Ok(State(fs, l))
      invariant PartDone(done, hardlinks, todo)
      decreases todo
    {
      var p :| p in todo;
      OneMoreDone(done, hardlinks, todo, p);
      var e := TarEntry(p, hardlinks[p]);
      r := AddOne(fs, l, e, now, st0, first + done);
      assert first + done + [e] == first + (done + [e]);
      done := done + [e];
      todo := todo - {p};
      if r.Err? {
        order := first + done;
        DoneIs(done, hardlinks, todo);
        assert order[|first|..] == done;
        return;
      }
    }
    r := Ok(());
    order := first + done;
    DoneIs(done, hardlinks, todo);
    assert order[|first|..] == done;
  }

  ghost predicate PartDone(done: seq<TarEntry>, links: map<Path, Header>, todo: set<Path>) {
    SomeOf(done, links) && todo <= links.Keys
        && (forall p | p in links :: p in todo <==> TarEntry(p, links[p]) !in done)
  }

  lemma NoneDone(links: map<Path, Header>)
    ensures PartDone([], links, links.Keys)
  {
  }

  lemma OneMoreDone(done: seq<TarEntry>, links: map<Path, Header>, todo: set<Path>, p: Path)
    requires PartDone(done, links, todo) && p in todo
    ensures p in links && PartDone(done + [TarEntry(p, links[p])], links, todo - {p})
  {
    forall i | 0 <= i < |done| ensures done[i].path != p {
      assert done[i] in done;
    }
  }

  lemma DoneIs(done: seq<TarEntry>, links: map<Path, Header>, todo: set<Path>)
    requires PartDone(done, links, todo)
    ensures SomeOf(done, links)
    ensures todo == {} ==> forall p | p in links :: TarEntry(p, links[p]) in done
  {
  }

  lemma TarStarts(fs: MemFS, l: MemLayer, entries: seq<TarEntry>, owner: Owner)
    requires fs.Valid() && l.files == map[]
    ensures Root in fs.View() && Direct(entries[..0]) == [] && HardLinks(entries[..0]) == map[]
    ensures UpdateAll(Spec.FsState(fs.View(), map[]), [], owner) == Ok(State(fs, l))
  {
  }

  lemma OneMoreRead(entries: seq<TarEntry>, i: nat)
    requires i < |entries|
    ensures var e := entries[i]; var rest := entries[..i];
            if IsHardLink(e) then
              Direct(entries[..i + 1]) == Direct(rest)
              && HardLinks(entries[..i + 1]) == HardLinks(rest)[e.path := e.hdr.(linkname := AbsPath(e.hdr.linkname))]
            else Direct(entries[..i + 1]) == Direct(rest) + [e] && HardLinks(entries[..i + 1]) == HardLinks(rest)
  {
    assert entries[..i + 1][..i] == entries[..i];
  }

  lemma {:induction false} DirectPrefix(entries: seq<TarEntry>, i: nat)
    requires i <= |entries|
    ensures Direct(entries[..i]) <= Direct(entries)
    decreases |entries| - i
  {
    if i == |entries| {
      assert entries[..i] == entries;
    } else {
      OneMoreRead(entries, i);
      DirectPrefix(entries, i + 1);
    }
  }

  lemma NothingRead()
    ensures Direct([]) == [] && HardLinks([]) == map[]
  {
  }

  lemma {:induction false} WithoutHardLinks(entries: seq<TarEntry>)
    requires forall e | e in entries :: !IsHardLink(e)
    ensures Direct(entries) == entries && HardLinks(entries) == map[]
  {
    hide Direct, HardLinks;
    if entries == [] {
      NothingRead();
    } else {
      var n := |entries| - 1;
      WithoutHardLinks(entries[..n]);
      OneMoreRead(entries, n);
      assert entries[..n + 1] == entries == entries[..n] + [entries[n]];
      assert entries[n] in entries;
    }
  }

  // ----- one entry -----

  /** A file that is found similar is the one already there, and a directory. */
  predicate Repeats(w: View, k: Path, f: MemFile) {
    f.Content? && k in w ==>
      w[k].hdr.Supported() && (Similar(w[k].hdr, f.file.hdr, false) ==> f.file == w[k] && f.file.hdr.IsDir())
  }

  predicate OwnPath(k: Path, f: MemFile) {
    k.Sub? && k.name != "" && match f
              case Content(c) => c.src == k && c.dst == k && !IsWhiteoutName(k.name)
              case Whiteout(del) => del == k
  }

  /** A written entry, read back, does to the tree what the entry itself does. */
  lemma EntryApplies(st: FsState, k: Path, f: MemFile, owner: Owner)
    requires Spec.Shaped(st.view) && Steps.DirsAbove(st.view, k) && OwnPath(k, f) && Repeats(st.view, k, f)
    ensures Root in st.view && Put(st.view, f).Ok?
    ensures var e := Written(f);
            var r := Steps.AddIfUpdated(st, e.path, e.path, e.hdr, owner);
            r.Ok? && r.value.view == Put(st.view, f).value
  {
    hide Spec.AddAncestors, Steps.EntriesAbove, Spec.Shaped, Steps.DirsAbove;
    ShapeFacts(st.view, k);
    var e := Written(f);
    assert Steps.DirsAbove(st.view, e.path) by { SameAbove(st.view, k); }
    Steps.AddExistingAncestors(st, e.path, owner);
    if f.Content? {
      if k in st.view {
        SimilarDecides(st.view[k].hdr, f.file.hdr);
        if Similar(st.view[k].hdr, f.file.hdr, false) {
          assert st.view[k := f.file] == st.view;
        }
      }
    } else {
      PrefixedName(k);
    }
  }

  lemma SimilarDecides(h: Header, nh: Header)
    requires h.Supported()
    ensures IsSimilarHeader(h, nh, false) == Ok(Similar(h, nh, false))
  {
  }

  lemma ShapeFacts(w: View, k: Path)
    requires Spec.Shaped(w) && Steps.DirsAbove(w, k) && k.Sub?
    ensures Root in w && k.parent in w && WhiteoutPath(k) !in w
  {
    PrefixedName(k);
    WithinCases(k.parent, k);
  }

  lemma PrefixedName(k: Path)
    requires k.Sub?
    ensures IsWhiteoutName(WhiteoutPath(k).name) && WhiteoutPath(k).name[|WHITEOUT_PREFIX|..] == k.name
  {
  }

  lemma SameAbove(w: View, k: Path)
    requires Steps.DirsAbove(w, k) && k.Sub?
    ensures Steps.DirsAbove(w, WhiteoutPath(k))
  {
  }

  // ----- a whole layer -----

  /** The entries of a layer in the order in which they are written. */
  function Tar(l: Layer, keys: seq<Path>): seq<TarEntry>
    requires forall k | k in keys :: k in l
  {
    seq(|keys|, i requires 0 <= i < |keys| => Written(l[keys[i]]))
  }

  /** A deleted file is written as an empty plain one: nobody's, from no time, beside
      where the file was. */
  lemma WhiteoutsAreEmpty(l: Layer, keys: seq<Path>, i: nat)
    requires (forall k | k in keys :: k in l) && i < |keys| && l[keys[i]].Whiteout?
    ensures var h := Tar(l, keys)[i].hdr;
            h.Supported() && h.typeflag.TypeRegA? && h.linkname == "" && h.size == 0 && h.mode == 0 && h.uid == 0
            && h.gid == 0 && h.modTime == 0 && h.name == Render(Tar(l, keys)[i].path)[1..]
    ensures var p := Tar(l, keys)[i].path;
            l[keys[i]].del.Sub? ==> p.Sub? && p.parent == l[keys[i]].del.parent
                                    && p.name == WHITEOUT_PREFIX + l[keys[i]].del.name
  {
  }

  /** What reading a layer back needs on top of its shape. */
  ghost predicate Readable(v: View, l: Layer) {
    && WellFormed(l) && NoWhiteoutContent(l)
    && forall k | k in l :: OwnPath(k, l[k]) && Repeats(v, k, l[k])
  }

  lemma OverlayIsShaped(v: View, l: Layer)
    requires Spec.Shaped(v) && WellFormed(l) && NoWhiteoutContent(l)
    ensures Spec.Shaped(Overlay(v, l))
  {
    var w := Overlay(v, l);
    forall p, c | Sub(p, c) in w
      ensures p in w && w[p].hdr.IsDir()
    {
      if p !in l && Sub(p, c) !in l {
        forall a | a in l && Below(a, p) ensures Below(a, Sub(p, c)) {}
      } else if p in l && Sub(p, c) !in l {
        assert Below(p, Sub(p, c));
      }
    }
    assert Sheltered(l, Root);
    assert Root !in l;
    assert KeyedByDst(w);
  }

  /** Before its turn a key still holds what the old tree held, and everything
      above it is in place. */
  lemma KeyIsReady(v: View, part: Layer, k: Path)
    requires Spec.Shaped(v) && WellFormed(part) && NoWhiteoutContent(part) && k.Sub? && k !in part
    requires k.parent.Sub? ==> ProvidesDir(part, k.parent)
    ensures var w := Overlay(v, part);
            Steps.DirsAbove(w, k) && (k in w ==> k in v && w[k] == v[k])
  {
    var w := Overlay(v, part);
    forall q: Path | q.Sub? && Below(q, k) ensures q in w && w[q].hdr.IsDir() {
      WithinCases(q, k.parent);
      if q != k.parent { KeysAbove(part, q, k.parent); }
    }
  }

  lemma {:induction false} TarIsReplay(v: View, l: Layer, keys: seq<Path>, all: seq<Path>, owner: Owner)
    requires Spec.Shaped(v) && Readable(v, l) && Lists(all, l.Keys) && AncestorsFirst(all) && keys <= all
    requires forall k | k in keys :: k in l
    ensures Root in v
    ensures var r := UpdateAll(Spec.FsState(v, map[]), Tar(l, keys), owner);
            r.Ok? && r.value.view == Overlay(v, Only(l, SetOf(keys)))
  {
    hide *;
    Spec.ShapedHasRoot(v);
    if keys == [] {
      NothingOnTop(v, l, owner);
    } else {
      var front, k := keys[..|keys| - 1], keys[|keys| - 1];
      assert keys == front + [k];
      IsWellFormed(v, l);
      NextKey(l, front, k, all);
      TarIsReplay(v, l, front, all, owner);
      OneMoreWritten(v, l, front, k, owner);
      var part := Only(l, SetOf(front));
      OneMoreKey(l, front, k);
      var st := UpdateAll(Spec.FsState(v, map[]), Tar(l, front), owner).value;
      NextApplies(v, l, part, k, st, owner);
    }
  }

  lemma IsWellFormed(v: View, l: Layer)
    requires Readable(v, l)
    ensures WellFormed(l)
  {
  }

  lemma OneMoreKey(l: Layer, front: seq<Path>, k: Path)
    requires k in l && k !in front && forall j | j in front :: j in l && !Below(k, j)
    ensures var part := Only(l, SetOf(front));
            && k !in part && Only(l, SetOf(front + [k])) == part[k := l[k]]
            && forall j | j in part :: j in l && part[j] == l[j] && !Below(k, j)
  {
  }

  lemma OneMoreWritten(v: View, l: Layer, front: seq<Path>, k: Path, owner: Owner)
    requires Root in v && k in l && forall j | j in front :: j in l
    ensures forall j | j in front + [k] :: j in l
    ensures var st0 := Spec.FsState(v, map[]);
            var r := UpdateAll(st0, Tar(l, front), owner);
            var e := Written(l[k]);
            r.Ok? ==>
                UpdateAll(st0, Tar(l, front + [k]), owner)
                == Steps.AddIfUpdated(r.value, e.path, e.path, e.hdr, owner)
  {
    hide Steps.AddIfUpdated, Written;
    var all := Tar(l, front + [k]);
    assert all[..|all| - 1] == Tar(l, front);
    assert all[|all| - 1] == Written(l[k]);
  }

  lemma NothingOnTop(v: View, l: Layer, owner: Owner)
    requires Root in v
    ensures Overlay(v, Only(l, SetOf([]))) == v
    ensures UpdateAll(Spec.FsState(v, map[]), Tar(l, []), owner) == Ok(Spec.FsState(v, map[]))
  {
  }

  lemma NextApplies(v: View, l: Layer, part: Layer, k: Path, st: FsState, owner: Owner)
    requires Spec.Shaped(v) && Readable(v, l) && k in l && k !in part && EntryFor(k, l[k]) && WellFormed(part)
    requires forall j | j in part :: j in l && part[j] == l[j] && !Below(k, j)
    requires k.parent.Sub? ==> ProvidesDir(part, k.parent)
    requires st.view == Overlay(v, part)
    ensures Root in st.view
    ensures var e := Written(l[k]);
            var r := Steps.AddIfUpdated(st, e.path, e.path, e.hdr, owner);
            r.Ok? && r.value.view == Overlay(v, part[k := l[k]])
  {
    hide Steps.AddIfUpdated, Written, Spec.AddAncestors, Put, Overlay, ProvidesDir, EntryFor, WellFormed, Spec.Shaped;
    assert NoWhiteoutContent(part);
    OverlayIsShaped(v, part);
    KeyIsReady(v, part, k);
    TreeOf(v);
    SubOf(l, k);
    OverlayStep(v, part, k, l[k]);
    EntryApplies(st, k, l[k], owner);
  }

  lemma TreeOf(v: View)
    requires Spec.Shaped(v)
    ensures IsTree(v)
  {
  }

  lemma SubOf(l: Layer, k: Path)
    requires k in l && OwnPath(k, l[k])
    ensures k.Sub?
  {
  }

  /** A layer read back from its tar gives the tree that replaying it gives. */
  lemma ReadingIsReplaying(v: View, l: Layer, keys: seq<Path>, owner: Owner)
    requires Spec.Shaped(v) && Readable(v, l) && Lists(keys, l.Keys) && AncestorsFirst(keys)
    ensures Root in v && IsTree(v) && WellFormed(l)
    ensures (forall k | k in keys :: k in l) && Replay(v, l, keys) == Ok(Overlay(v, l))
    ensures var r := UpdateAll(Spec.FsState(v, map[]), Tar(l, keys), owner);
            r.Ok? && r.value.view == Overlay(v, l)
  {
    TarIsReplay(v, l, keys, keys, owner);
    WholeReplayIsOverlay(v, l, keys);
    assert Only(l, SetOf(keys)) == l;
  }

  // ----- the scan's own layer -----

  lemma ScannableIsShaped(v: View)
    requires Scannable(v)
    ensures Spec.Shaped(v)
  {
  }

  /** What a scan writes can be read back: entries that repeat what the tree
      holds are directories on the way to a change. */
  lemma ScanLayerIsReadable(v: View, d: Disk)
    requires Scannable(v) && IsDisk(d)
    ensures Readable(v, ScanLayer(v, d))
  {
    var l := ScanLayer(v, d);
    ScanLayerApplies(v, d);
    forall k | k in l ensures OwnPath(k, l[k]) && Repeats(v, k, l[k]) {
      ScanEntryReads(v, d, k);
    }
  }

  lemma ScanEntryReads(v: View, d: Disk, k: Path)
    requires Scannable(v) && IsDisk(d) && k in ScanLayer(v, d)
    ensures OwnPath(k, ScanLayer(v, d)[k]) && Repeats(v, k, ScanLayer(v, d)[k])
  {
    ScanLayerIsExact(v, d, k);
    var x :| (Changed(v, d, x) || Gone(v, d, x)) && Within(k, x);
    if k in d {
      if k in v && !Changed(v, d, k) {
        WithinCases(k, x);
        if x in d {
          DiskAncestors(d, k, x);
        } else if k != x.parent {
          WithinCases(k, x.parent);
          DiskAncestors(d, k, x.parent);
        }
        MergedKeepsType(v, d, k);
      }
    }
  }

  /** A scan makes no hard links: the type comes from the file's mode. */
  ghost predicate NoHardLinks(d: Disk) {
    forall p | p in d :: !d[p].typeflag.TypeLink?
  }

  lemma ScanWritesNoHardLinks(v: View, d: Disk, keys: seq<Path>)
    requires Scannable(v) && IsDisk(d) && NoHardLinks(d) && forall k | k in keys :: k in ScanLayer(v, d)
    ensures var entries := Tar(ScanLayer(v, d), keys); Direct(entries) == entries && HardLinks(entries) == map[]
  {
    var l := ScanLayer(v, d);
    var entries := Tar(l, keys);
    forall e | e in entries ensures !IsHardLink(e) {
      var i :| 0 <= i < |keys| && entries[i] == e;
      EntryIsNoHardLink(v, d, keys[i]);
    }
    WithoutHardLinks(entries);
  }

  lemma EntryIsNoHardLink(v: View, d: Disk, k: Path)
    requires Scannable(v) && IsDisk(d) && NoHardLinks(d) && k in ScanLayer(v, d)
    ensures !IsHardLink(Written(ScanLayer(v, d)[k]))
  {
    if ScanLayer(v, d)[k].Content? {
      ScanEntryReads(v, d, k);
      if k in v && !Changed(v, d, k) {
        SimilarIsAnEquivalence(v[k].hdr, d[k], d[k], false);
      }
    }
  }

  /** The layer of a scan, written as a tar and read back on another copy of the
      old tree, as a cached layer is: both trees end the same, and no header is
      refused. */
  method ScanThenUpdate(fs: MemFS, replica: MemFS, disk: Disk, now: int)
    requires fs.Valid() && replica.Valid() && replica.View() == fs.View()
    requires fs != replica && fs.at.Values !! replica.at.Values
    requires Scannable(fs.View()) && IsDisk(disk) && NoHardLinks(disk)
    modifies fs`at, fs.at.Values, replica`at, replica.at.Values
    ensures fs.Valid() && replica.Valid()
    ensures replica.View() == fs.View() == Merged(old(fs.View()), disk)
  {
    hide *;
    ghost var v := fs.View();
    var r, l := CreateLayerByScan(fs, disk, now);
    var keys := SortPaths(l.files.Keys);
    ScanReadsBack(v, disk, keys, Spec.Owner(0, 0, now));
    ScanWritesNoHardLinks(v, disk, keys);
    var entries := Tar(l.files, keys);
    var u, m, order := UpdateFromTar(replica, entries, now);
    OrderIsTar(v, entries, order, u.Ok?, Spec.Owner(0, 0, now));
    StateView(replica, m);
  }

  lemma OrderIsTar(v: View, entries: seq<TarEntry>, order: seq<TarEntry>, ok: bool, owner: Owner)
    requires Root in v && Direct(entries) == entries && HardLinks(entries) == map[]
    requires UpdateAll(Spec.FsState(v, map[]), entries, owner).Ok?
    requires UpdateAll(Spec.FsState(v, map[]), order, owner).Ok? == ok
    requires order <= entries || (entries <= order && SomeOf(order[|entries|..], map[]))
    requires ok ==> entries <= order
    ensures ok && order == entries
  {
    hide UpdateAll, SomeOf, Direct, HardLinks;
    if entries <= order && SomeOf(order[|entries|..], map[]) {
      NothingMore(order[|entries|..], map[]);
      assert order == entries + order[|entries|..];
      assert order == entries;
    } else {
      AllGoWell(Spec.FsState(v, map[]), entries, |order|, owner);
      assert entries[..|order|] == order;
    }
  }

  lemma NothingMore(order: seq<TarEntry>, links: map<Path, Header>)
    requires SomeOf(order, links)
    ensures order != [] ==> links != map[]
  {
    if order != [] { assert order[0] in order; }
  }

  lemma {:induction false} AllGoWell(st0: FsState, entries: seq<TarEntry>, i: nat, owner: Owner)
    requires Root in st0.view && i <= |entries| && UpdateAll(st0, entries, owner).Ok?
    ensures UpdateAll(st0, entries[..i], owner).Ok?
    decreases |entries|
  {
    if i == |entries| {
      assert entries[..i] == entries;
    } else {
      AllGoWell(st0, entries[..|entries| - 1], i, owner);
      assert entries[..|entries| - 1][..i] == entries[..i];
    }
  }

  lemma StateView(fs: MemFS, l: MemLayer)
    requires fs.Valid()
    ensures State(fs, l).view == fs.View()
  {
  }

  lemma KeysAreSubs(v: View, l: Layer, keys: seq<Path>)
    requires Readable(v, l) && Lists(keys, l.Keys)
    ensures forall k | k in keys :: k in l && k.Sub?
  {
    forall k | k in keys ensures k in l && k.Sub? { SubOf(l, k); }
  }

  lemma ScanReadsBack(v: View, d: Disk, keys: seq<Path>, owner: Owner)
    requires Scannable(v) && IsDisk(d) && Sorted(keys) && Lists(keys, ScanLayer(v, d).Keys)
    ensures Root in v && forall k | k in keys :: k in ScanLayer(v, d)
    ensures var r := UpdateAll(Spec.FsState(v, map[]), Tar(ScanLayer(v, d), keys), owner);
            r.Ok? && r.value.view == Merged(v, d)
  {
    hide *;
    ScannableIsShaped(v);
    Spec.ShapedHasRoot(v);
    ScanLayerIsReadable(v, d);
    KeysAreSubs(v, ScanLayer(v, d), keys);
    SortedIsAncestorsFirst(keys);
    ReadingIsReplaying(v, ScanLayer(v, d), keys, owner);
    ScanLayerIsTheDiff(v, d);
  }
}
