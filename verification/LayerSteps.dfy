/** One step of building a layer (maybeAddToLayer in lib/snapshot/mem_fs.go) on
    views, and why a walk of the disk made of such steps computes the scan layer. */
module LayerSteps {
  import opened Wrappers
  import opened Paths
  import opened Queues
  import opened TarHeaders
  import opened Layers
  import opened ScanTheory
  import opened Ancestors

  // ----- maybeAddToLayer -----

  /** isUpdated: is the header new or different at its path? */
  function IsUpdated(v: View, p: Path, hdr: Header): Result<bool, FsError> {
    if p !in v then Ok(true)
    else
      match IsSimilarHeader(v[p].hdr, hdr, false)
      case Err(e) => Err(Compare(e))
      case Ok(similar) => Ok(!similar)
  }

  /** The first half: add the file and its ancestors if it changed. */
  function AddIfUpdated(st: FsState, src: Path, dst: Path, hdr: Header, owner: Owner): (r: Result<FsState, FsError>)
    requires Root in st.view
    ensures r.Ok? ==> Root in r.value.view
  {
    match IsUpdated(st.view, dst, hdr)
    case Err(e) => Err(e)
    case Ok(updated) =>
      if !updated || dst.Root? then Ok(st)
      else
        match AddAncestors(st, dst, false, 0, owner)
        case Err(e) => Err(e)
        case Ok((st', _)) => AddEntry(st', FileFor(src, dst, hdr))
  }

  /** The second half, for one child that is no longer on disk. */
  function WhiteOut(st: FsState, p: Path, owner: Owner): (r: Result<FsState, FsError>)
    requires Root in st.view
    ensures r.Ok? ==> Root in r.value.view
  {
    if p.Sub? && IsWhiteoutName(p.name) then Err(WhiteoutName)
    else
      match AddEntry(st, Whiteout(p))
      case Err(e) => Err(e)
      case Ok(st') =>
        match AddAncestors(st', p, false, 0, owner)
        case Err(e) => Err(e)
        case Ok((st'', _)) => Ok(st'')
  }

  function WhiteOutAll(st: FsState, order: seq<Path>, owner: Owner): (r: Result<FsState, FsError>)
    requires Root in st.view
    ensures r.Ok? ==> Root in r.value.view
  {
    if order == [] then Ok(st)
    else
      match WhiteOutAll(st, order[..|order| - 1], owner)
      case Err(e) => Err(e)
      case Ok(st') =>
        WhiteOut(st', order[|order| - 1], owner)
  }

  /** A name that already has the prefix of a whiteout cannot be whited out, so a
      scan never whites out a whiteout. */
  lemma {:induction false} WhiteoutsAreRefused(st: FsState, order: seq<Path>, p: Path, owner: Owner)
    requires Root in st.view && p in order && p.Sub? && IsWhiteoutName(p.name)
    ensures WhiteOutAll(st, order, owner).Err?
    ensures order == [p] ==> WhiteOutAll(st, order, owner) == Err(WhiteoutName)
  {
    var front := order[..|order| - 1];
    if order[|order| - 1] != p {
      WhiteoutsAreRefused(st, front, p, owner);
    } else {
      hide AddEntry, AddAncestors, IsWhiteoutName;
    }
  }

  // ----- ancestors that all exist -----

  ghost predicate DirsAbove(v: View, p: Path) {
    forall q: Path | q.Sub? && Below(q, p) :: q in v && v[q].hdr.IsDir()
  }

  /** The entries of the strict ancestors of `p` deeper than `i`. */
  ghost function EntriesAbove(v: View, p: Path, i: nat): Layer {
    map q | q in v && q.Sub? && Below(q, p) && Depth(q) > i :: Content(v[q])
  }

  /** Ancestors that exist as directories are added to the layer and nothing
      else happens. */
  lemma {:induction false} ClimbExisting(st: FsState, p: Path, owner: Owner, i: nat, like: Header)
    requires Shaped(st.view) && DirsAbove(st.view, p)
    requires i <= End(p, false) && ProvidesTo(st, p, i)
    ensures Climb(st, p, false, 0, owner, i, Way(p, i), like) ==
            Ok((FsState(st.view, st.layer + EntriesAbove(st.view, p, i)), p))
    decreases End(p, false) - i
  {
    hide *;
    ShapedHasRoot(st.view);
    ClimbAt(st, p, owner, i, like);
    if i < End(p, false) {
      ClimbEnters(st, p, false, 0, owner, i, like);
      ClimbExisting(Passed(st, p, i), p, owner, i + 1, st.view[Way(p, i + 1)].hdr);
      EntriesSplit(st, p, i);
    } else {
      EntriesEnd(st, p, i);
      assert st.layer + EntriesAbove(st.view, p, i) == st.layer;
    }
  }

  /** The loop at component `i` of such a path: the next one is there, or it ends. */
  lemma ClimbAt(st: FsState, p: Path, owner: Owner, i: nat, like: Header)
    requires DirsAbove(st.view, p) && Root in st.view && i <= End(p, false)
    ensures 0 < MAX_DEPTH && End(p, false) <= Depth(p)
    ensures i < End(p, false) ==>
            && Way(p, i + 1) in st.view && st.view[Way(p, i + 1)].hdr.IsDir()
            && Passed(st, p, i).view == st.view
    ensures i == End(p, false) ==> Climb(st, p, false, 0, owner, i, Way(p, i), like) == Ok((st, p))
  {
    hide AddAncestors, IsWhiteoutName, Below, Within;
    if i < End(p, false) { WayBelow(p, i); }
  }

  /** The ancestor of depth `i + 1` is a strict one, and the only one of its depth. */
  lemma WayBelow(p: Path, i: nat)
    requires i < End(p, false)
    ensures Way(p, i + 1).Sub? && Below(Way(p, i + 1), p) && Depth(Way(p, i + 1)) == i + 1
    ensures forall q | Below(q, p) && Depth(q) == i + 1 :: q == Way(p, i + 1)
  {
    WayStep(p, i);
    WayIsPrefix(p, i + 1);
    PrefixesAreAncestors(p, i + 1);
    WithinCases(Way(p, i + 1), p);
    forall q | Below(q, p) && Depth(q) == i + 1 ensures q == Way(p, i + 1) {
      BelowIsStrict(q, p);
      AncestorIsPrefix(q, p);
    }
  }

  lemma EntriesSplit(st: FsState, p: Path, i: nat)
    requires i < End(p, false) && Way(p, i + 1) in st.view
    ensures Passed(st, p, i).layer + EntriesAbove(st.view, p, i + 1) == st.layer + EntriesAbove(st.view, p, i)
  {
    WayBelow(p, i);
    hide Way, Below, Depth, End;
    var a, b := Passed(st, p, i).layer + EntriesAbove(st.view, p, i + 1), st.layer + EntriesAbove(st.view, p, i);
    assert a.Keys == b.Keys;
    assert forall k | k in a :: a[k] == b[k];
  }

  lemma EntriesEnd(st: FsState, p: Path, i: nat)
    requires i >= End(p, false)
    ensures EntriesAbove(st.view, p, i) == map[]
  {
    forall q | q in st.view && q.Sub? && Below(q, p) ensures Depth(q) <= i {
      BelowIsStrict(q, p);
      WithinDepth(q, p.parent);
    }
  }

  lemma AddExistingAncestors(st: FsState, p: Path, owner: Owner)
    requires Shaped(st.view) && DirsAbove(st.view, p)
    ensures AddAncestors(st, p, false, 0, owner) == Ok((FsState(st.view, st.layer + EntriesAbove(st.view, p, 0)), p))
  {
    WayIsPrefix(p, 0);
    ClimbExisting(st, p, owner, 0, st.view[Root].hdr);
  }

  // ----- the state of a scan under way -----

  /** Does a path not visited yet still exist? Below a visited directory only
      what is on disk is left. */
  ghost predicate Alive(d: Disk, seen: set<Path>, q: Path) {
    if q.Root? then true
    else if q.parent in seen then q in d
    else Alive(d, seen, q.parent)
  }

  /** Visited paths are on disk and were reached through visited directories. */
  ghost predicate Visited(d: Disk, seen: set<Path>) {
    seen <= d.Keys && forall p, c | Sub(p, c) in seen :: p in seen
  }

  /** The tree after visiting `seen`. */
  ghost function Partial(v: View, d: Disk, seen: set<Path>): View
    requires Root in v && seen <= d.Keys
  {
    map q | q in v.Keys + seen && (q in seen || Alive(d, seen, q))
         :: if q in seen then MergedFile(v, d, q) else v[q]
  }

  ghost function ScanState(v: View, d: Disk, seen: set<Path>): FsState
    requires Root in v && seen <= d.Keys
  {
    FsState(Partial(v, d, seen), LayerOf(v, d, seen))
  }

  /** `p` is the next path a walk may visit. */
  ghost predicate Next(d: Disk, seen: set<Path>, p: Path) {
    p in d && p !in seen && (p.Sub? ==> p.parent in seen)
  }

  lemma {:induction false} NothingSeenAliveAll(d: Disk, q: Path)
    ensures Alive(d, {}, q)
  {
    if q.Sub? { NothingSeenAliveAll(d, q.parent); }
  }

  /** The scan starts from the old tree and an empty layer. */
  lemma ScanStarts(v: View, d: Disk)
    requires Scannable(v) && IsDisk(d)
    ensures ScanState(v, d, {}) == FsState(v, map[])
  {
    forall q ensures Alive(d, {}, q) { NothingSeenAliveAll(d, q); }
    assert Partial(v, d, {}) == v;
    forall x ensures !Reported(v, d, {}, x) {}
  }

  lemma {:induction false} AliveOnDisk(d: Disk, q: Path)
    requires IsDisk(d)
    ensures Alive(d, d.Keys, q) ==> q in d
  {
    if q.Sub? {
      AliveOnDisk(d, q.parent);
      assert q == Sub(q.parent, q.name);
    }
  }

  /** Once everything is visited the tree is the merged view and the layer is
      the scan layer. */
  lemma ScanEnds(v: View, d: Disk)
    requires Scannable(v) && IsDisk(d)
    ensures ScanState(v, d, d.Keys) == FsState(Merged(v, d), ScanLayer(v, d))
  {
    forall q ensures Alive(d, d.Keys, q) ==> q in d { AliveOnDisk(d, q); }
    assert Partial(v, d, d.Keys) == Merged(v, d);
  }

  /** A path on disk is alive as long as the disk does not change. */
  lemma {:induction false} DiskIsAlive(d: Disk, seen: set<Path>, q: Path)
    requires IsDisk(d) && q in d
    ensures Alive(d, seen, q)
  {
    if q.Sub? {
      assert q == Sub(q.parent, q.name);
      DiskIsAlive(d, seen, q.parent);
    }
  }

  lemma PartialIsShaped(v: View, d: Disk, seen: set<Path>)
    requires Scannable(v) && IsDisk(d) && Visited(d, seen)
    ensures Shaped(Partial(v, d, seen))
  {
    var w := Partial(v, d, seen);
    forall p | p in seen ensures MergedFile(v, d, p).dst == p && (MergedFile(v, d, p).hdr.IsDir() <==> d[p].IsDir()) {
      MergedKeepsType(v, d, p);
    }
    forall p, c | Sub(p, c) in w
      ensures p in w && w[p].hdr.IsDir()
    {
      if Sub(p, c) in seen {
        assert p in seen && Sub(p, c) in d;
      } else {
        assert Sub(p, c) in v && Alive(d, seen, Sub(p, c));
        assert p in seen ==> Sub(p, c) in d;
      }
    }
  }

  /** Everything above a path the walk reaches is a directory, visited and in place. */
  lemma SeenAbove(v: View, d: Disk, seen: set<Path>, p: Path)
    requires Scannable(v) && IsDisk(d) && Visited(d, seen) && p in d && (p.Sub? ==> p.parent in seen)
    ensures DirsAbove(Partial(v, d, seen), p)
    ensures forall q | Below(q, p) :: q in seen
  {
    forall q: Path | Below(q, p)
      ensures q in seen && Partial(v, d, seen)[q].hdr.IsDir()
    {
      SeenUp(d, seen, q, p.parent);
      WithinCases(q, p);
      BelowIsStrict(q, p);
      DiskAncestors(d, q, p);
      MergedKeepsType(v, d, q);
    }
  }

  lemma {:induction false} SeenUp(d: Disk, seen: set<Path>, q: Path, p: Path)
    requires Visited(d, seen) && p in seen && Within(q, p)
    ensures q in seen
    decreases p
  {
    if q != p {
      assert p == Sub(p.parent, p.name);
      SeenUp(d, seen, q, p.parent);
    }
  }

  // ----- visiting one path: the file itself -----

  /** The tree and layer after the first half of a visit. */
  ghost function WithFile(v: View, d: Disk, seen: set<Path>, p: Path): FsState
    requires Root in v && seen <= d.Keys && p in d
  {
    var st := ScanState(v, d, seen);
    if Changed(v, d, p) then
      FsState((if d[p].IsDir() then st.view else EraseBelow(st.view, p))[p := Fresh(d, p)],
              (st.layer + EntriesAbove(st.view, p, 0))[p := Content(Fresh(d, p))])
    else st
  }

  lemma UpdatedIsChanged(v: View, d: Disk, seen: set<Path>, p: Path)
    requires Scannable(v) && IsDisk(d) && Visited(d, seen) && Next(d, seen, p)
    ensures IsUpdated(Partial(v, d, seen), p, d[p]).Ok?
    ensures p.Sub? ==> IsUpdated(Partial(v, d, seen), p, d[p]) == Ok(Changed(v, d, p))
  {
    hide *;
    RootIsThere(v, d, seen);
    NotSeenYet(v, d, seen, p);
    SameEntryDecides(v, d, Partial(v, d, seen), p);
  }

  lemma SameEntryDecides(v: View, d: Disk, w: View, p: Path)
    requires p in d && (p in w <==> p in v) && (p in w ==> w[p] == v[p] && v[p].hdr.Supported())
    ensures IsUpdated(w, p, d[p]).Ok?
    ensures p.Sub? ==> IsUpdated(w, p, d[p]) == Ok(Changed(v, d, p))
  {
  }

  /** Before its visit a path of the disk holds what the old tree held. */
  lemma NotSeenYet(v: View, d: Disk, seen: set<Path>, p: Path)
    requires Scannable(v) && IsDisk(d) && Visited(d, seen) && Next(d, seen, p)
    ensures p in d && Root in v && seen <= d.Keys
    ensures var w := Partial(v, d, seen);
            (p in w <==> p in v) && (p in w ==> w[p] == v[p] && v[p].hdr.Supported())
  {
    DiskIsAlive(d, seen, p);
  }

  lemma RootNeverChanges(v: View, d: Disk)
    ensures !Changed(v, d, Root)
  {
  }

  /** The first half of a visit adds the file exactly when it changed. */
  lemma VisitAddsFile(v: View, d: Disk, seen: set<Path>, p: Path, owner: Owner)
    requires Scannable(v) && IsDisk(d) && Visited(d, seen) && Next(d, seen, p)
    ensures Root in Partial(v, d, seen)
    ensures AddIfUpdated(ScanState(v, d, seen), p, p, d[p], owner) == Ok(WithFile(v, d, seen, p))
  {
    hide Partial, LayerOf, Shaped, Scannable, IsDisk, Visited, DirsAbove, AddAncestors, EntriesAbove, IsUpdated,
        Changed;
    RootIsThere(v, d, seen);
    var st := ScanState(v, d, seen);
    UpdatedIsChanged(v, d, seen, p);
    if p.Root? {
      RootNeverChanges(v, d);
    } else if Changed(v, d, p) {
      PartialIsShaped(v, d, seen);
      SeenAbove(v, d, seen, p);
      AddExistingAncestors(st, p, owner);
      PlainOnDisk(d, p);
      SeenParent(v, d, seen, p);
    }
  }

  lemma RootIsThere(v: View, d: Disk, seen: set<Path>)
    requires Scannable(v) && Visited(d, seen)
    ensures Root in v && seen <= d.Keys && Root in Partial(v, d, seen)
  {
  }

  lemma PlainOnDisk(d: Disk, p: Path)
    requires IsDisk(d) && p in d
    ensures p.Sub? ==> p.name != "" && !IsWhiteoutName(p.name)
  {
  }

  lemma SeenParent(v: View, d: Disk, seen: set<Path>, p: Path)
    requires Scannable(v) && Visited(d, seen) && Next(d, seen, p)
    ensures p.Sub? ==> p.parent in Partial(v, d, seen)
  {
  }

  // ----- visiting one path: what is gone below it -----

  /** The view without the subtrees of `gone`. */
  ghost function EraseAll(v: View, gone: set<Path>): View {
    map q | q in v && forall c | c in gone :: !Within(c, q) :: v[q]
  }

  /** The entries of `p` and its ancestors. */
  ghost function EntriesTo(v: View, p: Path): Layer {
    map q | q in v && q.Sub? && Within(q, p) :: Content(v[q])
  }

  ghost function Whiteouts(gone: set<Path>): Layer {
    map c | c in gone :: Whiteout(c)
  }

  /** The state after whiting out some children of `p`. */
  ghost function WithWhiteouts(st: FsState, p: Path, gone: set<Path>): FsState {
    FsState(EraseAll(st.view, gone),
            if gone == {} then st.layer else st.layer + EntriesTo(st.view, p) + Whiteouts(gone))
  }

  ghost predicate ChildrenOf(v: View, p: Path, cs: set<Path>) {
    forall c | c in cs :: c.Sub? && c.parent == p && c in v && c.name != "" && !IsWhiteoutName(c.name)
  }

  /** Erasing children of `p` keeps everything that is not below `p`. */
  lemma EraseAllKeeps(v: View, p: Path, gone: set<Path>, q: Path)
    requires ChildrenOf(v, p, gone) && q in v && !Below(p, q)
    ensures q in EraseAll(v, gone)
  {
    forall c | c in gone ensures !Within(c, q) {
      if Within(c, q) {
        WithinCases(c, q);
        WithinTransitive(p, c, q);
        BelowIsStrict(p, c);
        ChildAboveIsBelow(p, c, q);
      }
    }
  }

  lemma EraseAllShaped(v: View, p: Path, gone: set<Path>)
    requires Shaped(v) && ChildrenOf(v, p, gone)
    ensures Shaped(EraseAll(v, gone))
  {
    var w := EraseAll(v, gone);
    assert Root in w;
    forall a, x | Sub(a, x) in w
      ensures a in w
    {
      forall c | c in gone ensures !Within(c, a) { assert !Within(c, Sub(a, x)); }
    }
  }

  /** One more child whited out. */
  lemma WhiteOutStep(st: FsState, p: Path, gone: set<Path>, c: Path, owner: Owner)
    requires Shaped(st.view) && p in st.view && st.view[p].hdr.IsDir() && DirsAbove(st.view, p)
    requires ChildrenOf(st.view, p, gone + {c}) && c !in gone
    requires Root in WithWhiteouts(st, p, gone).view
    ensures WhiteOut(WithWhiteouts(st, p, gone), c, owner) == Ok(WithWhiteouts(st, p, gone + {c}))
  {
    hide Shaped, AddAncestors, EntriesTo, EntriesAbove, Whiteouts, EraseAll, DirsAbove;
    var st0 := WithWhiteouts(st, p, gone);
    var st1 := FsState(EraseAll(st.view, gone + {c}), st0.layer[c := Whiteout(c)]);
    EraseAllKeeps(st.view, p, gone, p) by { WithinCases(p, p); }
    EraseStep(st.view, gone, c);
    EraseAllShaped(st.view, p, gone + {c});
    AboveStays(st.view, p, gone + {c}, c);
    AddExistingAncestors(st1, c, owner);
    EntriesToChild(st, p, gone, c);
  }

  lemma EraseStep(v: View, gone: set<Path>, c: Path)
    ensures Erase(EraseAll(v, gone), c) == EraseAll(v, gone + {c})
  {
  }

  lemma AboveStays(v: View, p: Path, gone: set<Path>, c: Path)
    requires p in v && v[p].hdr.IsDir() && DirsAbove(v, p) && ChildrenOf(v, p, gone) && c in gone
    ensures DirsAbove(EraseAll(v, gone), c)
    ensures EntriesAbove(EraseAll(v, gone), c, 0) == EntriesTo(v, p)
  {
    var w := EraseAll(v, gone);
    forall q: Path | q.Sub? && Below(q, c)
      ensures q in w && w[q].hdr.IsDir() && Depth(q) > 0
    {
      WithinCases(q, p);
      if Below(p, q) { BelowIsStrict(p, q); }
      EraseAllKeeps(v, p, gone, q);
    }
    assert EntriesAbove(w, c, 0).Keys == EntriesTo(v, p).Keys;
  }

  lemma EntriesToChild(st: FsState, p: Path, gone: set<Path>, c: Path)
    requires ChildrenOf(st.view, p, gone + {c}) && c !in gone
    ensures WithWhiteouts(st, p, gone).layer[c := Whiteout(c)] + EntriesTo(st.view, p)
            == WithWhiteouts(st, p, gone + {c}).layer
  {
    hide EntriesTo;
    var e, w := EntriesTo(st.view, p), Whiteouts(gone);
    NotAbove(st.view, p, gone + {c});
    assert Whiteouts(gone + {c}) == w[c := Whiteout(c)];
    if gone == {} {
      Shuffle(st.layer, map[], e, w, c);
      assert st.layer + map[] + map[] == st.layer;
    } else {
      Shuffle(st.layer, e, e, w, c);
    }
  }

  lemma NotAbove(v: View, p: Path, cs: set<Path>)
    requires ChildrenOf(v, p, cs)
    ensures EntriesTo(v, p).Keys !! cs
  {
    forall x | x in cs ensures !Within(x, p) { BelowIsStrict(p, x); }
  }

  lemma Shuffle(l: Layer, some: Layer, e: Layer, w: Layer, c: Path)
    requires c !in e && e.Keys !! w.Keys && (some == e || some == map[])
    ensures (l + some + w)[c := Whiteout(c)] + e == l + e + w[c := Whiteout(c)]
  {
    var a, b := (l + some + w)[c := Whiteout(c)] + e, l + e + w[c := Whiteout(c)];
    assert a.Keys == b.Keys;
    assert forall k | k in a :: a[k] == b[k];
  }

  /** Whiting out children of an existing directory never fails, and the order
      does not matter. */
  lemma {:induction false} WhiteOutAllChildren(st: FsState, p: Path, order: seq<Path>, owner: Owner)
    requires Shaped(st.view) && p in st.view && st.view[p].hdr.IsDir() && DirsAbove(st.view, p)
    requires ChildrenOf(st.view, p, SetOf(order)) && NoDuplicates(order) && Root in st.view
    ensures WhiteOutAll(st, order, owner) == Ok(WithWhiteouts(st, p, SetOf(order)))
  {
    if order == [] {
      assert EraseAll(st.view, SetOf(order)) == st.view;
    } else {
      var front, c := order[..|order| - 1], order[|order| - 1];
      assert SetOf(order) == SetOf(front) + {c} by { assert order == front + [c]; }
      WhiteOutAllChildren(st, p, front, owner);
      WhiteOutStep(st, p, SetOf(front), c, owner);
    }
  }

  // ----- visiting one path: the whole step -----

  /** The children of `p` that a visit of `p` whites out. */
  ghost function GoneBelow(v: View, d: Disk, p: Path): set<Path> {
    set c | c in v && Gone(v, d, c) && c.parent == p
  }

  /** The state after visiting `p`. */
  ghost function AfterVisit(v: View, d: Disk, seen: set<Path>, p: Path): FsState
    requires Root in v && seen <= d.Keys && p in d
  {
    WithWhiteouts(WithFile(v, d, seen, p), p, GoneBelow(v, d, p))
  }

  /** How visiting `p` changes which unvisited paths are alive. */
  lemma {:induction false} AliveStep(d: Disk, seen: set<Path>, p: Path, q: Path)
    requires IsDisk(d) && Visited(d, seen) && Next(d, seen, p) && q !in seen && q != p
    ensures Alive(d, seen + {p}, q) <==> Alive(d, seen, q) && (Below(p, q) ==> ChildTowards(p, q) in d)
    decreases q
  {
    DiskIsAlive(d, seen, p);
    if q.Sub? {
      assert q == Sub(q.parent, q.name);
      if q.parent != p && q.parent !in seen {
        AliveStep(d, seen, p, q.parent);
        WithinCases(p, q.parent);
      } else if q.parent in seen {
        NotBelowUnseen(d, seen, p, q);
      }
    }
  }

  lemma NotBelowUnseen(d: Disk, seen: set<Path>, p: Path, q: Path)
    requires Visited(d, seen) && p !in seen && q.Sub? && q.parent in seen
    ensures !Below(p, q)
  {
    if Below(p, q) { SeenUp(d, seen, p, q.parent); }
  }

  /** What a visit does to a path below the visited one. */
  lemma BelowVisited(v: View, d: Disk, seen: set<Path>, p: Path, q: Path)
    requires Scannable(v) && IsDisk(d) && Visited(d, seen) && Next(d, seen, p)
    requires q in v && Below(p, q)
    ensures var c := ChildTowards(p, q);
            if d[p].IsDir() then (c in d <==> c !in GoneBelow(v, d, p))
            else c !in d && Changed(v, d, p)
  {
    var c := ChildTowards(p, q);
    assert c == Sub(p, c.name);
    AncestorsExist(v, c, q);
    if !d[p].IsDir() {
      WithinCases(p, q);
      AncestorsAreDirs(v, p, q);
      if p.Sub? { SimilarIsAnEquivalence(d[p], v[p].hdr, d[p], false); }
    }
  }

  /** The tree after the visit is the tree of the next scan state. */
  lemma VisitTree(v: View, d: Disk, seen: set<Path>, p: Path)
    requires Scannable(v) && IsDisk(d) && Visited(d, seen) && Next(d, seen, p)
    ensures seen + {p} <= d.Keys && Root in v && AfterVisit(v, d, seen, p).view == Partial(v, d, seen + {p})
  {
    var a, b := AfterVisit(v, d, seen, p).view, Partial(v, d, seen + {p});
    forall q
      ensures q in a <==> q in b
      ensures q in b ==> a[q] == b[q]
    {
      VisitTreeAt(v, d, seen, p, q);
    }
  }

  lemma VisitTreeAt(v: View, d: Disk, seen: set<Path>, p: Path, q: Path)
    requires Scannable(v) && IsDisk(d) && Visited(d, seen) && Next(d, seen, p)
    ensures seen + {p} <= d.Keys && Root in v
    ensures var a, b := AfterVisit(v, d, seen, p).view, Partial(v, d, seen + {p});
            (q in a <==> q in b) && (q in b ==> a[q] == b[q])
  {
    WithinCases(p, q);
    DiskIsAlive(d, seen, p);
    GoneBelowAt(v, d, p, q);
    if q in seen {
      if Below(p, q) { SeenUp(d, seen, p, q); }
    } else if q != p {
      AliveStep(d, seen, p, q);
      if Below(p, q) && q in v { BelowVisited(v, d, seen, p, q); }
    }
  }

  lemma GoneBelowAt(v: View, d: Disk, p: Path, q: Path)
    requires p in d
    ensures (exists c :: c in GoneBelow(v, d, p) && Within(c, q))
            <==> (Below(p, q) && ChildTowards(p, q) in GoneBelow(v, d, p))
  {
    forall c | c in GoneBelow(v, d, p) && Within(c, q)
      ensures Below(p, q) && ChildTowards(p, q) == c
    {
      OneChildTowards(p, c, q);
    }
  }

  /** Which paths the visit adds to the layer. */
  lemma InLayerStep(v: View, d: Disk, seen: set<Path>, p: Path, k: Path)
    requires Next(d, seen, p)
    ensures InLayer(v, d, seen + {p}, k) <==>
            || InLayer(v, d, seen, k)
            || (k.Sub? && Changed(v, d, p) && Within(k, p))
            || (k.Sub? && GoneBelow(v, d, p) != {} && Within(k, p))
            || k in GoneBelow(v, d, p)
  {
    var more := seen + {p};
    if k.Sub? {
      if InLayer(v, d, seen, k) {
        var x :| Reported(v, d, seen, x) && Within(k, x);
        assert Reported(v, d, more, x);
      }
      if Changed(v, d, p) && Within(k, p) { assert Reported(v, d, more, p); }
      if GoneBelow(v, d, p) != {} && Within(k, p) {
        var c :| c in GoneBelow(v, d, p);
        assert Reported(v, d, more, c) && Within(k, c);
      }
      if k in GoneBelow(v, d, p) { assert Reported(v, d, more, k) && Within(k, k); }
      if InLayer(v, d, more, k) {
        var x :| Reported(v, d, more, x) && Within(k, x);
        if !Reported(v, d, seen, x) && x != p {
          assert x in GoneBelow(v, d, p);
          WithinCases(k, x);
        }
      }
    }
  }

  /** What the tree holds on the way to `p` is what the layer says there. */
  lemma EntriesAgree(v: View, d: Disk, seen: set<Path>, p: Path, k: Path)
    requires Scannable(v) && IsDisk(d) && Visited(d, seen) && Next(d, seen, p)
    requires Within(k, p) && k.Sub?
    ensures k in d
    ensures k != p ==> k in seen && k in Partial(v, d, seen) && Partial(v, d, seen)[k] == MergedFile(v, d, k)
    ensures var w := WithFile(v, d, seen, p).view;
            (k in w <==> k != p || k in v || Changed(v, d, p)) && (k in w ==> w[k] == MergedFile(v, d, k))
  {
    DiskAncestors(d, k, p);
    WithinCases(k, p);
    DiskIsAlive(d, seen, p);
    WithinCases(p, p);
    if k != p {
      SeenUp(d, seen, k, p.parent);
      BelowIsStrict(k, p);
      WithinCases(p, k);
    }
  }

  /** The layer after the visit is the layer of the next scan state. */
  lemma VisitLayer(v: View, d: Disk, seen: set<Path>, p: Path)
    requires Scannable(v) && IsDisk(d) && Visited(d, seen) && Next(d, seen, p)
    ensures seen + {p} <= d.Keys && Root in v && AfterVisit(v, d, seen, p).layer == LayerOf(v, d, seen + {p})
  {
    hide Scannable, IsDisk, Visited, InLayer;
    RootIsThere(v, d, seen);
    NextIsOnDisk(d, seen, p);
    hide AfterVisit, LayerOf, Next;
    var a, b := AfterVisit(v, d, seen, p).layer, LayerOf(v, d, seen + {p});
    forall k
      ensures k in a <==> k in b
      ensures k in b ==> a[k] == b[k]
    {
      VisitLayerAt(v, d, seen, p, k);
    }
  }

  lemma NextIsOnDisk(d: Disk, seen: set<Path>, p: Path)
    requires Next(d, seen, p)
    ensures p in d
  {
  }

  lemma VisitLayerAt(v: View, d: Disk, seen: set<Path>, p: Path, k: Path)
    requires Scannable(v) && IsDisk(d) && Visited(d, seen) && Next(d, seen, p)
    ensures seen + {p} <= d.Keys && Root in v
    ensures var a, b := AfterVisit(v, d, seen, p).layer, LayerOf(v, d, seen + {p});
            (k in a <==> k in b) && (k in b ==> a[k] == b[k])
  {
    RootIsThere(v, d, seen);
    if k in GoneBelow(v, d, p) {
      VisitLayerGone(v, d, seen, p, k);
    } else if k.Sub? && Within(k, p) {
      VisitLayerOn(v, d, seen, p, k);
    } else {
      VisitLayerOff(v, d, seen, p, k);
    }
  }

  lemma VisitLayerGone(v: View, d: Disk, seen: set<Path>, p: Path, k: Path)
    requires Root in v && seen + {p} <= d.Keys && Next(d, seen, p) && k in GoneBelow(v, d, p)
    ensures k in AfterVisit(v, d, seen, p).layer && AfterVisit(v, d, seen, p).layer[k] == Whiteout(k)
    ensures k in LayerOf(v, d, seen + {p}) && LayerOf(v, d, seen + {p})[k] == Whiteout(k)
  {
    InLayerStep(v, d, seen, p, k);
  }

  /** A path on the way to `p`. */
  lemma VisitLayerOn(v: View, d: Disk, seen: set<Path>, p: Path, k: Path)
    requires Scannable(v) && IsDisk(d) && Visited(d, seen) && Next(d, seen, p)
    requires k.Sub? && Within(k, p)
    ensures seen + {p} <= d.Keys && Root in v
    ensures var a, b := AfterVisit(v, d, seen, p).layer, LayerOf(v, d, seen + {p});
            (k in a <==> k in b) && (k in b ==> a[k] == b[k])
  {
    RootIsThere(v, d, seen);
    InLayerStep(v, d, seen, p, k);
    EntriesAgree(v, d, seen, p, k);
    FileLayerOn(v, d, seen, p, k);
    hide Scannable, IsDisk, Visited, Next, Changed, Gone, EraseAll, MergedFile, InLayer, WithFile, GoneBelow, Within;
    if GoneBelow(v, d, p) != {} {
      GoneMeansThere(v, d, p);
      assert k in EntriesTo(WithFile(v, d, seen, p).view, p);
      assert k !in Whiteouts(GoneBelow(v, d, p)) by { GoneNotAbove(v, d, p, k); }
    }
  }

  lemma GoneNotAbove(v: View, d: Disk, p: Path, k: Path)
    requires Within(k, p)
    ensures k !in GoneBelow(v, d, p)
  {
    if k in GoneBelow(v, d, p) { BelowIsStrict(p, k); }
  }

  /** The layer after the first half of the visit, on the way to `p`. */
  lemma FileLayerOn(v: View, d: Disk, seen: set<Path>, p: Path, k: Path)
    requires Scannable(v) && IsDisk(d) && Visited(d, seen) && Next(d, seen, p)
    requires k.Sub? && Within(k, p)
    ensures seen + {p} <= d.Keys && Root in v && k in d
    ensures var a := WithFile(v, d, seen, p).layer;
            && (k in a <==> InLayer(v, d, seen, k) || Changed(v, d, p))
            && (k in a ==> a[k] == Content(MergedFile(v, d, k)))
  {
    EntriesAgree(v, d, seen, p, k);
    BelowDepth(k, p);
    RootIsThere(v, d, seen);
    hide Scannable, IsDisk, Visited, Gone, Partial, InLayer, EraseBelow, Within;
    if Changed(v, d, p) && k != p {
      assert k in EntriesAbove(Partial(v, d, seen), p, 0);
    }
  }

  /** Any other path. */
  lemma VisitLayerOff(v: View, d: Disk, seen: set<Path>, p: Path, k: Path)
    requires Root in v && seen + {p} <= d.Keys && Next(d, seen, p)
    requires k !in GoneBelow(v, d, p) && !(k.Sub? && Within(k, p))
    ensures var a, b := AfterVisit(v, d, seen, p).layer, LayerOf(v, d, seen + {p});
            (k in a <==> k in b) && (k in b ==> a[k] == b[k])
  {
    InLayerStep(v, d, seen, p, k);
    BelowDepth(k, p);
    BelowDepth(p, p);
    hide Changed, Gone, Partial, EraseAll, MergedFile, InLayer, EraseBelow, Within;
  }

  lemma BelowDepth(k: Path, p: Path)
    ensures k.Sub? ==> Depth(k) > 0
    ensures Within(k, p) <==> (k == p || Below(k, p))
  {
    WithinCases(k, p);
  }

  lemma GoneMeansThere(v: View, d: Disk, p: Path)
    requires Scannable(v) && GoneBelow(v, d, p) != {}
    ensures p in v
  {
    var c :| c in GoneBelow(v, d, p);
    assert c == Sub(p, c.name);
  }

  /** After the first half of a visit that has something to white out, the
      visited path is a directory in place and its missing children are still there. */
  lemma ReadyToWhiteOut(v: View, d: Disk, seen: set<Path>, p: Path)
    requires Scannable(v) && IsDisk(d) && Visited(d, seen) && Next(d, seen, p) && GoneBelow(v, d, p) != {}
    ensures seen <= d.Keys && Root in v
    ensures var w := WithFile(v, d, seen, p).view;
            && Shaped(w) && p in w && w[p].hdr.IsDir() && DirsAbove(w, p)
            && ChildrenOf(w, p, GoneBelow(v, d, p))
  {
    GoneMeansThere(v, d, p);
    var w0, w := Partial(v, d, seen), WithFile(v, d, seen, p).view;
    PartialIsShaped(v, d, seen);
    SeenAbove(v, d, seen, p);
    DiskIsAlive(d, seen, p);
    MergedKeepsType(v, d, p);
    PlainOnDisk(d, p);
    assert p in w0;
    if Changed(v, d, p) {
      PutKeepsShape(w0, Content(Fresh(d, p)));
      BelowIsStrict(p.parent, p);
      assert PutContent(w0, Fresh(d, p)) == Ok(w);
      WithinCases(p, p);
    }
    forall c | c in GoneBelow(v, d, p) ensures c in w {
      assert c == Sub(p, c.name) && c !in seen;
    }
  }

  /** One visit of the walk takes the scan state to the next scan state,
      whatever the order in which the children of the node come up. */
  lemma VisitStep(v: View, d: Disk, seen: set<Path>, p: Path, order: seq<Path>, owner: Owner)
    requires Scannable(v) && IsDisk(d) && Visited(d, seen) && Next(d, seen, p)
    requires Lists(order, GoneBelow(v, d, p))
    ensures Root in Partial(v, d, seen) && seen + {p} <= d.Keys
    ensures var r := AddIfUpdated(ScanState(v, d, seen), p, p, d[p], owner);
            r.Ok? && WhiteOutAll(r.value, order, owner) == Ok(ScanState(v, d, seen + {p}))
    ensures Visited(d, seen + {p})
  {
    RootIsThere(v, d, seen);
    VisitAddsFile(v, d, seen, p, owner);
    VisitTree(v, d, seen, p);
    VisitLayer(v, d, seen, p);
    hide Scannable, IsDisk, WithFile, LayerOf, Partial, ScanState, AddIfUpdated, GoneBelow, WithWhiteouts;
    var st1 := WithFile(v, d, seen, p);
    assert SetOf(order) == GoneBelow(v, d, p);
    if GoneBelow(v, d, p) == {} {
      NothingListed(order);
      NoWhiteouts(st1, p);
    } else {
      ReadyToWhiteOut(v, d, seen, p);
      WhiteOutAllChildren(st1, p, order, owner);
    }
    assert AfterVisit(v, d, seen, p) == ScanState(v, d, seen + {p}) by { StateOf(v, d, seen + {p}); }
  }

  /** Whiting out only some of the missing children does not fail either. */
  lemma VisitNeverFails(v: View, d: Disk, seen: set<Path>, p: Path, order: seq<Path>, owner: Owner)
    requires Scannable(v) && IsDisk(d) && Visited(d, seen) && Next(d, seen, p)
    requires NoDuplicates(order) && SetOf(order) <= GoneBelow(v, d, p)
    ensures Root in Partial(v, d, seen) && seen <= d.Keys
    ensures var r := AddIfUpdated(ScanState(v, d, seen), p, p, d[p], owner);
            r.Ok? && WhiteOutAll(r.value, order, owner).Ok?
  {
    RootIsThere(v, d, seen);
    VisitAddsFile(v, d, seen, p, owner);
    hide Scannable, IsDisk, WithFile, LayerOf, Partial, ScanState, AddIfUpdated, GoneBelow, WithWhiteouts;
    if order != [] {
      assert order[0] in SetOf(order);
      ReadyToWhiteOut(v, d, seen, p);
      WhiteOutAllChildren(WithFile(v, d, seen, p), p, order, owner);
    }
  }

  lemma NothingListed(order: seq<Path>)
    requires Lists(order, {})
    ensures order == []
  {
    forall k ensures k !in order {}
    if order != [] {
      var k := First(order);
    }
  }

  lemma First(order: seq<Path>) returns (k: Path)
    requires order != []
    ensures k in order
  {
    k := order[0];
  }

  lemma NoWhiteouts(st: FsState, p: Path)
    ensures WithWhiteouts(st, p, {}) == st
  {
    assert EraseAll(st.view, {}) == st.view;
  }

  lemma StateOf(v: View, d: Disk, seen: set<Path>)
    requires Root in v && seen <= d.Keys
    ensures ScanState(v, d, seen) == FsState(Partial(v, d, seen), LayerOf(v, d, seen))
  {
  }
}
