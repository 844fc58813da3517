/** The ancestors that copies add on the way: they never break the diff law
    where only directories have children, and a way free of links leads to the
    destination itself. */
module CopyAncestors {
  import opened Wrappers
  import opened Paths
  import opened PathStrings
  import opened TarHeaders
  import opened Layers
  import opened ScanTheory
  import opened Ancestors
  import opened LayerSteps
  import opened CopyLayers
  import opened CopyLaw

  // ----- ancestors always fit -----

  lemma FitsOne(v: View, st: FsState, e: MemFile, es: seq<MemFile>)
    requires Fits(v, st.layer, e) && (AddEntry(st, e).Ok? ==> AllFit(v, AddEntry(st, e).value, es))
    ensures AllFit(v, st, [e] + es)
  {
    hide AddEntry, Fits;
    assert ([e] + es)[1..] == es;
  }

  lemma FitsNone(v: View, st: FsState)
    ensures AllFit(v, st, [])
  {
  }

  lemma RestIsContent(e: MemFile, es: seq<MemFile>)
    requires forall x | x in [e] + es :: x.Content?
    ensures e.Content? && forall x | x in es :: x.Content?
  {
    assert e in [e] + es;
    forall x | x in es ensures x.Content? { assert x in [e] + es; }
  }

  /** Putting a file again that is there, where only directories have children. */
  lemma PutAgain(v: View, st: FsState, p: Path)
    requires Described(v, st) && OnlyDirsHaveChildren(st.view) && p.Sub? && p in st.view
    requires FileFor(st.view[p].src, st.view[p].dst, st.view[p].hdr).Content?
    ensures var n := st.view[p];
            var e := FileFor(n.src, n.dst, n.hdr);
            && PlainEntry(e) && Fits(v, st.layer, e)
            && AddEntry(st, e) == Ok(FsState(st.view, st.layer[p := Content(n)]))
            && Described(v, FsState(st.view, st.layer[p := Content(n)]))
  {
    var n := st.view[p];
    var e := FileFor(n.src, n.dst, n.hdr);
    assert p == Sub(p.parent, p.name);
    forall q | q in st.view && Below(p, q) ensures n.hdr.IsDir() { AncestorsAreDirs(st.view, p, q); }
    assert Fits(v, st.layer, e) by { FitsAgain(v, st, p); }
    assert (if n.hdr.IsDir() then st.view else EraseBelow(st.view, p))[p := n] == st.view;
    hide Described, Fits, IsTree, OnlyDirsHaveChildren;
    FittingKeeps(v, st, e);
  }

  lemma FitsAgain(v: View, st: FsState, p: Path)
    requires Described(v, st) && p in st.view
    requires forall q | q in st.view && Below(p, q) :: st.view[p].hdr.IsDir()
    ensures st.view[p].dst == p && Fits(v, st.layer, Content(st.view[p]))
  {
    forall j | j in st.layer && Below(p, j) && !st.view[p].hdr.IsDir() ensures st.layer[j].Whiteout? && j.parent == p {
      WithinCases(p, j.parent);
      assert j.parent in st.view;
      assert st.layer[j].Content? ==> j in Overlay(v, st.layer);
    }
    if p in st.layer { assert st.layer[p].Content?; }
  }

  lemma {:induction false} MissingFit(v: View, st: FsState, parts: seq<string>, j: nat, end: nat, like: Header,
      owner: Owner)
    requires Described(v, st) && OnlyContent(st.layer)
    requires j <= end <= |parts| && (j < end ==> Prefix(parts, j + 1) !in st.view)
    requires forall e | e in MissingEntries(parts, j, end, like, owner) :: e.Content?
    ensures AllFit(v, st, MissingEntries(parts, j, end, like, owner))
    decreases end - j
  {
    hide AddEntry, Described, MissingDir, AllFit, Prefix;
    if j < end {
      var e, rest := MissingDir(Prefix(parts, j + 1), like, owner), MissingEntries(parts, j + 1, end, like, owner);
      RestIsContent(e, rest);
      MissingFits(v, st, Prefix(parts, j + 1), like, owner) by { PrefixStep(parts, j); }
      if AddEntry(st, e).Ok? {
        if j + 1 < end { StillMissing(v, st, parts, j, like, owner); }
        MissingFit(v, AddEntry(st, e).value, parts, j + 1, end, like, owner);
      }
      FitsOne(v, st, e, rest);
    } else {
      FitsNone(v, st);
    }
  }

  lemma MissingFits(v: View, st: FsState, p: Path, like: Header, owner: Owner)
    requires Described(v, st) && OnlyContent(st.layer) && p.Sub? && p !in st.view
    requires MissingDir(p, like, owner).Content?
    ensures var e := MissingDir(p, like, owner);
            && Fits(v, st.layer, e)
            && (AddEntry(st, e).Ok? ==>
                Described(v, AddEntry(st, e).value) && OnlyContent(AddEntry(st, e).value.layer))
  {
    var e := MissingDir(p, like, owner);
    assert p in st.layer ==> p in Overlay(v, st.layer);
    if AddEntry(st, e).Ok? { FittingKeeps(v, st, e); }
  }

  lemma StillMissing(v: View, st: FsState, parts: seq<string>, j: nat, like: Header, owner: Owner)
    requires Described(v, st) && j + 1 < |parts| && Prefix(parts, j + 1) !in st.view
    requires var e := MissingDir(Prefix(parts, j + 1), like, owner); e.Content? && AddEntry(st, e).Ok?
    ensures Prefix(parts, j + 2) !in AddEntry(st, MissingDir(Prefix(parts, j + 1), like, owner)).value.view
  {
    PrefixStep(parts, j);
    PrefixStep(parts, j + 1);
    var q := Prefix(parts, j + 2);
    assert q !in st.view;
    BelowIsStrict(q.parent, q);
  }

  /** The loop stands on the first components of the path, unless one of them is
      no directory. */
  ghost predicate StandsOn(v: View, parts: seq<string>, i: nat, curr: Path)
    requires i <= |parts|
  {
    curr == Prefix(parts, i) || !(Prefix(parts, i) in v && v[Prefix(parts, i)].hdr.IsDir())
  }

  lemma StandsOnNext(v: View, parts: seq<string>, i: nat, curr: Path)
    requires IsTree(v) && OnlyDirsHaveChildren(v) && i < |parts| && StandsOn(v, parts, i, curr)
    ensures Sub(curr, parts[i]) !in v ==> Prefix(parts, i + 1) !in v
    ensures Sub(curr, parts[i]) in v ==>
            && (v[Sub(curr, parts[i])].hdr.IsDir() ==> StandsOn(v, parts, i + 1, Sub(curr, parts[i])))
            && (!v[Sub(curr, parts[i])].hdr.IsDir() ==> StandsOn(v, parts, i + 1, curr))
  {
    PrefixStep(parts, i);
  }

  /** Where only directories have children and the layer has no whiteouts, the
      ancestors of a path fit, missing or not, links or not: only the copied files
      themselves can be out of place. */
  lemma {:induction false} AncestorsFit(v: View, st: FsState, dst: Path, inclusive: bool, depth: nat, owner: Owner)
    requires Described(v, st) && OnlyContent(st.layer) && OnlyDirsHaveChildren(st.view) && Root in st.view
    requires forall e | e in AncestorEntries(st, dst, inclusive, depth, owner) :: e.Content?
    ensures AllFit(v, st, AncestorEntries(st, dst, inclusive, depth, owner))
    decreases MAX_DEPTH - depth, 1, 0
  {
    if depth < MAX_DEPTH {
      assert Prefix(Parts(dst), 0) == Root;
      ClimbFits(v, st, dst, inclusive, depth, owner, 0, Root, st.view[Root].hdr);
    } else {
      FitsNone(v, st);
    }
  }

  lemma {:induction false} ClimbFits(v: View, st: FsState, dst: Path, inclusive: bool, depth: nat, owner: Owner, i: nat,
      curr: Path, like: Header)
    requires Described(v, st) && OnlyContent(st.layer) && OnlyDirsHaveChildren(st.view) && Root in st.view
    requires i <= End(dst, inclusive) <= Depth(dst) && depth < MAX_DEPTH && StandsOn(st.view, Parts(dst), i, curr)
    requires forall e | e in ClimbEntries(st, dst, inclusive, depth, owner, i, curr, like) :: e.Content?
    ensures AllFit(v, st, ClimbEntries(st, dst, inclusive, depth, owner, i, curr, like))
    decreases MAX_DEPTH - depth, 0, End(dst, inclusive) - i
  {
    hide AddEntry, FileFor, AncestorEntries, MissingEntries, LinkTarget, FromParts, AllFit, Described, StandsOn,
        OnlyDirsHaveChildren;
    var parts, end := Parts(dst), End(dst, inclusive);
    if i < end { StandsOnNext(st.view, parts, i, curr) by { DescribedTree(v, st); } }
    if i == end || Sub(curr, parts[i]) !in st.view {
      MissingFit(v, st, parts, i, end, like, owner);
    } else {
      var next := Sub(curr, parts[i]);
      var n := st.view[next];
      var e := FileFor(n.src, n.dst, n.hdr);
      var st' := FsState(st.view, st.layer[next := Content(n)]);
      assert e in ClimbEntries(st, dst, inclusive, depth, owner, i, curr, like);
      PutAgain(v, st, next);
      assert AddEntry(st, e) == Ok(st');
      if n.hdr.IsDir() {
        var es := ClimbEntries(st', dst, inclusive, depth, owner, i + 1, next, n.hdr);
        RestIsContent(e, es);
        ClimbFits(v, st', dst, inclusive, depth, owner, i + 1, next, n.hdr);
        FitsOne(v, st, e, es);
      } else if n.hdr.IsSymlink() {
        var target := FromParts(LinkTarget(n.hdr.linkname, parts[i + 1..]));
        var es := AncestorEntries(st', target, inclusive, depth + 1, owner);
        RestIsContent(e, es);
        AncestorsFit(v, st', target, inclusive, depth + 1, owner);
        FitsOne(v, st, e, es);
      } else {
        var es := ClimbEntries(st', dst, inclusive, depth, owner, i + 1, curr, like);
        RestIsContent(e, es);
        ClimbFits(v, st', dst, inclusive, depth, owner, i + 1, curr, like);
        FitsOne(v, st, e, es);
      }
    }
  }

  lemma DescribedTree(v: View, st: FsState)
    requires Described(v, st)
    ensures IsTree(st.view) && KeyedByDst(st.view)
  {
  }

  // ----- a destination whose way is free of links -----

  /** `q` is one of the directories that adding the ancestors of `p` needs. */
  predicate OnWay(q: Path, p: Path, inclusive: bool) {
    q.Sub? && Within(q, p) && (inclusive || q != p)
  }

  /** Whatever exists on the way is a directory. */
  ghost predicate Direct(v: View, p: Path, inclusive: bool) {
    && PlainParts(Parts(p))
    && forall q | OnWay(q, p, inclusive) && q in v :: v[q].hdr.IsDir()
  }

  lemma WayIsOnWay(p: Path, inclusive: bool, i: nat)
    requires i < End(p, inclusive)
    ensures OnWay(Way(p, i + 1), p, inclusive)
  {
    WayStep(p, i);
    WayIsPrefix(p, i + 1);
    PrefixesAreAncestors(p, i + 1);
  }

  lemma DirectIsPassable(v: View, p: Path, inclusive: bool)
    requires Direct(v, p, inclusive)
    ensures Passable(v, p, inclusive) && FirstLink(v, p, inclusive, 0).None?
    ensures Passage(v, inclusive, iset{p})
  {
    forall j | 1 <= j <= End(p, inclusive) && Way(p, j) in v
      ensures v[Way(p, j)].hdr.IsDir()
    {
      WayIsOnWay(p, inclusive, j - 1);
    }
    NoLinkOnWay(v, p, inclusive, 0);
  }

  lemma {:induction false} NoLinkOnWay(v: View, p: Path, inclusive: bool, i: nat)
    requires forall j | 1 <= j <= End(p, inclusive) && Way(p, j) in v :: v[Way(p, j)].hdr.IsDir()
    ensures FirstLink(v, p, inclusive, i).None?
    decreases Depth(p) - i
  {
    if i < End(p, inclusive) && Way(p, i + 1) in v { NoLinkOnWay(v, p, inclusive, i + 1); }
  }

  /** Only directories on the way to `p` are new in the layer. */
  ghost predicate NewOnWay(st: FsState, st': FsState, p: Path, inclusive: bool) {
    forall k | k in st'.layer && k !in st.layer :: OnWay(k, p, inclusive)
  }

  lemma NothingNew(st: FsState, p: Path, inclusive: bool)
    ensures NewOnWay(st, st, p, inclusive)
  {
  }

  lemma OneMoreNew(st: FsState, st': FsState, k: Path, c: ContentFile, r: Result<FsState, FsError>, p: Path,
      inclusive: bool)
    requires OnWay(k, p, inclusive) && st'.layer == st.layer[k := Content(c)]
    requires r.Ok? ==> NewOnWay(st', r.value, p, inclusive)
    ensures r.Ok? ==> NewOnWay(st, r.value, p, inclusive)
  {
  }

  lemma {:induction false} MissingAreNew(st: FsState, p: Path, inclusive: bool, j: nat, like: Header, owner: Owner)
    requires Shaped(st.view) && PlainParts(Parts(p)) && j <= End(p, inclusive)
    requires ProvidesTo(st, p, j)
    requires j < End(p, inclusive) ==> Way(p, j + 1) !in st.view
    ensures var r := AddMissing(st, Parts(p), j, End(p, inclusive), like, owner);
            r.Ok? ==> NewOnWay(st, r.value, p, inclusive)
    decreases End(p, inclusive) - j
  {
    hide *;
    EndsWithin(p, inclusive);
    if j < End(p, inclusive) {
      var q := Way(p, j + 1);
      var c := ContentFile(Root, q, MissingDirHeader(q, like, owner));
      var st' := FsState(st.view[q := c], st.layer[q := Content(c)]);
      OneDirCreated(st, p, inclusive, j, like, owner);
      MissingAreNew(st', p, inclusive, j + 1, like, owner);
      WayIsOnWay(p, inclusive, j);
      OneMoreNew(st, st', q, c, AddMissing(st', Parts(p), j + 1, End(p, inclusive), like, owner), p, inclusive);
    } else {
      AddsNothing(st, p, inclusive, like, owner);
      NothingNew(st, p, inclusive);
    }
  }

  lemma {:induction false} ClimbedAreNew(st: FsState, p: Path, inclusive: bool, owner: Owner, i: nat, like: Header)
    requires Shaped(st.view) && Direct(st.view, p, inclusive) && 0 < MAX_DEPTH
    requires i <= End(p, inclusive) && ProvidesTo(st, p, i)
    ensures Root in st.view
    ensures var r := Climb(st, p, inclusive, 0, owner, i, Way(p, i), like);
            r.Ok? ==> NewOnWay(st, r.value.0, p, inclusive)
    decreases End(p, inclusive) - i
  {
    hide *;
    ShapedHasRoot(st.view);
    DirectPlain(st.view, p, inclusive);
    EndsWithin(p, inclusive);
    if i < End(p, inclusive) && Way(p, i + 1) in st.view {
      var k := Way(p, i + 1);
      WayIsOnWay(p, inclusive, i);
      DirectDir(st.view, p, inclusive, k);
      ClimbEnters(st, p, inclusive, 0, owner, i, like);
      PassedIs(st, p, i);
      ClimbedAreNew(Passed(st, p, i), p, inclusive, owner, i + 1, st.view[k].hdr);
      var r := Climb(st, p, inclusive, 0, owner, i, Way(p, i), like);
      if r.Ok? { OneMoreNew(st, Passed(st, p, i), k, st.view[k], Ok(r.value.0), p, inclusive); }
    } else {
      MissingAreNew(st, p, inclusive, i, like, owner);
      ClimbEnds(st, p, inclusive, owner, i, like);
    }
  }

  lemma PassedIs(st: FsState, p: Path, i: nat)
    requires i < Depth(p) && Way(p, i + 1) in st.view
    ensures Passed(st, p, i).view == st.view
    ensures Passed(st, p, i).layer == st.layer[Way(p, i + 1) := Content(st.view[Way(p, i + 1)])]
  {
  }

  lemma DirectPlain(v: View, p: Path, inclusive: bool)
    requires Direct(v, p, inclusive)
    ensures PlainParts(Parts(p))
  {
  }

  lemma DirectDir(v: View, p: Path, inclusive: bool, q: Path)
    requires Direct(v, p, inclusive) && OnWay(q, p, inclusive) && q in v
    ensures v[q].hdr.IsDir()
  {
  }

  lemma ClimbEnds(st: FsState, p: Path, inclusive: bool, owner: Owner, i: nat, like: Header)
    requires Root in st.view && i <= End(p, inclusive) <= |Parts(p)|
    requires i == End(p, inclusive) || Way(p, i + 1) !in st.view
    ensures Climb(st, p, inclusive, 0, owner, i, Way(p, i), like) ==
            match AddMissing(st, Parts(p), i, End(p, inclusive), like, owner)
            case Err(e) => Err(e)
            case Ok(st') => Ok((st', p))
  {
    if i < End(p, inclusive) { WayStep(p, i); }
  }

  lemma StartsAtRoot(st: FsState, p: Path, inclusive: bool, owner: Owner)
    requires Root in st.view
    ensures AddAncestors(st, p, inclusive, 0, owner)
            == Climb(st, p, inclusive, 0, owner, 0, Way(p, 0), st.view[Root].hdr)
    ensures ProvidesTo(st, p, 0) && 0 <= End(p, inclusive) && 0 < MAX_DEPTH
  {
    WayIsPrefix(p, 0);
  }

  lemma IsGrown(st: FsState, s: FsState, p: Path, inclusive: bool, owner: Owner, r: Result<(FsState, Path), FsError>)
    requires GrownBy(st, inclusive, owner, r) && r == Ok((s, p))
    ensures Grown(st, s, p, inclusive, owner)
  {
  }

  /** Adding the ancestors of such a path leads to the path itself. */
  lemma WayIsMade(st: FsState, p: Path, inclusive: bool, owner: Owner)
    requires Shaped(st.view) && Direct(st.view, p, inclusive)
    ensures Root in st.view
    ensures var r := AddAncestors(st, p, inclusive, 0, owner);
            && r.Ok? && r.value.1 == p
            && Grown(st, r.value.0, p, inclusive, owner) && NewOnWay(st, r.value.0, p, inclusive)
  {
    hide *;
    ShapedHasRoot(st.view);
    DirectIsPassable(st.view, p, inclusive);
    StartsAtRoot(st, p, inclusive, owner);
    OneCall(st, p, inclusive, 0, owner);
    ClimbedAreNew(st, p, inclusive, owner, 0, st.view[Root].hdr);
    IsGrown(st, AddAncestors(st, p, inclusive, 0, owner).value.0, p, inclusive, owner,
        AddAncestors(st, p, inclusive, 0, owner));
  }

  // ----- no whiteouts on such a way -----

  lemma ContentFor(src: Path, dst: Path, hdr: Header, es: seq<MemFile>)
    requires dst.Sub? && !IsWhiteoutName(dst.name) && forall e | e in es :: e.Content?
    ensures forall e | e in [FileFor(src, dst, hdr)] + es :: e.Content?
  {
  }

  lemma {:induction false} MissingAreContent(p: Path, j: nat, end: nat, like: Header, owner: Owner)
    requires PlainParts(Parts(p)) && j <= end <= Depth(p)
    ensures forall e | e in MissingEntries(Parts(p), j, end, like, owner) :: e.Content?
    decreases end - j
  {
    if j < end {
      WayStep(p, j);
      PlainComponent(p, j);
      var q := Prefix(Parts(p), j + 1);
      MissingAreContent(p, j + 1, end, like, owner);
      hide FileFor, MissingDirHeader, PlainParts;
      ContentFor(Root, q, MissingDirHeader(q, like, owner), MissingEntries(Parts(p), j + 1, end, like, owner));
    }
  }

  lemma DirectIsContent(st: FsState, p: Path, inclusive: bool, owner: Owner)
    requires Shaped(st.view) && Direct(st.view, p, inclusive)
    ensures Root in st.view
    ensures forall e | e in AncestorEntries(st, p, inclusive, 0, owner) :: e.Content?
  {
    hide *;
    ShapedHasRoot(st.view);
    StartsAtRoot(st, p, inclusive, owner);
    EntriesStart(st, p, inclusive, owner);
    ClimbIsContent(st, p, inclusive, owner, 0, st.view[Root].hdr);
  }

  lemma EntriesStart(st: FsState, p: Path, inclusive: bool, owner: Owner)
    requires Root in st.view
    ensures 0 < MAX_DEPTH
    ensures AncestorEntries(st, p, inclusive, 0, owner)
            == ClimbEntries(st, p, inclusive, 0, owner, 0, Way(p, 0), st.view[Root].hdr)
  {
    WayIsPrefix(p, 0);
  }

  lemma {:induction false} ClimbIsContent(st: FsState, p: Path, inclusive: bool, owner: Owner, i: nat, like: Header)
    requires Shaped(st.view) && Direct(st.view, p, inclusive) && 0 < MAX_DEPTH && i <= End(p, inclusive)
    ensures Root in st.view
    ensures forall e | e in ClimbEntries(st, p, inclusive, 0, owner, i, Way(p, i), like) :: e.Content?
    decreases End(p, inclusive) - i
  {
    hide Direct, AddEntry, FileFor, AncestorEntries, MissingEntries, LinkTarget, FromParts, Shaped;
    ShapedHasRoot(st.view);
    DirectPlain(st.view, p, inclusive);
    EndsWithin(p, inclusive);
    if i < End(p, inclusive) && Way(p, i + 1) in st.view {
      var q := Way(p, i + 1);
      var n := st.view[q];
      WayStep(p, i);
      WayIsOnWay(p, inclusive, i);
      DirectDir(st.view, p, inclusive, q);
      ShapedAt(st.view, q);
      AddAgain(st, q);
      var st' := FsState(st.view, st.layer[q := Content(n)]);
      ClimbIsContent(st', p, inclusive, owner, i + 1, n.hdr);
      ContentFor(n.src, n.dst, n.hdr, ClimbEntries(st', p, inclusive, 0, owner, i + 1, q, n.hdr));
    } else {
      if i < End(p, inclusive) { WayStep(p, i); }
      MissingAreContent(p, i, End(p, inclusive), like, owner);
    }
  }

  lemma ShapedAt(v: View, q: Path)
    requires Shaped(v) && q in v && q.Sub?
    ensures v[q].dst == q && !IsWhiteoutName(q.name)
  {
  }
}
