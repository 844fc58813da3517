/** Copying a directory lays its files over the tree, and its layer is a correct
    diff. */
module CopiedTrees {
  import opened Wrappers
  import opened Paths
  import opened PathStrings
  import opened TarHeaders
  import opened Layers
  import opened ScanTheory
  import opened Ancestors
  import opened LayerSteps
  import opened CopyLayers
  import opened CopyLaw
  import opened CopyAncestors
  import opened CopyPlans

  // ----- copying a plan -----

  /** Below `d` the layer holds only copied files. */
  ghost predicate OnlyPlanned(l: Layer, d: Path, files: seq<CopiedFile>) {
    forall k | k in l && Below(d, k) :: FileAt(files, k).Some?
  }

  /** Trees whose headers can be compared. */
  ghost predicate Comparable(v: View) {
    Shaped(v) && forall p | p in v :: v[p].hdr.Supported()
  }

  /** The layer once the ancestors of the last file are in it. */
  ghost function WithAncestors(st: FsState, p: Path): Layer {
    st.layer + EntriesAbove(st.view, p, 0)
  }

  /** The entry of a file. */
  function EntryOf(f: CopiedFile): MemFile {
    Content(ContentFile(f.src, f.dst, f.hdr))
  }

  lemma LastFits(v: View, st: FsState, d: Path, files: seq<CopiedFile>)
    requires IsPlan(d, files) && files != [] && OnlyPlanned(st.layer, d, files[..|files| - 1])
    ensures Fits(v, WithAncestors(st, files[|files| - 1].dst), EntryOf(files[|files| - 1]))
  {
    var n := |files| - 1;
    var front, last := files[..n], files[n];
    PlanFront(d, files);
    assert PlannedAt(d, files, n);
    WithinCases(last.dst, last.dst);
    forall k | k in WithAncestors(st, last.dst) ensures k != last.dst && !Below(last.dst, k) {
      if k !in st.layer {
        BelowIsStrict(k, last.dst);
      } else if Below(last.dst, k) {
        WithinCases(d, last.dst);
        WithinTransitive(d, last.dst, k.parent);
        var i :| 0 <= i < n && front[i].dst == k;
        DirsBetween(d, files, i, last.dst);
      }
    }
  }

  /** The layer after the last file. */
  lemma LastIsPlanned(st: FsState, d: Path, files: seq<CopiedFile>)
    requires IsPlan(d, files) && files != [] && OnlyPlanned(st.layer, d, files[..|files| - 1])
    ensures OnlyPlanned(st.layer, d, files)
    ensures var last := files[|files| - 1];
            OnlyPlanned(WithAncestors(st, last.dst)[last.dst := EntryOf(last)], d, files)
  {
    var n := |files| - 1;
    var p := files[n].dst;
    forall k | (k in WithAncestors(st, p) || k == p) && Below(d, k) ensures FileAt(files, k).Some? {
      if k == p {
        ListedAt(files, n);
      } else if k in st.layer {
        var i :| 0 <= i < n && files[..n][i].dst == k;
        ListedAt(files, i);
      } else {
        DirsBetween(d, files, n, k);
        var j :| 0 <= j < n && IsDirAt(files, j, k);
        ListedAt(files, j);
      }
    }
  }

  /** The way to a file below directories. */
  lemma AboveIsDirect(v: View, p: Path)
    requires DirsAbove(v, p) && PlainParts(Parts(p))
    ensures Direct(v, p, false)
  {
    forall q | OnWay(q, p, false) ensures Below(q, p) { WithinCases(q, p); }
  }

  lemma PlannedName(d: Path, files: seq<CopiedFile>, i: nat)
    requires IsPlan(d, files) && i < |files|
    ensures var f := files[i];
            && f.dst.Sub? && PlainParts(Parts(f.dst)) && f.hdr.Supported() && f.hdr.name != ""
            && !IsWhiteoutName(f.dst.name) && FileFor(f.src, f.dst, f.hdr) == EntryOf(f) && PlainEntry(EntryOf(f))
  {
    assert PlannedAt(d, files, i);
    PlainComponent(files[i].dst, Depth(files[i].dst) - 1);
  }

  lemma ComparableRoot(v: View)
    requires Comparable(v)
    ensures Root in v && Shaped(v) && IsKeyedTree(v) && OnlyDirsHaveChildren(v)
  {
  }

  /** The ancestors of a file below directories: they are there, and they fit. */
  lemma AncestorsAreDone(v: View, s: FsState, p: Path, owner: Owner)
    requires Described(v, s) && OnlyContent(s.layer) && Comparable(s.view)
    requires DirsAbove(s.view, p) && PlainParts(Parts(p))
    ensures Root in s.view
    ensures var anc, s1 := AncestorEntries(s, p, false, 0, owner), FsState(s.view, WithAncestors(s, p));
            && PlainEntries(anc) && (forall e | e in anc :: e.Content?) && AllFit(v, s, anc)
            && AddEntries(s, anc) == Ok(s1) && Described(v, s1) && OnlyContent(s1.layer)
            && AddAncestors(s, p, false, 0, owner) == Ok((s1, p))
  {
    hide *;
    ComparableRoot(s.view);
    var anc, s1 := AncestorEntries(s, p, false, 0, owner), FsState(s.view, WithAncestors(s, p));
    AboveIsDirect(s.view, p);
    AddExistingAncestors(s, p, owner);
    WithIs(s, p);
    AncestorsAreEntries(s, p, false, 0, owner);
    MadeOfIs(s, s1, p, AddAncestors(s, p, false, 0, owner), anc);
    DirectIsContent(s, p, false, owner);
    AncestorsAreNamed(s, p, false, 0, owner);
    ContentIsNamed(anc);
    NamedIsPlain(anc);
    ContentStays(s, anc);
    AncestorsFit(v, s, p, false, 0, owner);
    EntriesAreExact(v, s, anc);
  }

  lemma ContentIsNamed(es: seq<MemFile>)
    requires forall e | e in es :: e.Content?
    ensures forall e | e in es :: !Nameless(e)
  {
  }

  lemma WithIs(s: FsState, p: Path)
    ensures WithAncestors(s, p) == s.layer + EntriesAbove(s.view, p, 0)
  {
  }

  lemma MadeOfIs(s: FsState, s1: FsState, p: Path, r: Result<(FsState, Path), FsError>, es: seq<MemFile>)
    requires MadeOf(s, r, es) && r == Ok((s1, p))
    ensures AddEntries(s, es) == Ok(s1)
  {
  }

  lemma UpdatesIs(v: View, f: CopiedFile)
    requires Comparable(v) && f.dst.Sub?
    ensures IsUpdated(v, f.dst, f.hdr) == Ok(Updates(v, f))
  {
  }

  /** The tree and layer after one file of a plan. */
  ghost function Next(s: FsState, f: CopiedFile): FsState {
    if !Updates(s.view, f) then s
    else
      FsState((if f.hdr.IsDir() then s.view else EraseBelow(s.view, f.dst))[f.dst := EntryOf(f).file],
          WithAncestors(s, f.dst)[f.dst := EntryOf(f)])
  }

  /** One file of a plan, in a tree where everything above it is a directory. */
  lemma LastIsAdded(v: View, s: FsState, d: Path, files: seq<CopiedFile>, now: int)
    requires Described(v, s) && OnlyContent(s.layer) && Comparable(s.view) && IsPlan(d, files) && files != []
    requires DirsAbove(s.view, files[|files| - 1].dst) && OnlyPlanned(s.layer, d, files[..|files| - 1])
    ensures Root in s.view
    ensures var last := files[|files| - 1];
            var es := FileEntries(s, last, now);
            && PlainEntries(es) && (forall e | e in es :: e.Content?) && AllFit(v, s, es)
            && AddFile(s, last, now) == Ok(Next(s, last)) && AddEntries(s, es) == Ok(Next(s, last))
            && Described(v, Next(s, last)) && OnlyContent(Next(s, last).layer)
  {
    hide *;
    var last := files[|files| - 1];
    ComparableRoot(s.view);
    PlannedName(d, files, |files| - 1);
    UpdatesIs(s.view, last);
    if Updates(s.view, last) {
      AncestorsAreDone(v, s, last.dst, Owner(0, 0, now));
      LastFits(v, s, d, files);
      LastEntry(v, s, last, now);
    } else {
      NoEntries(v, s, last, now);
    }
    FileIsEntries(s, last, now);
    ContentStays(s, FileEntries(s, last, now));
  }

  lemma NoEntries(v: View, s: FsState, f: CopiedFile, now: int)
    requires Root in s.view && !Updates(s.view, f) && IsUpdated(s.view, f.dst, f.hdr) == Ok(false)
    ensures FileEntries(s, f, now) == [] && PlainEntries([]) && AllFit(v, s, [])
    ensures AddFile(s, f, now) == Ok(s) && Next(s, f) == s
  {
  }

  lemma LastEntry(v: View, s: FsState, f: CopiedFile, now: int)
    requires Root in s.view && Updates(s.view, f) && IsUpdated(s.view, f.dst, f.hdr) == Ok(true)
    requires DirsAbove(s.view, f.dst) && PlainEntry(EntryOf(f)) && FileFor(f.src, f.dst, f.hdr) == EntryOf(f)
    requires var anc := AncestorEntries(s, f.dst, false, 0, Owner(0, 0, now));
             var s1 := FsState(s.view, WithAncestors(s, f.dst));
             && PlainEntries(anc) && (forall e | e in anc :: e.Content?) && AllFit(v, s, anc)
             && AddEntries(s, anc) == Ok(s1) && Described(v, s1) && Fits(v, s1.layer, EntryOf(f))
             && AddAncestors(s, f.dst, false, 0, Owner(0, 0, now)) == Ok((s1, f.dst))
    ensures var es := FileEntries(s, f, now);
            && PlainEntries(es) && (forall e | e in es :: e.Content?) && AllFit(v, s, es)
            && AddFile(s, f, now) == Ok(Next(s, f)) && Described(v, Next(s, f))
  {
    hide Described, Fits, AddAncestors, AncestorEntries, AllFit, AddEntries, IsUpdated, IsWhiteoutName, FileFor,
        WithAncestors, Updates;
    var anc := AncestorEntries(s, f.dst, false, 0, Owner(0, 0, now));
    var s1, e := FsState(s.view, WithAncestors(s, f.dst)), EntryOf(f);
    ParentIsAbove(s.view, f.dst);
    assert AddEntry(s1, e) == Ok(Next(s, f));
    FittingKeeps(v, s1, e);
    OneFits(v, s1, e);
    FitsAppend(v, s, anc, [e]);
    assert FileEntries(s, f, now) == anc + [e];
  }

  lemma OneFits(v: View, st: FsState, e: MemFile)
    requires Fits(v, st.layer, e)
    ensures AllFit(v, st, [e])
  {
    hide AddEntry, Fits;
  }

  lemma ParentIsAbove(v: View, p: Path)
    requires DirsAbove(v, p) && Root in v && p.Sub?
    ensures p.parent in v
  {
  }

  // ----- all files of a plan -----

  lemma NextIsComparable(s: FsState, f: CopiedFile)
    requires Comparable(s.view) && DirsAbove(s.view, f.dst) && f.hdr.Supported()
    requires f.dst.Sub? && !IsWhiteoutName(f.dst.name)
    ensures Comparable(Next(s, f).view)
  {
    if Updates(s.view, f) {
      ParentIsAbove(s.view, f.dst);
      PutKeepsShape(s.view, EntryOf(f));
      WithinCases(f.dst, f.dst);
      assert s.view[f.dst.parent].hdr.IsDir() by { if f.dst.parent.Sub? { WithinCases(f.dst.parent, f.dst.parent); } }
      hide Below, Within, IsTree, OnlyDirsHaveChildren, KeyedByDst;
      assert Next(s, f).view == PutContent(s.view, EntryOf(f).file).value;
      RootStays(s.view, EntryOf(f).file);
    }
  }

  lemma RootStays(v: View, c: ContentFile)
    requires Root in v && c.dst.Sub? && PutContent(v, c).Ok?
    ensures Root in PutContent(v, c).value && PutContent(v, c).value[Root] == v[Root]
  {
  }

  lemma LastIsLaid(v: View, st: FsState, s: FsState, d: Path, files: seq<CopiedFile>)
    requires Comparable(st.view) && Comparable(s.view) && IsPlan(d, files) && files != []
    requires s.view == Laid(st.view, files[..|files| - 1]) && OnlyPlanned(s.layer, d, files[..|files| - 1])
    requires DirsAbove(s.view, files[|files| - 1].dst)
    ensures var r := Next(s, files[|files| - 1]);
            r.view == Laid(st.view, files) && OnlyPlanned(r.layer, d, files) && Comparable(r.view)
  {
    hide *;
    var last := files[|files| - 1];
    ComparableRoot(st.view);
    LaidStep(st.view, d, files);
    LastIsPlanned(s, d, files);
    PlannedName(d, files, |files| - 1);
    NextIsComparable(s, last);
    NextIs(s, last);
  }

  lemma NextIs(s: FsState, f: CopiedFile)
    ensures Next(s, f) ==
            if !Updates(s.view, f) then s
            else
              FsState((if f.hdr.IsDir() then s.view else EraseBelow(s.view, f.dst))
                        [f.dst := ContentFile(f.src, f.dst, f.hdr)],
                  WithAncestors(s, f.dst)[f.dst := EntryOf(f)])
  {
  }

  lemma EntriesOfLast(st: FsState, files: seq<CopiedFile>, now: int)
    requires Root in st.view && files != [] && AddFiles(st, files[..|files| - 1], now).Ok?
    ensures var s, last := AddFiles(st, files[..|files| - 1], now).value, files[|files| - 1];
            && FilesEntries(st, files, now) == FilesEntries(st, files[..|files| - 1], now) + FileEntries(s, last, now)
            && AddFiles(st, files, now) == AddFile(s, last, now)
  {
    hide FileEntries, AddFile;
  }

  lemma PlainAppend(a: seq<MemFile>, b: seq<MemFile>)
    requires PlainEntries(a) && PlainEntries(b)
    requires (forall e | e in a :: e.Content?) && (forall e | e in b :: e.Content?)
    ensures PlainEntries(a + b) && forall e | e in a + b :: e.Content?
  {
  }

  /** A plan always fits, and copying it lays its files over the tree. */
  lemma {:induction false} PlanIsLaid(v: View, st: FsState, d: Path, files: seq<CopiedFile>, now: int)
    requires Described(v, st) && OnlyContent(st.layer) && Comparable(st.view)
    requires d in st.view && st.view[d].hdr.IsDir()
    requires IsPlan(d, files) && OnlyPlanned(st.layer, d, [])
    ensures Root in st.view
    ensures var r, es := AddFiles(st, files, now), FilesEntries(st, files, now);
            && PlainEntries(es) && (forall e | e in es :: e.Content?) && AllFit(v, st, es)
            && r.Ok? && AddEntries(st, es) == r && Described(v, r.value) && Comparable(r.value.view)
            && r.value.view == Laid(st.view, files) && OnlyPlanned(r.value.layer, d, files)
            && OnlyContent(r.value.layer)
    decreases |files|
  {
    hide *;
    ComparableRoot(st.view);
    if files != [] {
      var front, last := files[..|files| - 1], files[|files| - 1];
      PlanFront(d, files);
      PlanIsLaid(v, st, d, front, now);
      var s := AddFiles(st, front, now).value;
      DirsLaid(st.view, d, files);
      LastIsAdded(v, s, d, files, now);
      LastIsLaid(v, st, s, d, files);
      EntriesOfLast(st, files, now);
      PlainAppend(FilesEntries(st, front, now), FileEntries(s, last, now));
      FitsAppend(v, st, FilesEntries(st, front, now), FileEntries(s, last, now));
      FilesAreEntries(st, files, now);
    } else {
      NothingLaid(v, st, now);
    }
  }

  lemma NothingLaid(v: View, st: FsState, now: int)
    requires Root in st.view
    ensures AddFiles(st, [], now) == Ok(st) && Laid(st.view, []) == st.view
    ensures FilesEntries(st, [], now) == [] && AddEntries(st, []) == Ok(st) && AllFit(v, st, []) && PlainEntries([])
  {
  }

  // ----- the files of a directory -----

  /** What a walk of a directory finds: everything once, below it, and after the
      directory that holds it. */
  ghost predicate IsListing(s: Source) {
    && s.hdr.IsDir()
    && (forall i | 0 <= i < |s.below| :: FoundAt(s, i))
    && forall i, j | 0 <= i < j < |s.below| :: s.below[i].src != s.below[j].src
  }

  ghost predicate FoundAt(s: Source, i: nat)
    requires i < |s.below|
  {
    && Below(s.path, s.below[i].src) && PlainParts(Parts(s.below[i].src)) && s.below[i].hdr.Supported()
    && (s.below[i].src.parent == s.path || exists j :: 0 <= j < i && IsDirFound(s, j, s.below[i].src.parent))
  }

  predicate IsDirFound(s: Source, j: nat, p: Path)
    requires j < |s.below|
  {
    s.below[j].src == p && s.below[j].hdr.IsDir()
  }

  lemma {:induction false} FilesBelowAre(s: Source, n: nat, dst: Path, op: CopyOperation)
    requires n <= |s.below|
    ensures |FilesBelow(s, n, dst, op)| == n
    ensures forall i | 0 <= i < n ::
            FilesBelow(s, n, dst, op)[i] == CopiedTo(s.below[i], Rebase(dst, s.below[i].src, Depth(s.path)), op)
  {
    if n > 0 { FilesBelowAre(s, n - 1, dst, op); }
  }

  /** Moving a path from below `s` to below `d` keeps it below, and apart from others. */
  lemma {:induction false} RebaseStays(d: Path, s: Path, x: Path)
    requires Within(s, x)
    ensures Within(d, Rebase(d, x, Depth(s)))
    ensures Below(s, x) ==>
            var r := Rebase(d, x, Depth(s));
            r.Sub? && r.parent == Rebase(d, x.parent, Depth(s)) && Below(d, r)
    ensures x == s ==> Rebase(d, x, Depth(s)) == d
    decreases x
  {
    WithinDepth(s, x);
    WithinCases(s, x);
    if x != s { RebaseStays(d, s, x.parent); }
  }

  lemma {:induction false} RebaseApart(d: Path, s: Path, x: Path, y: Path)
    requires Within(s, x) && Within(s, y) && Rebase(d, x, Depth(s)) == Rebase(d, y, Depth(s))
    ensures x == y
    decreases x
  {
    RebaseStays(d, s, x);
    RebaseStays(d, s, y);
    WithinCases(d, d);
    if x != s && y != s { RebaseApart(d, s, x.parent, y.parent); }
  }

  lemma RebasePlain(d: Path, s: Path, x: Path)
    requires PlainParts(Parts(d)) && PlainParts(Parts(x)) && Depth(s) <= Depth(x)
    ensures PlainParts(Parts(Rebase(d, x, Depth(s))))
  {
    RebaseParts(d, x, Depth(s));
  }

  /** A plain path has a name in the tar. */
  lemma HasTarName(p: Path)
    requires p.Sub? && PlainParts(Parts(p))
    ensures RelPath(Render(p)) != "" && PlainName(p)
  {
    RenderIsJoin(p);
    JoinEnds(Parts(p));
    PlainComponent(p, Depth(p) - 1);
    var s := Render(p);
    assert s[1..] == Join(Parts(p));
    assert TrimLeft(s) == TrimLeft(s[1..]) == s[1..];
    assert Parts(p)[Depth(p) - 1] in Parts(p);
  }

  /** A header of a copied file has a name. */
  lemma HasName(h: Header, src: Path, dst: Path, op: CopyOperation)
    requires dst.Sub? && PlainParts(Parts(dst))
    ensures HeaderAt(h, src, dst, op).name != ""
  {
    HasTarName(dst);
    hide RelPath, Render;
  }

  /** The files of a walked directory are a plan for the destination. */
  lemma ListingIsPlan(s: Source, dst: Path, op: CopyOperation)
    requires IsListing(s) && PlainParts(Parts(dst))
    ensures IsPlan(dst, FilesBelow(s, |s.below|, dst, op))
  {
    var files := FilesBelow(s, |s.below|, dst, op);
    FilesBelowAre(s, |s.below|, dst, op);
    forall i | 0 <= i < |files| ensures PlannedAt(dst, files, i) {
      FoundIsPlanned(s, dst, op, i);
    }
    forall i, j | 0 <= i < j < |files| ensures files[i].dst != files[j].dst {
      assert FoundAt(s, i) && FoundAt(s, j);
      if files[i].dst == files[j].dst { RebaseApart(dst, s.path, s.below[i].src, s.below[j].src); }
    }
  }

  lemma FoundIsPlanned(s: Source, dst: Path, op: CopyOperation, i: nat)
    requires IsListing(s) && PlainParts(Parts(dst)) && i < |s.below|
    ensures |FilesBelow(s, |s.below|, dst, op)| == |s.below|
    ensures PlannedAt(dst, FilesBelow(s, |s.below|, dst, op), i)
  {
    hide HeaderAt, FilesBelow, Rebase, PlainParts;
    FilesBelowAre(s, |s.below|, dst, op);
    var files, x := FilesBelow(s, |s.below|, dst, op), s.below[i].src;
    assert FoundAt(s, i);
    RebaseStays(dst, s.path, x);
    WithinDepth(s.path, x.parent);
    RebasePlain(dst, s.path, x);
    HasName(s.below[i].hdr, x, files[i].dst, op);
    KeepsType(s.below[i].hdr, x, files[i].dst, op);
    if x.parent == s.path {
      RebaseStays(dst, s.path, s.path);
    } else {
      var j :| 0 <= j < i && IsDirFound(s, j, x.parent);
      KeepsType(s.below[j].hdr, s.below[j].src, files[j].dst, op);
      assert IsDirAt(files, j, files[i].dst.parent);
    }
  }

  lemma KeepsType(h: Header, src: Path, dst: Path, op: CopyOperation)
    ensures HeaderAt(h, src, dst, op).typeflag == h.typeflag
  {
  }

  /** Copying a directory to a place free of links, into which a layer without
      whiteouts has put nothing yet: every entry fits, the copy cannot fail, and
      the tree is the old one, with the destination made, and the source laid over
      it. */
  lemma DirectoryIsLaid(v: View, st: FsState, op: CopyOperation, now: int)
    requires Described(v, st) && OnlyContent(st.layer) && Comparable(st.view)
    requires |op.srcs| == 1 && IsListing(op.srcs[0])
    requires Direct(st.view, op.dst, true) && OnlyPlanned(st.layer, op.dst, [])
    ensures Root in st.view
    ensures var made := AddAncestors(st, op.dst, true, 0, Owner(op.uid, op.gid, now));
            var r, es := AddToLayer(st, op, now), OperationEntries(st, op, now);
            && made.Ok? && made.value.1 == op.dst && Grown(st, made.value.0, op.dst, true, Owner(op.uid, op.gid, now))
            && (forall e | e in es :: e.Content?) && AllFit(v, st, es)
            && r.Ok? && AddEntries(st, es) == r && Law(v, r.value) && Described(v, r.value)
            && Comparable(r.value.view) && OnlyContent(r.value.layer)
            && r.value.view == Laid(made.value.0.view, CopiedFiles(op, 1, op.dst, true))
  {
    hide *;
    var owner := Owner(op.uid, op.gid, now);
    ComparableRoot(st.view);
    MadeIsDescribed(v, st, op.dst, true, owner);
    var s := AddAncestors(st, op.dst, true, 0, owner).value.0;
    var files := CopiedFiles(op, 1, op.dst, true);
    OneSource(op);
    DirectPlain(st.view, op.dst, true);
    ListingIsPlan(op.srcs[0], op.dst, op);
    MadeDir(st, s, op.dst, owner);
    PlanIsLaid(v, s, op.dst, files, now);
    DescribedIsLaw(v, AddFiles(s, files, now).value);
    OperationIs(st, s, op, now);
    var made := AncestorEntries(st, op.dst, true, 0, owner);
    FitsAppend(v, st, made, FilesEntries(s, files, now));
    OperationIsEntries(st, op, now);
  }

  /** Making the way to a path, free of links. */
  lemma MadeIsDescribed(v: View, st: FsState, p: Path, inclusive: bool, owner: Owner)
    requires Described(v, st) && OnlyContent(st.layer) && Comparable(st.view) && Direct(st.view, p, inclusive)
    ensures Root in st.view
    ensures var r := AddAncestors(st, p, inclusive, 0, owner);
            var es := AncestorEntries(st, p, inclusive, 0, owner);
            && r.Ok? && r.value.1 == p
            && Grown(st, r.value.0, p, inclusive, owner) && NewOnWay(st, r.value.0, p, inclusive)
            && (forall e | e in es :: e.Content?) && AllFit(v, st, es) && AddEntries(st, es) == Ok(r.value.0)
            && Described(v, r.value.0) && OnlyContent(r.value.0.layer) && Comparable(r.value.0.view)
  {
    hide *;
    ComparableRoot(st.view);
    WayIsMade(st, p, inclusive, owner);
    var r, es := AddAncestors(st, p, inclusive, 0, owner), AncestorEntries(st, p, inclusive, 0, owner);
    AncestorsAreEntries(st, p, inclusive, 0, owner);
    MadeOfIs(st, r.value.0, p, r, es);
    DirectIsContent(st, p, inclusive, owner);
    AncestorsAreNamed(st, p, inclusive, 0, owner);
    ContentIsNamed(es);
    NamedIsPlain(es);
    ContentStays(st, es);
    AncestorsFit(v, st, p, inclusive, 0, owner);
    EntriesAreExact(v, st, es);
    GrownIsComparable(st, r.value.0, p, inclusive, owner);
  }

  lemma GrownIsComparable(st: FsState, s: FsState, p: Path, inclusive: bool, owner: Owner)
    requires Comparable(st.view) && Grown(st, s, p, inclusive, owner)
    ensures Comparable(s.view)
  {
    hide Shaped, Way, NearestMode;
  }

  lemma OneSource(op: CopyOperation)
    requires |op.srcs| == 1 && IsListing(op.srcs[0])
    ensures CopiedFiles(op, 1, op.dst, true) == FilesBelow(op.srcs[0], |op.srcs[0].below|, op.dst, op)
  {
    assert CopiedFiles(op, 0, op.dst, true) == [];
  }

  lemma MadeDir(st: FsState, s: FsState, d: Path, owner: Owner)
    requires Grown(st, s, d, true, owner) && NewOnWay(st, s, d, true) && OnlyPlanned(st.layer, d, [])
    ensures d in s.view && s.view[d].hdr.IsDir() && OnlyPlanned(s.layer, d, [])
  {
    if d.Sub? { assert Way(d, Depth(d)) == d; }
    forall k | k in s.layer && Below(d, k) ensures FileAt([], k).Some? {
      BelowIsStrict(d, k);
    }
  }

  lemma OperationIs(st: FsState, s: FsState, op: CopyOperation, now: int)
    requires Root in st.view && Root in s.view && |op.srcs| == 1 && IsListing(op.srcs[0])
    requires AddAncestors(st, op.dst, true, 0, Owner(op.uid, op.gid, now)) == Ok((s, op.dst))
    ensures AddToLayer(st, op, now) == AddFiles(s, CopiedFiles(op, 1, op.dst, true), now)
    ensures OperationEntries(st, op, now)
            == AncestorEntries(st, op.dst, true, 0, Owner(op.uid, op.gid, now))
               + FilesEntries(s, CopiedFiles(op, 1, op.dst, true), now)
  {
    hide AddFiles, FilesEntries, AncestorEntries;
  }
}
