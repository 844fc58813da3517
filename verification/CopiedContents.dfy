/** What copies bring, file by file: where each file of a source ends up, with
    which owner and with which contents, and what else changes. */
module CopiedContents {
  import opened Wrappers
  import opened Paths
  import opened PathStrings
  import opened TarHeaders
  import opened Layers
  import opened ScanTheory
  import opened Ancestors
  import opened LayerSteps
  import opened CopyLayers
  import opened CopyLaw
  import opened CopyAncestors
  import opened CopyPlans
  import opened CopiedTrees

  /** The header a file has at `q`: everything of its source but the owner, which
      is that of the operation, and the name. */
  ghost predicate Brings(h: Header, from: Found, q: Path, op: CopyOperation) {
    && h.typeflag == from.hdr.typeflag && h.linkname == from.hdr.linkname && h.size == from.hdr.size
    && h.mode == from.hdr.mode && h.modTime == from.hdr.modTime
    && h.uid == op.uid && h.gid == op.gid
    && h.name == RelPath(Render(q)) + if from.hdr.IsDir() && from.src.Sub? then "/" else ""
  }

  /** At `q` stands the file, or what was there before, if it is similar. */
  ghost predicate StandsAt(was: View, v: View, from: Found, q: Path, op: CopyOperation) {
    && q in v && v[q].dst == q
    && ((v[q].src == from.src && Brings(v[q].hdr, from, q, op))
        || (q in was && v[q] == was[q] && forall h | Brings(h, from, q, op) :: Similar(was[q].hdr, h, false)))
  }

  lemma CopiedBrings(f: Found, q: Path, op: CopyOperation)
    ensures CopiedTo(f, q, op).src == f.src && CopiedTo(f, q, op).dst == q
    ensures forall h :: Brings(h, f, q, op) <==> h == CopiedTo(f, q, op).hdr
  {
  }

  lemma LaidStands(was: View, v: View, from: Found, q: Path, op: CopyOperation)
    requires KeyedByDst(was) && q in v && v[q] == LaidFile(was, CopiedTo(from, q, op))
    ensures StandsAt(was, v, from, q, op)
  {
    CopiedBrings(from, q, op);
  }

  // ----- a directory -----

  /** Where file `i` of the source goes. */
  function PlaceOf(op: CopyOperation, i: nat): Path
    requires |op.srcs| == 1 && i < |op.srcs[0].below|
  {
    Rebase(op.dst, op.srcs[0].below[i].src, Depth(op.srcs[0].path))
  }

  ghost predicate IsPlace(op: CopyOperation, p: Path)
    requires |op.srcs| == 1
  {
    exists i: nat :: i < |op.srcs[0].below| && PlaceOf(op, i) == p
  }

  /** Each file of the source stands at its place; nothing else is new, and nothing
      else is gone but what was below a place now taken by a file. */
  ghost predicate Copied(was: View, v: View, op: CopyOperation)
    requires |op.srcs| == 1
  {
    var below := op.srcs[0].below;
    && (forall i: nat | i < |below| :: StandsAt(was, v, below[i], PlaceOf(op, i), op))
    && (forall p | p in v && !IsPlace(op, p) :: p in was && v[p] == was[p])
    && (forall p | p in was && p !in v ::
          exists i: nat :: i < |below| && !below[i].hdr.IsDir() && Below(PlaceOf(op, i), p))
  }

  lemma FilesArePlaces(op: CopyOperation)
    requires |op.srcs| == 1 && IsListing(op.srcs[0]) && PlainParts(Parts(op.dst))
    ensures var s, files := op.srcs[0], CopiedFiles(op, 1, op.dst, true);
            && |files| == |s.below| && IsPlan(op.dst, files)
            && forall i: nat | i < |files| :: files[i] == CopiedTo(s.below[i], PlaceOf(op, i), op)
  {
    OneSource(op);
    FilesBelowAre(op.srcs[0], |op.srcs[0].below|, op.dst, op);
    ListingIsPlan(op.srcs[0], op.dst, op);
    hide CopiedTo, Rebase, IsListing, PlainParts;
  }

  lemma LaidIsCopied(was: View, op: CopyOperation)
    requires KeyedByDst(was) && |op.srcs| == 1 && IsListing(op.srcs[0]) && PlainParts(Parts(op.dst))
    ensures Copied(was, Laid(was, CopiedFiles(op, 1, op.dst, true)), op)
  {
    hide *;
    var s, files := op.srcs[0], CopiedFiles(op, 1, op.dst, true);
    FilesArePlaces(op);
    var v := Laid(was, files);
    forall i: nat | i < |s.below| ensures StandsAt(was, v, s.below[i], PlaceOf(op, i), op) {
      PlannedIsLaid(was, op.dst, files, i);
      CopiedBrings(s.below[i], PlaceOf(op, i), op);
      LaidStands(was, v, s.below[i], PlaceOf(op, i), op);
    }
    forall p | p in v && !IsPlace(op, p) ensures p in was && v[p] == was[p] {
      NoFileAt(op, files, p);
      OtherIsOld(was, files, p);
    }
    forall p | p in was && p !in v
      ensures exists i: nat :: i < |s.below| && !s.below[i].hdr.IsDir() && Below(PlaceOf(op, i), p)
    {
      var i := CoveredBy(was, files, p);
      SameKindCopied(s.below[i], PlaceOf(op, i), op);
    }
    IsCopied(was, v, op);
  }

  lemma PlannedIsLaid(was: View, d: Path, files: seq<CopiedFile>, i: nat)
    requires IsPlan(d, files) && i < |files|
    ensures files[i].dst in Laid(was, files) && Laid(was, files)[files[i].dst] == LaidFile(was, files[i])
  {
    FileAtIs(d, files, i);
  }

  lemma NoFileAt(op: CopyOperation, files: seq<CopiedFile>, p: Path)
    requires |op.srcs| == 1 && !IsPlace(op, p) && |files| == |op.srcs[0].below|
    requires forall i: nat | i < |files| :: files[i] == CopiedTo(op.srcs[0].below[i], PlaceOf(op, i), op)
    ensures FileAt(files, p).None?
  {
    hide Rebase, FileAt;
    forall f | f in files ensures f.dst != p {
      var i :| 0 <= i < |files| && files[i] == f;
      assert PlaceOf(op, i) == f.dst;
    }
  }

  lemma OtherIsOld(was: View, files: seq<CopiedFile>, p: Path)
    requires p in Laid(was, files) && FileAt(files, p).None?
    ensures p in was && Laid(was, files)[p] == was[p]
  {
  }

  lemma CoveredBy(was: View, files: seq<CopiedFile>, p: Path) returns (i: nat)
    requires p in was && p !in Laid(was, files)
    ensures i < |files| && !files[i].hdr.IsDir() && Below(files[i].dst, p)
  {
    var f :| f in files && !f.hdr.IsDir() && Below(f.dst, p);
    i :| i < |files| && files[i] == f;
  }

  lemma SameKindCopied(f: Found, q: Path, op: CopyOperation)
    ensures CopiedTo(f, q, op).hdr.IsDir() <==> f.hdr.IsDir()
    ensures CopiedTo(f, q, op).dst == q
  {
  }

  lemma IsCopied(was: View, v: View, op: CopyOperation)
    requires |op.srcs| == 1
    requires forall i: nat | i < |op.srcs[0].below| :: StandsAt(was, v, op.srcs[0].below[i], PlaceOf(op, i), op)
    requires forall p | p in v && !IsPlace(op, p) :: p in was && v[p] == was[p]
    requires forall p | p in was && p !in v ::
               exists i: nat ::
                 i < |op.srcs[0].below| && !op.srcs[0].below[i].hdr.IsDir() && Below(PlaceOf(op, i), p)
    ensures Copied(was, v, op)
  {
    hide PlaceOf, StandsAt, IsPlace;
  }

  /** A directory copied to a place free of links: first the destination is made,
      for the owner of the operation, and then every file of the source stands in
      it with that owner and all else from the source. */
  lemma DirectoryIsCopied(v: View, st: FsState, op: CopyOperation, now: int)
    requires Described(v, st) && OnlyContent(st.layer) && Comparable(st.view)
    requires |op.srcs| == 1 && IsListing(op.srcs[0])
    requires Direct(st.view, op.dst, true) && OnlyPlanned(st.layer, op.dst, [])
    ensures Root in st.view
    ensures var r := AddToLayer(st, op, now);
            && r.Ok? && Law(v, r.value)
            && exists made: FsState ::
                 Grown(st, made, op.dst, true, Owner(op.uid, op.gid, now)) && Copied(made.view, r.value.view, op)
  {
    hide *;
    DirectoryIsLaid(v, st, op, now);
    DirectPlain(st.view, op.dst, true);
    var made := AddAncestors(st, op.dst, true, 0, Owner(op.uid, op.gid, now)).value.0;
    GrownIsKeyed(st, made, op.dst, true, Owner(op.uid, op.gid, now));
    LaidIsCopied(made.view, op);
  }

  lemma GrownIsKeyed(st: FsState, s: FsState, p: Path, inclusive: bool, owner: Owner)
    requires Grown(st, s, p, inclusive, owner)
    ensures KeyedByDst(s.view) && Shaped(s.view) && Extends(st, s)
  {
  }

  // ----- a single file -----

  /** A single file goes to the destination itself, or into it under its own name
      if the destination is written as a directory. */
  function FilePlace(op: CopyOperation): Path
    requires |op.srcs| == 1 && op.srcs[0].path.Sub?
  {
    if op.dirFormat then Sub(op.dst, op.srcs[0].path.name) else op.dst
  }

  ghost predicate IsFile(s: Source) {
    s.path.Sub? && !s.hdr.IsDir() && s.below == [] && s.hdr.Supported()
  }

  /** The file stands at its place; new besides are only directories on the way to
      it, made for root, and gone is only what was below it. */
  ghost predicate FileCopied(st: FsState, v: View, op: CopyOperation, now: int)
    requires |op.srcs| == 1 && op.srcs[0].path.Sub?
  {
    var q := FilePlace(op);
    && StandsAt(st.view, v, Found(op.srcs[0].path, op.srcs[0].hdr), q, op)
    && (forall p | p in v && p in st.view && p != q :: v[p] == st.view[p])
    && (forall p | p in v && p !in st.view && p != q ::
          Below(p, q) && MadeFor(v[p], p, Owner(0, 0, now), NearestMode(st.view, q)))
    && (forall p | p in st.view && p !in v :: Below(q, p))
  }

  lemma OneFile(op: CopyOperation)
    requires |op.srcs| == 1 && IsFile(op.srcs[0])
    ensures op.srcs[0].path.Sub? && !op.MakesDst()
    ensures CopiedFiles(op, 1, op.dst, op.dirFormat)
            == [CopiedTo(Found(op.srcs[0].path, op.srcs[0].hdr), FilePlace(op), op)]
  {
    assert CopiedFiles(op, 0, op.dst, op.dirFormat) == [];
    assert FilesBelow(op.srcs[0], 0, op.dst, op) == [];
  }

  lemma OneFileAdded(st: FsState, op: CopyOperation, f: CopiedFile, now: int)
    requires Root in st.view && |op.srcs| == 1 && !op.MakesDst()
    requires CopiedFiles(op, 1, op.dst, op.dirFormat) == [f]
    ensures AddToLayer(st, op, now) == AddFile(st, f, now)
    ensures OperationEntries(st, op, now) == FileEntries(st, f, now)
  {
    hide AddFile, FileEntries, CopiedFiles, AncestorEntries;
    var files := [f];
    assert files[..0] == [];
    assert AddFiles(st, files, now) == AddFile(st, f, now) && FilesEntries(st, files, now) == FileEntries(st, f, now);
  }

  /** The tree once the file is put, after its ancestors. */
  lemma PutIsCopied(st: FsState, s: FsState, op: CopyOperation, now: int)
    requires |op.srcs| == 1 && IsFile(op.srcs[0]) && FilePlace(op).Sub?
    requires Grown(st, s, FilePlace(op), false, Owner(0, 0, now)) && KeyedByDst(st.view)
    ensures var q := FilePlace(op);
            var f := CopiedTo(Found(op.srcs[0].path, op.srcs[0].hdr), q, op);
            FileCopied(st, EraseBelow(s.view, q)[q := EntryOf(f).file], op, now)
  {
    var q, from := FilePlace(op), Found(op.srcs[0].path, op.srcs[0].hdr);
    var f := CopiedTo(from, q, op);
    var v := EraseBelow(s.view, q)[q := EntryOf(f).file];
    CopiedBrings(from, q, op);
    WithinCases(q, q);
    GrownAbove(st, s, q, Owner(0, 0, now));
    hide CopiedTo, NearestMode, MadeFor, Way, Shaped, CreatesOnly, Grown, Extends, KeyedByDst;
    assert StandsAt(st.view, v, from, q, op);
  }

  lemma GrownAbove(st: FsState, s: FsState, q: Path, owner: Owner)
    requires q.Sub? && Grown(st, s, q, false, owner)
    ensures forall p | p in s.view && p !in st.view ::
              Below(p, q) && MadeFor(s.view[p], p, owner, NearestMode(st.view, q))
    ensures forall p | p in st.view :: p in s.view && s.view[p] == st.view[p]
  {
    hide Shaped, NearestMode, MadeFor;
    forall p | p in s.view && p !in st.view ensures Below(p, q) {
      var j :| 1 <= j <= End(q, false) && p == Way(q, j);
      WayIsOnWay(q, false, j - 1);
      WithinCases(p, q);
    }
  }

  /** A single file copied to a place free of links, below which the layer holds
      nothing: it cannot fail, its layer is a correct diff, and the file stands
      where it was asked for, with the owner of the operation. */
  lemma FileIsCopied(v: View, st: FsState, op: CopyOperation, now: int)
    requires Described(v, st) && OnlyContent(st.layer) && Comparable(st.view)
    requires |op.srcs| == 1 && IsFile(op.srcs[0])
    requires FilePlace(op).Sub? && Direct(st.view, FilePlace(op), false)
    requires forall k | k in st.layer :: !Below(FilePlace(op), k)
    ensures Root in st.view
    ensures var r := AddToLayer(st, op, now);
            r.Ok? && Law(v, r.value) && FileCopied(st, r.value.view, op, now)
  {
    hide *;
    ComparableRoot(st.view);
    OneFile(op);
    var q, from, owner := FilePlace(op), Found(op.srcs[0].path, op.srcs[0].hdr), Owner(0, 0, now);
    var f := CopiedTo(from, q, op);
    OneFileAdded(st, op, f, now);
    FileIsEntry(st, op, f);
    UpdatesIs(st.view, f);
    if Updates(st.view, f) {
      MadeIsDescribed(v, st, q, false, owner);
      var s := AddAncestors(st, q, false, 0, owner).value.0;
      ParentIsThere(st, s, q, owner);
      EntryFits(v, st, s, q, f);
      FilePut(st, s, f, now);
      FittingKeeps(v, s, EntryOf(f));
      DescribedIsLaw(v, AddFile(st, f, now).value);
      PutIsCopied(st, s, op, now);
    } else {
      NothingPut(st, op, f, now);
      DescribedIsLaw(v, st);
    }
  }

  lemma FileIsEntry(st: FsState, op: CopyOperation, f: CopiedFile)
    requires |op.srcs| == 1 && IsFile(op.srcs[0]) && FilePlace(op).Sub? && Direct(st.view, FilePlace(op), false)
    requires f == CopiedTo(Found(op.srcs[0].path, op.srcs[0].hdr), FilePlace(op), op)
    ensures f.dst == FilePlace(op) && !f.hdr.IsDir() && !IsWhiteoutName(f.dst.name)
    ensures FileFor(f.src, f.dst, f.hdr) == EntryOf(f) && PlainEntry(EntryOf(f)) && EntryOf(f).Content?
    ensures KeyOf(EntryOf(f)) == f.dst && EntryOf(f).file.dst == f.dst
  {
    DirectPlain(st.view, f.dst, false);
    PlainComponent(f.dst, Depth(f.dst) - 1);
  }

  lemma ParentIsThere(st: FsState, s: FsState, p: Path, owner: Owner)
    requires p.Sub? && Grown(st, s, p, false, owner)
    ensures p.parent in s.view
  {
    WayIsPrefix(p, 0);
    hide Shaped, NearestMode, MadeFor;
    if p.parent.Sub? { assert Way(p, Depth(p) - 1) == p.parent; }
  }

  lemma EntryFits(v: View, st: FsState, s: FsState, q: Path, f: CopiedFile)
    requires NewOnWay(st, s, q, false) && !f.hdr.IsDir() && f.dst == q
    requires forall k | k in st.layer :: !Below(q, k)
    ensures Fits(v, s.layer, EntryOf(f))
  {
    forall k | k in s.layer ensures !Below(q, k) {
      if k !in st.layer && Below(q, k) { BelowIsStrict(q, k); }
    }
  }

  lemma FilePut(st: FsState, s: FsState, f: CopiedFile, now: int)
    requires Root in st.view && f.dst.Sub? && !f.hdr.IsDir() && IsUpdated(st.view, f.dst, f.hdr) == Ok(true)
    requires AddAncestors(st, f.dst, false, 0, Owner(0, 0, now)) == Ok((s, f.dst)) && f.dst.parent in s.view
    requires FileFor(f.src, f.dst, f.hdr) == EntryOf(f)
    ensures AddFile(st, f, now) == AddEntry(s, EntryOf(f)) && AddEntry(s, EntryOf(f)).Ok?
    ensures AddEntry(s, EntryOf(f)).value.view == EraseBelow(s.view, f.dst)[f.dst := EntryOf(f).file]
  {
    hide AddAncestors, IsUpdated, FileFor;
  }

  lemma NothingPut(st: FsState, op: CopyOperation, f: CopiedFile, now: int)
    requires Root in st.view && KeyedByDst(st.view) && |op.srcs| == 1 && IsFile(op.srcs[0]) && FilePlace(op).Sub?
    requires f == CopiedTo(Found(op.srcs[0].path, op.srcs[0].hdr), FilePlace(op), op)
    requires !Updates(st.view, f) && IsUpdated(st.view, f.dst, f.hdr) == Ok(false)
    ensures AddFile(st, f, now) == Ok(st) && FileCopied(st, st.view, op, now)
  {
    CopiedBrings(Found(op.srcs[0].path, op.srcs[0].hdr), FilePlace(op), op);
    hide AddAncestors, NearestMode, HeaderAt, MadeFor;
  }

  // ----- several sources -----

  /** A file that a source brings. */
  ghost predicate FromSource(s: Source, f: CopiedFile, dst: Path, inDir: bool, op: CopyOperation) {
    || (!s.hdr.IsDir() && f.src == s.path
        && f.dst == (if inDir && s.path.Sub? then Sub(dst, s.path.name) else dst)
        && Brings(f.hdr, Found(s.path, s.hdr), f.dst, op))
    || exists i: nat :: i < |s.below| && f.src == s.below[i].src
         && f.dst == Rebase(dst, s.below[i].src, Depth(s.path)) && Brings(f.hdr, s.below[i], f.dst, op)
  }

  lemma {:induction false} BelowIsFromSource(s: Source, n: nat, f: CopiedFile, dst: Path, op: CopyOperation)
    requires n <= |s.below|
    ensures f in FilesBelow(s, n, dst, op) <==>
            exists i: nat :: i < n && f.src == s.below[i].src
              && f.dst == Rebase(dst, s.below[i].src, Depth(s.path)) && Brings(f.hdr, s.below[i], f.dst, op)
  {
    FilesBelowAre(s, n, dst, op);
    forall i: nat | i < n
      ensures f == FilesBelow(s, n, dst, op)[i] <==>
              f.src == s.below[i].src && f.dst == Rebase(dst, s.below[i].src, Depth(s.path))
              && Brings(f.hdr, s.below[i], f.dst, op)
    {
      CopiedBrings(s.below[i], Rebase(dst, s.below[i].src, Depth(s.path)), op);
    }
    hide FilesBelow, CopiedTo, Brings, Rebase;
  }

  /** The files of several sources are those each of them brings, no more and no
      less, and those of an earlier source come first. */
  lemma {:induction false} CopiedFilesAre(op: CopyOperation, n: nat, dst: Path, inDir: bool)
    requires n <= |op.srcs|
    ensures forall f :: f in CopiedFiles(op, n, dst, inDir) <==>
              exists k: nat :: k < n && FromSource(op.srcs[k], f, dst, inDir, op)
    ensures forall m: nat | m <= n :: CopiedFiles(op, m, dst, inDir) <= CopiedFiles(op, n, dst, inDir)
  {
    hide Brings, FilesBelow, Rebase;
    if n > 0 {
      CopiedFilesAre(op, n - 1, dst, inDir);
      var s := op.srcs[n - 1];
      var place := if inDir && s.path.Sub? then Sub(dst, s.path.name) else dst;
      CopiedBrings(Found(s.path, s.hdr), place, op);
      forall f
        ensures f in CopiedFiles(op, n, dst, inDir) <==>
                f in CopiedFiles(op, n - 1, dst, inDir) || FromSource(s, f, dst, inDir, op)
      {
        BelowIsFromSource(s, |s.below|, f, dst, op);
      }
    }
  }
}
