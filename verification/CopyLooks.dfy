/** Copies see of a tree only what the header comparison sees: on trees that look
    the same they do the same. */
module CopyLooks {
  import opened Wrappers
  import opened Paths
  import opened PathStrings
  import opened TarHeaders
  import opened Layers
  import opened ScanTheory
  import opened Ancestors
  import opened LayerSteps
  import opened CopyLayers
  import opened LookTrees

  /** The same header, or two named ones that look the same. */
  ghost predicate SameHeader(h: Header, k: Header) {
    h == k || (h.Supported() && k.Supported() && h.name != "" && k.name != "" && LookOf(h) == LookOf(k))
  }

  ghost predicate SameFile(c: ContentFile, d: ContentFile) {
    c.dst == d.dst && SameHeader(c.hdr, d.hdr)
  }

  ghost predicate SameView(v: View, w: View) {
    && v.Keys == w.Keys
    && (forall p | p in v :: SameFile(v[p], w[p]))
  }

  ghost predicate SameResult(r: Result<FsState, FsError>, q: Result<FsState, FsError>) {
    match r
    case Ok(st) => q.Ok? && SameView(st.view, q.value.view)
    case Err(e) => q == Err(e)
  }

  ghost predicate SameEnd(r: Result<(FsState, Path), FsError>, q: Result<(FsState, Path), FsError>) {
    match r
    case Ok((st, p)) => q.Ok? && q.value.1 == p && SameView(st.view, q.value.0.view)
    case Err(e) => q == Err(e)
  }

  lemma SameKind(h: Header, k: Header)
    requires SameHeader(h, k)
    ensures (h.IsDir() <==> k.IsDir()) && (h.IsSymlink() <==> k.IsSymlink())
    ensures h.IsSymlink() ==> h.linkname == k.linkname
    ensures h.IsDir() ==> h.mode == k.mode
  {
  }

  /** The comparison with a third header gives the same answer. */
  lemma SameAnswer(h: Header, k: Header, f: Header)
    requires SameHeader(h, k)
    ensures IsSimilarHeader(h, f, false) == IsSimilarHeader(k, f, false)
  {
  }

  lemma PutSame(v: View, w: View, c: ContentFile, d: ContentFile)
    requires SameView(v, w) && SameFile(c, d)
    ensures match PutContent(v, c)
            case Ok(r) => PutContent(w, d).Ok? && SameView(r, PutContent(w, d).value)
            case Err(e) => PutContent(w, d) == Err(e)
  {
    SameKind(c.hdr, d.hdr);
    hide SameHeader;
  }

  lemma EraseSame(v: View, w: View, del: Path)
    requires SameView(v, w)
    ensures match PutWhiteout(v, del)
            case Ok(r) => PutWhiteout(w, del).Ok? && SameView(r, PutWhiteout(w, del).value)
            case Err(e) => PutWhiteout(w, del) == Err(e)
  {
    hide SameFile;
  }

  lemma EntrySame(st: FsState, st': FsState, c: ContentFile, d: ContentFile)
    requires SameView(st.view, st'.view) && SameFile(c, d)
    ensures SameResult(AddEntry(st, FileFor(c.src, c.dst, c.hdr)), AddEntry(st', FileFor(d.src, d.dst, d.hdr)))
  {
    PutSame(st.view, st'.view, c, d);
    hide SameView, SameHeader, PutContent, PutWhiteout, IsWhiteoutName;
    var f := FileFor(c.src, c.dst, c.hdr);
    if f.Whiteout? { EraseSame(st.view, st'.view, f.del); }
  }

  lemma {:induction false} MissingSame(st: FsState, st': FsState, parts: seq<string>, j: nat, end: nat, like: Header,
      like': Header, owner: Owner)
    requires SameView(st.view, st'.view) && like.mode == like'.mode && j <= end <= |parts|
    ensures SameResult(AddMissing(st, parts, j, end, like, owner), AddMissing(st', parts, j, end, like', owner))
    decreases end - j
  {
    hide SameView, AddEntry, FileFor;
    if j < end {
      var p := Prefix(parts, j + 1);
      var c := ContentFile(Root, p, MissingDirHeader(p, like, owner));
      assert MissingDirHeader(p, like', owner) == c.hdr;
      EntrySame(st, st', c, c);
      var e := MissingDir(p, like, owner);
      if AddEntry(st, e).Ok? {
        MissingSame(AddEntry(st, e).value, AddEntry(st', e).value, parts, j + 1, end, like, like', owner);
      }
    }
  }

  lemma SameAt(v: View, w: View, p: Path)
    requires SameView(v, w)
    ensures p in v <==> p in w
    ensures p in v ==> SameFile(v[p], w[p])
  {
  }

  lemma {:induction false} AncestorsSame(st: FsState, st': FsState, dst: Path, inclusive: bool, depth: nat,
      owner: Owner)
    requires SameView(st.view, st'.view) && Root in st.view && Root in st'.view && st.view[Root].hdr.IsDir()
    ensures SameEnd(AddAncestors(st, dst, inclusive, depth, owner), AddAncestors(st', dst, inclusive, depth, owner))
    decreases MAX_DEPTH - depth, 1, 0
  {
    if depth < MAX_DEPTH {
      SameAt(st.view, st'.view, Root);
      SameKind(st.view[Root].hdr, st'.view[Root].hdr);
      ClimbSame(st, st', dst, inclusive, depth, owner, 0, Root, st.view[Root].hdr, st'.view[Root].hdr);
    }
  }

  lemma {:induction false} ClimbSame(st: FsState, st': FsState, dst: Path, inclusive: bool, depth: nat, owner: Owner,
      i: nat, curr: Path, like: Header, like': Header)
    requires SameView(st.view, st'.view) && Root in st.view && Root in st'.view && st.view[Root].hdr.IsDir()
    requires i <= End(dst, inclusive) <= Depth(dst) && depth < MAX_DEPTH && like.mode == like'.mode
    ensures SameEnd(Climb(st, dst, inclusive, depth, owner, i, curr, like),
                Climb(st', dst, inclusive, depth, owner, i, curr, like'))
    decreases MAX_DEPTH - depth, 0, End(dst, inclusive) - i
  {
    hide AddEntry, FileFor, AddAncestors, AddMissing, LinkTarget, FromParts, SameView, SameHeader;
    var parts, end := Parts(dst), End(dst, inclusive);
    if i < end { SameAt(st.view, st'.view, Sub(curr, parts[i])); }
    if i == end || Sub(curr, parts[i]) !in st.view {
      MissingSame(st, st', parts, i, end, like, like', owner);
    } else {
      var next := Sub(curr, parts[i]);
      var n, n' := st.view[next], st'.view[next];
      SameKind(n.hdr, n'.hdr);
      EntrySame(st, st', n, n');
      var r, r' := AddEntry(st, FileFor(n.src, n.dst, n.hdr)), AddEntry(st', FileFor(n'.src, n'.dst, n'.hdr));
      if r.Ok? {
        RootStays(st, FileFor(n.src, n.dst, n.hdr));
        if n.hdr.IsDir() {
          ClimbSame(r.value, r'.value, dst, inclusive, depth, owner, i + 1, next, n.hdr, n'.hdr);
        } else if n.hdr.IsSymlink() {
          var target := FromParts(LinkTarget(n.hdr.linkname, parts[i + 1..]));
          AncestorsSame(r.value, r'.value, target, inclusive, depth + 1, owner);
        } else {
          ClimbSame(r.value, r'.value, dst, inclusive, depth, owner, i + 1, curr, like, like');
        }
      }
    }
  }

  /** The root is never replaced. */
  lemma RootStays(st: FsState, e: MemFile)
    requires Root in st.view
    ensures var r := AddEntry(st, e); r.Ok? ==> Root in r.value.view && r.value.view[Root] == st.view[Root]
  {
  }

  lemma {:induction false} RootKept(st: FsState, es: seq<MemFile>)
    requires Root in st.view
    ensures var r := AddEntries(st, es); r.Ok? ==> Root in r.value.view && r.value.view[Root] == st.view[Root]
    decreases |es|
  {
    hide AddEntry;
    if es != [] {
      RootStays(st, es[0]);
      if AddEntry(st, es[0]).Ok? { RootKept(AddEntry(st, es[0]).value, es[1..]); }
    }
  }

  lemma FileSame(st: FsState, st': FsState, f: CopiedFile, now: int)
    requires SameView(st.view, st'.view) && Root in st.view && Root in st'.view && st.view[Root].hdr.IsDir()
    ensures SameResult(AddFile(st, f, now), AddFile(st', f, now))
  {
    hide AddEntry, FileFor, AddAncestors, SameView, SameHeader, IsSimilarHeader;
    SameAt(st.view, st'.view, f.dst);
    if f.dst in st.view { SameAnswer(st.view[f.dst].hdr, st'.view[f.dst].hdr, f.hdr); }
    AncestorsSame(st, st', f.dst, false, 0, Owner(0, 0, now));
    var owner := Owner(0, 0, now);
    var a, a' := AddAncestors(st, f.dst, false, 0, owner), AddAncestors(st', f.dst, false, 0, owner);
    if a.Ok? {
      var c := ContentFile(f.src, f.dst, f.hdr);
      SameItself(c);
      EntrySame(a.value.0, a'.value.0, c, c);
    }
  }

  lemma SameItself(c: ContentFile)
    ensures SameFile(c, c)
  {
  }

  lemma {:induction false} FilesSame(st: FsState, st': FsState, files: seq<CopiedFile>, now: int)
    requires SameView(st.view, st'.view) && Root in st.view && Root in st'.view && st.view[Root].hdr.IsDir()
    ensures SameResult(AddFiles(st, files, now), AddFiles(st', files, now))
  {
    hide AddFile, SameView;
    if files != [] {
      var front := files[..|files| - 1];
      FilesSame(st, st', front, now);
      var r := AddFiles(st, front, now);
      if r.Ok? {
        FilesAreEntries(st, front, now);
        RootKept(st, FilesEntries(st, front, now));
        FileSame(r.value, AddFiles(st', front, now).value, files[|files| - 1], now);
      }
    }
  }

  /** A copy does the same to trees that look the same. */
  lemma OperationSame(st: FsState, st': FsState, op: CopyOperation, now: int)
    requires SameView(st.view, st'.view) && Root in st.view && Root in st'.view && st.view[Root].hdr.IsDir()
    ensures SameResult(AddToLayer(st, op, now), AddToLayer(st', op, now))
  {
    hide AddAncestors, AddFiles, SameView, CopiedFiles, AncestorEntries, AddEntries;
    var owner := Owner(op.uid, op.gid, now);
    AncestorsSame(st, st', op.dst, true, 0, owner);
    AncestorsAreEntries(st, op.dst, true, 0, owner);
    RootKept(st, AncestorEntries(st, op.dst, true, 0, owner));
    var m, m' := MakeDst(st, op, now), MakeDst(st', op, now);
    if m.Ok? {
      FilesSame(m.value.0, m'.value.0, CopiedFiles(op, |op.srcs|, m.value.1, m.value.2), now);
    }
  }
}
