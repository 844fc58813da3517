/** Layers of copy operations (addToLayer in lib/snapshot/mem_fs.go) on views,
    and the entries they are made of, in the order in which they are added. */
module CopyLayers {
  import opened Wrappers
  import opened Paths
  import opened PathStrings
  import opened TarHeaders
  import opened Layers
  import opened ScanTheory
  import opened Ancestors
  import opened LayerSteps

  // ----- addToLayer -----

  /** A file as the walk of a source finds it. */
  datatype Found = Found(src: Path, hdr: Header)

  /** A source with its symlinks followed: its own path and header, and what the
      walk finds below it if it is a directory. */
  datatype Source = Source(path: Path, hdr: Header, below: seq<Found>)

  /** `dirFormat` says that the destination is written with a trailing slash. */
  datatype CopyOperation = CopyOperation(srcs: seq<Source>, dst: Path, dirFormat: bool, uid: int, gid: int)
  {
    /** Only a single file is copied without making the destination a directory. */
    predicate MakesDst() {
      !(|srcs| == 1 && !srcs[0].hdr.IsDir())
    }
  }

  datatype CopiedFile = CopiedFile(src: Path, dst: Path, hdr: Header)

  /** createHeader for a copied file, with the owner of the operation. */
  function HeaderAt(h: Header, src: Path, dst: Path, op: CopyOperation): Header {
    h.(name := RelPath(Render(dst)) + (if h.IsDir() && src.Sub? then "/" else ""), uid := op.uid, gid := op.gid)
  }

  function CopiedTo(f: Found, dst: Path, op: CopyOperation): CopiedFile {
    CopiedFile(f.src, dst, HeaderAt(f.hdr, f.src, dst, op))
  }

  /** The file itself, unless the source is a directory. */
  function FileItself(s: Source, dst: Path, inDir: bool, op: CopyOperation): seq<CopiedFile> {
    if s.hdr.IsDir() then []
    else
      [CopiedTo(Found(s.path, s.hdr), if inDir && s.path.Sub? then Sub(dst, s.path.name) else dst, op)]
  }

  /** File `i` below a source, at the same place below `dst`. */
  function FileBelow(s: Source, i: nat, dst: Path, op: CopyOperation): CopiedFile
    requires i < |s.below|
  {
    CopiedTo(s.below[i], Rebase(dst, s.below[i].src, Depth(s.path)), op)
  }

  function FilesBelow(s: Source, n: nat, dst: Path, op: CopyOperation): seq<CopiedFile>
    requires n <= |s.below|
  {
    if n == 0 then []
    else FilesBelow(s, n - 1, dst, op) + [FileBelow(s, n - 1, dst, op)]
  }

  /** Everything the first `n` sources bring to `dst`. */
  function CopiedFiles(op: CopyOperation, n: nat, dst: Path, inDir: bool): seq<CopiedFile>
    requires n <= |op.srcs|
  {
    if n == 0 then []
    else
      var s := op.srcs[n - 1];
      CopiedFiles(op, n - 1, dst, inDir) + FileItself(s, dst, inDir, op) + FilesBelow(s, |s.below|, dst, op)
  }

  /** maybeAddToLayer without whiteouts. */
  function AddFile(st: FsState, f: CopiedFile, now: int): (r: Result<FsState, FsError>)
    requires Root in st.view
    ensures r.Ok? ==> Root in r.value.view
  {
    AddIfUpdated(st, f.src, f.dst, f.hdr, Owner(0, 0, now))
  }

  function AddFiles(st: FsState, files: seq<CopiedFile>, now: int): (r: Result<FsState, FsError>)
    requires Root in st.view
    ensures r.Ok? ==> Root in r.value.view
  {
    if files == [] then Ok(st)
    else
      match AddFiles(st, files[..|files| - 1], now)
      case Err(e) => Err(e)
      case Ok(st') => AddFile(st', files[|files| - 1], now)
  }

  /** The state and the destination the files are copied to. */
  function MakeDst(st: FsState, op: CopyOperation, now: int): (r: Result<(FsState, Path, bool), FsError>)
    requires Root in st.view
    ensures r.Ok? ==> Root in r.value.0.view
  {
    if !op.MakesDst() then Ok((st, op.dst, op.dirFormat))
    else
      match AddAncestors(st, op.dst, true, 0, Owner(op.uid, op.gid, now))
      case Err(e) => Err(e)
      case Ok((st', dst)) => Ok((st', dst, true))
  }

  function AddToLayer(st: FsState, op: CopyOperation, now: int): (r: Result<FsState, FsError>)
    requires Root in st.view
    ensures r.Ok? ==> Root in r.value.view
  {
    match MakeDst(st, op, now)
    case Err(e) => Err(e)
    case Ok((st', dst, inDir)) => AddFiles(st', CopiedFiles(op, |op.srcs|, dst, inDir), now)
  }

  function AddOperations(st: FsState, ops: seq<CopyOperation>, now: int): (r: Result<FsState, FsError>)
    requires Root in st.view
    ensures r.Ok? ==> Root in r.value.view
  {
    if ops == [] then Ok(st)
    else
      match AddOperations(st, ops[..|ops| - 1], now)
      case Err(e) => Err(e)
      case Ok(st') => AddToLayer(st', ops[|ops| - 1], now)
  }

  // ----- the entries of a layer, one after the other -----

  /** addHeader and updateMemFS for each entry. */
  function AddEntries(st: FsState, es: seq<MemFile>): (r: Result<FsState, FsError>)
    ensures r.Ok? && Root in st.view ==> Root in r.value.view
    decreases |es|
  {
    if es == [] then Ok(st)
    else
      match AddEntry(st, es[0])
      case Err(e) => Err(e)
      case Ok(st') => AddEntries(st', es[1..])
  }

  function MissingEntries(parts: seq<string>, j: nat, end: nat, like: Header, owner: Owner): seq<MemFile>
    requires j <= end <= |parts|
    decreases end - j
  {
    if j == end then []
    else [MissingDir(Prefix(parts, j + 1), like, owner)] + MissingEntries(parts, j + 1, end, like, owner)
  }

  function AncestorEntries(st: FsState, dst: Path, inclusive: bool, depth: nat, owner: Owner): seq<MemFile>
    requires Root in st.view
    decreases MAX_DEPTH - depth, 1, 0
  {
    if depth >= MAX_DEPTH then []
    else ClimbEntries(st, dst, inclusive, depth, owner, 0, Root, st.view[Root].hdr)
  }

  function ClimbEntries(st: FsState, dst: Path, inclusive: bool, depth: nat, owner: Owner, i: nat, curr: Path,
      like: Header): seq<MemFile>
    requires i <= End(dst, inclusive) && depth < MAX_DEPTH && Root in st.view
    decreases MAX_DEPTH - depth, 0, End(dst, inclusive) - i
  {
    var parts, end := Parts(dst), End(dst, inclusive);
    if i == end || Sub(curr, parts[i]) !in st.view then MissingEntries(parts, i, end, like, owner)
    else
      var next := Sub(curr, parts[i]);
      var n := st.view[next];
      var e := FileFor(n.src, n.dst, n.hdr);
      match AddEntry(st, e)
      case Err(_) => [e]
      case Ok(st') =>
        [e] +
        if n.hdr.IsDir() then ClimbEntries(st', dst, inclusive, depth, owner, i + 1, next, n.hdr)
        else if n.hdr.IsSymlink() then
          AncestorEntries(st', FromParts(LinkTarget(n.hdr.linkname, parts[i + 1..])), inclusive, depth + 1, owner)
        else ClimbEntries(st', dst, inclusive, depth, owner, i + 1, curr, like)
  }

  /** A file that is new or changed, after its ancestors. */
  function FileEntries(st: FsState, f: CopiedFile, now: int): seq<MemFile>
    requires Root in st.view
  {
    if IsUpdated(st.view, f.dst, f.hdr) != Ok(true) || f.dst.Root? then []
    else AncestorEntries(st, f.dst, false, 0, Owner(0, 0, now)) + [FileFor(f.src, f.dst, f.hdr)]
  }

  function FilesEntries(st: FsState, files: seq<CopiedFile>, now: int): seq<MemFile>
    requires Root in st.view
  {
    if files == [] then []
    else
      var r := AddFiles(st, files[..|files| - 1], now);
      FilesEntries(st, files[..|files| - 1], now)
      + if r.Ok? then FileEntries(r.value, files[|files| - 1], now) else []
  }

  function OperationEntries(st: FsState, op: CopyOperation, now: int): seq<MemFile>
    requires Root in st.view
  {
    var r := MakeDst(st, op, now);
    (if op.MakesDst() then AncestorEntries(st, op.dst, true, 0, Owner(op.uid, op.gid, now)) else [])
    + if r.Ok? then FilesEntries(r.value.0, CopiedFiles(op, |op.srcs|, r.value.1, r.value.2), now) else []
  }

  function CopyEntries(st: FsState, ops: seq<CopyOperation>, now: int): seq<MemFile>
    requires Root in st.view
  {
    if ops == [] then []
    else
      var r := AddOperations(st, ops[..|ops| - 1], now);
      CopyEntries(st, ops[..|ops| - 1], now)
      + if r.Ok? then OperationEntries(r.value, ops[|ops| - 1], now) else []
  }

  // ----- the entries are the copies -----

  lemma {:induction false} AddAppend(st: FsState, a: seq<MemFile>, b: seq<MemFile>)
    ensures var r := AddEntries(st, a); AddEntries(st, a + b) == if r.Err? then r else AddEntries(r.value, b)
    decreases |a|
  {
    hide AddEntry;
    if a == [] {
      assert a + b == b;
    } else {
      assert (a + b)[0] == a[0] && (a + b)[1..] == a[1..] + b;
      var r := AddEntry(st, a[0]);
      if r.Ok? { AddAppend(r.value, a[1..], b); }
    }
  }

  lemma AddOne(st: FsState, e: MemFile, es: seq<MemFile>)
    ensures var r := AddEntry(st, e);
            && AddEntries(st, [e] + es) == (if r.Err? then Err(r.error) else AddEntries(r.value, es))
            && AddEntries(st, [e]) == (if r.Err? then Err(r.error) else Ok(r.value))
    ensures AddEntries(st, []) == Ok(st)
  {
    hide AddEntry;
    assert ([e] + es)[1..] == es;
  }

  lemma {:induction false} MissingAreEntries(st: FsState, parts: seq<string>, j: nat, end: nat, like: Header,
      owner: Owner)
    requires j <= end <= |parts|
    ensures AddMissing(st, parts, j, end, like, owner) == AddEntries(st, MissingEntries(parts, j, end, like, owner))
    decreases end - j
  {
    hide AddEntry, MissingDir, AddEntries;
    if j < end {
      var e := MissingDir(Prefix(parts, j + 1), like, owner);
      AddOne(st, e, MissingEntries(parts, j + 1, end, like, owner));
      var r := AddEntry(st, e);
      if r.Ok? { MissingAreEntries(r.value, parts, j + 1, end, like, owner); }
    } else {
      AddOne(st, MissingDir(Root, like, owner), []);
    }
  }

  /** A call that succeeds leaves what its entries leave. */
  ghost predicate MadeOf(st: FsState, r: Result<(FsState, Path), FsError>, es: seq<MemFile>) {
    r.Ok? ==> AddEntries(st, es) == Ok(r.value.0)
  }

  lemma {:induction false} AncestorsAreEntries(st: FsState, dst: Path, inclusive: bool, depth: nat, owner: Owner)
    requires Root in st.view
    ensures MadeOf(st, AddAncestors(st, dst, inclusive, depth, owner),
                AncestorEntries(st, dst, inclusive, depth, owner))
    decreases MAX_DEPTH - depth, 1, 0
  {
    if depth < MAX_DEPTH {
      ClimbIsEntries(st, dst, inclusive, depth, owner, 0, Root, st.view[Root].hdr);
    }
  }

  lemma {:induction false} ClimbIsEntries(st: FsState, dst: Path, inclusive: bool, depth: nat, owner: Owner, i: nat,
      curr: Path, like: Header)
    requires i <= End(dst, inclusive) <= Depth(dst) && depth < MAX_DEPTH && Root in st.view
    ensures MadeOf(st, Climb(st, dst, inclusive, depth, owner, i, curr, like),
                ClimbEntries(st, dst, inclusive, depth, owner, i, curr, like))
    decreases MAX_DEPTH - depth, 0, End(dst, inclusive) - i
  {
    hide AddEntry, FileFor, AddAncestors, AncestorEntries, AddMissing, MissingEntries, LinkTarget, FromParts,
        AddEntries;
    var parts, end := Parts(dst), End(dst, inclusive);
    if i == end || Sub(curr, parts[i]) !in st.view {
      MissingAreEntries(st, parts, i, end, like, owner);
    } else {
      var next := Sub(curr, parts[i]);
      var n := st.view[next];
      var e := FileFor(n.src, n.dst, n.hdr);
      var r := AddEntry(st, e);
      if r.Ok? {
        if n.hdr.IsDir() {
          ClimbIsEntries(r.value, dst, inclusive, depth, owner, i + 1, next, n.hdr);
          AddOne(st, e, ClimbEntries(r.value, dst, inclusive, depth, owner, i + 1, next, n.hdr));
        } else if n.hdr.IsSymlink() {
          var target := FromParts(LinkTarget(n.hdr.linkname, parts[i + 1..]));
          AncestorsAreEntries(r.value, target, inclusive, depth + 1, owner);
          AddOne(st, e, AncestorEntries(r.value, target, inclusive, depth + 1, owner));
        } else {
          ClimbIsEntries(r.value, dst, inclusive, depth, owner, i + 1, curr, like);
          AddOne(st, e, ClimbEntries(r.value, dst, inclusive, depth, owner, i + 1, curr, like));
        }
      }
    }
  }

  lemma FileIsEntries(st: FsState, f: CopiedFile, now: int)
    requires Root in st.view
    ensures var r := AddFile(st, f, now); r.Ok? ==> AddEntries(st, FileEntries(st, f, now)) == r
  {
    hide AddEntry, AddEntries, AddAncestors, AncestorEntries, FileFor, IsUpdated;
    var e, owner := FileFor(f.src, f.dst, f.hdr), Owner(0, 0, now);
    var before := AncestorEntries(st, f.dst, false, 0, owner);
    AncestorsAreEntries(st, f.dst, false, 0, owner);
    AddAppend(st, before, [e]);
    AddOne(st, e, []);
    var r := AddAncestors(st, f.dst, false, 0, owner);
    if r.Ok? { AddOne(r.value.0, e, []); }
  }

  lemma {:induction false} FilesAreEntries(st: FsState, files: seq<CopiedFile>, now: int)
    requires Root in st.view
    ensures var r := AddFiles(st, files, now); r.Ok? ==> AddEntries(st, FilesEntries(st, files, now)) == r
  {
    hide AddFile, FileEntries;
    if files != [] {
      var front, last := files[..|files| - 1], files[|files| - 1];
      FilesAreEntries(st, front, now);
      var r := AddFiles(st, front, now);
      if r.Ok? {
        FileIsEntries(r.value, last, now);
        AddAppend(st, FilesEntries(st, front, now), FileEntries(r.value, last, now));
      }
    }
  }

  lemma OperationIsEntries(st: FsState, op: CopyOperation, now: int)
    requires Root in st.view
    ensures var r := AddToLayer(st, op, now); r.Ok? ==> AddEntries(st, OperationEntries(st, op, now)) == r
  {
    hide AddEntries, AddAncestors, AncestorEntries, AddFiles, FilesEntries, CopiedFiles;
    var m, owner := MakeDst(st, op, now), Owner(op.uid, op.gid, now);
    if m.Ok? {
      var files := CopiedFiles(op, |op.srcs|, m.value.1, m.value.2);
      FilesAreEntries(m.value.0, files, now);
      AncestorsAreEntries(st, op.dst, true, 0, owner);
      AddOne(st, MissingDir(Root, st.view[Root].hdr, owner), []);
      var made := if op.MakesDst() then AncestorEntries(st, op.dst, true, 0, owner) else [];
      AddAppend(st, made, FilesEntries(m.value.0, files, now));
    }
  }

  /** What copies leave behind is what their entries leave behind. */
  lemma {:induction false} CopiesAreEntries(st: FsState, ops: seq<CopyOperation>, now: int)
    requires Root in st.view
    ensures var r := AddOperations(st, ops, now); r.Ok? ==> AddEntries(st, CopyEntries(st, ops, now)) == r
  {
    hide AddToLayer, OperationEntries;
    if ops != [] {
      var front, last := ops[..|ops| - 1], ops[|ops| - 1];
      CopiesAreEntries(st, front, now);
      var r := AddOperations(st, front, now);
      if r.Ok? {
        OperationIsEntries(r.value, last, now);
        AddAppend(st, CopyEntries(st, front, now), OperationEntries(r.value, last, now));
      }
    }
  }
}
