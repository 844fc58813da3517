/** Building the layer of copy operations on the mutable tree (addToLayer and
    AddLayerByCopyOps in lib/snapshot/mem_fs.go). */
module CopyFiles {
  import opened Wrappers
  import opened Paths
  import opened TarHeaders
  import opened Layers
  import opened ScanTheory
  import opened MemTree
  import opened MemFiles
  import opened SortedPaths
  import opened DiskScan
  import opened CopyLayers
  import opened CopyLaw
  import Spec = Ancestors
  import Steps = LayerSteps

  /** The files copied so far: all of the first `i` sources, and of the next one
      the file itself and the first `j` files below it. */
  function SoFar(op: CopyOperation, i: nat, j: nat, dst: Path, inDir: bool): seq<CopiedFile>
    requires i < |op.srcs| && j <= |op.srcs[i].below|
  {
    CopiedFiles(op, i, dst, inDir) + FileItself(op.srcs[i], dst, inDir, op) + FilesBelow(op.srcs[i], j, dst, op)
  }

  lemma {:induction false} AddFilesStops(st: Spec.FsState, files: seq<CopiedFile>, more: seq<CopiedFile>, now: int)
    requires Root in st.view && AddFiles(st, files, now).Err?
    ensures AddFiles(st, files + more, now) == AddFiles(st, files, now)
    decreases |more|
  {
    hide AddFile;
    if more == [] {
      assert files + more == files;
    } else {
      var front := more[..|more| - 1];
      AddFilesStops(st, files, front, now);
      assert (files + more)[..|files + more| - 1] == files + front;
    }
  }

  lemma AddFilesNext(st: Spec.FsState, files: seq<CopiedFile>, f: CopiedFile, now: int)
    requires Root in st.view
    ensures var r := AddFiles(st, files, now);
            AddFiles(st, files + [f], now) == if r.Err? then r else AddFile(r.value, f, now)
  {
    hide AddFile;
    assert (files + [f])[..|files|] == files;
  }

  /** maybeAddToLayer for a copied file. */
  method CopyFile(fs: MemFS, l: MemLayer, f: CopiedFile, now: int) returns (r: Result<(), Spec.FsError>)
    requires fs.Valid()
    modifies fs`at, fs.at.Values, l
    ensures fs.Valid() && fresh(fs.at.Values - old(fs.at.Values)) && Root in old(fs.View())
    ensures match AddFile(old(State(fs, l)), f, now)
            case Ok(st) => r.Ok? && State(fs, l) == st
            case Err(e) => r == Err(e)
  {
    hide *;
    ghost var st := State(fs, l);
    ViewIs(fs, l);
    AddFileIsHalf(st, f, now);
    ghost var order;
    r, order := MaybeAddToLayer(fs, l, f.src, f.dst, f.hdr, false, map[], now);
  }

  /** Without whiteouts only the first half of maybeAddToLayer is left. */
  lemma AddFileIsHalf(st: Spec.FsState, f: CopiedFile, now: int)
    requires Root in st.view
    ensures var r := AddFile(st, f, now);
            && r == Steps.AddIfUpdated(st, f.src, f.dst, f.hdr, Spec.Owner(0, 0, now))
            && (r.Ok? ==> Steps.WhiteOutAll(r.value, [], Spec.Owner(0, 0, now)) == r)
  {
  }

  /** The walk of the first source that is left, after its own file. */
  method CopyBelow(fs: MemFS, l: MemLayer, op: CopyOperation, i: nat, dst: Path, inDir: bool, now: int,
      ghost st: Spec.FsState)
    returns (r: Result<(), Spec.FsError>)
    requires fs.Valid() && i < |op.srcs| && Root in st.view
    requires AddFiles(st, SoFar(op, i, 0, dst, inDir), now) == Ok(State(fs, l))
    modifies fs`at, fs.at.Values, l
    ensures fs.Valid() && fresh(fs.at.Values - old(fs.at.Values))
    ensures match AddFiles(st, CopiedFiles(op, i + 1, dst, inDir), now)
            case Ok(st') => r.Ok? && State(fs, l) == st'
            case Err(e) => r == Err(e)
  {
    hide *;
    var s := op.srcs[i];
    for j := 0 to |s.below|
      invariant fs.Valid() && fresh(fs.at.Values - old(fs.at.Values))
      invariant AddFiles(st, SoFar(op, i, j, dst, inDir), now) == Ok(State(fs, l))
    {
      var f := FileBelow(s, j, dst, op);
      SoFarNext(op, i, j, dst, inDir);
      AddFilesNext(st, SoFar(op, i, j, dst, inDir), f, now);
      r := CopyFile(fs, l, f, now);
      if r.Err? {
        SoFarEnds(op, i, j + 1, dst, inDir, st, now);
        return;
      }
    }
    SoFarEnds(op, i, |s.below|, dst, inDir, st, now);
    return Ok(());
  }

  lemma SoFarNext(op: CopyOperation, i: nat, j: nat, dst: Path, inDir: bool)
    requires i < |op.srcs| && j < |op.srcs[i].below|
    ensures SoFar(op, i, j + 1, dst, inDir) == SoFar(op, i, j, dst, inDir) + [FileBelow(op.srcs[i], j, dst, op)]
  {
  }

  /** All of source `i` is copied, or an error stays one. */
  lemma SoFarEnds(op: CopyOperation, i: nat, j: nat, dst: Path, inDir: bool, st: Spec.FsState, now: int)
    requires i < |op.srcs| && j <= |op.srcs[i].below| && Root in st.view
    ensures var r := AddFiles(st, SoFar(op, i, j, dst, inDir), now);
            r.Err? || j == |op.srcs[i].below| ==> AddFiles(st, CopiedFiles(op, i + 1, dst, inDir), now) == r
  {
    var all := SoFar(op, i, |op.srcs[i].below|, dst, inDir);
    assert CopiedFiles(op, i + 1, dst, inDir) == all;
    hide SoFar, AddFiles, CopiedFiles, AddFile;
    if AddFiles(st, SoFar(op, i, j, dst, inDir), now).Err? {
      var more := RestOf(op, i, j, dst, inDir);
      AddFilesStops(st, SoFar(op, i, j, dst, inDir), more, now);
    }
  }

  ghost function RestOf(op: CopyOperation, i: nat, j: nat, dst: Path, inDir: bool): (more: seq<CopiedFile>)
    requires i < |op.srcs| && j <= |op.srcs[i].below|
    ensures SoFar(op, i, |op.srcs[i].below|, dst, inDir) == SoFar(op, i, j, dst, inDir) + more
    decreases |op.srcs[i].below| - j
  {
    if j == |op.srcs[i].below| then []
    else
      SoFarNext(op, i, j, dst, inDir);
      [FileBelow(op.srcs[i], j, dst, op)] + RestOf(op, i, j + 1, dst, inDir)
  }

  /** The walk of one source, itself first. */
  method CopySource(fs: MemFS, l: MemLayer, op: CopyOperation, i: nat, dst: Path, inDir: bool, now: int,
      ghost st: Spec.FsState)
    returns (r: Result<(), Spec.FsError>)
    requires fs.Valid() && i < |op.srcs| && Root in st.view
    requires AddFiles(st, CopiedFiles(op, i, dst, inDir), now) == Ok(State(fs, l))
    modifies fs`at, fs.at.Values, l
    ensures fs.Valid() && fresh(fs.at.Values - old(fs.at.Values))
    ensures match AddFiles(st, CopiedFiles(op, i + 1, dst, inDir), now)
            case Ok(st') => r.Ok? && State(fs, l) == st'
            case Err(e) => r == Err(e)
  {
    hide *;
    var s := op.srcs[i];
    FirstOfSource(op, i, dst, inDir);
    if !s.hdr.IsDir() {
      var f := CopiedTo(Found(s.path, s.hdr), if inDir && s.path.Sub? then Sub(dst, s.path.name) else dst, op);
      AddFilesNext(st, CopiedFiles(op, i, dst, inDir), f, now);
      r := CopyFile(fs, l, f, now);
      if r.Err? {
        SoFarEnds(op, i, 0, dst, inDir, st, now);
        return;
      }
    }
    r := CopyBelow(fs, l, op, i, dst, inDir, now, st);
  }

  /** The walks of the sources, one after the other. */
  method CopySources(fs: MemFS, l: MemLayer, op: CopyOperation, dst: Path, inDir: bool, now: int)
    returns (r: Result<(), Spec.FsError>)
    requires fs.Valid()
    modifies fs`at, fs.at.Values, l
    ensures fs.Valid() && fresh(fs.at.Values - old(fs.at.Values)) && Root in old(State(fs, l)).view
    ensures match AddFiles(old(State(fs, l)), CopiedFiles(op, |op.srcs|, dst, inDir), now)
            case Ok(st') => r.Ok? && State(fs, l) == st'
            case Err(e) => r == Err(e)
  {
    hide *;
    ghost var st := State(fs, l);
    ViewIs(fs, l);
    NothingCopied(st, op, dst, inDir, now);
    for i := 0 to |op.srcs|
      invariant fs.Valid() && fresh(fs.at.Values - old(fs.at.Values)) && Root in st.view
      invariant AddFiles(st, CopiedFiles(op, i, dst, inDir), now) == Ok(State(fs, l))
    {
      r := CopySource(fs, l, op, i, dst, inDir, now, st);
      if r.Err? {
        SourcesStop(op, i + 1, dst, inDir, st, now);
        return;
      }
    }
    return Ok(());
  }

  lemma NothingCopied(st: Spec.FsState, op: CopyOperation, dst: Path, inDir: bool, now: int)
    requires Root in st.view
    ensures AddFiles(st, CopiedFiles(op, 0, dst, inDir), now) == Ok(st)
  {
  }

  /** A source that is no directory is copied before anything below it. */
  lemma FirstOfSource(op: CopyOperation, i: nat, dst: Path, inDir: bool)
    requires i < |op.srcs|
    ensures var s := op.srcs[i];
            SoFar(op, i, 0, dst, inDir)
            == if s.hdr.IsDir() then CopiedFiles(op, i, dst, inDir)
               else CopiedFiles(op, i, dst, inDir)
                    + [CopiedTo(Found(s.path, s.hdr), if inDir && s.path.Sub? then Sub(dst, s.path.name) else dst, op)]
  {
  }

  lemma {:induction false} SourcesStop(op: CopyOperation, i: nat, dst: Path, inDir: bool, st: Spec.FsState, now: int)
    requires i <= |op.srcs| && Root in st.view
    ensures var r := AddFiles(st, CopiedFiles(op, i, dst, inDir), now);
            r.Err? ==> AddFiles(st, CopiedFiles(op, |op.srcs|, dst, inDir), now) == r
    decreases |op.srcs| - i
  {
    hide *;
    if i < |op.srcs| && AddFiles(st, CopiedFiles(op, i, dst, inDir), now).Err? {
      SourceStops(op, i, dst, inDir, st, now);
      SourcesStop(op, i + 1, dst, inDir, st, now);
    }
  }

  lemma SourceStops(op: CopyOperation, i: nat, dst: Path, inDir: bool, st: Spec.FsState, now: int)
    requires i < |op.srcs| && Root in st.view && AddFiles(st, CopiedFiles(op, i, dst, inDir), now).Err?
    ensures AddFiles(st, CopiedFiles(op, i + 1, dst, inDir), now) == AddFiles(st, CopiedFiles(op, i, dst, inDir), now)
  {
    hide *;
    var s := op.srcs[i];
    OneMoreSource(op, i, dst, inDir);
    AddFilesStops(st, CopiedFiles(op, i, dst, inDir),
        FileItself(s, dst, inDir, op) + FilesBelow(s, |s.below|, dst, op), now);
  }

  lemma OneMoreSource(op: CopyOperation, i: nat, dst: Path, inDir: bool)
    requires i < |op.srcs|
    ensures var s := op.srcs[i];
            CopiedFiles(op, i + 1, dst, inDir)
            == CopiedFiles(op, i, dst, inDir) + (FileItself(s, dst, inDir, op) + FilesBelow(s, |s.below|, dst, op))
  {
  }

  /** addToLayer. */
  method CopyToLayer(fs: MemFS, l: MemLayer, op: CopyOperation, now: int) returns (r: Result<(), Spec.FsError>)
    requires fs.Valid()
    modifies fs`at, fs.at.Values, l
    ensures fs.Valid() && fresh(fs.at.Values - old(fs.at.Values)) && Root in old(State(fs, l)).view
    ensures match AddToLayer(old(State(fs, l)), op, now)
            case Ok(st) => r.Ok? && State(fs, l) == st
            case Err(e) => r == Err(e)
  {
    hide *;
    ghost var st := State(fs, l);
    ViewIs(fs, l);
    AddToLayerIs(st, op, now);
    var dst, inDir := op.dst, op.dirFormat;
    if |op.srcs| != 1 || op.srcs[0].hdr.IsDir() {
      var a := AddAncestors(fs, l, op.dst, true, 0, Spec.Owner(op.uid, op.gid, now));
      if a.Err? {
        return Err(a.error);
      }
      dst, inDir := a.value, true;
    }
    r := CopySources(fs, l, op, dst, inDir, now);
  }

  lemma AddToLayerIs(st: Spec.FsState, op: CopyOperation, now: int)
    requires Root in st.view
    ensures var a := Spec.AddAncestors(st, op.dst, true, 0, Spec.Owner(op.uid, op.gid, now));
            AddToLayer(st, op, now) ==
            if |op.srcs| == 1 && !op.srcs[0].hdr.IsDir() then
              AddFiles(st, CopiedFiles(op, |op.srcs|, op.dst, op.dirFormat), now)
            else if a.Err? then Err(a.error)
            else AddFiles(a.value.0, CopiedFiles(op, |op.srcs|, a.value.1, true), now)
  {
    hide Spec.AddAncestors, AddFiles, CopiedFiles;
  }

  /** AddLayerByCopyOps, up to writing the layer. */
  method CreateLayerByCopies(fs: MemFS, ops: seq<CopyOperation>, now: int)
    returns (r: Result<(), Spec.FsError>, l: MemLayer)
    requires fs.Valid()
    modifies fs`at, fs.at.Values
    ensures fresh(l) && fs.Valid() && fresh(fs.at.Values - old(fs.at.Values)) && Root in old(fs.View())
    ensures match AddOperations(Spec.FsState(old(fs.View()), map[]), ops, now)
            case Ok(st) => r.Ok? && State(fs, l) == st
            case Err(e) => r == Err(e)
  {
    hide *;
    l := new MemLayer();
    ghost var st := State(fs, l);
    ViewIs(fs, l);
    NoOperation(st, now);
    for i := 0 to |ops|
      invariant fs.Valid() && fresh(fs.at.Values - old(fs.at.Values))
      invariant AddOperations(st, ops[..i], now) == Ok(State(fs, l))
    {
      NextOperation(st, ops, i, now);
      r := CopyToLayer(fs, l, ops[i], now);
      if r.Err? {
        OperationsStop(st, ops, i + 1, now);
        return;
      }
    }
    assert ops[..|ops|] == ops;
    return Ok(()), l;
  }

  lemma NoOperation(st: Spec.FsState, now: int)
    requires Root in st.view
    ensures AddOperations(st, [], now) == Ok(st)
  {
  }

  lemma NextOperation(st: Spec.FsState, ops: seq<CopyOperation>, i: nat, now: int)
    requires i < |ops| && Root in st.view
    ensures var r := AddOperations(st, ops[..i], now);
            AddOperations(st, ops[..i + 1], now) == if r.Err? then r else AddToLayer(r.value, ops[i], now)
  {
    hide AddToLayer;
    assert ops[..i + 1][..i] == ops[..i];
  }

  lemma {:induction false} OperationsStop(st: Spec.FsState, ops: seq<CopyOperation>, i: nat, now: int)
    requires i <= |ops| && Root in st.view && AddOperations(st, ops[..i], now).Err?
    ensures AddOperations(st, ops, now) == AddOperations(st, ops[..i], now)
    decreases |ops| - i
  {
    hide AddOperations;
    if i < |ops| {
      NextOperation(st, ops, i, now);
      OperationsStop(st, ops, i + 1, now);
    } else {
      assert ops[..i] == ops;
    }
  }

  // ----- the diff law, on the running code -----

  /** Copies on one tree, then their layer applied to another copy of the old
      tree: if every entry fits where it is put, both end as the same tree. */
  method CopyThenApply(fs: MemFS, replica: MemFS, ops: seq<CopyOperation>, now: int)
    returns (r: Result<(), Spec.FsError>)
    requires fs.Valid() && replica.Valid() && replica.View() == fs.View()
    requires fs != replica && fs.at.Values !! replica.at.Values
    requires Root in fs.View()
    requires forall e | e in CopyEntries(Spec.FsState(fs.View(), map[]), ops, now) :: !Nameless(e)
    modifies fs`at, fs.at.Values, replica`at, replica.at.Values
    ensures fs.Valid() && replica.Valid()
    ensures var st := Spec.FsState(old(fs.View()), map[]);
            && (r.Ok? <==> AddOperations(st, ops, now).Ok?)
            && (r.Ok? && AllFit(old(fs.View()), st, CopyEntries(st, ops, now)) ==> replica.View() == fs.View())
  {
    hide *;
    ghost var v := fs.View();
    ViewIsKeyed(fs);
    CopiesApply(v, ops, now);
    var l;
    r, l := CreateLayerByCopies(fs, ops, now);
    if r.Ok? {
      ViewIs(fs, l);
      var a, keys := ApplyLayer(replica, l);
      if Law(v, State(fs, l)) { SortedIsLaw(v, State(fs, l), keys); }
    }
  }

  lemma ViewIsKeyed(fs: MemFS)
    requires fs.Valid()
    ensures IsTree(fs.View()) && KeyedByDst(fs.View())
  {
    fs.ViewIsTree();
  }

  lemma CopiesApply(v: View, ops: seq<CopyOperation>, now: int)
    requires IsTree(v) && KeyedByDst(v) && Root in v
    requires forall e | e in CopyEntries(Spec.FsState(v, map[]), ops, now) :: !Nameless(e)
    ensures var st := Spec.FsState(v, map[]);
            var r := AddOperations(st, ops, now);
            && (r.Ok? ==> NoWhiteoutContent(r.value.layer) && KeyedLayer(r.value.layer))
            && (r.Ok? && AllFit(v, st, CopyEntries(st, ops, now)) ==> Law(v, r.value))
  {
    var st := Spec.FsState(v, map[]);
    assert IsKeyedTree(v) && KeyedLayer(map[]);
    hide *;
    CopyLayerLaw(v, ops, now);
    CopiesAreNamed(st, ops, now);
    NamedIsPlain(CopyEntries(st, ops, now));
    EntriesKeepKeys(st, CopyEntries(st, ops, now));
    var r := AddOperations(st, ops, now);
    if r.Ok? { KeyedHasNoWhiteouts(r.value.layer); }
  }

  lemma {:induction false} EntriesKeepKeys(st: Spec.FsState, es: seq<MemFile>)
    requires KeyedLayer(st.layer) && PlainEntries(es)
    ensures var r := AddEntries(st, es); r.Ok? ==> KeyedLayer(r.value.layer)
    decreases |es|
  {
    hide Put, IsWhiteoutName;
    if es != [] && Spec.AddEntry(st, es[0]).Ok? {
      EntriesKeepKeys(Spec.AddEntry(st, es[0]).value, es[1..]);
    }
  }

  lemma KeyedHasNoWhiteouts(l: Layer)
    requires KeyedLayer(l)
    ensures NoWhiteoutContent(l)
  {
  }

  /** The order of rangeFiles is one in which the law holds. */
  lemma SortedIsLaw(v: View, st: Spec.FsState, keys: seq<Path>)
    requires Law(v, st) && KeyedLayer(st.layer) && Sorted(keys) && Lists(keys, st.layer.Keys)
    ensures (forall k | k in keys :: k in st.layer) && Replay(v, st.layer, keys) == Ok(st.view)
  {
    SortedIsAncestorsFirst(keys);
  }
}
