/** Two runs of copies whose layer is not a correct diff. */
module CopyExamples {
  import opened Wrappers
  import opened Paths
  import opened PathStrings
  import opened TarHeaders
  import opened Layers
  import opened ScanTheory
  import opened Ancestors
  import opened LayerSteps
  import opened CopyLayers
  import opened CopyLaw
  import opened CopyAncestors
  import opened CopyPlans
  import opened CopiedTrees

  const DIR: Header := Header("", TypeDir, "", 0, 0, 0, 0, 0)
  const FILE: Header := Header("", TypeReg, "", 0, 0, 0, 0, 0)

  function Dir(p: Path): ContentFile {
    ContentFile(p, p, DIR)
  }

  function At(name: string): Path {
    Sub(Root, name)
  }

  // ----- a file over a copied directory -----

  /** The directory s with a/b in it, copied to d; then the file a, copied into d. */
  const TREE: CopyOperation :=
    CopyOperation([Source(At("s"), DIR, [Found(Sub(At("s"), "a"), DIR), Found(Sub(Sub(At("s"), "a"), "b"), FILE)])],
      At("d"), true, 0, 0)

  const OVER: CopyOperation := CopyOperation([Source(At("a"), FILE, [])], At("d"), true, 0, 0)

  function Empty(): View {
    map[Root := Dir(Root)]
  }

  lemma EmptyIsShaped()
    ensures IsTree(Empty()) && KeyedByDst(Empty()) && Comparable(Empty())
    ensures Described(Empty(), FsState(Empty(), map[])) && OnlyContent(map[])
  {
    NothingIsDescribed(Empty());
  }

  lemma TreeIsListed()
    ensures IsListing(TREE.srcs[0]) && Direct(Empty(), At("d"), true)
  {
    var s := TREE.srcs[0];
    assert s.below[0].src == Sub(At("s"), "a") && s.below[1].src == Sub(Sub(At("s"), "a"), "b");
    assert Parts(At("s")) == ["s"] && Parts(s.below[0].src) == ["s", "a"] && Parts(s.below[1].src) == ["s", "a", "b"];
    assert Parts(At("d")) == ["d"];
    assert FoundAt(s, 0);
    assert IsDirFound(s, 0, s.below[1].src.parent);
    assert FoundAt(s, 1);
  }

  lemma TreeFiles()
    ensures var files := CopiedFiles(TREE, 1, At("d"), true);
            && |files| == 2
            && files[0].dst == Sub(At("d"), "a") && files[0].hdr.IsDir()
            && files[1].dst == Sub(Sub(At("d"), "a"), "b") && !files[1].hdr.IsDir()
    ensures IsPlan(At("d"), CopiedFiles(TREE, 1, At("d"), true))
  {
    var s := TREE.srcs[0];
    TreeIsListed();
    OneSource(TREE);
    FilesBelowAre(s, 2, At("d"), TREE);
    assert Parts(At("d")) == ["d"];
    ListingIsPlan(s, At("d"), TREE);
    assert Rebase(At("d"), s.below[0].src, 1) == Sub(At("d"), "a");
    assert Rebase(At("d"), s.below[1].src, 1) == Sub(Sub(At("d"), "a"), "b");
    KeepsType(DIR, s.below[0].src, Sub(At("d"), "a"), TREE);
    KeepsType(FILE, s.below[1].src, Sub(Sub(At("d"), "a"), "b"), TREE);
  }

  lemma AfterTree()
    ensures Root in Empty()
    ensures var st := FsState(Empty(), map[]);
            var r := AddToLayer(st, TREE, 0);
            && (forall e | e in OperationEntries(st, TREE, 0) :: e.Content?)
            && r.Ok? && Described(Empty(), r.value) && Comparable(r.value.view) && OnlyContent(r.value.layer)
            && Sub(At("d"), "a") in r.value.view && r.value.view[Sub(At("d"), "a")].hdr.IsDir()
            && Sub(Sub(At("d"), "a"), "b") in r.value.layer
  {
    hide *;
    var st, d := FsState(Empty(), map[]), At("d");
    EmptyIsShaped();
    TreeIsListed();
    NothingThere(d);
    OneSourceOnly();
    DirectoryIsLaid(Empty(), st, TREE, 0);
    TreeFiles();
    var files := CopiedFiles(TREE, 1, d, true);
    var made := AddAncestors(st, d, true, 0, Owner(0, 0, 0)).value.0;
    FileAtIs(d, files, 0);
    FileAtIs(d, files, 1);
    Planned(d, files, 0);
    Planned(d, files, 1);
    LaidDir(made.view, files, files[0]);
    LaidDir(made.view, files, files[1]);
    NewIsInLayer(AddToLayer(st, TREE, 0).value, files[1].dst);
  }

  lemma OneSourceOnly()
    ensures |TREE.srcs| == 1 && TREE.dst == At("d") && TREE.uid == 0 && TREE.gid == 0
  {
  }

  lemma NothingThere(d: Path)
    ensures OnlyPlanned(map[], d, []) && Root in Empty()
  {
  }

  lemma Planned(d: Path, files: seq<CopiedFile>, i: nat)
    requires IsPlan(d, files) && i < |files|
    ensures files[i].hdr.name != ""
  {
    assert PlannedAt(d, files, i);
  }

  lemma NewIsInLayer(st: FsState, p: Path)
    requires Described(Empty(), st) && p in st.view && p.Sub?
    ensures p in st.layer
  {
    assert p in Overlay(Empty(), st.layer);
  }

  /** The second copy replaces the directory in memory, but the layer still holds
      the file below it: replayed, it brings the file back. */
  lemma ExampleOverCopied()
    ensures IsTree(Empty()) && KeyedByDst(Empty())
    ensures var st := FsState(Empty(), map[]);
            var es, r := CopyEntries(st, [TREE, OVER], 0), AddOperations(st, [TREE, OVER], 0);
            (forall e | e in es :: e.Content?) && r.Ok? && !Law(Empty(), r.value) && !AllFit(Empty(), st, es)
  {
    hide *;
    var st := FsState(Empty(), map[]);
    EmptyIsShaped();
    AfterTree();
    var st' := AddToLayer(st, TREE, 0).value;
    OverFile();
    var f := CopiedFiles(OVER, 1, At("d"), true)[0];
    OverBreaks(st', f);
    OneFileOperation(st', OVER, f);
    RunOf(st, [], TREE);
    RunOf(st, [TREE], OVER);
    ContentIsNamed(CopyEntries(st, [TREE, OVER], 0));
    CopyLayerLaw(Empty(), [TREE, OVER], 0);
  }

  lemma OverFile()
    ensures var files := CopiedFiles(OVER, 1, At("d"), true);
            && |files| == 1 && files[0].dst == Sub(At("d"), "a") && files[0].hdr.typeflag.TypeReg?
            && files[0].hdr.name != ""
    ensures !OVER.MakesDst() && OVER.dst == At("d") && OVER.dirFormat && |OVER.srcs| == 1
  {
    assert CopiedFiles(OVER, 0, At("d"), true) == [];
    assert FilesBelow(OVER.srcs[0], 0, At("d"), OVER) == [];
    assert Parts(Sub(At("d"), "a")) == ["d", "a"];
    HasName(FILE, At("a"), Sub(At("d"), "a"), OVER);
  }

  lemma OverBreaks(st: FsState, f: CopiedFile)
    requires Described(Empty(), st) && Comparable(st.view) && OnlyContent(st.layer)
    requires f.dst == Sub(At("d"), "a") && f.hdr.typeflag.TypeReg? && f.hdr.name != ""
    requires f.dst in st.view && st.view[f.dst].hdr.IsDir() && Sub(f.dst, "b") in st.layer
    ensures Root in st.view
    ensures var r := AddFile(st, f, 0); r.Ok? && !Law(Empty(), r.value)
    ensures forall e | e in FileEntries(st, f, 0) :: e.Content?
  {
    hide *;
    var owner := Owner(0, 0, 0);
    OverWay(st, f);
    ComparableRoot(st.view);
    AncestorsAreDone(Empty(), st, f.dst, owner);
    var s1 := FsState(st.view, WithAncestors(st, f.dst));
    OverMisfits(st, f);
    ParentIsAbove(st.view, f.dst);
    OverEntry(s1, f);
    MisfitBreaks(Empty(), s1, EntryOf(f));
    OverAdded(st, s1, f);
  }

  lemma OverWay(st: FsState, f: CopiedFile)
    requires Comparable(st.view) && f.dst == Sub(At("d"), "a") && f.dst in st.view
    ensures DirsAbove(st.view, f.dst) && PlainParts(Parts(f.dst)) && f.dst.Sub?
  {
    assert Parts(f.dst) == ["d", "a"];
    forall q: Path | q.Sub? && Below(q, f.dst) ensures q in st.view && st.view[q].hdr.IsDir() {
      AncestorsAreDirs(st.view, q, f.dst);
    }
  }

  lemma OverMisfits(st: FsState, f: CopiedFile)
    requires f.dst == Sub(At("d"), "a") && f.hdr.typeflag.TypeReg?
    requires Sub(f.dst, "b") in st.layer && OnlyContent(WithAncestors(st, f.dst))
    ensures !Fits(Empty(), WithAncestors(st, f.dst), EntryOf(f)) && PlainEntry(EntryOf(f))
  {
    assert Below(f.dst, Sub(f.dst, "b"));
  }

  lemma OverEntry(st: FsState, f: CopiedFile)
    requires f.dst == Sub(At("d"), "a") && f.dst.parent in st.view
    ensures AddEntry(st, EntryOf(f)).Ok? && FileFor(f.src, f.dst, f.hdr) == EntryOf(f)
  {
  }

  lemma OverAdded(st: FsState, s1: FsState, f: CopiedFile)
    requires Root in st.view && Comparable(st.view)
    requires f.dst == Sub(At("d"), "a") && f.hdr.typeflag.TypeReg? && f.hdr.name != ""
    requires f.dst in st.view && st.view[f.dst].hdr.IsDir()
    requires AddAncestors(st, f.dst, false, 0, Owner(0, 0, 0)) == Ok((s1, f.dst))
    requires forall e | e in AncestorEntries(st, f.dst, false, 0, Owner(0, 0, 0)) :: e.Content?
    ensures AddFile(st, f, 0) == AddEntry(s1, EntryOf(f))
    ensures forall e | e in FileEntries(st, f, 0) :: e.Content?
  {
    hide AddAncestors, AncestorEntries, AddEntry;
  }

  /** A run with one more operation. */
  lemma RunOf(st: FsState, ops: seq<CopyOperation>, op: CopyOperation)
    requires Root in st.view
    ensures AddOperations(st, [], 0) == Ok(st) && CopyEntries(st, [], 0) == []
    ensures [] + [op] == [op] && [TREE] + [OVER] == [TREE, OVER]
    ensures var r := AddOperations(st, ops, 0);
            && AddOperations(st, ops + [op], 0) == (if r.Err? then r else AddToLayer(r.value, op, 0))
            && (r.Ok? ==>
                (forall e | e in CopyEntries(st, ops, 0) :: e.Content?)
                && (forall e | e in OperationEntries(r.value, op, 0) :: e.Content?)
                ==> (forall e | e in CopyEntries(st, ops + [op], 0) :: e.Content?))
  {
    hide OperationEntries, AddToLayer;
    assert (ops + [op])[..|ops|] == ops;
  }

  /** An operation that copies one file and makes no directory for it. */
  lemma OneFileOperation(st: FsState, op: CopyOperation, f: CopiedFile)
    requires Root in st.view && !op.MakesDst() && CopiedFiles(op, 1, op.dst, op.dirFormat) == [f]
    ensures AddToLayer(st, op, 0) == AddFile(st, f, 0) && OperationEntries(st, op, 0) == FileEntries(st, f, 0)
  {
    hide AddFile, FileEntries, CopiedFiles, AncestorEntries;
    var files := [f];
    assert files[..0] == [];
    assert AddFiles(st, files, 0) == AddFile(st, f, 0) && FilesEntries(st, files, 0) == FileEntries(st, f, 0);
  }

  // ----- files through a symlink -----

  const LINK: Header := Header("l", TypeSymlink, "/t", 0, 0, 0, 0, 0)

  /** The directory t and the link l to it. */
  function Linked(): View {
    map[Root := Dir(Root), At("t") := Dir(At("t")), At("l") := ContentFile(At("l"), At("l"), LINK)]
  }

  /** A single file x, copied to l/x. */
  function IntoLink(x: string): CopyOperation {
    CopyOperation([Source(At(x), FILE, [])], Sub(At("l"), x), false, 0, 0)
  }

  function Added(x: string): CopiedFile {
    CopiedTo(Found(At(x), FILE), Sub(At("l"), x), IntoLink(x))
  }

  predicate PlainNamed(x: string) {
    Proper(x) && !IsWhiteoutName(x)
  }

  lemma LinkedParts(x: string)
    requires PlainNamed(x)
    ensures Parts(Sub(At("l"), x)) == ["l", x] && Parts(Sub(At("t"), x)) == ["t", x]
    ensures FromParts(LinkTarget("/t", [x])) == Sub(At("t"), x)
  {
    assert Parts(At("t")) == ["t"] && Parts(At("l")) == ["l"];
    assert Render(At("t")) == "/t";
    assert ProperPath(At("t"));
    AbsoluteLinkTarget(At("t"), [x]);
    PartsRoundTrip(Sub(At("t"), x));
    assert ["t"] + [x] == ["t", x];
  }

  /** The target's directory is there already. */
  lemma TargetIsThere(st: FsState, x: string, owner: Owner)
    requires PlainNamed(x) && Root in st.view && At("t") in st.view && st.view[At("t")] == Dir(At("t"))
    ensures AddAncestors(st, Sub(At("t"), x), false, 1, owner)
            == Ok((FsState(st.view, st.layer[At("t") := Content(Dir(At("t")))]), Sub(At("t"), x)))
  {
    LinkedParts(x);
    var p := Sub(At("t"), x);
    assert End(p, false) == 1;
    assert st.view[At("t") := Dir(At("t"))] == st.view;
    var st' := FsState(st.view, st.layer[At("t") := Content(Dir(At("t")))]);
    assert AddEntry(st, FileFor(At("t"), At("t"), DIR)) == Ok(st');
    assert Climb(st', p, false, 1, owner, 1, At("t"), DIR) == Ok((st', p));
  }

  /** Adding the ancestors of l/x puts the link again, over whatever hangs on it. */
  lemma LinkIsPutAgain(st: FsState, x: string, owner: Owner)
    requires PlainNamed(x) && Root in st.view && At("t") in st.view && st.view[At("t")] == Dir(At("t"))
    requires At("l") in st.view && st.view[At("l")] == Linked()[At("l")]
    ensures Root in EraseBelow(st.view, At("l"))
    ensures var layer := st.layer[At("l") := Content(Linked()[At("l")])][At("t") := Content(Dir(At("t")))];
            AddAncestors(st, Sub(At("l"), x), false, 0, owner)
            == Ok((FsState(EraseBelow(st.view, At("l")), layer), Sub(At("t"), x)))
  {
    LinkedParts(x);
    var p, n := Sub(At("l"), x), Linked()[At("l")];
    assert End(p, false) == 1;
    WithinCases(At("l"), At("l"));
    assert EraseBelow(st.view, At("l"))[At("l") := n] == EraseBelow(st.view, At("l"));
    var st' := FsState(EraseBelow(st.view, At("l")), st.layer[At("l") := Content(n)]);
    assert AddEntry(st, FileFor(n.src, n.dst, n.hdr)) == Ok(st');
    assert Parts(p)[1..] == [x];
    TargetIsThere(st', x, owner);
  }

  /** The tree and layer after one more file. */
  function Hung(st: FsState, x: string): FsState {
    var c := ContentFile(At(x), Sub(At("l"), x), Added(x).hdr);
    FsState(EraseBelow(st.view, At("l"))[c.dst := c],
        st.layer[At("l") := Content(Linked()[At("l")])][At("t") := Content(Dir(At("t")))][c.dst := Content(c)])
  }

  lemma FileThroughLink(st: FsState, x: string)
    requires PlainNamed(x) && Root in st.view && At("t") in st.view && st.view[At("t")] == Dir(At("t"))
    requires At("l") in st.view && st.view[At("l")] == Linked()[At("l")] && Sub(At("l"), x) !in st.view
    ensures AddFile(st, Added(x), 0) == Ok(Hung(st, x))
  {
    LinkIsPutAgain(st, x, Owner(0, 0, 0));
    WithinCases(At("l"), At("l"));
    var p := Sub(At("l"), x);
    WithinCases(p, p);
    hide AddAncestors, HeaderAt;
    KeepsType(FILE, At(x), p, IntoLink(x));
    var w := EraseBelow(st.view, At("l"));
    assert EraseBelow(w, p) == w by {
      forall q | Below(p, q) ensures Below(At("l"), q) { WithinTransitive(At("l"), p, q.parent); }
    }
    assert IsUpdated(st.view, p, Added(x).hdr) == Ok(true);
  }

  lemma IntoLinkIsOneFile(x: string)
    ensures var op := IntoLink(x); !op.MakesDst() && CopiedFiles(op, 1, op.dst, op.dirFormat) == [Added(x)]
  {
    hide HeaderAt;
    var op := IntoLink(x);
    assert CopiedFiles(op, 0, op.dst, false) == [];
    assert FilesBelow(op.srcs[0], 0, op.dst, op) == [];
  }

  /** Two files copied through a link, one after the other. The second copy puts
      the link again and drops the first file from memory, but not from the layer. */
  lemma ExampleThroughLink()
    ensures Shaped(Linked())
    ensures var st := FsState(Linked(), map[]);
            var r := AddOperations(st, [IntoLink("a"), IntoLink("b")], 0);
            r.Ok? && !Law(Linked(), r.value)
  {
    hide *;
    HungTwice();
    var st := FsState(Linked(), map[]);
    var one, two := Hung(st, "a"), Hung(Hung(st, "a"), "b");
    FileThroughLink(st, "a");
    FileThroughLink(one, "b");
    IntoLinkIsOneFile("a");
    IntoLinkIsOneFile("b");
    OneFileOperation(st, IntoLink("a"), Added("a"));
    OneFileOperation(one, IntoLink("b"), Added("b"));
    RunOf(st, [], IntoLink("a"));
    RunOf(st, [IntoLink("a")], IntoLink("b"));
    assert [IntoLink("a")] + [IntoLink("b")] == [IntoLink("a"), IntoLink("b")];
    FileIsLost(Linked(), two, Sub(At("l"), "a"));
  }

  lemma FileIsLost(v: View, st: FsState, p: Path)
    requires KeyedLayer(st.layer) && p in st.layer && st.layer[p].Content? && p !in st.view
    ensures !Law(v, st)
  {
    hide KeyedLayer, Law;
    LostIsNoLaw(v, st, p);
  }

  lemma HungTwice()
    ensures PlainNamed("a") && PlainNamed("b") && Shaped(Linked())
    ensures var st := FsState(Linked(), map[]);
            var one, two := Hung(st, "a"), Hung(Hung(st, "a"), "b");
            && Root in st.view && Root in one.view && Sub(At("l"), "a") !in st.view && Sub(At("l"), "b") !in one.view
            && (forall s | s == st || s == one ::
                && At("t") in s.view && s.view[At("t")] == Dir(At("t"))
                && At("l") in s.view && s.view[At("l")] == Linked()[At("l")])
            && KeyedLayer(two.layer) && Sub(At("l"), "a") in two.layer && two.layer[Sub(At("l"), "a")].Content?
            && Sub(At("l"), "a") !in two.view
  {
    hide HeaderAt;
    LinkedIsShaped();
    WithinCases(At("l"), At("l"));
    HungIsKeyed(FsState(Linked(), map[]), "a");
    HungIsKeyed(Hung(FsState(Linked(), map[]), "a"), "b");
    hide KeyedLayer, Shaped;
  }

  lemma LinkedIsShaped()
    ensures Shaped(Linked())
  {
  }

  lemma HungIsKeyed(st: FsState, x: string)
    requires KeyedLayer(st.layer) && PlainNamed(x)
    ensures KeyedLayer(Hung(st, x).layer)
  {
    hide HeaderAt, EraseBelow;
  }
}
