/** Building a layer on the mutable tree (lib/snapshot/mem_fs.go and
    mem_layer.go): each method does in place what its specification function
    says about views. */
module MemFiles {
  import opened Wrappers
  import opened Paths
  import opened Queues
  import opened PathStrings
  import opened TarHeaders
  import opened Layers
  import opened ScanTheory
  import opened MemTree
  import Spec = Ancestors
  import Steps = LayerSteps

  type FsError = Spec.FsError

  class MemLayer {
    var files: Layer

    constructor ()
      ensures files == map[]
    {
      files := map[];
    }

    method AddHeader(src: Path, dst: Path, hdr: Header) returns (mf: MemFile)
      modifies this
      ensures mf == Spec.FileFor(src, dst, hdr)
      ensures files == old(files)[Spec.KeyOf(mf) := mf]
    {
      if dst.Sub? && IsWhiteoutName(dst.name) {
        var deleted := Sub(dst.parent, dst.name[|WHITEOUT_PREFIX|..]);
        mf := Whiteout(deleted);
        files := files[deleted := mf];
      } else {
        mf := Content(ContentFile(src, dst, hdr));
        files := files[dst := mf];
      }
    }

    /** addWhiteout: the path to remove must not itself be named like a whiteout. */
    method AddWhiteout(p: Path) returns (r: Result<MemFile, FsError>)
      modifies this
      ensures r == if p.Sub? && IsWhiteoutName(p.name) then Err(Spec.WhiteoutName) else Ok(Whiteout(p))
      ensures files == if r.Ok? then old(files)[p := r.value] else old(files)
    {
      if p.Sub? && IsWhiteoutName(p.name) {
        return Err(Spec.WhiteoutName);
      }
      files := files[p := Whiteout(p)];
      return Ok(Whiteout(p));
    }
  }

  /** The tree and the layer under construction, as values. */
  ghost function State(fs: MemFS, l: MemLayer): Spec.FsState
    reads fs, l
  {
    Spec.FsState(fs.View(), l.files)
  }

  /** The only node whose children an entry edits. */
  ghost function Edited(fs: MemFS, f: MemFile): set<MemFSNode>
    reads fs
  {
    match f
    case Content(c) => fs.ParentNode(c.dst)
    case Whiteout(del) => fs.ParentNode(Target(del))
  }

  /** memFile.updateMemFS. */
  method Update(fs: MemFS, f: MemFile) returns (r: Result<(), TreeError>)
    requires fs.Valid()
    requires f.Content? && f.file.dst.Sub? ==> !IsWhiteoutName(f.file.dst.name)
    modifies fs`at, Edited(fs, f)
    ensures fs.Valid() && fresh(fs.at.Values - old(fs.at.Values))
    ensures Put(old(fs.View()), f) == if r.Ok? then Ok(fs.View()) else Err(MissingIntermediate)
    ensures f.Content? && f.file.dst.Sub? && r.Ok? ==> fs.Replaced(old(fs.at), old(fs.Kids()), f.file)
  {
    match f
    case Content(c) => r := fs.UpdateContent(c);
    case Whiteout(del) => r := fs.UpdateWhiteout(del);
  }

  /** addHeader followed by updateMemFS. */
  method AddEntry(fs: MemFS, l: MemLayer, src: Path, dst: Path, hdr: Header) returns (r: Result<(), FsError>)
    requires fs.Valid()
    modifies fs`at, Edited(fs, Spec.FileFor(src, dst, hdr)), l
    ensures fs.Valid() && fresh(fs.at.Values - old(fs.at.Values))
    ensures match Spec.AddEntry(old(State(fs, l)), Spec.FileFor(src, dst, hdr))
            case Ok(st) => r.Ok? && State(fs, l) == st
            case Err(e) => r == Err(e)
    ensures r.Ok? && dst.Sub? && !IsWhiteoutName(dst.name) ==>
            fs.Replaced(old(fs.at), old(fs.Kids()), ContentFile(src, dst, hdr))
  {
    hide *;
    ghost var st := State(fs, l);
    EntryIs(st, src, dst, hdr);
    EditedInTree(fs, Spec.FileFor(src, dst, hdr));
    ViewIs(fs, l);
    var mf := l.AddHeader(src, dst, hdr);
    var u := Update(fs, mf);
    ViewIs(fs, l);
    r := if u.Ok? then Ok(()) else Err(Spec.Tree(MissingIntermediate));
  }

  lemma EntryIs(st: Spec.FsState, src: Path, dst: Path, hdr: Header)
    ensures var f := Spec.FileFor(src, dst, hdr);
            && (f.Content? && f.file.dst.Sub? ==> !IsWhiteoutName(f.file.dst.name))
            && (dst.Sub? && !IsWhiteoutName(dst.name) ==> f == Content(ContentFile(src, dst, hdr)))
            && Spec.AddEntry(st, f) ==
               match Put(st.view, f)
               case Ok(v) => Ok(Spec.FsState(v, st.layer[Spec.KeyOf(f) := f]))
               case Err(e) => Err(Spec.Tree(e))
  {
    hide Put;
  }

  // ----- addAncestors -----

  /** What the loop may rely on about the node it stands on, which may have been
      replaced in the tree: it lists the same children as the node of `c`. */
  ghost predicate Mirrors(fs: MemFS, curr: MemFSNode, c: Path)
    reads fs, fs.at.Values, curr, curr.children.Values
  {
    && c in fs.at
    && curr.children.Keys == fs.at[c].children.Keys
    && forall x | x in curr.children :: Sub(c, x) in fs.at && SameNode(curr.children[x], fs.at[Sub(c, x)])
  }

  ghost predicate SameNode(n: MemFSNode, m: MemFSNode)
    reads n, m
  {
    n.file == m.file && (m.file.hdr.IsDir() ==> n.children == m.children)
  }

  /** A node of the tree mirrors itself, and so does any node with its children. */
  lemma MirrorsItself(fs: MemFS, n: MemFSNode, c: Path)
    requires fs.Valid() && c in fs.at && n.children == fs.at[c].children
    ensures Mirrors(fs, n, c)
  {
    forall x | x in n.children ensures Sub(c, x) in fs.at && n.children[x] == fs.at[Sub(c, x)] {
      fs.Child(c, x);
    }
  }

  lemma MirrorsName(fs: MemFS, curr: MemFSNode, c: Path, x: string)
    requires fs.Valid() && Mirrors(fs, curr, c)
    ensures x in curr.children <==> Sub(c, x) in fs.at
    ensures x in curr.children ==>
            SameNode(curr.children[x], fs.at[Sub(c, x)])
            && curr.children[x].file == fs.View()[Sub(c, x)]
                                   && curr.children[x].file.dst == Sub(c, x) && !IsWhiteoutName(x)
  {
    fs.Child(c, x);
  }

  /** Mirrors, in terms of the tree as it was. */
  ghost predicate Mirrored(at0: Nodes, kids0: Kids, curr: MemFSNode, c: Path)
    reads curr, curr.children.Values
  {
    && c in at0 && kids0.Keys == at0.Keys
    && curr.children.Keys == kids0[c].Keys
    && (forall y | y in curr.children :: Sub(c, y) in at0 && curr.children[y].file == at0[Sub(c, y)].file)
    && (forall y | y in curr.children && at0[Sub(c, y)].file.hdr.IsDir() ::
        curr.children[y].children == kids0[Sub(c, y)])
  }

  lemma MirrorsAll(fs: MemFS, curr: MemFSNode, c: Path)
    requires fs.Valid() && Mirrors(fs, curr, c)
    ensures Mirrored(fs.at, fs.Kids(), curr, c)
    ensures forall y | y in curr.children :: curr.children[y] != fs.at[c]
  {
    forall y | y in curr.children
      ensures curr.children[y].file == fs.at[Sub(c, y)].file && curr.children[y] != fs.at[c]
    {
      fs.NodeAt(Sub(c, y));
    }
  }

  lemma MirrorsChild(fs: MemFS, curr: MemFSNode, n: MemFSNode, c: Path, x: string)
    requires fs.Valid() && Mirrors(fs, curr, c) && x in curr.children && curr.children[x] == n
    ensures n.file.dst == Sub(c, x) && !IsWhiteoutName(x) && Sub(c, x) in fs.Kids() && c in fs.at && n != fs.at[c]
    ensures n.file.hdr.IsDir() ==> n.children == fs.Kids()[Sub(c, x)]
  {
    MirrorsName(fs, curr, c, x);
    fs.NodeAt(c);
    fs.NodeAt(Sub(c, x));
  }

  /** Replacing the node of directory `n` leaves `n` a mirror of the new one. */
  lemma MirrorsReplaced(fs: MemFS, at0: Nodes, kids0: Kids, n: MemFSNode)
    requires fs.Valid() && fs.Replaced(at0, kids0, n.file) && n.file.hdr.IsDir()
    requires n.file.dst in kids0 && n.children == kids0[n.file.dst]
    ensures Mirrors(fs, n, n.file.dst)
  {
    var p := n.file.dst;
    BelowIsStrict(p.parent, p);
    assert fs.Kids()[p] == kids0[p];
    MirrorsItself(fs, n, p);
  }

  /** Replacing the node of a child that is no directory leaves a node that is
      no longer in the tree a mirror of its replacement. */
  lemma MirrorsSibling(fs: MemFS, at0: Nodes, kids0: Kids, curr: MemFSNode, f: ContentFile, c: Path, x: string)
    requires f.dst == Sub(c, x) && !f.hdr.IsDir() && fs.Replaced(at0, kids0, f)
    requires Mirrored(at0, kids0, curr, c) && x in curr.children && curr.children[x].file == f
    ensures Mirrors(fs, curr, c)
  {
    BelowIsStrict(c, f.dst);
    WithinCases(f.dst, c);
    assert fs.at[c].children == fs.Kids()[c];
    forall y | y in curr.children
      ensures Sub(c, y) in fs.at && SameNode(curr.children[y], fs.at[Sub(c, y)])
    {
      if y != x {
        BelowIsStrict(c, Sub(c, y));
        assert fs.Kids()[Sub(c, y)] == kids0[Sub(c, y)];
      }
    }
  }

  lemma ParentStays(fs: MemFS, at0: Nodes, kids0: Kids, f: ContentFile)
    requires fs.Replaced(at0, kids0, f) && f.dst.parent in at0
    ensures f.dst.parent in fs.at && fs.at[f.dst.parent] == at0[f.dst.parent]
  {
    BelowIsStrict(f.dst.parent, f.dst);
    WithinCases(f.dst, f.dst.parent);
  }

  lemma EditedInTree(fs: MemFS, f: MemFile)
    ensures Edited(fs, f) <= fs.at.Values
  {
  }

  lemma EditsParent(fs: MemFS, f: ContentFile)
    requires f.dst.Sub? && f.dst.parent in fs.at && !IsWhiteoutName(f.dst.name)
    ensures Edited(fs, Spec.FileFor(f.src, f.dst, f.hdr)) == {fs.at[f.dst.parent]}
  {
  }

  lemma Succeeds(st: Spec.FsState, n: ContentFile)
    requires n.dst.Sub? && n.dst.parent in st.view && !IsWhiteoutName(n.dst.name)
    ensures Spec.AddEntry(st, Spec.FileFor(n.src, n.dst, n.hdr)).Ok?
  {
  }

  /** The node the loop stands on next mirrors the tree as it is now. */
  lemma MirrorsNext(fs: MemFS, at0: Nodes, kids0: Kids, curr: MemFSNode, n: MemFSNode, c: Path, x: string)
    requires fs.Valid() && fs.Replaced(at0, kids0, n.file) && n.file.dst == Sub(c, x) && c in at0
    requires Sub(c, x) in kids0 && (n.file.hdr.IsDir() ==> n.children == kids0[Sub(c, x)])
    requires curr == at0[c] || (Mirrored(at0, kids0, curr, c) && x in curr.children && curr.children[x].file == n.file)
    ensures if n.file.hdr.IsDir() then Mirrors(fs, n, Sub(c, x)) else Mirrors(fs, curr, c)
  {
    hide Mirrors, KidsAfter, NodesAfter, Graph;
    ParentStays(fs, at0, kids0, n.file);
    if n.file.hdr.IsDir() {
      MirrorsReplaced(fs, at0, kids0, n);
    } else if curr == at0[c] {
      MirrorsItself(fs, curr, c);
    } else {
      MirrorsSibling(fs, at0, kids0, curr, n.file, c, x);
    }
  }

  /** addHeader and updateMemFS for a file whose directory exists. */
  method AddFileAgain(fs: MemFS, l: MemLayer, f: ContentFile)
    requires fs.Valid()
    requires f.dst.Sub? && f.dst.parent in fs.at && !IsWhiteoutName(f.dst.name)
    modifies fs`at, fs.at[f.dst.parent], l
    ensures fs.Valid() && fresh(fs.at.Values - old(fs.at.Values))
    ensures Spec.AddEntry(old(State(fs, l)), Spec.FileFor(f.src, f.dst, f.hdr)) == Ok(State(fs, l))
    ensures fs.Replaced(old(fs.at), old(fs.Kids()), f)
  {
    hide Graph, Spec.AddEntry, Spec.FileFor, KidsAfter, NodesAfter;
    Succeeds(State(fs, l), f);
    EditsParent(fs, f);
    var r := AddEntry(fs, l, f.src, f.dst, f.hdr);
  }

  /** Add the file of an existing child again, in the tree and in the layer. */
  method AddChildAgain(fs: MemFS, l: MemLayer, curr: MemFSNode, n: MemFSNode, ghost c: Path, ghost x: string)
    requires fs.Valid() && Mirrors(fs, curr, c)
    requires x in curr.children && curr.children[x] == n && c in fs.at
    modifies fs`at, fs.at[c], l
    ensures fs.Valid() && fresh(fs.at.Values - old(fs.at.Values))
    ensures Spec.AddEntry(old(State(fs, l)), Spec.FileFor(n.file.src, n.file.dst, n.file.hdr)) == Ok(State(fs, l))
    ensures if n.file.hdr.IsDir() then Mirrors(fs, n, Sub(c, x)) else Mirrors(fs, curr, c)
  {
    hide *;
    ghost var at0, kids0 := fs.at, fs.Kids();
    assert n.file.dst == Sub(c, x) && !IsWhiteoutName(x) && Sub(c, x) in kids0 && n != fs.at[c]
           && (n.file.hdr.IsDir() ==> n.children == kids0[Sub(c, x)]) by {
      MirrorsChild(fs, curr, n, c, x);
    }
    MirrorsAll(fs, curr, c);
    AddFileAgain(fs, l, n.file);
    MirrorsNext(fs, at0, kids0, curr, n, c, x);
  }

  /** Make the directories that are missing from component `j` on. */
  method AddMissing(fs: MemFS, l: MemLayer, parts: seq<string>, from: nat, end: nat, like: Header, owner: Spec.Owner)
    returns (r: Result<(), FsError>)
    requires fs.Valid() && from <= end <= |parts|
    modifies fs`at, fs.at.Values, l
    ensures fs.Valid() && fresh(fs.at.Values - old(fs.at.Values))
    ensures match Spec.AddMissing(old(State(fs, l)), parts, from, end, like, owner)
            case Ok(st) => r.Ok? && State(fs, l) == st
            case Err(e) => r == Err(e)
    ensures from == end ==> forall m | m in old(fs.at.Values) :: m.children == old(m.children)
  {
    hide *;
    ghost var outcome := Spec.AddMissing(State(fs, l), parts, from, end, like, owner);
    for j := from to end
      invariant fs.Valid() && fresh(fs.at.Values - old(fs.at.Values))
      invariant Spec.AddMissing(State(fs, l), parts, j, end, like, owner) == outcome
      invariant from == end ==> forall m | m in old(fs.at.Values) :: m.children == old(m.children)
    {
      MissingUnfolds(State(fs, l), parts, j, end, like, owner);
      var p := Prefix(parts, j + 1);
      EditedInTree(fs, Spec.FileFor(Root, p, Spec.MissingDirHeader(p, like, owner)));
      r := AddEntry(fs, l, Root, p, Spec.MissingDirHeader(p, like, owner));
      if r.Err? {
        return;
      }
    }
    MissingEnds(State(fs, l), parts, end, like, owner);
    return Ok(());
  }

  lemma MissingUnfolds(st: Spec.FsState, parts: seq<string>, j: nat, end: nat, like: Header, owner: Spec.Owner)
    requires j < end <= |parts|
    ensures var p := Prefix(parts, j + 1);
            Spec.AddMissing(st, parts, j, end, like, owner) ==
            match Spec.AddEntry(st, Spec.FileFor(Root, p, Spec.MissingDirHeader(p, like, owner)))
            case Err(e) => Err(e)
            case Ok(st') => Spec.AddMissing(st', parts, j + 1, end, like, owner)
  {
  }

  lemma MissingEnds(st: Spec.FsState, parts: seq<string>, end: nat, like: Header, owner: Spec.Owner)
    requires end <= |parts|
    ensures Spec.AddMissing(st, parts, end, end, like, owner) == Ok(st)
  {
  }

  /** addAncestors. It follows symlinks and returns the resolved path. */
  method AddAncestors(fs: MemFS, l: MemLayer, dst: Path, inclusive: bool, depth: nat, owner: Spec.Owner)
    returns (r: Result<Path, FsError>)
    requires fs.Valid()
    modifies fs`at, fs.at.Values, l
    ensures fs.Valid() && fresh(fs.at.Values - old(fs.at.Values))
    ensures match Spec.AddAncestors(old(State(fs, l)), dst, inclusive, depth, owner)
            case Ok((st, q)) => r == Ok(q) && State(fs, l) == st
            case Err(e) => r == Err(e)
    ensures !inclusive && Steps.DirsAbove(old(fs.View()), dst) && depth < Spec.MAX_DEPTH ==>
            forall m | m in old(fs.at.Values) && !Below(m.file.dst, dst) :: m.children == old(m.children)
    decreases Spec.MAX_DEPTH - depth
  {
    hide *;
    RootExists(fs, l);
    AncestorsUnfold(State(fs, l), dst, inclusive, depth, owner);
    if depth >= Spec.MAX_DEPTH {
      return Err(Spec.SymlinkLoop);
    }
    var parts := Parts(dst);
    var link, i, like := AddExisting(fs, l, dst, inclusive, depth, owner);
    if link.Some? {
      r := AddAncestors(fs, l, link.value, inclusive, depth + 1, owner);
    } else {
      EndIs(dst, inclusive);
      r := AddRest(fs, l, dst, parts, i, Spec.End(dst, inclusive), like, owner);
    }
  }

  /** The loop of addAncestors: it stops at a symlink, with the path to go on
      with, or at the first component that is missing. */
  method AddExisting(fs: MemFS, l: MemLayer, dst: Path, inclusive: bool, depth: nat, owner: Spec.Owner)
    returns (link: Option<Path>, i: nat, like: Header)
    requires fs.Valid() && depth < Spec.MAX_DEPTH && Root in State(fs, l).view
    modifies fs`at, fs.at.Values, l
    ensures fs.Valid() && fresh(fs.at.Values - old(fs.at.Values)) && Root in State(fs, l).view
    ensures i <= Spec.End(dst, inclusive) <= |Parts(dst)|
    ensures var outcome := Spec.AddAncestors(old(State(fs, l)), dst, inclusive, depth, owner);
            match link
            case Some(target) => outcome == Spec.AddAncestors(State(fs, l), target, inclusive, depth + 1, owner)
            case None =>
              match Spec.AddMissing(State(fs, l), Parts(dst), i, Spec.End(dst, inclusive), like, owner)
              case Ok(st) => outcome == Ok((st, dst))
              case Err(e) => outcome == Err(e)
    ensures !inclusive && Steps.DirsAbove(old(fs.View()), dst) ==>
            && link.None? && i == Spec.End(dst, inclusive)
            && forall m | m in old(fs.at.Values) && !Below(m.file.dst, dst) :: m.children == old(m.children)
  {
    hide *;
    var parts := Parts(dst);
    var end := if inclusive then |parts| else if |parts| == 0 then 0 else |parts| - 1;
    EndIs(dst, inclusive);
    var lastAncestor, curr := fs.tree, fs.tree;
    ghost var c := Root;
    MirrorsRoot(fs, l);
    AncestorsUnfold(State(fs, l), dst, inclusive, depth, owner);
    ghost var outcome := Spec.AddAncestors(State(fs, l), dst, inclusive, depth, owner);
    ghost var above := !inclusive && Steps.DirsAbove(fs.View(), dst);
    StartsOnTheWay(fs, l, dst);
    link, i := None, 0;
    while i < end && parts[i] in curr.children
      invariant i <= end == Spec.End(dst, inclusive)
      invariant fs.Valid() && fresh(fs.at.Values - old(fs.at.Values)) && Root in State(fs, l).view
      invariant Mirrors(fs, curr, c)
      invariant Spec.Climb(State(fs, l), dst, inclusive, depth, owner, i, c, lastAncestor.file.hdr) == outcome
      invariant above ==> OnTheWay(State(fs, l), dst, i, c)
      invariant above ==> forall m | m in old(fs.at.Values) && !Below(m.file.dst, dst) :: m.children == old(m.children)
      decreases end - i
    {
      var n := curr.children[parts[i]];
      MirrorsView(fs, l, curr, c, parts[i]);
      ClimbUnfolds(State(fs, l), dst, inclusive, depth, owner, i, c, lastAncestor.file.hdr);
      ghost var st0 := State(fs, l);
      MirrorsAt(fs, curr, c);
      PassChild(fs, l, curr, n, c, parts[i]);
      if above { StaysOnTheWay(st0, State(fs, l), dst, i, c, n.file); }
      if n.file.hdr.IsDir() {
        lastAncestor := n;
        curr, c := n, Sub(c, parts[i]);
      } else if n.file.hdr.IsSymlink() {
        link, like := Some(FromParts(LinkTarget(n.file.hdr.linkname, parts[i + 1..]))), lastAncestor.file.hdr;
        return;
      }
      i := i + 1;
    }
    if i < end {
      MirrorsView(fs, l, curr, c, parts[i]);
      if above { WayExists(State(fs, l), dst, i, c); }
    }
    like := lastAncestor.file.hdr;
    ClimbUnfolds(State(fs, l), dst, inclusive, depth, owner, i, c, like);
  }

  /** One existing component: its file is added again and the rest of the tree stays. */
  method PassChild(fs: MemFS, l: MemLayer, curr: MemFSNode, n: MemFSNode, ghost c: Path, ghost x: string)
    requires fs.Valid() && Mirrors(fs, curr, c)
    requires x in curr.children && curr.children[x] == n && c in fs.at && fs.at[c].file.dst == c
    modifies fs`at, fs.at.Values, l
    ensures fs.Valid() && fresh(fs.at.Values - old(fs.at.Values)) && Root in State(fs, l).view
    ensures Spec.AddEntry(old(State(fs, l)), Spec.FileFor(n.file.src, n.file.dst, n.file.hdr)) == Ok(State(fs, l))
    ensures if n.file.hdr.IsDir() then Mirrors(fs, n, Sub(c, x)) else Mirrors(fs, curr, c)
    ensures forall m | m in old(fs.at.Values) && m.file.dst != c :: m.children == old(m.children)
  {
    hide *;
    AddChildAgain(fs, l, curr, n, c, x);
    RootExists(fs, l);
  }

  /** Creating what is missing, and the path as the answer. */
  method AddRest(fs: MemFS, l: MemLayer, dst: Path, parts: seq<string>, i: nat, end: nat, like: Header,
      owner: Spec.Owner) returns (r: Result<Path, FsError>)
    requires fs.Valid() && Root in State(fs, l).view && i <= end <= |parts|
    modifies fs`at, fs.at.Values, l
    ensures fs.Valid() && fresh(fs.at.Values - old(fs.at.Values))
    ensures match Spec.AddMissing(old(State(fs, l)), parts, i, end, like, owner)
            case Ok(st) => r == Ok(dst) && State(fs, l) == st
            case Err(e) => r == Err(e)
    ensures i == end ==> forall m | m in old(fs.at.Values) :: m.children == old(m.children)
  {
    hide *;
    var m := AddMissing(fs, l, parts, i, end, like, owner);
    if m.Err? {
      return Err(m.error);
    }
    return Ok(dst);
  }

  /** The loop has passed `i` existing directories above `dst` and stands at `c`. */
  ghost predicate OnTheWay(st: Spec.FsState, dst: Path, i: nat, c: Path) {
    Steps.DirsAbove(st.view, dst) && i <= Spec.End(dst, false) && c == Spec.Way(dst, i)
  }

  lemma StartsOnTheWay(fs: MemFS, l: MemLayer, dst: Path)
    ensures Steps.DirsAbove(fs.View(), dst) ==> OnTheWay(State(fs, l), dst, 0, Root)
  {
    Spec.WayIsPrefix(dst, 0);
  }

  lemma WayExists(st: Spec.FsState, dst: Path, i: nat, c: Path)
    requires OnTheWay(st, dst, i, c) && i < Spec.End(dst, false)
    ensures i < |Parts(dst)| && Below(c, dst) && Sub(c, Parts(dst)[i]) == Spec.Way(dst, i + 1)
    ensures Sub(c, Parts(dst)[i]) in st.view && st.view[Sub(c, Parts(dst)[i])].hdr.IsDir()
  {
    var next := Spec.Way(dst, i + 1);
    Spec.WayStep(dst, i);
    Steps.WayBelow(dst, i);
    BelowIsStrict(next, dst);
    BelowIsStrict(c, next);
    WithinTransitive(c, next, dst.parent);
  }

  /** Re-adding an existing directory leaves the view alone. */
  lemma StaysOnTheWay(st: Spec.FsState, st': Spec.FsState, dst: Path, i: nat, c: Path, n: ContentFile)
    requires OnTheWay(st, dst, i, c) && i < Spec.End(dst, false) <= |Parts(dst)|
    requires Sub(c, Parts(dst)[i]) in st.view && n == st.view[Sub(c, Parts(dst)[i])]
    requires n.dst == Sub(c, Parts(dst)[i]) && !IsWhiteoutName(n.dst.name)
    requires Spec.AddEntry(st, Spec.FileFor(n.src, n.dst, n.hdr)) == Ok(st')
    ensures n.hdr.IsDir() && Below(c, dst) && OnTheWay(st', dst, i + 1, Sub(c, Parts(dst)[i]))
  {
    WayExists(st, dst, i, c);
    assert st.view[n.dst := n] == st.view;
  }

  lemma MirrorsAt(fs: MemFS, curr: MemFSNode, c: Path)
    requires fs.Valid() && Mirrors(fs, curr, c)
    ensures c in fs.at && fs.at[c].file.dst == c
  {
    fs.NodeAt(c);
  }

  lemma RootExists(fs: MemFS, l: MemLayer)
    requires fs.Valid()
    ensures Root in State(fs, l).view
  {
  }

  lemma MirrorsRoot(fs: MemFS, l: MemLayer)
    requires fs.Valid()
    ensures Mirrors(fs, fs.tree, Root)
    ensures Root in State(fs, l).view && fs.tree.file.hdr == State(fs, l).view[Root].hdr
  {
    MirrorsItself(fs, fs.tree, Root);
  }

  lemma MirrorsView(fs: MemFS, l: MemLayer, curr: MemFSNode, c: Path, x: string)
    requires fs.Valid() && Mirrors(fs, curr, c)
    ensures x in curr.children <==> Sub(c, x) in State(fs, l).view
    ensures x in curr.children ==> curr.children[x].file == State(fs, l).view[Sub(c, x)]
                                   && curr.children[x].file.dst == Sub(c, x) && !IsWhiteoutName(x)
  {
    MirrorsName(fs, curr, c, x);
  }

  lemma AncestorsUnfold(st: Spec.FsState, dst: Path, inclusive: bool, depth: nat, owner: Spec.Owner)
    requires Root in st.view
    ensures Spec.AddAncestors(st, dst, inclusive, depth, owner) ==
            if depth >= Spec.MAX_DEPTH then Err(Spec.SymlinkLoop)
            else Spec.Climb(st, dst, inclusive, depth, owner, 0, Root, st.view[Root].hdr)
  {
  }

  lemma EndIs(dst: Path, inclusive: bool)
    ensures Spec.End(dst, inclusive)
            == (if inclusive then |Parts(dst)| else if |Parts(dst)| == 0 then 0 else |Parts(dst)| - 1)
    ensures Spec.End(dst, inclusive) <= |Parts(dst)|
  {
  }

  /** One round of the specification's loop. */
  lemma ClimbUnfolds(st: Spec.FsState, dst: Path, inclusive: bool, depth: nat, owner: Spec.Owner, i: nat, c: Path,
      like: Header)
    requires i <= Spec.End(dst, inclusive) <= |Parts(dst)| && depth < Spec.MAX_DEPTH && Root in st.view
    ensures var parts, end := Parts(dst), Spec.End(dst, inclusive);
            Spec.Climb(st, dst, inclusive, depth, owner, i, c, like) ==
            if i == end || Sub(c, parts[i]) !in st.view then
              match Spec.AddMissing(st, parts, i, end, like, owner)
              case Err(e) => Err(e)
              case Ok(st') => Ok((st', dst))
            else
              var n := st.view[Sub(c, parts[i])];
              match Spec.AddEntry(st, Spec.FileFor(n.src, n.dst, n.hdr))
              case Err(e) => Err(e)
              case Ok(st') =>
                if n.hdr.IsDir() then Spec.Climb(st', dst, inclusive, depth, owner, i + 1, Sub(c, parts[i]), n.hdr)
                else if n.hdr.IsSymlink() then
                  Spec.AddAncestors(st', FromParts(LinkTarget(n.hdr.linkname, parts[i + 1..])), inclusive, depth + 1,
                      owner)
                else Spec.Climb(st', dst, inclusive, depth, owner, i + 1, c, like)
  {
    hide LinkTarget, FromParts, Spec.AddMissing, Spec.FileFor, Put;
  }

  // ----- maybeAddToLayer -----

  /** isUpdated, with the node found at the path. */
  method IsUpdated(fs: MemFS, p: Path, hdr: Header) returns (r: Result<bool, FsError>, n: MemFSNode?)
    requires fs.Valid()
    ensures r == Steps.IsUpdated(fs.View(), p, hdr)
    ensures n == null <==> p !in fs.at
    ensures n != null ==> n == fs.at[p]
  {
    n := fs.Descend(p);
    if n == null {
      return Ok(true), null;
    }
    var similar := IsSimilarHeader(n.file.hdr, hdr, false);
    match similar
    case Ok(b) => r := Ok(!b);
    case Err(e) => r := Err(Spec.Compare(e));
  }

  /** The first half: add a new or changed file and its ancestors. */
  method AddIfUpdated(fs: MemFS, l: MemLayer, src: Path, dst: Path, hdr: Header, owner: Spec.Owner)
    returns (r: Result<(), FsError>, n: MemFSNode?)
    requires fs.Valid()
    modifies fs`at, fs.at.Values, l
    ensures fs.Valid() && fresh(fs.at.Values - old(fs.at.Values))
    ensures match Steps.AddIfUpdated(old(State(fs, l)), src, dst, hdr, owner)
            case Ok(st) => r.Ok? && State(fs, l) == st
            case Err(e) => r == Err(e)
    ensures n == null <==> dst !in old(fs.at)
    ensures n != null ==> n == old(fs.at[dst])
    ensures n != null && Steps.DirsAbove(old(fs.View()), dst) ==> n.children == old(fs.at[dst].children)
  {
    hide *;
    var updated: Result<bool, FsError>;
    updated, n := IsUpdated(fs, dst, hdr);
    ViewIs(fs, l);
    AddUnfolds(State(fs, l), src, dst, hdr, owner);
    if updated.Err? {
      return Err(updated.error), n;
    }
    if !updated.value || dst.Root? {
      return Ok(()), n;
    }
    NodeIsAt(fs, dst);
    NotBelowItself(dst);
    var a := AddAncestors(fs, l, dst, false, 0, owner);
    if a.Err? {
      return Err(a.error), n;
    }
    EditedOther(fs, src, dst, hdr);
    EditedInTree(fs, Spec.FileFor(src, dst, hdr));
    r := AddEntry(fs, l, src, dst, hdr);
  }

  lemma AddUnfolds(st: Spec.FsState, src: Path, dst: Path, hdr: Header, owner: Spec.Owner)
    requires Root in st.view
    ensures Spec.MAX_DEPTH > 0
    ensures Steps.AddIfUpdated(st, src, dst, hdr, owner) ==
      match Steps.IsUpdated(st.view, dst, hdr)
      case Err(e) => Err(e)
      case Ok(updated) =>
        if !updated || dst.Root? then Ok(st)
        else
          match Spec.AddAncestors(st, dst, false, 0, owner)
          case Err(e) => Err(e)
          case Ok(s) => Spec.AddEntry(s.0, Spec.FileFor(src, dst, hdr))
  {
  }

  lemma ViewIs(fs: MemFS, l: MemLayer)
    requires fs.Valid()
    ensures Root in State(fs, l).view
    ensures State(fs, l).view == fs.View() && State(fs, l).layer == l.files
  {
  }

  lemma NodeIsAt(fs: MemFS, p: Path)
    requires fs.Valid()
    ensures p in fs.at ==> fs.at[p].file.dst == p && fs.at[p] in fs.at.Values
  {
  }

  lemma NotBelowItself(p: Path)
    ensures !Below(p, p)
  {
    WithinCases(p, p);
  }

  /** Adding an entry at `dst` never edits a node of `dst`. */
  lemma EditedOther(fs: MemFS, src: Path, dst: Path, hdr: Header)
    requires fs.Valid() && dst.Sub?
    ensures forall m | m in Edited(fs, Spec.FileFor(src, dst, hdr)) :: m.file.dst != dst
  {
    BelowIsStrict(dst.parent, dst);
    if dst.parent.Sub? { BelowIsStrict(dst.parent.parent, dst.parent); WithinDepth(dst.parent.parent, dst.parent); }
    assert forall p | p in fs.at :: fs.at[p].file.dst == p;
  }

  /** The second half, for one child: whiteout, then its ancestors. */
  method WhiteOut(fs: MemFS, l: MemLayer, p: Path, owner: Spec.Owner) returns (r: Result<(), FsError>)
    requires fs.Valid()
    modifies fs`at, fs.at.Values, l
    ensures fs.Valid() && fresh(fs.at.Values - old(fs.at.Values))
    ensures match Steps.WhiteOut(old(State(fs, l)), p, owner)
            case Ok(st) => r.Ok? && State(fs, l) == st
            case Err(e) => r == Err(e)
  {
    hide *;
    ViewIs(fs, l);
    WhiteOutUnfolds(State(fs, l), p, owner);
    EditedInTree(fs, Whiteout(p));
    ghost var st0 := State(fs, l);
    var w := l.AddWhiteout(p);
    if w.Err? {
      return Err(w.error);
    }
    var u := Update(fs, w.value);
    if u.Err? {
      return Err(Spec.Tree(MissingIntermediate));
    }
    StateIs(fs, l, st0, p);
    var a := AddAncestors(fs, l, p, false, 0, owner);
    if a.Err? {
      return Err(a.error);
    }
    return Ok(());
  }

  lemma WhiteOutUnfolds(st: Spec.FsState, p: Path, owner: Spec.Owner)
    requires Root in st.view
    ensures Steps.WhiteOut(st, p, owner) ==
      if p.Sub? && IsWhiteoutName(p.name) then Err(Spec.WhiteoutName)
      else
        match Put(st.view, Whiteout(p))
        case Err(_) => Err(Spec.Tree(MissingIntermediate))
        case Ok(v) =>
          if Root !in v then Err(Spec.SymlinkLoop)
          else
            match Spec.AddAncestors(Spec.FsState(v, st.layer[p := Whiteout(p)]), p, false, 0, owner)
            case Err(e) => Err(e)
            case Ok(s) => Ok(s.0)
  {
    hide Spec.AddAncestors;
  }

  lemma StateIs(fs: MemFS, l: MemLayer, st0: Spec.FsState, p: Path)
    requires fs.Valid() && l.files == st0.layer[p := Whiteout(p)]
    ensures State(fs, l) == Spec.FsState(fs.View(), st0.layer[p := Whiteout(p)]) && Root in fs.View()
  {
  }

  /** Whiting out the listed children that are no longer on disk, in whatever
      order the map hands them out. */
  method WhiteOutMissing(fs: MemFS, l: MemLayer, kids: map<string, MemFSNode>, disk: Disk, owner: Spec.Owner)
    returns (r: Result<(), FsError>, ghost order: seq<Path>)
    requires fs.Valid()
    modifies fs`at, fs.at.Values, l
    ensures fs.Valid() && fresh(fs.at.Values - old(fs.at.Values))
    ensures match Steps.WhiteOutAll(old(State(fs, l)), order, owner)
            case Ok(st) => r.Ok? && State(fs, l) == st
            case Err(e) => r == Err(e)
    ensures DistinctDst(kids) ==> NoDuplicates(order) && SetOf(order) <= OffDisk(kids, kids.Keys, disk)
    ensures r.Ok? && DistinctDst(kids) ==> Lists(order, OffDisk(kids, kids.Keys, disk))
  {
    hide *;
    ghost var st0 := State(fs, l);
    ViewIs(fs, l);
    order := [];
    StartsWhiteOut(st0, kids, disk, owner);
    var remaining := kids.Keys;
    while remaining != {}
      invariant remaining <= kids.Keys
      invariant fs.Valid() && fresh(fs.at.Values - old(fs.at.Values))
      invariant Root in st0.view && Steps.WhiteOutAll(st0, order, owner) == Ok(State(fs, l))
      invariant DistinctDst(kids) ==> Lists(order, OffDisk(kids, kids.Keys - remaining, disk))
    {
      var x :| x in remaining;
      var child := kids[x];
      NextChild(st0, kids, remaining, x, disk, order, owner);
      if child.file.src !in disk {
        order := order + [child.file.dst];
        ViewIs(fs, l);
        r := WhiteOut(fs, l, child.file.dst, owner);
        if r.Err? {
          PartListed(kids, kids.Keys - (remaining - {x}), disk, order);
          return;
        }
      }
      remaining := remaining - {x};
    }
    assert kids.Keys - remaining == kids.Keys;
    PartListed(kids, kids.Keys, disk, order);
    return Ok(()), order;
  }

  ghost predicate DistinctDst(kids: map<string, MemFSNode>) {
    forall x, y | x in kids && y in kids && x != y :: kids[x].file.dst != kids[y].file.dst
  }

  /** The destinations of the children among `names` whose source is not on disk. */
  ghost function OffDisk(kids: map<string, MemFSNode>, names: set<string>, disk: Disk): set<Path> {
    set x | x in names && x in kids && kids[x].file.src !in disk :: kids[x].file.dst
  }

  lemma PartListed(kids: map<string, MemFSNode>, names: set<string>, disk: Disk, order: seq<Path>)
    requires DistinctDst(kids) ==> Lists(order, OffDisk(kids, names, disk))
    ensures DistinctDst(kids) ==> NoDuplicates(order) && SetOf(order) <= OffDisk(kids, kids.Keys, disk)
  {
  }

  lemma StartsWhiteOut(st: Spec.FsState, kids: map<string, MemFSNode>, disk: Disk, owner: Spec.Owner)
    requires Root in st.view
    ensures Steps.WhiteOutAll(st, [], owner) == Ok(st)
    ensures Lists([], OffDisk(kids, kids.Keys - kids.Keys, disk))
  {
  }

  lemma NextChild(st: Spec.FsState, kids: map<string, MemFSNode>, remaining: set<string>, x: string, disk: Disk,
      order: seq<Path>, owner: Spec.Owner)
    requires Root in st.view && x in remaining && remaining <= kids.Keys
    requires DistinctDst(kids) ==> Lists(order, OffDisk(kids, kids.Keys - remaining, disk))
    ensures DistinctDst(kids) ==>
            var p := kids[x].file.dst;
            var order' := if kids[x].file.src in disk then order else order + [p];
            Lists(order', OffDisk(kids, kids.Keys - (remaining - {x}), disk))
    ensures var p := kids[x].file.dst;
            var before := Steps.WhiteOutAll(st, order, owner);
            before.Ok? ==>
                Root in before.value.view
                && Steps.WhiteOutAll(st, order + [p], owner) == Steps.WhiteOut(before.value, p, owner)
  {
    var p := kids[x].file.dst;
    var a, b := OffDisk(kids, kids.Keys - remaining, disk), OffDisk(kids, kids.Keys - (remaining - {x}), disk);
    assert b == if kids[x].file.src in disk then a else a + {p};
    assert DistinctDst(kids) ==> p !in a;
    assert (order + [p])[..|order|] == order;
  }

  /** The children of `p` in a view whose source is not on disk. */
  ghost function MissingChildren(v: View, disk: Disk, p: Path): set<Path> {
    set c | c in v && c.Sub? && c.parent == p && v[c].src !in disk
  }

  /** maybeAddToLayer. `order` lists the children whited out, in the order in
      which they came up. */
  method MaybeAddToLayer(fs: MemFS, l: MemLayer, src: Path, dst: Path, hdr: Header, createWhiteout: bool, disk: Disk,
      now: int)
    returns (r: Result<(), FsError>, ghost order: seq<Path>)
    requires fs.Valid()
    modifies fs`at, fs.at.Values, l
    ensures fs.Valid() && fresh(fs.at.Values - old(fs.at.Values))
    ensures match Steps.AddIfUpdated(old(State(fs, l)), src, dst, hdr, Spec.Owner(0, 0, now))
            case Err(e) => r == Err(e)
            case Ok(st) =>
              match Steps.WhiteOutAll(st, order, Spec.Owner(0, 0, now))
              case Err(e) => r == Err(e)
              case Ok(st') => r.Ok? && State(fs, l) == st'
    ensures !(createWhiteout && hdr.IsDir() && dst in old(fs.at)) ==> order == []
    ensures createWhiteout && hdr.IsDir() && dst in old(fs.at) && Steps.DirsAbove(old(fs.View()), dst) ==>
            && NoDuplicates(order) && SetOf(order) <= MissingChildren(old(fs.View()), disk, dst)
            && (r.Ok? ==> Lists(order, MissingChildren(old(fs.View()), disk, dst)))
  {
    hide *;
    ghost var v0 := fs.View();
    ChildrenOfNode(fs, dst, disk);
    var n: MemFSNode?;
    order := [];
    r, n := AddIfUpdated(fs, l, src, dst, hdr, Spec.Owner(0, 0, now));
    ViewIs(fs, l);
    StartsWhiteOut(State(fs, l), map[], disk, Spec.Owner(0, 0, now));
    NothingOrdered();
    if r.Err? || !createWhiteout || !hdr.IsDir() || n == null {
      return;
    }
    r, order := WhiteOutMissing(fs, l, n.children, disk, Spec.Owner(0, 0, now));
  }

  lemma NothingOrdered()
    ensures NoDuplicates<Path>([]) && SetOf([]) == {} && Lists([], {})
  {
  }

  lemma ChildrenOfNode(fs: MemFS, dst: Path, disk: Disk)
    requires fs.Valid()
    ensures dst in fs.at ==>
            var kids := fs.at[dst].children;
            DistinctDst(kids) && OffDisk(kids, kids.Keys, disk) == MissingChildren(fs.View(), disk, dst)
  {
    if dst in fs.at {
      var kids := fs.at[dst].children;
      forall x | x in kids ensures kids[x].file.dst == Sub(dst, x) && Sub(dst, x) in fs.at
          && kids[x] == fs.at[Sub(dst, x)] {
        fs.Child(dst, x);
        fs.NodeAt(Sub(dst, x));
      }
      forall c | c in MissingChildren(fs.View(), disk, dst)
        ensures c in OffDisk(kids, kids.Keys, disk)
      {
        fs.Child(dst, c.name);
        assert c == Sub(dst, c.name) && c.name in kids;
      }
    }
  }
}
