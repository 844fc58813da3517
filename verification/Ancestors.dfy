/** Adding the ancestors of a path to a layer (addAncestors in
    lib/snapshot/mem_fs.go): what it does on views, and why its result is the
    symlink resolution of the path. */
module Ancestors {
  import opened Wrappers
  import opened Paths
  import opened PathStrings
  import opened TarHeaders
  import opened Layers
  import opened ScanTheory

  const MAX_DEPTH: nat := 1024

  datatype FsError = SymlinkLoop | Tree(tree: TreeError) | Compare(compare: CompareError) | WhiteoutName

  /** The merged view together with the layer under construction. */
  datatype FsState = FsState(view: View, layer: Layer)

  /** Owner and time of directories made on the way. */
  datatype Owner = Owner(uid: int, gid: int, now: int)

  // ----- memLayer.addHeader -----

  function FileFor(src: Path, dst: Path, hdr: Header): MemFile {
    if dst.Sub? && IsWhiteoutName(dst.name) then Whiteout(Sub(dst.parent, dst.name[|WHITEOUT_PREFIX|..]))
    else Content(ContentFile(src, dst, hdr))
  }

  /** A file named exactly ".wh." erases the directory that holds it, with all that is
      below, and nothing else. */
  lemma BareWhiteoutErasesItsHolder(v: View, src: Path, p: Path, hdr: Header)
    requires p.Sub? && p.parent in v
    ensures var r := Put(v, FileFor(src, Sub(p, WHITEOUT_PREFIX), hdr));
            && r.Ok? && p !in r.value && (forall q | q in r.value :: q in v && r.value[q] == v[q])
            && (forall q | q in v :: q in r.value <==> !Within(p, q))
  {
    assert IsWhiteoutName(WHITEOUT_PREFIX);
    WithinCases(p, p);
  }

  function KeyOf(f: MemFile): Path {
    match f
    case Content(c) => c.dst
    case Whiteout(del) => del
  }

  /** Record an entry in the layer and apply it to the tree. */
  function AddEntry(st: FsState, f: MemFile): (r: Result<FsState, FsError>)
    ensures r.Ok? && Root in st.view ==> Root in r.value.view
  {
    match Put(st.view, f)
    case Ok(v) => Ok(FsState(v, st.layer[KeyOf(f) := f]))
    case Err(e) => Err(Tree(e))
  }

  /** The header of a directory that is missing on the way to a path. */
  function MissingDirHeader(p: Path, like: Header, owner: Owner): Header {
    Header(RelPath(Render(p)), TypeDir, "", owner.uid, owner.gid, 0, like.mode, owner.now)
  }

  function MissingDir(p: Path, like: Header, owner: Owner): MemFile {
    FileFor(Root, p, MissingDirHeader(p, like, owner))
  }

  // ----- addAncestors -----

  /** How many components must exist as directories. */
  function End(dst: Path, inclusive: bool): nat {
    if inclusive then Depth(dst) else if dst.Root? then 0 else Depth(dst) - 1
  }

  function AddMissing(st: FsState, parts: seq<string>, j: nat, end: nat, like: Header, owner: Owner)
      : (r: Result<FsState, FsError>)
    requires j <= end <= |parts|
    ensures r.Ok? && Root in st.view ==> Root in r.value.view
    decreases end - j
  {
    if j == end then Ok(st)
    else
      match AddEntry(st, MissingDir(Prefix(parts, j + 1), like, owner))
      case Err(e) => Err(e)
      case Ok(st') => AddMissing(st', parts, j + 1, end, like, owner)
  }

  function AddAncestors(st: FsState, dst: Path, inclusive: bool, depth: nat, owner: Owner)
      : (r: Result<(FsState, Path), FsError>)
    requires Root in st.view
    ensures r.Ok? ==> Root in r.value.0.view
    decreases MAX_DEPTH - depth, 1, 0
  {
    if depth >= MAX_DEPTH then Err(SymlinkLoop)
    else Climb(st, dst, inclusive, depth, owner, 0, Root, st.view[Root].hdr)
  }

  /** The loop of addAncestors at component `i`, standing at `curr`; `like` is
      the header of the last directory passed. */
  function Climb(st: FsState, dst: Path, inclusive: bool, depth: nat, owner: Owner, i: nat, curr: Path, like: Header)
      : (r: Result<(FsState, Path), FsError>)
    requires i <= End(dst, inclusive) && depth < MAX_DEPTH && Root in st.view
    ensures r.Ok? ==> Root in r.value.0.view
    decreases MAX_DEPTH - depth, 0, End(dst, inclusive) - i
  {
    var parts, end := Parts(dst), End(dst, inclusive);
    if i == end || Sub(curr, parts[i]) !in st.view then
      match AddMissing(st, parts, i, end, like, owner)
      case Err(e) => Err(e)
      case Ok(st') => Ok((st', dst))
    else
      var next := Sub(curr, parts[i]);
      var n := st.view[next];
      match AddEntry(st, FileFor(n.src, n.dst, n.hdr))
      case Err(e) => Err(e)
      case Ok(st') =>
        if n.hdr.IsDir() then Climb(st', dst, inclusive, depth, owner, i + 1, next, n.hdr)
        else if n.hdr.IsSymlink() then
          AddAncestors(st', FromParts(LinkTarget(n.hdr.linkname, parts[i + 1..])), inclusive, depth + 1, owner)
        else Climb(st', dst, inclusive, depth, owner, i + 1, curr, like)
  }

  // ----- the reference: symlink resolution -----

  /** The ancestor of `p` made of its first `j` components. */
  function Way(p: Path, j: nat): Path
    requires j <= Depth(p)
    decreases p
  {
    if j == Depth(p) then p else Way(p.parent, j)
  }

  lemma {:induction false} WayIsPrefix(p: Path, j: nat)
    requires j <= Depth(p)
    ensures Way(p, j) == Prefix(Parts(p), j)
    decreases p
  {
    PrefixesAreAncestors(p, j);
    if j < Depth(p) {
      WayIsPrefix(p.parent, j);
      assert Parts(p)[..j] == Parts(p.parent)[..j];
    }
  }

  /** The first `i` components of `p` are directories. */
  ghost predicate OpenTo(v: View, p: Path, i: nat)
    requires i <= Depth(p)
  {
    forall j | 1 <= j <= i :: Way(p, j) in v && v[Way(p, j)].hdr.IsDir()
  }

  /** The first symlink on the way to `p` is its component `i`. */
  ghost predicate LinkAt(v: View, p: Path, inclusive: bool, i: nat) {
    && i < End(p, inclusive)
    && OpenTo(v, p, i)
    && Way(p, i + 1) in v && v[Way(p, i + 1)].hdr.IsSymlink()
  }

  /** `p` with its first `k` components replaced by `t`. */
  function Rebase(t: Path, p: Path, k: nat): Path
    decreases p
  {
    if Depth(p) <= k then t else Sub(Rebase(t, p.parent, k), p.name)
  }

  /** One step of resolution: the link's target takes the place of the link. */
  function Redirect(v: View, p: Path, i: nat): Path
    requires i < Depth(p) && Way(p, i + 1) in v
  {
    Rebase(FromParts(SplitPath(v[Way(p, i + 1)].hdr.linkname)), p, i + 1)
  }

  /** The first symlink at component `i` or later, if only directories come before it. */
  function FirstLink(v: View, p: Path, inclusive: bool, i: nat): (r: Option<nat>)
    ensures r.Some? ==> i <= r.value < End(p, inclusive) && Way(p, r.value + 1) in v
    decreases Depth(p) - i
  {
    if i >= End(p, inclusive) || Way(p, i + 1) !in v then None
    else if v[Way(p, i + 1)].hdr.IsSymlink() then Some(i)
    else if v[Way(p, i + 1)].hdr.IsDir() then FirstLink(v, p, inclusive, i + 1)
    else None
  }

  lemma {:induction false} FirstLinkIsTheLink(v: View, p: Path, inclusive: bool, i: nat, k: nat)
    requires i <= End(p, inclusive) && OpenTo(v, p, i) && i <= k
    ensures FirstLink(v, p, inclusive, i) == Some(k) <==> LinkAt(v, p, inclusive, k)
    decreases Depth(p) - i
  {
    if i < End(p, inclusive) && Way(p, i + 1) in v && v[Way(p, i + 1)].hdr.IsDir() && i < k {
      FirstLinkIsTheLink(v, p, inclusive, i + 1, k);
    }
  }

  /** Reference: follow the first symlink on the way until there is none;
      an error when `fuel` rounds are not enough. */
  function Resolve(v: View, p: Path, inclusive: bool, fuel: nat): Result<Path, FsError>
    decreases fuel
  {
    if fuel == 0 then Err(SymlinkLoop)
    else
      var link := FirstLink(v, p, inclusive, 0);
      if link.None? then Ok(p)
      else Resolve(v, Redirect(v, p, link.value), inclusive, fuel - 1)
  }

  /** `q` is reached from `p` by replacing a symlink on the way `n` times. */
  ghost predicate Hops(v: View, p: Path, inclusive: bool, q: Path, n: nat)
    decreases n
  {
    if n == 0 then q == p
    else exists i :: LinkAt(v, p, inclusive, i) && Hops(v, Redirect(v, p, i), inclusive, q, n - 1)
  }

  ghost predicate NoLinkLeft(v: View, q: Path, inclusive: bool) {
    forall i :: !LinkAt(v, q, inclusive, i)
  }

  /** Fewer than `fuel` hops lead to `q`, where no symlink is left on the way. */
  ghost predicate EndsAt(v: View, p: Path, inclusive: bool, q: Path, fuel: nat) {
    NoLinkLeft(v, q, inclusive) && exists n: nat :: n < fuel && Hops(v, p, inclusive, q, n)
  }

  /** `fuel` hops can be made. */
  ghost predicate GoesOn(v: View, p: Path, inclusive: bool, fuel: nat) {
    exists q :: Hops(v, p, inclusive, q, fuel)
  }

  lemma LinkIsFirst(v: View, p: Path, inclusive: bool)
    ensures forall i: nat :: FirstLink(v, p, inclusive, 0) == Some(i) <==> LinkAt(v, p, inclusive, i)
  {
    forall i: nat ensures FirstLink(v, p, inclusive, 0) == Some(i) <==> LinkAt(v, p, inclusive, i) {
      FirstLinkIsTheLink(v, p, inclusive, 0, i);
    }
  }

  lemma NoHop(v: View, p: Path, inclusive: bool)
    ensures Hops(v, p, inclusive, p, 0) && GoesOn(v, p, inclusive, 0)
  {
    assert Hops(v, p, inclusive, p, 0);
  }

  /** There is only one way to hop. */
  lemma FirstHop(v: View, p: Path, inclusive: bool, q: Path, n: nat)
    requires n > 0
    ensures var link := FirstLink(v, p, inclusive, 0);
            Hops(v, p, inclusive, q, n) <==>
            link.Some? && Hops(v, Redirect(v, p, link.value), inclusive, q, n - 1)
  {
    LinkIsFirst(v, p, inclusive);
    hide FirstLink, Redirect;
    var link := FirstLink(v, p, inclusive, 0);
    if link.Some? { assert LinkAt(v, p, inclusive, link.value); }
  }

  /** Following links where there is none left, and where there is one. */
  lemma FollowOne(v: View, p: Path, inclusive: bool, fuel: nat)
    requires fuel > 0
    ensures var link := FirstLink(v, p, inclusive, 0);
            if link.None? then EndsAt(v, p, inclusive, p, fuel) && !GoesOn(v, p, inclusive, fuel)
            else
              var next := Redirect(v, p, link.value);
              && (GoesOn(v, p, inclusive, fuel) <==> GoesOn(v, next, inclusive, fuel - 1))
              && forall q :: EndsAt(v, next, inclusive, q, fuel - 1) ==> EndsAt(v, p, inclusive, q, fuel)
  {
    hide FirstLink, Redirect, LinkAt, Hops;
    LinkIsFirst(v, p, inclusive);
    forall q, n: nat | n > 0
      ensures var link := FirstLink(v, p, inclusive, 0);
              Hops(v, p, inclusive, q, n) <==>
              link.Some? && Hops(v, Redirect(v, p, link.value), inclusive, q, n - 1)
    {
      FirstHop(v, p, inclusive, q, n);
    }
    NoHop(v, p, inclusive);
    var link := FirstLink(v, p, inclusive, 0);
    if link.Some? {
      var next := Redirect(v, p, link.value);
      if GoesOn(v, p, inclusive, fuel) {
        var q :| Hops(v, p, inclusive, q, fuel);
        assert Hops(v, next, inclusive, q, fuel - 1);
      }
      if GoesOn(v, next, inclusive, fuel - 1) {
        var q :| Hops(v, next, inclusive, q, fuel - 1);
        assert Hops(v, p, inclusive, q, fuel);
      }
      forall q | EndsAt(v, next, inclusive, q, fuel - 1) ensures EndsAt(v, p, inclusive, q, fuel) {
        var n: nat :| n < fuel - 1 && Hops(v, next, inclusive, q, n);
        assert Hops(v, p, inclusive, q, n + 1);
      }
    }
  }

  /** The resolution is where the hops end, and it fails exactly when they do not
      end within the fuel. */
  lemma {:induction false} ResolveFollowsLinks(v: View, p: Path, inclusive: bool, fuel: nat)
    ensures Resolve(v, p, inclusive, fuel).Err? <==> GoesOn(v, p, inclusive, fuel)
    ensures var r := Resolve(v, p, inclusive, fuel); r.Ok? ==> EndsAt(v, p, inclusive, r.value, fuel)
    decreases fuel
  {
    NoHop(v, p, inclusive);
    hide FirstLink, Redirect, EndsAt, GoesOn, Hops, LinkAt;
    if fuel > 0 {
      FollowOne(v, p, inclusive, fuel);
      var link := FirstLink(v, p, inclusive, 0);
      if link.Some? {
        ResolveFollowsLinks(v, Redirect(v, p, link.value), inclusive, fuel - 1);
      }
    }
  }

  ghost predicate AbsoluteLink(linkname: string) {
    exists t :: ProperPath(t) && linkname == Render(t)
  }

  predicate PlainParts(parts: seq<string>) {
    forall p | p in parts :: Proper(p) && !IsWhiteoutName(p)
  }

  /** The components that exist on the way to `p` are directories, or symlinks
      with absolute clean targets. */
  ghost predicate Passable(v: View, p: Path, inclusive: bool) {
    && PlainParts(Parts(p))
    && forall j | 1 <= j <= End(p, inclusive) && Way(p, j) in v ::
         var h := v[Way(p, j)].hdr;
         h.IsDir() || (h.IsSymlink() && AbsoluteLink(h.linkname))
  }

  /** A set of passable paths that following links does not leave. */
  ghost predicate Passage(v: View, inclusive: bool, ps: iset<Path>) {
    && (forall p | p in ps :: Passable(v, p, inclusive))
    && (forall p | p in ps && FirstLink(v, p, inclusive, 0).Some? ::
        Redirect(v, p, FirstLink(v, p, inclusive, 0).value) in ps)
  }

  ghost predicate Shaped(v: View) {
    && IsTree(v) && OnlyDirsHaveChildren(v) && KeyedByDst(v) && v[Root].hdr.IsDir()
    && forall p | p in v && p.Sub? :: !IsWhiteoutName(p.name)
  }

  // ----- what adding ancestors achieves -----

  /** Nothing that existed changed, in the tree or in the layer, except that
      the layer may now repeat what the tree holds, each path after its parent. */
  ghost predicate Extends(st: FsState, st': FsState) {
    && (forall q | q in st.view :: q in st'.view && st'.view[q] == st.view[q])
    && (forall k | k in st.layer :: k in st'.layer)
    && (forall k | k in st'.layer ::
          || (k in st'.view && st'.layer[k] == Content(st'.view[k]))
          || (k in st.layer && st'.layer[k] == st.layer[k]))
    && (forall k | k in st'.layer && k !in st.layer :: k.Sub? && (k.parent.Sub? ==> k.parent in st'.layer))
  }

  /** The first `j` prefixes are directories of the tree and in the layer. */
  ghost predicate ProvidesTo(st: FsState, r: Path, j: nat)
    requires j <= Depth(r)
  {
    forall i | 1 <= i <= j ::
      var q := Way(r, i);
      q in st.view && st.view[q].hdr.IsDir() && q in st.layer && st.layer[q] == Content(st.view[q])
  }

  /** Every required prefix of `r` is a directory of the tree and in the layer. */
  ghost predicate Provides(st: FsState, r: Path, inclusive: bool) {
    ProvidesTo(st, r, End(r, inclusive))
  }

  /** The path itself if it exists, or else the nearest ancestor that does. */
  ghost function Nearest(v: View, p: Path): Path {
    if p in v || p.Root? then p else Nearest(v, p.parent)
  }

  /** The mode of the last directory that exists on the way to `p`. */
  ghost function NearestMode(v: View, p: Path): int {
    if Nearest(v, p) in v then v[Nearest(v, p)].hdr.mode else 0
  }

  /** A directory made for `q` by this owner at this time. */
  ghost predicate MadeFor(c: ContentFile, q: Path, owner: Owner, mode: int) {
    && c.src.Root? && c.dst == q
    && c.hdr.typeflag.TypeDir? && c.hdr.name == RelPath(Render(q)) && c.hdr.linkname == "" && c.hdr.size == 0
    && c.hdr.uid == owner.uid && c.hdr.gid == owner.gid && c.hdr.modTime == owner.now && c.hdr.mode == mode
  }

  /** Only prefixes of `r` were created: as directories of the owner, with the
      mode of the last directory that was there. */
  ghost predicate CreatesOnly(st: FsState, st': FsState, r: Path, inclusive: bool, owner: Owner) {
    forall q | q in st'.view && q !in st.view ::
      && MadeFor(st'.view[q], q, owner, NearestMode(st.view, r))
      && exists j :: 1 <= j <= End(r, inclusive) && q == Way(r, j)
  }

  /** What a successful call leaves behind for its result `r`. */
  ghost predicate Grown(st: FsState, st': FsState, r: Path, inclusive: bool, owner: Owner) {
    && Shaped(st'.view) && Extends(st, st') && Provides(st', r, inclusive)
    && CreatesOnly(st, st', r, inclusive, owner)
  }

  lemma NothingBelowFiles(v: View, p: Path)
    requires Shaped(v) && p in v && !v[p].hdr.IsDir()
    ensures EraseBelow(v, p) == v
  {
    forall q | q in v ensures !Below(p, q) {
      if Below(p, q) { AncestorsAreDirs(v, p, q); }
    }
  }

  /** Adding an existing file again leaves the tree alone. */
  lemma AddAgain(st: FsState, p: Path)
    requires Shaped(st.view) && p in st.view && p.Sub?
    ensures var n := st.view[p];
            AddEntry(st, FileFor(n.src, n.dst, n.hdr)) == Ok(FsState(st.view, st.layer[p := Content(n)]))
  {
    var n := st.view[p];
    if !n.hdr.IsDir() { NothingBelowFiles(st.view, p); }
    assert st.view[p := n] == st.view;
  }

  /** Adding a missing directory below an existing one only adds it. */
  lemma AddNewDir(st: FsState, p: Path, c: ContentFile)
    requires Shaped(st.view) && p.Sub? && p !in st.view && !IsWhiteoutName(p.name)
    requires p.parent in st.view && st.view[p.parent].hdr.IsDir()
    requires c.dst == p && c.hdr.IsDir()
    ensures AddEntry(st, FileFor(c.src, p, c.hdr)) == Ok(FsState(st.view[p := c], st.layer[p := Content(c)]))
    ensures Shaped(st.view[p := c])
  {
    PutKeepsShape(st.view, Content(c));
  }

  lemma ExtendsTransitive(a: FsState, b: FsState, c: FsState)
    requires Extends(a, b) && Extends(b, c)
    ensures Extends(a, c)
  {
  }

  /** The loop's next missing component. */
  lemma WayStep(dst: Path, j: nat)
    requires j < Depth(dst)
    ensures Way(dst, j + 1) == Sub(Way(dst, j), Parts(dst)[j])
    ensures Way(dst, 0) == Root
    ensures Prefix(Parts(dst), j + 1) == Way(dst, j + 1)
  {
    WayIsPrefix(dst, 0);
    WayIsPrefix(dst, j);
    WayIsPrefix(dst, j + 1);
    PrefixStep(Parts(dst), j);
  }

  lemma ProvidesStep(st: FsState, r: Path, j: nat, c: ContentFile)
    requires j < Depth(r) && ProvidesTo(st, r, j) && c.hdr.IsDir()
    requires Way(r, j + 1) !in st.view
    ensures ProvidesTo(FsState(st.view[Way(r, j + 1) := c], st.layer[Way(r, j + 1) := Content(c)]), r, j + 1)
  {
  }

  lemma {:induction false} NearestIs(v: View, p: Path, j: nat)
    requires IsTree(v) && j < Depth(p) && Way(p, j) in v && Way(p, j + 1) !in v
    ensures p !in v && Nearest(v, p) == Way(p, j)
    decreases p
  {
    if Depth(p) == j + 1 {
      WayStep(p, j);
    } else {
      NearestIs(v, p.parent, j);
      assert p == Sub(p.parent, p.name);
    }
  }

  /** Once the next directory is made, it is the last that exists. */
  lemma NearestNext(v: View, p: Path, j: nat, c: ContentFile)
    requires IsTree(v) && j < Depth(p) && Way(p, j) in v && Way(p, j + 1) !in v
    ensures NearestMode(v[Way(p, j + 1) := c], p) == c.hdr.mode
  {
    var w := v[Way(p, j + 1) := c];
    WayStep(p, j);
    if j + 1 < Depth(p) {
      WayStep(p, j + 1);
      MissingBelow(v, Way(p, j + 1), Way(p, j + 2));
      assert IsTree(w);
      NearestIs(w, p, j + 1);
    } else {
      assert Way(p, j + 1) == p;
    }
  }

  lemma GrownStep(st: FsState, c: ContentFile, st'': FsState, r: Path, inclusive: bool, j: nat, owner: Owner)
    requires Shaped(st.view) && j < End(r, inclusive) <= Depth(r) && Way(r, j + 1) !in st.view && ProvidesTo(st, r, j)
    requires MadeFor(c, Way(r, j + 1), owner, NearestMode(st.view, r))
    requires var q := Way(r, j + 1);
             Grown(FsState(st.view[q := c], st.layer[q := Content(c)]), st'', r, inclusive, owner)
    ensures Grown(st, st'', r, inclusive, owner)
  {
    var st' := FsState(st.view[Way(r, j + 1) := c], st.layer[Way(r, j + 1) := Content(c)]);
    ParentProvided(st, r, j);
    ProvidedParent(st, r, j);
    NearestNext(st.view, r, j, c);
    hide Nearest, NearestMode, Shaped, Provides, ProvidesTo, MadeFor, CreatesOnly, Way, Extends;
    OneMoreExtends(st, Way(r, j + 1), c);
    ExtendsTransitive(st, st', st'');
    CreatesOneMore(st, st', st'', r, inclusive, j, owner);
  }

  lemma OneMoreExtends(st: FsState, q: Path, c: ContentFile)
    requires q !in st.view && q.Sub? && (q.parent.Sub? ==> q.parent in st.layer)
    ensures Extends(st, FsState(st.view[q := c], st.layer[q := Content(c)]))
  {
  }

  lemma CreatesOneMore(st: FsState, st': FsState, st'': FsState, r: Path, inclusive: bool, j: nat, owner: Owner)
    requires j < End(r, inclusive) <= Depth(r) && Extends(st', st'') && Way(r, j + 1) in st'.view
    requires st'.view.Keys == st.view.Keys + {Way(r, j + 1)} && NearestMode(st'.view, r) == NearestMode(st.view, r)
    requires MadeFor(st'.view[Way(r, j + 1)], Way(r, j + 1), owner, NearestMode(st.view, r))
    requires CreatesOnly(st', st'', r, inclusive, owner)
    ensures CreatesOnly(st, st'', r, inclusive, owner)
  {
    hide NearestMode, MadeFor;
  }

  /** What is provided up to component `j` has the parent of the next one. */
  lemma ParentProvided(st: FsState, p: Path, j: nat)
    requires j < Depth(p) && ProvidesTo(st, p, j)
    ensures var q := Way(p, j + 1); q.Sub? && (q.parent.Sub? ==> q.parent in st.layer)
  {
    WayStep(p, j);
  }

  /** The directories missing from component `j` on are created, and nothing else. */
  lemma {:induction false} AddMissingCreates(st: FsState, dst: Path, inclusive: bool, j: nat, like: Header,
      owner: Owner)
    requires Shaped(st.view) && PlainParts(Parts(dst)) && j <= End(dst, inclusive)
    requires ProvidesTo(st, dst, j)
    requires j < End(dst, inclusive) ==> Way(dst, j + 1) !in st.view && like.mode == NearestMode(st.view, dst)
    ensures var r := AddMissing(st, Parts(dst), j, End(dst, inclusive), like, owner);
            r.Ok? && Grown(st, r.value, dst, inclusive, owner)
    decreases End(dst, inclusive) - j
  {
    hide *;
    EndsWithin(dst, inclusive);
    if j < End(dst, inclusive) {
      var p := Way(dst, j + 1);
      var c := ContentFile(Root, p, MissingDirHeader(p, like, owner));
      var st' := FsState(st.view[p := c], st.layer[p := Content(c)]);
      OneDirCreated(st, dst, inclusive, j, like, owner);
      MissingIsMade(p, like, owner);
      ShapedIsTree(st.view);
      ProvidedParent(st, dst, j);
      NearestNext(st.view, dst, j, c);
      AddMissingCreates(st', dst, inclusive, j + 1, like, owner);
      GrownStep(st, c, AddMissing(st', Parts(dst), j + 1, End(dst, inclusive), like, owner).value, dst, inclusive, j,
          owner);
    } else {
      AddsNothing(st, dst, inclusive, like, owner);
      GrownAlready(st, dst, inclusive, owner);
    }
  }

  lemma MissingIsMade(p: Path, like: Header, owner: Owner)
    ensures MadeFor(ContentFile(Root, p, MissingDirHeader(p, like, owner)), p, owner, like.mode)
    ensures MissingDirHeader(p, like, owner).mode == like.mode
  {
  }

  lemma ShapedIsTree(v: View)
    requires Shaped(v)
    ensures IsTree(v)
  {
  }

  lemma EndsWithin(dst: Path, inclusive: bool)
    ensures End(dst, inclusive) <= Depth(dst)
  {
  }

  lemma AddsNothing(st: FsState, dst: Path, inclusive: bool, like: Header, owner: Owner)
    requires End(dst, inclusive) <= |Parts(dst)|
    ensures AddMissing(st, Parts(dst), End(dst, inclusive), End(dst, inclusive), like, owner) == Ok(st)
  {
  }

  /** The first missing component is created as a directory; the rest is as before. */
  lemma OneDirCreated(st: FsState, dst: Path, inclusive: bool, j: nat, like: Header, owner: Owner)
    requires Shaped(st.view) && PlainParts(Parts(dst)) && j < End(dst, inclusive) <= Depth(dst)
    requires ProvidesTo(st, dst, j) && Way(dst, j + 1) !in st.view
    ensures var p := Way(dst, j + 1);
            var c := ContentFile(Root, p, MissingDirHeader(p, like, owner));
            var st' := FsState(st.view[p := c], st.layer[p := Content(c)]);
            && Shaped(st'.view) && ProvidesTo(st', dst, j + 1)
            && (j + 1 < End(dst, inclusive) ==> Way(dst, j + 2) !in st'.view)
            && AddMissing(st, Parts(dst), j, End(dst, inclusive), like, owner)
               == AddMissing(st', Parts(dst), j + 1, End(dst, inclusive), like, owner)
  {
    hide ProvidesTo, PlainParts, AddEntry, FileFor;
    var p := Way(dst, j + 1);
    WayStep(dst, j);
    var c := ContentFile(Root, p, MissingDirHeader(p, like, owner));
    PlainComponent(dst, j);
    ProvidedParent(st, dst, j);
    AddNewDir(st, p, c);
    if j + 1 < End(dst, inclusive) {
      WayStep(dst, j + 1);
      MissingBelow(st.view, p, Way(dst, j + 2));
    }
    ProvidesStep(st, dst, j, c);
  }

  lemma GrownAlready(st: FsState, dst: Path, inclusive: bool, owner: Owner)
    requires Shaped(st.view) && Provides(st, dst, inclusive)
    ensures Grown(st, st, dst, inclusive, owner)
  {
  }

  lemma PlainComponent(dst: Path, j: nat)
    requires PlainParts(Parts(dst)) && j < Depth(dst)
    ensures !IsWhiteoutName(Parts(dst)[j])
  {
    assert Parts(dst)[j] in Parts(dst);
  }

  lemma ProvidedParent(st: FsState, dst: Path, j: nat)
    requires Shaped(st.view) && j <= Depth(dst) && ProvidesTo(st, dst, j)
    ensures Way(dst, j) in st.view && st.view[Way(dst, j)].hdr.IsDir()
  {
    WayIsPrefix(dst, 0);
  }

  lemma MissingBelow(v: View, p: Path, q: Path)
    requires IsTree(v) && p !in v && q.Sub? && q.parent == p
    ensures q !in v && q != p
  {
    WithinCases(p, q);
    BelowIsStrict(p, q);
  }

  // ----- the main theorem -----

  /** Where the loop finds a symlink, it redirects as the reference does. */
  lemma RedirectAgrees(v: View, p: Path, i: nat)
    requires i < Depth(p) && Way(p, i + 1) in v && PlainParts(Parts(p))
    requires AbsoluteLink(v[Way(p, i + 1)].hdr.linkname)
    ensures FromParts(LinkTarget(v[Way(p, i + 1)].hdr.linkname, Parts(p)[i + 1..])) == Redirect(v, p, i)
  {
    hide LinkTarget, SplitPath, Render, FromParts, Rebase, Parts, Way;
    var link := v[Way(p, i + 1)].hdr.linkname;
    var t :| ProperPath(t) && link == Render(t);
    RenderRoundTrip(t);
    PartsRoundTrip(t);
    var rest := Parts(p)[i + 1..];
    assert forall c | c in rest :: c in Parts(p);
    AbsoluteLinkTarget(t, rest);
    RebaseParts(t, p, i + 1);
    PartsRoundTrip(Rebase(t, p, i + 1));
  }

  lemma {:induction false} RebaseParts(t: Path, p: Path, k: nat)
    requires k <= Depth(p)
    ensures Parts(Rebase(t, p, k)) == Parts(t) + Parts(p)[k..]
    decreases p
  {
    if Depth(p) <= k {
      assert Parts(p)[k..] == [];
    } else {
      RebaseParts(t, p.parent, k);
      assert Parts(p)[k..] == Parts(p.parent)[k..] + [p.name];
    }
  }

  /** The state after passing or following component `i` of `p`. */
  function Passed(st: FsState, p: Path, i: nat): FsState
    requires i < Depth(p) && Way(p, i + 1) in st.view
  {
    FsState(st.view, st.layer[Way(p, i + 1) := Content(st.view[Way(p, i + 1)])])
  }

  lemma PassedExtends(st: FsState, p: Path, i: nat)
    requires i < Depth(p) && Way(p, i + 1) in st.view && ProvidesTo(st, p, i)
    ensures Extends(st, Passed(st, p, i))
    ensures st.view[Way(p, i + 1)].hdr.IsDir() ==> ProvidesTo(Passed(st, p, i), p, i + 1)
  {
    ParentProvided(st, p, i);
  }

  /** The loop where the next component is a directory. */
  lemma ClimbEnters(st: FsState, p: Path, inclusive: bool, depth: nat, owner: Owner, i: nat, like: Header)
    requires Shaped(st.view) && depth < MAX_DEPTH && i < End(p, inclusive) && ProvidesTo(st, p, i)
    requires Way(p, i + 1) in st.view && st.view[Way(p, i + 1)].hdr.IsDir()
    ensures Extends(st, Passed(st, p, i)) && ProvidesTo(Passed(st, p, i), p, i + 1)
    ensures Climb(st, p, inclusive, depth, owner, i, Way(p, i), like) ==
            Climb(Passed(st, p, i), p, inclusive, depth, owner, i + 1, Way(p, i + 1), st.view[Way(p, i + 1)].hdr)
  {
    PassedExtends(st, p, i);
    WayStep(p, i);
    AddAgain(st, Way(p, i + 1));
  }

  /** The loop where the next component is a symlink. */
  lemma ClimbHops(st: FsState, p: Path, inclusive: bool, depth: nat, owner: Owner, i: nat, like: Header)
    requires Shaped(st.view) && depth < MAX_DEPTH && i < End(p, inclusive) && ProvidesTo(st, p, i)
    requires Passable(st.view, p, inclusive)
    requires Way(p, i + 1) in st.view && !st.view[Way(p, i + 1)].hdr.IsDir()
    ensures Extends(st, Passed(st, p, i)) && FirstLink(st.view, p, inclusive, i) == Some(i)
    ensures Climb(st, p, inclusive, depth, owner, i, Way(p, i), like) ==
            AddAncestors(Passed(st, p, i), Redirect(st.view, p, i), inclusive, depth + 1, owner)
  {
    hide Shaped, Extends, ProvidesTo, AddAncestors, AddEntry, FileFor, Redirect, LinkTarget, FromParts, AddMissing;
    ShapedHasRoot(st.view);
    PassedExtends(st, p, i);
    WayStep(p, i);
    AddAgain(st, Way(p, i + 1));
    RedirectAgrees(st.view, p, i);
  }

  /** The loop where the next component is missing or not required. */
  lemma ClimbStops(st: FsState, p: Path, inclusive: bool, depth: nat, owner: Owner, i: nat, like: Header)
    requires Shaped(st.view) && depth < MAX_DEPTH && i <= End(p, inclusive) && ProvidesTo(st, p, i)
    requires PlainParts(Parts(p))
    requires i == End(p, inclusive) || Way(p, i + 1) !in st.view
    requires Way(p, i) in st.view && like == st.view[Way(p, i)].hdr
    ensures var r := Climb(st, p, inclusive, depth, owner, i, Way(p, i), like);
            r.Ok? && r.value.1 == p && Grown(st, r.value.0, p, inclusive, owner)
  {
    if i < End(p, inclusive) {
      WayStep(p, i);
      NearestIs(st.view, p, i);
    }
    hide Nearest;
    AddMissingCreates(st, p, inclusive, i, like, owner);
  }

  /** The state after following component `k`, from component `i` on. */
  function PassedTo(st: FsState, p: Path, i: nat, k: nat): (r: FsState)
    requires k < Depth(p)
    ensures r.view == st.view
    decreases k + 1 - i
  {
    if i > k || Way(p, i + 1) !in st.view then st else PassedTo(Passed(st, p, i), p, i + 1, k)
  }

  /** The loop runs over directories to the first link and hops from there. */
  lemma {:induction false} ClimbToLink(st: FsState, p: Path, inclusive: bool, depth: nat, owner: Owner, i: nat,
      like: Header)
    requires Shaped(st.view) && depth < MAX_DEPTH && Passable(st.view, p, inclusive)
    requires i <= End(p, inclusive) && ProvidesTo(st, p, i)
    requires FirstLink(st.view, p, inclusive, i).Some?
    ensures var k := FirstLink(st.view, p, inclusive, i).value;
            && Extends(st, PassedTo(st, p, i, k))
            && Climb(st, p, inclusive, depth, owner, i, Way(p, i), like) ==
               AddAncestors(PassedTo(st, p, i, k), Redirect(st.view, p, k), inclusive, depth + 1, owner)
    decreases End(p, inclusive) - i
  {
    hide Shaped, Passable, Extends, Climb, Redirect, ProvidesTo, AddAncestors;
    ShapedHasRoot(st.view);
    var k := FirstLink(st.view, p, inclusive, i).value;
    if st.view[Way(p, i + 1)].hdr.IsDir() {
      ClimbEnters(st, p, inclusive, depth, owner, i, like);
      ClimbToLink(Passed(st, p, i), p, inclusive, depth, owner, i + 1, st.view[Way(p, i + 1)].hdr);
      assert PassedTo(st, p, i, k) == PassedTo(Passed(st, p, i), p, i + 1, k);
      ExtendsTransitive(st, Passed(st, p, i), PassedTo(st, p, i, k));
    } else {
      ClimbHops(st, p, inclusive, depth, owner, i, like);
      assert PassedTo(st, p, i, i) == Passed(st, p, i);
    }
  }

  ghost predicate GrownBy(st: FsState, inclusive: bool, owner: Owner, r: Result<(FsState, Path), FsError>) {
    r.Ok? ==> Grown(st, r.value.0, r.value.1, inclusive, owner)
  }

  lemma GrownEarlier(st: FsState, st': FsState, inclusive: bool, owner: Owner, r: Result<(FsState, Path), FsError>)
    requires st'.view == st.view && Extends(st, st') && GrownBy(st', inclusive, owner, r)
    ensures GrownBy(st, inclusive, owner, r)
  {
    hide NearestMode;
    if r.Ok? { ExtendsTransitive(st, st', r.value.0); }
  }

  /** Without a link on the way, the loop makes what is missing and returns the
      path itself. */
  lemma {:induction false} ClimbToEnd(st: FsState, p: Path, inclusive: bool, depth: nat, owner: Owner, i: nat,
      like: Header)
    requires Shaped(st.view) && depth < MAX_DEPTH && Passable(st.view, p, inclusive)
    requires i <= End(p, inclusive) && ProvidesTo(st, p, i)
    requires FirstLink(st.view, p, inclusive, i).None?
    requires Way(p, i) in st.view && like == st.view[Way(p, i)].hdr
    ensures var r := Climb(st, p, inclusive, depth, owner, i, Way(p, i), like);
            r.Ok? && r.value.1 == p && GrownBy(st, inclusive, owner, r)
    decreases End(p, inclusive) - i
  {
    hide Shaped, Extends, Climb, Redirect, ProvidesTo, Grown;
    ShapedHasRoot(st.view);
    if i < End(p, inclusive) && Way(p, i + 1) in st.view {
      var next := st.view[Way(p, i + 1)].hdr;
      ClimbEnters(st, p, inclusive, depth, owner, i, like);
      ClimbToEnd(Passed(st, p, i), p, inclusive, depth, owner, i + 1, next);
      GrownEarlier(st, Passed(st, p, i), inclusive, owner,
          Climb(Passed(st, p, i), p, inclusive, depth, owner, i + 1, Way(p, i + 1), next));
    } else {
      ClimbStops(st, p, inclusive, depth, owner, i, like);
    }
  }

  function Answer(r: Result<(FsState, Path), FsError>): Result<Path, FsError> {
    match r case Ok(s) => Ok(s.1) case Err(e) => Err(e)
  }

  /** One call, in terms of the call it makes for the first link, if any. */
  lemma OneCall(st: FsState, p: Path, inclusive: bool, depth: nat, owner: Owner)
    requires Shaped(st.view) && depth < MAX_DEPTH && Passable(st.view, p, inclusive)
    ensures var r := AddAncestors(st, p, inclusive, depth, owner);
            var link := FirstLink(st.view, p, inclusive, 0);
            if link.None? then r.Ok? && r.value.1 == p && GrownBy(st, inclusive, owner, r)
            else
              var st' := PassedTo(st, p, 0, link.value);
              Extends(st, st') && r == AddAncestors(st', Redirect(st.view, p, link.value), inclusive, depth + 1, owner)
  {
    WayIsPrefix(p, 0);
    if FirstLink(st.view, p, inclusive, 0).Some? {
      ClimbToLink(st, p, inclusive, depth, owner, 0, st.view[Root].hdr);
    } else {
      ClimbToEnd(st, p, inclusive, depth, owner, 0, st.view[Root].hdr);
    }
  }

  lemma OutOfLinks(st: FsState, p: Path, inclusive: bool, depth: nat, owner: Owner)
    requires Root in st.view && depth >= MAX_DEPTH
    ensures AddAncestors(st, p, inclusive, depth, owner) == Err(SymlinkLoop)
  {
  }

  lemma ShapedHasRoot(v: View)
    requires Shaped(v)
    ensures Root in v
  {
  }

  /** The call's answer is the reference resolution, errors included. */
  lemma {:induction false} AddAncestorsResolves(st: FsState, p: Path, inclusive: bool, depth: nat, owner: Owner,
      ps: iset<Path>)
    requires Shaped(st.view) && depth <= MAX_DEPTH && Passage(st.view, inclusive, ps) && p in ps
    ensures Answer(AddAncestors(st, p, inclusive, depth, owner)) == Resolve(st.view, p, inclusive, MAX_DEPTH - depth)
    decreases MAX_DEPTH - depth
  {
    hide Shaped, Passable, Extends, Grown, AddAncestors, Redirect, FirstLink;
    ShapedHasRoot(st.view);
    if depth < MAX_DEPTH {
      OneCall(st, p, inclusive, depth, owner);
      var link := FirstLink(st.view, p, inclusive, 0);
      if link.Some? {
        AddAncestorsResolves(PassedTo(st, p, 0, link.value), Redirect(st.view, p, link.value), inclusive, depth + 1,
            owner, ps);
      }
    } else {
      OutOfLinks(st, p, inclusive, depth, owner);
    }
  }

  /** A successful call leaves the promised directories behind. */
  lemma {:induction false} AddAncestorsGrows(st: FsState, p: Path, inclusive: bool, depth: nat, owner: Owner,
      ps: iset<Path>)
    requires Shaped(st.view) && depth <= MAX_DEPTH && Passage(st.view, inclusive, ps) && p in ps
    ensures GrownBy(st, inclusive, owner, AddAncestors(st, p, inclusive, depth, owner))
    decreases MAX_DEPTH - depth
  {
    hide Shaped, Passable, Extends, Grown, AddAncestors, Redirect, FirstLink;
    ShapedHasRoot(st.view);
    if depth < MAX_DEPTH {
      OneCall(st, p, inclusive, depth, owner);
      var link := FirstLink(st.view, p, inclusive, 0);
      if link.Some? {
        var st', target := PassedTo(st, p, 0, link.value), Redirect(st.view, p, link.value);
        AddAncestorsGrows(st', target, inclusive, depth + 1, owner, ps);
        GrownEarlier(st, st', inclusive, owner, AddAncestors(st', target, inclusive, depth + 1, owner));
      }
    } else {
      OutOfLinks(st, p, inclusive, depth, owner);
    }
  }

  lemma {:induction false} OnlyLoops(v: View, p: Path, inclusive: bool, fuel: nat)
    ensures var r := Resolve(v, p, inclusive, fuel); r.Err? ==> r.error == SymlinkLoop
    decreases fuel
  {
    hide FirstLink, Redirect;
    if fuel > 0 && FirstLink(v, p, inclusive, 0).Some? {
      OnlyLoops(v, Redirect(v, p, FirstLink(v, p, inclusive, 0).value), inclusive, fuel - 1);
    }
  }

  /** addAncestors, called from outside, returns the symlink resolution of the
      path whenever fewer than 1024 links lead to it; it fails with a loop
      error exactly when they do not, and never for any other reason. Every
      required prefix of the result is then a directory of the tree and in the
      layer, and nothing that existed has changed. */
  lemma AddAncestorsIsResolution(st: FsState, p: Path, inclusive: bool, owner: Owner, ps: iset<Path>)
    requires Shaped(st.view) && Passage(st.view, inclusive, ps) && p in ps
    ensures var r := AddAncestors(st, p, inclusive, 0, owner);
            && (match Resolve(st.view, p, inclusive, MAX_DEPTH)
                case Err(_) => r == Err(SymlinkLoop)
                case Ok(q) => r.Ok? && r.value.1 == q && Grown(st, r.value.0, q, inclusive, owner))
            && match r
               case Ok((_, q)) => EndsAt(st.view, p, inclusive, q, MAX_DEPTH)
               case Err(_) => GoesOn(st.view, p, inclusive, MAX_DEPTH)
  {
    hide *;
    ShapedHasRoot(st.view);
    AddAncestorsResolves(st, p, inclusive, 0, owner, ps);
    OnlyLoops(st.view, p, inclusive, MAX_DEPTH);
    AddAncestorsGrows(st, p, inclusive, 0, owner, ps);
    ResolveFollowsLinks(st.view, p, inclusive, MAX_DEPTH);
    AnswersMean(st, p, inclusive, owner, AddAncestors(st, p, inclusive, 0, owner),
        Resolve(st.view, p, inclusive, MAX_DEPTH));
  }

  lemma AnswersMean(st: FsState, p: Path, inclusive: bool, owner: Owner, r: Result<(FsState, Path), FsError>,
      q: Result<Path, FsError>)
    requires Answer(r) == q && GrownBy(st, inclusive, owner, r) && (q.Err? ==> q.error == SymlinkLoop)
    ensures match q
            case Err(_) => r == Err(SymlinkLoop)
            case Ok(t) => r.Ok? && r.value.1 == t && Grown(st, r.value.0, t, inclusive, owner)
  {
  }
}
