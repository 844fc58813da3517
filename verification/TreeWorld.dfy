/** The diff law of cached builds, met by this project's own layers: those of
    scans, and those of copy operations wherever every entry fits. */
module TreeWorld {
  import opened Wrappers
  import opened Paths
  import opened PathStrings
  import opened TarHeaders
  import opened Layers
  import opened ScanTheory
  import opened Ancestors
  import opened LayerSteps
  import opened CopyLayers
  import opened CopyLaw
  import opened CopyAncestors
  import opened CopyPlans
  import opened CopiedTrees
  import opened LookTrees
  import opened CopyLooks
  import B = BuildSpec
  import CachedBuild
  import CacheTheorem

  // ----- copies on trees of looks -----

  /** Views that are such a tree once their headers are reduced to looks. */
  ghost predicate IsLookView(v: View) {
    && IsTree(v) && KeyedByDst(v) && OnlyDirsHaveChildren(v) && v[Root].hdr == RootHeader()
    && forall p | p in v && p.Sub? :: v[p].hdr.Supported() && v[p].hdr.name != "" && PlainName(p)
  }

  lemma TreesAreLookViews(t: Tree)
    ensures IsLookView(ViewOf(t)) && LooksOf(ViewOf(t)) == t
  {
    ViewIsTree(t);
    ViewLooks(t);
    hide HeaderOf, LookOf, IsTree, KeyedByDst, OnlyDirsHaveChildren;
    assert LooksOf(ViewOf(t)).Keys == t.Keys;
    assert LooksOf(ViewOf(t)) == t;
  }

  lemma ViewLooks(t: Tree)
    ensures forall p | p in ViewOf(t) && p.Sub? ::
              && p in t && ViewOf(t)[p].hdr.Supported() && ViewOf(t)[p].hdr.name != ""
              && LookOf(ViewOf(t)[p].hdr) == t[p]
  {
    forall p: Path | p in t
      ensures var h := HeaderOf(p, t[p]); h.Supported() && h.name != "" && LookOf(h) == t[p]
    {
      HeaderLooks(p, t[p]);
    }
    hide HeaderOf, LookOf;
  }

  lemma ViewIsTree(t: Tree)
    ensures IsTree(ViewOf(t)) && KeyedByDst(ViewOf(t)) && OnlyDirsHaveChildren(ViewOf(t))
    ensures forall p | p in ViewOf(t) :: PlainName(p)
  {
    TreesAreScannable(t);
  }

  lemma LookViewsAreTrees(v: View)
    requires IsLookView(v)
    ensures IsLookTree(LooksOf(v)) && SameView(v, ViewOf(LooksOf(v)))
  {
    var t := LooksOf(v);
    forall p, c | Sub(p, c) in t && p.Sub? ensures p in t && t[p].DirLook? {
      assert Sub(p, c) in v;
    }
    forall p | p in t ensures SameHeader(v[p].hdr, HeaderOf(p, t[p])) {
      HeaderLooks(p, t[p]);
    }
  }

  lemma SameViewsSameLooks(v: View, w: View)
    requires IsLookView(v) && SameView(v, w)
    ensures IsLookView(w) && LooksOf(w) == LooksOf(v)
  {
    forall p | p in v
      ensures w[p].dst == p && (w[p].hdr.IsDir() <==> v[p].hdr.IsDir())
      ensures p.Sub? ==> w[p].hdr.Supported() && w[p].hdr.name != "" && LookOf(w[p].hdr) == LookOf(v[p].hdr)
    {
      assert SameFile(v[p], w[p]);
      SameKind(v[p].hdr, w[p].hdr);
    }
    assert SameFile(v[Root], w[Root]);
    hide LookOf, SameFile;
    assert LooksOf(w) == LooksOf(v);
  }

  ghost function Start(t: Tree): (st: FsState)
    ensures Root in st.view && st.view[Root].hdr.IsDir()
  {
    FsState(ViewOf(t), map[])
  }

  /** What a copy makes of a tree, if it succeeds and leaves a tree. */
  ghost function CopyTree(op: CopyOperation, now: int, t: Tree): Option<Tree> {
    var r := AddToLayer(Start(t), op, now);
    if r.Ok? && IsLookView(r.value.view) then
      LookViewsAreTrees(r.value.view);
      Some(LooksOf(r.value.view))
    else None
  }

  /** Every copy of a run succeeds and leaves a tree. */
  ghost predicate Tidy(st: FsState, ops: seq<CopyOperation>, now: int)
    requires Root in st.view
  {
    && (ops != [] ==> Tidy(st, ops[..|ops| - 1], now))
    && AddOperations(st, ops, now).Ok? && IsLookView(AddOperations(st, ops, now).value.view)
  }

  /** The layer of the copies is a correct diff: nothing named exactly like the
      whiteout prefix is copied, and every entry fits. */
  ghost predicate HasCopyLayer(t: Tree, ops: seq<CopyOperation>, now: int) {
    && Tidy(Start(t), ops, now)
    && var es := CopyEntries(Start(t), ops, now);
       (forall e | e in es :: !Nameless(e)) && AllFit(ViewOf(t), Start(t), es)
  }

  /** Named headers at plain paths. */
  ghost predicate Named(v: View) {
    forall p | p in v && p.Sub? :: v[p].hdr.name != "" && PlainName(p)
  }

  lemma GrownIsNamed(st: FsState, s: FsState, p: Path, owner: Owner)
    requires Named(st.view) && Grown(st, s, p, true, owner) && PlainParts(Parts(p))
    ensures Named(s.view)
  {
    hide Shaped, Way, PlainParts, RelPath, PlainName;
    forall q | q in s.view && q.Sub? ensures s.view[q].hdr.name != "" && PlainName(q) {
      if q !in st.view {
        var j :| 1 <= j <= End(p, true) && q == Way(p, j);
        PlainUpTo(p, j);
        HasTarName(q);
      }
    }
  }

  lemma PlainUpTo(p: Path, j: nat)
    requires PlainParts(Parts(p)) && j <= Depth(p)
    ensures PlainParts(Parts(Way(p, j)))
  {
    WayIsPrefix(p, j);
    FromPartsRoundTrip(Parts(p)[..j]);
    assert forall c | c in Parts(p)[..j] :: c in Parts(p);
  }

  lemma LaidIsNamed(v: View, d: Path, files: seq<CopiedFile>)
    requires Named(v) && IsPlan(d, files)
    ensures Named(Laid(v, files))
  {
    forall f | f in files ensures f.hdr.name != "" && PlainName(f.dst) {
      var i :| 0 <= i < |files| && files[i] == f;
      assert PlannedAt(d, files, i);
      HasTarName(f.dst);
    }
  }

  /** A directory copied to a place free of links has a layer of its own. */
  lemma DirectoryHasCopyLayer(t: Tree, op: CopyOperation, now: int)
    requires |op.srcs| == 1 && IsListing(op.srcs[0]) && Direct(ViewOf(t), op.dst, true)
    ensures HasCopyLayer(t, [op], now)
  {
    hide *;
    var st := Start(t);
    StartIs(t);
    DirectoryIsLaid(ViewOf(t), st, op, now);
    var made := AddAncestors(st, op.dst, true, 0, Owner(op.uid, op.gid, now)).value.0;
    var r, files := AddToLayer(st, op, now).value, CopiedFiles(op, 1, op.dst, true);
    OneSource(op);
    DirectPlain(ViewOf(t), op.dst, true);
    ListingIsPlan(op.srcs[0], op.dst, op);
    GrownIsNamed(st, made, op.dst, Owner(op.uid, op.gid, now));
    LaidIsNamed(made.view, op.dst, files);
    RootKept(st, OperationEntries(st, op, now));
    IsLook(r.view);
    OneOperation(st, op, now);
    ContentIsNamed(CopyEntries(st, [op], now));
    HasIs(t, [op], now);
  }

  lemma HasIs(t: Tree, ops: seq<CopyOperation>, now: int)
    requires Tidy(Start(t), ops, now) && forall e | e in CopyEntries(Start(t), ops, now) :: !Nameless(e)
    requires AllFit(ViewOf(t), Start(t), CopyEntries(Start(t), ops, now))
    ensures HasCopyLayer(t, ops, now)
  {
  }

  lemma StartIs(t: Tree)
    ensures Start(t) == FsState(ViewOf(t), map[]) && IsLookView(Start(t).view) && Named(Start(t).view)
    ensures Described(ViewOf(t), Start(t)) && Comparable(ViewOf(t)) && Start(t).view[Root].hdr == RootHeader()
    ensures OnlyContent(Start(t).layer)
    ensures forall d :: OnlyPlanned(Start(t).layer, d, [])
  {
    TreesAreLookViews(t);
    NothingIsDescribed(ViewOf(t));
    hide ViewOf, LooksOf;
  }

  lemma IsLook(v: View)
    requires Comparable(v) && Named(v) && Root in v && v[Root].hdr == RootHeader()
    ensures IsLookView(v)
  {
  }

  lemma OneOperation(st: FsState, op: CopyOperation, now: int)
    requires Root in st.view && IsLookView(st.view) && AddToLayer(st, op, now).Ok?
    requires IsLookView(AddToLayer(st, op, now).value.view)
    ensures Tidy(st, [op], now) && CopyEntries(st, [op], now) == OperationEntries(st, op, now)
  {
    hide AddToLayer, OperationEntries, IsLookView;
    assert [op][..0] == [];
    assert AddOperations(st, [], now) == Ok(st);
  }

  // ----- the world of a build -----

  /** How a build reads its copies, and what a copy does that does not succeed. */
  datatype Copies<!Cmd, !Config> = Copies(
    plan: B.CopyOp<Cmd, Config> -> CopyOperation,
    other: (B.CopyOp<Cmd, Config>, Tree) -> Tree,
    now: int)
  {
    ghost function Copy(op: B.CopyOp<Cmd, Config>, t: Tree): Tree {
      match CopyTree(plan(op), now, t)
      case Some(t') => t'
      case None => other(op, t)
    }

    ghost function CopyAll(ops: seq<B.CopyOp<Cmd, Config>>, t: Tree): Tree {
      if ops == [] then t else Copy(ops[|ops| - 1], CopyAll(ops[..|ops| - 1], t))
    }

    ghost function Plans(ops: seq<B.CopyOp<Cmd, Config>>): seq<CopyOperation> {
      if ops == [] then [] else Plans(ops[..|ops| - 1]) + [plan(ops[|ops| - 1])]
    }

    /** The layer addToLayer builds, where it is a correct diff. */
    ghost function CopyLayer(ops: seq<B.CopyOp<Cmd, Config>>, t: Tree): Layer {
      if HasCopyLayer(t, Plans(ops), now) then AddOperations(Start(t), Plans(ops), now).value.layer
      else ScanTree(t, CopyAll(ops, t))
    }

    /** One copy after the other on trees is the run of all of them on the view. */
    lemma {:induction false} CopiesFollow(ops: seq<B.CopyOp<Cmd, Config>>, t: Tree)
      requires Tidy(Start(t), Plans(ops), now)
      ensures SameView(AddOperations(Start(t), Plans(ops), now).value.view, ViewOf(CopyAll(ops, t)))
    {
      hide IsLookView, SameView, AddToLayer, ViewOf, LooksOf;
      if ops == [] {
        NothingCopied(t, now);
      } else {
        var front, op := ops[..|ops| - 1], ops[|ops| - 1];
        assert Plans(ops)[..|Plans(ops)| - 1] == Plans(front);
        CopiesFollow(front, t);
        var s := AddOperations(Start(t), Plans(front), now).value;
        OneMoreCopy(s, CopyAll(front, t), plan(op), now);
      }
    }

    lemma CopyLayerTurns(ops: seq<B.CopyOp<Cmd, Config>>, t: Tree)
      ensures ApplyTree(CopyLayer(ops, t), t) == CopyAll(ops, t)
    {
      hide *;
      if HasCopyLayer(t, Plans(ops), now) {
        CopyLayerIs(ops, t);
        RealLayerTurns(t, Plans(ops), now);
        CopiesFollow(ops, t);
        var r := AddOperations(Start(t), Plans(ops), now).value;
        SameViewsSameLooks(r.view, ViewOf(CopyAll(ops, t)));
        TreesAreLookViews(CopyAll(ops, t));
        AppliedIs(r.layer, t, CopyAll(ops, t));
      } else {
        CopyLayerIs(ops, t);
        ScanLayerTurns(t, CopyAll(ops, t));
      }
    }

    lemma CopyLayerIs(ops: seq<B.CopyOp<Cmd, Config>>, t: Tree)
      ensures HasCopyLayer(t, Plans(ops), now) ==>
              && Tidy(Start(t), Plans(ops), now) && AddOperations(Start(t), Plans(ops), now).Ok?
              && CopyLayer(ops, t) == AddOperations(Start(t), Plans(ops), now).value.layer
      ensures !HasCopyLayer(t, Plans(ops), now) ==> CopyLayer(ops, t) == ScanTree(t, CopyAll(ops, t))
    {
    }
  }

  lemma NothingCopied(t: Tree, now: int)
    ensures AddOperations(Start(t), [], now) == Ok(Start(t)) && SameView(Start(t).view, ViewOf(t))
  {
  }

  /** A copy on the view under way and on the tree it looks like. */
  lemma OneMoreCopy(s: FsState, t: Tree, op: CopyOperation, now: int)
    requires Root in s.view && IsLookView(s.view) && SameView(s.view, ViewOf(t))
    requires AddToLayer(s, op, now).Ok? && IsLookView(AddToLayer(s, op, now).value.view)
    ensures CopyTree(op, now, t).Some?
    ensures SameView(AddToLayer(s, op, now).value.view, ViewOf(CopyTree(op, now, t).value))
  {
    var v := AddToLayer(s, op, now).value.view;
    OperationSame(s, Start(t), op, now) by { assert s.view[Root].hdr == RootHeader(); }
    hide AddToLayer, ViewOf;
    var w := AddToLayer(Start(t), op, now).value.view;
    SameViewsSameLooks(v, w);
    LookViewsAreTrees(v);
    hide SameView, IsLookView, LooksOf;
  }

  lemma RealLayerTurns(t: Tree, ops: seq<CopyOperation>, now: int)
    requires HasCopyLayer(t, ops, now)
    ensures var r := AddOperations(Start(t), ops, now);
            r.Ok? && IsLookView(r.value.view) && Overlay(ViewOf(t), r.value.layer) == r.value.view
  {
    TreesAreLookViews(t);
    hide AllFit, AddOperations, CopyEntries, OnlyDirsHaveChildren, LooksOf, Nameless;
    CopyLayerLaw(ViewOf(t), ops, now);
    hide KeyedLayer, Overlay;
  }

  /** Commands and config updates as they like, copies and layers as they are here. */
  ghost function WorldOf<Cmd, Config>(
    run: (Cmd, Config, Tree) -> Option<Tree>, copies: Copies<Cmd, Config>,
    update: (B.Step<Cmd, Layer>, Config) -> Config): B.World<Tree, Cmd, Config, Layer>
  {
    B.World(run, (op, t) => copies.Copy(op, t), ScanTree, (ops, t) => copies.CopyLayer(ops, t), ApplyTree, update)
  }

  lemma {:induction false} CopiesAgree<Cmd, Config>(
    run: (Cmd, Config, Tree) -> Option<Tree>, copies: Copies<Cmd, Config>,
    update: (B.Step<Cmd, Layer>, Config) -> Config, ops: seq<B.CopyOp<Cmd, Config>>, t: Tree)
    ensures WorldOf(run, copies, update).CopyAll(ops, t) == copies.CopyAll(ops, t)
  {
    if ops != [] { CopiesAgree(run, copies, update, ops[..|ops| - 1], t); }
  }

  /** Such a world meets the law cached builds rest on. */
  lemma TreesAreLawful<Cmd(!new), Config(!new)>(
    run: (Cmd, Config, Tree) -> Option<Tree>, copies: Copies<Cmd, Config>,
    update: (B.Step<Cmd, Layer>, Config) -> Config)
    ensures B.Lawful(WorldOf(run, copies, update))
  {
    var w := WorldOf(run, copies, update);
    forall a: Tree, b: Tree ensures w.apply(w.scan(a, b), a) == b { ScanLayerTurns(a, b); }
    forall ops: seq<B.CopyOp<Cmd, Config>>, t: Tree ensures w.apply(w.copyLayer(ops, t), t) == w.CopyAll(ops, t) {
      CopiesAgree(run, copies, update, ops, t);
      copies.CopyLayerTurns(ops, t);
    }
  }

  /** With the layers of real scans and copies: whatever builds came before, the
      next cached build of the stage means the same as the uncached one. */
  lemma EveryTreeBuildIsUncached<Cmd(!new), Config(!new)>(
    run: (Cmd, Config, Tree) -> Option<Tree>, copies: Copies<Cmd, Config>,
    update: (B.Step<Cmd, Layer>, Config) -> Config, b: CachedBuild.Job<Tree, Cmd, Config, Layer>,
    caches: seq<map<nat, B.Entry<Layer>>>, stops: seq<nat>, n: nat)
    requires b.w == WorldOf(run, copies, update) && B.IsStage(b.steps, b.o)
    requires CacheTheorem.IsHistory(b, caches, stops) && n < |caches|
    requires forall m | 0 <= m <= n :: !CachedBuild.SomeRunsAgain(b.o, b.steps, caches[m])
    ensures match b.Uncached(|b.steps|)
            case Err(e) => b.Cached(caches[n], |b.steps|) == Err(e)
            case Ok(u) =>
              var r := b.Cached(caches[n], |b.steps|);
              r.Ok? && r.value.ctx == u.ctx && r.value.config == u.config && r.value.digests == u.digests
  {
    TreesAreLawful(run, copies, update);
    CacheTheorem.EveryBuildIsUncached(b, caches, stops, n);
  }
}
