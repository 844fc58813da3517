/** The cached build keeps in step with the uncached one, node by node. */
module CacheProof {
  import opened Wrappers
  import opened BuildSpec
  import opened CachedBuild

  /** What the last commit left, with nothing pending. */
  function Settled<FS, Cmd, Config>(o: Options, ctx: Context<FS, Cmd, Config>): Context<FS, Cmd, Config> {
    Context(ctx.mem, if o.modifyFS then ctx.mem else ctx.disk, false, [])
  }

  /** The cached build before node i, seen from the uncached one: as long as
      there are pulled layers ahead it stands where the last commit left off. */
  ghost predicate InStep<FS, Cmd, Config, Layer>(
    b: Job<FS, Cmd, Config, Layer>, cache: map<nat, Entry<Layer>>, i: nat,
    u: State<FS, Cmd, Config, Layer>, c: State<FS, Cmd, Config, Layer>)
    requires |u.digests| == |c.digests| == |b.steps|
  {
    && c.config == u.config
    && (forall j | 0 <= j < i && j < |b.steps| :: c.digests[j] == u.digests[j])
    && (forall j | i <= j < |b.steps| :: c.digests[j] == FetchedDigests(b.o, b.steps, cache, j))
    && (forall x | x in c.pushed :: x in u.pushed && c.pushed[x] == u.pushed[x])
    && c.ctx == if Ahead(b.o, b.steps, cache, i) then Settled(b.o, u.ctx) else u.ctx
  }

  ghost predicate Ready<FS(!new), Cmd(!new), Config(!new), Layer>(b: Job<FS, Cmd, Config, Layer>,
      cache: map<nat, Entry<Layer>>) {
    IsStage(b.steps, b.o) && Lawful(b.w) && b.Sound(cache)
  }

  // ----- one node -----

  /** A node of the uncached build, with what it leaves in the state. */
  lemma NodeEffect<FS(!new), Cmd(!new), Config(!new), Layer>(
    b: Job<FS, Cmd, Config, Layer>, i: nat, u: State<FS, Cmd, Config, Layer>, u': State<FS, Cmd, Config, Layer>)
    requires 0 < i < |b.steps| && IsStage(b.steps, b.o) && Lawful(b.w) && UncachedInv(b, i, u)
    requires BuildNode(b.w, b.o, b.steps, i, false, u) == Ok(u')
    ensures |u'.digests| == |b.steps| && forall j | 0 <= j < |b.steps| && j != i :: u'.digests[j] == u.digests[j]
    ensures u.digests[i] == None && u'.config == b.w.update(b.steps[i], u.config)
    ensures forall x | x in u.pushed :: x != i && x in u'.pushed && u'.pushed[x] == u.pushed[x]
    ensures !b.Commits(i) ==> u'.digests == u.digests && u'.pushed == u.pushed && u'.ctx.mem == u.ctx.mem
                              && (b.o.modifyFS || u'.ctx.disk == u.ctx.disk)
                              && (u'.ctx.Pending() <==> u.ctx.Pending() || b.steps[i].Changes())
                              && (!b.steps[i].Changes() ==> u'.ctx == u.ctx)
    ensures b.Commits(i) ==>
            i in u'.pushed && u'.ctx == Settled(b.o, u'.ctx)
            && (b.o.modifyFS || u'.ctx.disk == u.ctx.disk)
    ensures b.Commits(i) && (u.ctx.Pending() || b.steps[i].Changes()) ==>
              u'.pushed[i].LayerEntry? && u'.digests[i] == Some([u'.pushed[i].layer])
              && u'.ctx.mem == b.w.apply(u'.pushed[i].layer, u.ctx.mem)
    ensures b.Commits(i) && !u.ctx.Pending() && !b.steps[i].Changes() ==>
              u'.pushed[i] == EmptyEntry && u'.digests[i] == None && u'.ctx == u.ctx
  {
    hide Lawful, CommitLayer, Execute, DiskAgrees;
    var e := Execute(b.w, b.steps[i], u.ctx, u.config, b.o.modifyFS).value;
    ExecuteAgrees(b, i, u.ctx, u.config, e);
    ExecuteLeavesDisk(b, i, u.ctx, u.config, e);
    CommitAgrees(b, e);
    var (ctx', d) := CommitLayer(b.w, e);
    SettledIs(b.o, ctx');
    assert d.Some? ==> d.value == [d.value[0]];
  }

  lemma ExecuteLeavesDisk<FS, Cmd, Config, Layer>(
    b: Job<FS, Cmd, Config, Layer>, i: nat, ctx: Context<FS, Cmd, Config>, config: Config,
    ctx': Context<FS, Cmd, Config>)
    requires i < |b.steps| && Execute(b.w, b.steps[i], ctx, config, b.o.modifyFS) == Ok(ctx')
    ensures b.o.modifyFS || ctx'.disk == ctx.disk
  {
  }

  lemma SettledIs<FS, Cmd, Config>(o: Options, ctx: Context<FS, Cmd, Config>)
    requires !ctx.Pending() && (o.modifyFS ==> ctx.disk == ctx.mem)
    ensures ctx == Settled(o, ctx)
  {
  }

  /** The entry pulled for a node is the one its uncached build pushes. */
  lemma SoundAt<FS(!new), Cmd(!new), Config(!new), Layer>(b: Job<FS, Cmd, Config, Layer>,
      cache: map<nat, Entry<Layer>>, i: nat)
    requires b.Sound(cache) && i < |b.steps| && Fetched(b.o, b.steps, cache, i)
    ensures i > 0 && i in cache && b.Commits(i) && b.Pushes(i, cache[i])
  {
  }

  /** A pulled layer replaces the step. */
  lemma StepLayer<FS(!new), Cmd(!new), Config(!new), Layer>(
    b: Job<FS, Cmd, Config, Layer>, cache: map<nat, Entry<Layer>>, i: nat,
    u: State<FS, Cmd, Config, Layer>, u': State<FS, Cmd, Config, Layer>, c: State<FS, Cmd, Config, Layer>, skip: bool)
    requires Ready(b, cache) && HasLayer(b.o, b.steps, cache, i) && UncachedInv(b, i, u) && b.StepsTo(i, u, u')
    requires |c.digests| == |b.steps| && InStep(b, cache, i, u, c)
    ensures var r := BuildNode(b.w, b.o, b.steps, i, skip, c); r.Ok? && InStep(b, cache, i + 1, u', r.value)
  {
    hide Lawful, UncachedInv, Execute, Commit, CommitLayer, Fetched, b.Sound;
    SoundAt(b, cache, i);
    NodeEffect(b, i, u, u');
    assert Ahead(b.o, b.steps, cache, i);
    var l := cache[i].layer;
    OneLayer(b.w, l, c.ctx, b.o.modifyFS);
  }

  lemma OneLayer<FS, Cmd, Config, Layer>(w: World<FS, Cmd, Config, Layer>, l: Layer, ctx: Context<FS, Cmd, Config>,
      modifyFS: bool)
    ensures ApplyLayers(w, [l], ctx, modifyFS) ==
            ctx.(mem := w.apply(l, ctx.mem), disk := if modifyFS then w.apply(l, ctx.disk) else ctx.disk)
  {
    assert [l][..0] == [];
    assert w.ApplyAll([], ctx.mem) == ctx.mem && w.ApplyAll([], ctx.disk) == ctx.disk;
  }

  /** Nothing was pending and nothing changes at a step stored as the empty marker. */
  lemma MarkerIsQuiet<FS(!new), Cmd(!new), Config(!new), Layer>(
    b: Job<FS, Cmd, Config, Layer>, cache: map<nat, Entry<Layer>>, i: nat,
    u: State<FS, Cmd, Config, Layer>, u': State<FS, Cmd, Config, Layer>)
    requires Ready(b, cache) && i < |b.steps| && Fetched(b.o, b.steps, cache, i) && !HasLayer(b.o, b.steps, cache, i)
    requires UncachedInv(b, i, u) && b.StepsTo(i, u, u')
    ensures i > 0 && b.Commits(i) && !u.ctx.Pending() && !b.steps[i].Changes() && b.steps[i].action.Noop?
    ensures u'.ctx == u.ctx && u.ctx == Settled(b.o, u.ctx) && u'.digests[i] == None && i in u'.pushed
            && u'.pushed[i] == EmptyEntry
  {
    hide Lawful, UncachedInv, Execute, Commit, CommitLayer, Fetched, b.Sound;
    SoundAt(b, cache, i);
    NodeEffect(b, i, u, u');
  }

  /** Executing a step stored as the empty marker changes nothing again. */
  lemma StepMarker<FS(!new), Cmd(!new), Config(!new), Layer>(
    b: Job<FS, Cmd, Config, Layer>, cache: map<nat, Entry<Layer>>, i: nat,
    u: State<FS, Cmd, Config, Layer>, u': State<FS, Cmd, Config, Layer>, c: State<FS, Cmd, Config, Layer>, skip: bool)
    requires Ready(b, cache) && i < |b.steps| && Fetched(b.o, b.steps, cache, i) && !HasLayer(b.o, b.steps, cache, i)
    requires UncachedInv(b, i, u) && b.StepsTo(i, u, u')
    requires |c.digests| == |b.steps| && InStep(b, cache, i, u, c) && Ahead(b.o, b.steps, cache, i)
    ensures var r := BuildNode(b.w, b.o, b.steps, i, skip, c); r.Ok? && InStep(b, cache, i + 1, u', r.value)
  {
    hide Lawful, UncachedInv, Fetched, b.Sound;
    MarkerIsQuiet(b, cache, i, u, u');
    NodeEffect(b, i, u, u');
    AheadMoves(b.o, b.steps, cache, i);
  }

  lemma AheadMoves<Cmd, Layer>(o: Options, steps: Steps<Cmd, Layer>, cache: map<nat, Entry<Layer>>, i: nat)
    requires !HasLayer(o, steps, cache, i)
    ensures Ahead(o, steps, cache, i) <==> Ahead(o, steps, cache, i + 1)
  {
    if Ahead(o, steps, cache, i) {
      var k :| k >= i && HasLayer(o, steps, cache, k);
      assert k >= i + 1;
    }
    if Ahead(o, steps, cache, i + 1) {
      var k :| k >= i + 1 && HasLayer(o, steps, cache, k);
      assert k >= i;
    }
  }

  /** A step that was not looked up is skipped, or it changes nothing. */
  lemma StepUnlooked<FS(!new), Cmd(!new), Config(!new), Layer>(
    b: Job<FS, Cmd, Config, Layer>, cache: map<nat, Entry<Layer>>, i: nat,
    u: State<FS, Cmd, Config, Layer>, u': State<FS, Cmd, Config, Layer>, c: State<FS, Cmd, Config, Layer>, skip: bool)
    requires Ready(b, cache) && 0 < i < |b.steps| && !Pullable(b.o, b.steps, i)
    requires UncachedInv(b, i, u) && b.StepsTo(i, u, u')
    requires |c.digests| == |b.steps| && InStep(b, cache, i, u, c) && Ahead(b.o, b.steps, cache, i)
    requires skip || !b.steps[i].Changes()
    ensures var r := BuildNode(b.w, b.o, b.steps, i, skip, c); r.Ok? && InStep(b, cache, i + 1, u', r.value)
  {
    hide Lawful, UncachedInv, b.Sound, CommitLayer, HasLayer;
    NotLookedUp(b.o, b.steps, cache, i);
    AheadMoves(b.o, b.steps, cache, i);
    var k :| k >= i && HasLayer(b.o, b.steps, cache, k);
    FetchedBefore(b.o, b.steps, cache, i, k);
    NodeEffect(b, i, u, u');
  }

  lemma NotLookedUp<Cmd, Layer>(o: Options, steps: Steps<Cmd, Layer>, cache: map<nat, Entry<Layer>>, i: nat)
    requires i < |steps| && !Pullable(o, steps, i)
    ensures !HasLayer(o, steps, cache, i) && FetchedDigests(o, steps, cache, i) == None
  {
  }

  /** Building a node looks at no digests but its own and never at what was pushed. */
  lemma SameNode<FS, Cmd, Config, Layer>(
    b: Job<FS, Cmd, Config, Layer>, i: nat, u: State<FS, Cmd, Config, Layer>, c: State<FS, Cmd, Config, Layer>)
    requires i < |b.steps| == |u.digests| == |c.digests|
    requires c.ctx == u.ctx && c.config == u.config && c.digests[i] == u.digests[i]
    requires forall x | x in c.pushed :: x in u.pushed && c.pushed[x] == u.pushed[x]
    ensures var r, s := BuildNode(b.w, b.o, b.steps, i, false, u), BuildNode(b.w, b.o, b.steps, i, false, c);
            match r
            case Err(e) => s == Err(e)
            case Ok(u') =>
              && s.Ok? && s.value.ctx == u'.ctx && s.value.config == u'.config && s.value.digests[i] == u'.digests[i]
              && (forall x | x in s.value.pushed :: x in u'.pushed && s.value.pushed[x] == u'.pushed[x])
  {
  }

  lemma FromSettles<FS(!new), Cmd(!new), Config(!new), Layer>(
    b: Job<FS, Cmd, Config, Layer>, u: State<FS, Cmd, Config, Layer>)
    requires IsStage(b.steps, b.o) && UncachedInv(b, 0, u)
    ensures u.ctx == Settled(b.o, u.ctx)
    ensures var r := BuildNode(b.w, b.o, b.steps, 0, false, u); r.Ok? ==> r.value.ctx == Settled(b.o, r.value.ctx)
  {
  }

  /** Without pulled layers ahead both builds do the same, as they do for FROM. */
  lemma StepAlone<FS(!new), Cmd(!new), Config(!new), Layer>(
    b: Job<FS, Cmd, Config, Layer>, cache: map<nat, Entry<Layer>>, i: nat,
    u: State<FS, Cmd, Config, Layer>, c: State<FS, Cmd, Config, Layer>)
    requires Ready(b, cache) && i < |b.steps| && UncachedInv(b, i, u)
    requires |c.digests| == |b.steps| && InStep(b, cache, i, u, c)
    requires !Ahead(b.o, b.steps, cache, i) || i == 0
    ensures var r, s := BuildNode(b.w, b.o, b.steps, i, false, u), BuildNode(b.w, b.o, b.steps, i, false, c);
            match r
            case Err(e) => s == Err(e)
            case Ok(u') => s.Ok? && InStep(b, cache, i + 1, u', s.value)
  {
    hide Lawful, b.Sound, BuildNode, Fetched, HasLayer, DiskAgrees;
    assert !HasLayer(b.o, b.steps, cache, i) by {
      if i == 0 { NotLookedUp(b.o, b.steps, cache, 0); }
    }
    AheadMoves(b.o, b.steps, cache, i);
    NoLayerNoDigests(b.o, b.steps, cache, i);
    if i == 0 { FromSettles(b, u); }
    SameNode(b, i, u, c);
  }

  lemma NoLayerNoDigests<Cmd, Layer>(o: Options, steps: Steps<Cmd, Layer>, cache: map<nat, Entry<Layer>>, i: nat)
    requires i < |steps| && !HasLayer(o, steps, cache, i)
    ensures FetchedDigests(o, steps, cache, i) == None
  {
  }
}
