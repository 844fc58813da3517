/** What a build leaves, said without its bookkeeping: the image's layers rebuild
    the merged view, and that view is what the Dockerfile means. */
module BuildMeaning {
  import opened Wrappers
  import opened BuildSpec
  import opened CachedBuild
  import opened CacheProof
  import opened CacheTheorem
  import opened BuildStage

  // ----- the layers rebuild the tree, whatever the cache held -----

  lemma {:induction false} ConcatSplit<Layer>(a: seq<Digests<Layer>>, d: Digests<Layer>)
    ensures Concat(a + [d]) == Concat(a) + (if d.Some? then d.value else [])
  {
    assert (a + [d])[..|a|] == a;
  }

  lemma {:induction false} ApplyAllSplit<FS, Cmd, Config, Layer>(w: World<FS, Cmd, Config, Layer>,
      a: seq<Layer>, b: seq<Layer>, fs: FS)
    ensures w.ApplyAll(a + b, fs) == w.ApplyAll(b, w.ApplyAll(a, fs))
    decreases |b|
  {
    if b == [] {
      assert a + b == a;
    } else {
      assert (a + b)[..|a + b| - 1] == a + b[..|b| - 1];
      ApplyAllSplit(w, a, b[..|b| - 1], fs);
    }
  }

  lemma ApplyOne<FS, Cmd, Config, Layer>(w: World<FS, Cmd, Config, Layer>, l: Layer, fs: FS)
    ensures w.ApplyAll([l], fs) == w.apply(l, fs) && w.ApplyAll([], fs) == fs
  {
    assert [l][..0] == [];
    assert w.ApplyAll([], fs) == fs;
  }

  function LayersOf<Layer>(d: Digests<Layer>): seq<Layer> {
    if d.Some? then d.value else []
  }

  /** One node: the layers it holds afterwards are what changed the merged view. */
  lemma NodeRebuilds<FS, Cmd, Config, Layer>(b: Job<FS, Cmd, Config, Layer>, i: nat, skip: bool,
      st: State<FS, Cmd, Config, Layer>, st': State<FS, Cmd, Config, Layer>)
    requires i < |b.steps| == |st.digests| && IsStage(b.steps, b.o) && (i == 0 ==> !skip && st.digests[0] == None)
    requires BuildNode(b.w, b.o, b.steps, i, skip, st) == Ok(st')
    ensures st'.ctx.mem == b.w.ApplyAll(LayersOf(st'.digests[i]), st.ctx.mem)
  {
    forall l: Layer, fs ensures b.w.ApplyAll([l], fs) == b.w.apply(l, fs) { ApplyOne(b.w, l, fs); }
  }

  /** From node to node the layers held so far rebuild the merged view. */
  lemma {:induction false} LayersRebuild<FS, Cmd, Config, Layer>(b: Job<FS, Cmd, Config, Layer>,
      digests: seq<Digests<Layer>>, i: nat)
    requires IsStage(b.steps, b.o) && i <= |b.steps| == |digests| && digests[0] == None
    requires b.From(digests, i).Ok?
    ensures var st := b.From(digests, i).value;
            && st.ctx.mem == b.w.ApplyAll(Concat(st.digests[..i]), b.fs)
            && forall j | i <= j < |digests| :: st.digests[j] == digests[j]
  {
    hide BuildNode, Latest, IsStage;
    if i > 0 {
      LayersRebuild(b, digests, i - 1);
      var st, st' := b.From(digests, i - 1).value, b.From(digests, i).value;
      var skip := Skipped(b.steps, st.digests, i - 1);
      NodeRebuilds(b, i - 1, skip, st, st');
      assert st'.digests[..i] == st.digests[..i - 1] + [st'.digests[i - 1]];
      ConcatSplit(st.digests[..i - 1], st'.digests[i - 1]);
      ApplyAllSplit(b.w, Concat(st.digests[..i - 1]), LayersOf(st'.digests[i - 1]), b.fs);
    }
  }

  /** The layers of the image rebuild the tree the build ends with, with any cache,
      even one that is not sound. */
  lemma ImageRebuildsTree<FS, Cmd, Config, Layer>(b: Job<FS, Cmd, Config, Layer>, cache: map<nat, Entry<Layer>>)
    requires IsStage(b.steps, b.o)
    ensures var r := b.Cached(cache, |b.steps|);
            r.Ok? ==> r.value.ctx.mem == b.w.ApplyAll(Concat(r.value.digests), b.fs)
  {
    var r := b.Cached(cache, |b.steps|);
    if r.Ok? {
      LayersRebuild(b, Pulled(b.o, b.steps, cache), |b.steps|);
      assert r.value.digests[..|b.steps|] == r.value.digests;
    }
  }

  // ----- what goes to the cache -----

  /** A node is pushed with the layer it holds, as the empty marker if it holds
      none, and not at all if it holds several. */
  ghost predicate PushedAsHeld<Layer>(pushed: map<nat, Entry<Layer>>, d: Digests<Layer>, j: nat) {
    var layers := LayersOf(d);
    if |layers| == 0 then j in pushed && pushed[j] == EmptyEntry
    else if |layers| == 1 then j in pushed && pushed[j] == LayerEntry(layers[0])
    else j !in pushed
  }

  /** In an uncached build exactly the nodes that commit are pushed. */
  lemma {:induction false} PushesWhatItHolds<FS(!new), Cmd(!new), Config(!new), Layer>(
    b: Job<FS, Cmd, Config, Layer>, i: nat)
    requires IsStage(b.steps, b.o) && Lawful(b.w) && i <= |b.steps| && b.Uncached(i).Ok?
    ensures var u := b.Uncached(i).value;
            forall j: nat | j < i ::
              if b.Commits(j) then PushedAsHeld(u.pushed, u.digests[j], j) else j !in u.pushed
  {
    hide Lawful, UncachedInv, BuildNode, PushedAsHeld;
    if i > 0 {
      UncachedHas(b, i);
      UncachedHas(b, i - 1);
      PushesWhatItHolds(b, i - 1);
      var u, u' := b.Uncached(i - 1).value, b.Uncached(i).value;
      NodePushes(b, i - 1, u, u');
      forall j: nat | j < i
        ensures if b.Commits(j) then PushedAsHeld(u'.pushed, u'.digests[j], j) else j !in u'.pushed
      {
        if j < i - 1 { SamePushed(u.pushed, u'.pushed, u.digests[j], j); }
      }
    }
  }

  lemma SamePushed<Layer>(pushed: map<nat, Entry<Layer>>, pushed': map<nat, Entry<Layer>>, d: Digests<Layer>, j: nat)
    requires (j in pushed' <==> j in pushed) && (j in pushed ==> pushed'[j] == pushed[j])
    ensures PushedAsHeld(pushed', d, j) <==> PushedAsHeld(pushed, d, j)
  {
  }

  lemma NodePushes<FS, Cmd, Config, Layer>(b: Job<FS, Cmd, Config, Layer>, i: nat,
      u: State<FS, Cmd, Config, Layer>, u': State<FS, Cmd, Config, Layer>)
    requires i < |b.steps| && UncachedInv(b, i, u) && BuildNode(b.w, b.o, b.steps, i, false, u) == Ok(u')
    ensures if b.Commits(i) then PushedAsHeld(u'.pushed, u'.digests[i], i) else i !in u'.pushed
    ensures forall j | 0 <= j < |b.steps| && j != i :: u'.digests[j] == u.digests[j]
    ensures forall j | j != i :: (j in u'.pushed <==> j in u.pushed) && (j in u.pushed ==> u'.pushed[j] == u.pushed[j])
  {
    hide Execute, CommitLayer, DiskAgrees;
  }

  // ----- what a Dockerfile means -----

  /** What one step does to a file system and the config. */
  function Does<FS, Cmd, Config, Layer>(w: World<FS, Cmd, Config, Layer>, step: Step<Cmd, Layer>, fs: FS,
      config: Config): Option<(FS, Config)> {
    var config' := w.update(step, config);
    match step.action
    case From(base) => Some((w.ApplyAll(LayersOf(base), fs), config'))
    case Run(cmd) =>
      (match w.run(cmd, config, fs)
       case None => None
       case Some(fs') => Some((fs', config')))
    case Copy(cmd) => Some((w.copy((cmd, config), fs), config'))
    case Noop => Some((fs, config'))
  }

  /** The file system and the image config after the first `i` steps, carried out
      one after the other on one file system; None if a command fails. */
  ghost function Means<FS, Cmd, Config, Layer>(b: Job<FS, Cmd, Config, Layer>, i: nat): Option<(FS, Config)>
    requires i <= |b.steps|
  {
    if i == 0 then Some((b.fs, b.config))
    else
      match Means(b, i - 1)
      case None => None
      case Some((fs, config)) => Does(b.w, b.steps[i - 1], fs, config)
  }

  /** The context holds this file system: on disk, or as the merged view with the
      copies that are pending. */
  ghost predicate Stands<FS, Cmd, Config, Layer>(b: Job<FS, Cmd, Config, Layer>, ctx: Context<FS, Cmd, Config>,
      fs: FS) {
    if b.o.modifyFS then ctx.disk == fs && (!ctx.mustScan ==> fs == b.w.CopyAll(ctx.ops, ctx.mem))
    else !ctx.mustScan && ctx.disk == b.fs && fs == b.w.CopyAll(ctx.ops, ctx.mem)
  }

  lemma ExecuteDoes<FS, Cmd, Config, Layer>(b: Job<FS, Cmd, Config, Layer>, step: Step<Cmd, Layer>,
      ctx: Context<FS, Cmd, Config>, config: Config, fs: FS)
    requires Stands(b, ctx, fs) && (step.action.Run? ==> b.o.modifyFS)
    requires step.action.From? ==> !ctx.Pending() && ctx.mem == ctx.disk
    ensures var r := Execute(b.w, step, ctx, config, b.o.modifyFS);
            var d := Does(b.w, step, fs, config);
            if d.None? then r == Err(RunFailed)
            else r.Ok? && d.value.1 == b.w.update(step, config) && Stands(b, r.value, d.value.0)
  {
    if step.action.Copy? {
      var op := (step.action.cmd, config);
      assert (ctx.ops + [op])[..|ctx.ops|] == ctx.ops;
    }
  }

  lemma ExecuteMeans<FS, Cmd, Config, Layer>(b: Job<FS, Cmd, Config, Layer>, i: nat,
      u: State<FS, Cmd, Config, Layer>, fs: FS)
    requires i < |b.steps| && IsStage(b.steps, b.o) && (i == 0 ==> !u.ctx.Pending() && u.ctx.mem == u.ctx.disk)
    requires Means(b, i) == Some((fs, u.config)) && Stands(b, u.ctx, fs)
    ensures var r := Execute(b.w, b.steps[i], u.ctx, u.config, b.o.modifyFS);
            match Means(b, i + 1)
            case None => r == Err(RunFailed)
            case Some((fs', config')) =>
              r.Ok? && config' == b.w.update(b.steps[i], u.config) && Stands(b, r.value, fs')
  {
    assert Means(b, i + 1) == Does(b.w, b.steps[i], fs, u.config);
    assert b.steps[i].action.From? ==> i == 0;
    hide Execute, Means, Does, Stands;
    ExecuteDoes(b, b.steps[i], u.ctx, u.config, fs);
  }

  lemma CommitMeans<FS(!new), Cmd(!new), Config(!new), Layer>(b: Job<FS, Cmd, Config, Layer>,
      ctx: Context<FS, Cmd, Config>, fs: FS)
    requires Lawful(b.w) && Stands(b, ctx, fs)
    ensures Stands(b, CommitLayer(b.w, ctx).0, fs) && !CommitLayer(b.w, ctx).0.Pending()
  {
  }

  /** One step of the build does to the context what it means. */
  lemma StepMeans<FS(!new), Cmd(!new), Config(!new), Layer>(b: Job<FS, Cmd, Config, Layer>, i: nat,
      u: State<FS, Cmd, Config, Layer>, fs: FS)
    requires i < |b.steps| && IsStage(b.steps, b.o) && Lawful(b.w) && UncachedInv(b, i, u)
    requires Means(b, i) == Some((fs, u.config)) && Stands(b, u.ctx, fs)
    ensures var r := BuildNode(b.w, b.o, b.steps, i, false, u);
            match Means(b, i + 1)
            case None => r == Err(RunFailed)
            case Some((fs', config')) =>
              && r.Ok? && r.value.config == config' && Stands(b, r.value.ctx, fs')
              && (i > 0 && b.Commits(i) ==> !r.value.ctx.Pending())
              && (i == 0 ==> !r.value.ctx.Pending())
  {
    hide Lawful, Execute, CommitLayer, Stands, Means, DiskAgrees;
    ExecuteMeans(b, i, u, fs);
    var e := Execute(b.w, b.steps[i], u.ctx, u.config, b.o.modifyFS);
    if e.Ok? {
      if i == 0 { StaysClean(b, u, e.value); }
      CommitMeans(b, e.value, Means(b, i + 1).value.0);
    }
  }

  lemma StaysClean<FS, Cmd, Config, Layer>(b: Job<FS, Cmd, Config, Layer>, u: State<FS, Cmd, Config, Layer>,
      ctx: Context<FS, Cmd, Config>)
    requires IsStage(b.steps, b.o) && !u.ctx.Pending()
    requires Execute(b.w, b.steps[0], u.ctx, u.config, b.o.modifyFS) == Ok(ctx)
    ensures !ctx.Pending()
  {
  }

  ghost predicate Allowed(o: Options) {
    o.modifyFS ==> o.allowModifyFS
  }

  /** An uncached build fails exactly when a command does; otherwise its context
      holds the file system the steps mean, and its config is theirs. */
  lemma {:induction false} UncachedMeans<FS(!new), Cmd(!new), Config(!new), Layer>(b: Job<FS, Cmd, Config, Layer>,
      i: nat)
    requires IsStage(b.steps, b.o) && Lawful(b.w) && Allowed(b.o) && i <= |b.steps|
    ensures match Means(b, i)
            case None => b.Uncached(i) == Err(RunFailed)
            case Some((fs, config)) =>
              && b.Uncached(i).Ok? && b.Uncached(i).value.config == config && Stands(b, b.Uncached(i).value.ctx, fs)
              && (i > 0 && b.Commits(i - 1) ==> !b.Uncached(i).value.ctx.Pending())
  {
    hide Lawful, BuildNode, UncachedInv, Skipped, IsStage, Stands;
    if i == 0 {
      StartStands(b);
    } else {
      UncachedMeans(b, i - 1);
      CachedStep(b, Nothing(|b.steps|), i - 1);
      if b.Uncached(i - 1).Ok? {
        var u := b.Uncached(i - 1).value;
        UncachedHas(b, i - 1);
        NothingSkipped(b, i - 1, u);
        StepMeans(b, i - 1, u, Means(b, i - 1).value.0);
      }
    }
  }

  lemma StartStands<FS, Cmd, Config, Layer>(b: Job<FS, Cmd, Config, Layer>)
    ensures b.Uncached(0).Ok? && b.Uncached(0).value.config == b.config && Stands(b, b.Uncached(0).value.ctx, b.fs)
  {
  }

  /** At the end of a build whose last step commits nothing is pending, the merged
      view is what the Dockerfile means, and so is the disk if it is in use. */
  lemma BuildEndsClean<FS(!new), Cmd(!new), Config(!new), Layer>(b: Job<FS, Cmd, Config, Layer>)
    requires IsStage(b.steps, b.o) && Lawful(b.w) && Allowed(b.o) && (b.o.lastStage || b.o.forceCommit)
    ensures match Means(b, |b.steps|)
            case None => b.Uncached(|b.steps|) == Err(RunFailed)
            case Some((fs, config)) =>
              var r := b.Uncached(|b.steps|);
              && r.Ok? && r.value.config == config && !r.value.ctx.Pending() && r.value.ctx.mem == fs
              && r.value.ctx.disk == (if b.o.modifyFS then fs else b.fs)
  {
    UncachedMeans(b, |b.steps|);
    assert b.Commits(|b.steps| - 1);
    var r := b.Uncached(|b.steps|);
    if r.Ok? { assert b.w.CopyAll([], r.value.ctx.mem) == r.value.ctx.mem; }
  }

  /** Whatever builds came before: the layers of the image, applied one after the
      other, give the file system the Dockerfile means, with its config; a build
      fails exactly when a command does. */
  lemma EveryImageIsItsDockerfile<FS(!new), Cmd(!new), Config(!new), Layer>(b: Job<FS, Cmd, Config, Layer>,
      caches: seq<map<nat, Entry<Layer>>>, stops: seq<nat>, n: nat)
    requires IsStage(b.steps, b.o) && Lawful(b.w) && Allowed(b.o) && (b.o.lastStage || b.o.forceCommit)
    requires IsHistory(b, caches, stops) && n < |caches|
    requires forall m | 0 <= m <= n :: !SomeRunsAgain(b.o, b.steps, caches[m])
    ensures match Means(b, |b.steps|)
            case None => b.Cached(caches[n], |b.steps|) == Err(RunFailed)
            case Some((fs, config)) =>
              var r := b.Cached(caches[n], |b.steps|);
              && r.Ok? && r.value.config == config && b.w.ApplyAll(Concat(r.value.digests), b.fs) == fs
              && r.value.ctx == Context(fs, if b.o.modifyFS then fs else b.fs, false, [])
  {
    hide *;
    StageHasSteps(b);
    BuildEndsClean(b);
    EveryBuildIsUncached(b, caches, stops, n);
    ImageRebuildsTree(b, caches[n]);
    if b.Uncached(|b.steps|).Ok? { CleanContext(b.Uncached(|b.steps|).value.ctx); }
  }

  lemma StageHasSteps<FS, Cmd, Config, Layer>(b: Job<FS, Cmd, Config, Layer>)
    requires IsStage(b.steps, b.o)
    ensures |b.steps| > 0
  {
  }

  lemma CleanContext<FS, Cmd, Config>(ctx: Context<FS, Cmd, Config>)
    requires !ctx.Pending()
    ensures ctx == Context(ctx.mem, ctx.disk, false, [])
  {
  }

  /** Pulling from the cache and building, on the stage itself: the diff IDs it
      ends with rebuild its merged view. */
  method PullAndBuild<FS, Cmd, Config, Layer>(b: Job<FS, Cmd, Config, Layer>, cache: map<nat, Entry<Layer>>)
    returns (stage: Stage<FS, Cmd, Config, Layer>, r: Result<(), BuildError>)
    requires IsStage(b.steps, b.o)
    ensures fresh(stage)
    ensures match b.Cached(cache, |b.steps|)
            case Ok(st) =>
              r.Ok? && stage.Current() == st && stage.ctx.mem == b.w.ApplyAll(stage.diffIDs, b.fs)
            case Err(e) => r == Err(e)
  {
    hide BuildTo, Concat;
    stage := new Stage(b.w, b.o, b.steps, Context(b.fs, b.fs, false, []), b.config);
    stage.PullCacheLayers(cache);
    r := stage.Build();
    ImageRebuildsTree(b, cache);
  }
}
