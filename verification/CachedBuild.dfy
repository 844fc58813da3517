/** A cached build means the same as an uncached one: the proof that it does
    when no step runs again by mistake. */
module CachedBuild {
  import opened Wrappers
  import opened BuildSpec

  /** One stage to build, from the state left by the stage before. */
  datatype Job<!FS, !Cmd, !Config, !Layer> = Job(
    w: World<FS, Cmd, Config, Layer>, o: Options, steps: Steps<Cmd, Layer>, fs: FS, config: Config)
  {
    ghost function From(digests: seq<Digests<Layer>>, i: nat): (r: Result<State<FS, Cmd, Config, Layer>, BuildError>)
      requires i <= |steps| == |digests|
      ensures r.Ok? ==> |r.value.digests| == |steps|
    {
      BuildTo(w, o, steps, State(Context(fs, fs, false, []), config, digests, map[]), i)
    }

    /** The build without any cached layer, up to node i. */
    ghost function Uncached(i: nat): (r: Result<State<FS, Cmd, Config, Layer>, BuildError>)
      requires i <= |steps|
      ensures r.Ok? ==> |r.value.digests| == |steps|
    {
      From(Nothing(|steps|), i)
    }

    /** The build after pulling from a cache, up to node i. */
    ghost function Cached(cache: map<nat, Entry<Layer>>, i: nat): (r: Result<State<FS, Cmd, Config, Layer>, BuildError>)
      requires i <= |steps|
      ensures r.Ok? ==> |r.value.digests| == |steps|
    {
      From(Pulled(o, steps, cache), i)
    }

    /** The cache holds what the uncached build of the stage pushes. */
    ghost predicate Sound(cache: map<nat, Entry<Layer>>) {
      forall i | i in cache :: i < |steps| && Pushes(i, cache[i])
    }

    ghost predicate Pushes(i: nat, e: Entry<Layer>)
      requires i < |steps|
    {
      Uncached(i + 1).Ok? && i in Uncached(i + 1).value.pushed && Uncached(i + 1).value.pushed[i] == e
    }

    predicate Commits(i: nat)
      requires i < |steps|
    {
      steps[i].commit || Forced(o, |steps|, i)
    }

    /** One step of the uncached build, which never skips. */
    ghost predicate StepsTo(i: nat, u: State<FS, Cmd, Config, Layer>, u': State<FS, Cmd, Config, Layer>)
      requires i < |steps|
    {
      && Uncached(i) == Ok(u) && Uncached(i + 1) == Ok(u')
      && BuildNode(w, o, steps, i, false, u) == Ok(u')
    }
  }

  // ----- what was pulled -----

  /** A layer was pulled for node k. */
  ghost predicate HasLayer<Cmd, Layer>(o: Options, steps: Steps<Cmd, Layer>, cache: map<nat, Entry<Layer>>, k: nat) {
    k < |steps| && FetchedDigests(o, steps, cache, k).Some?
  }

  /** Only the empty marker was pulled for the annotated node e. */
  ghost predicate HasMarker<Cmd, Layer>(o: Options, steps: Steps<Cmd, Layer>, cache: map<nat, Entry<Layer>>, e: nat) {
    e < |steps| && steps[e].commit && Fetched(o, steps, cache, e) && cache[e].EmptyEntry?
  }

  /** Step j changes the file system, was not looked up, and stands after an
      annotated step stored as the empty marker and before a pulled layer. */
  ghost predicate RunsAgain<Cmd, Layer>(o: Options, steps: Steps<Cmd, Layer>, cache: map<nat, Entry<Layer>>, e: nat,
      j: nat, k: nat) {
    && e < j < k && HasMarker(o, steps, cache, e) && HasLayer(o, steps, cache, k)
    && !Pullable(o, steps, j) && steps[j].Changes()
  }

  ghost predicate SomeRunsAgain<Cmd, Layer>(o: Options, steps: Steps<Cmd, Layer>, cache: map<nat, Entry<Layer>>) {
    exists e, j, k :: RunsAgain(o, steps, cache, e, j, k)
  }

  /** No step before node i runs again by mistake. */
  ghost predicate Calm<Cmd, Layer>(o: Options, steps: Steps<Cmd, Layer>, cache: map<nat, Entry<Layer>>, i: nat) {
    forall e, j, k | RunsAgain(o, steps, cache, e, j, k) :: i <= j
  }

  /** Is there a pulled layer at node i or later? */
  ghost predicate Ahead<Cmd, Layer>(o: Options, steps: Steps<Cmd, Layer>, cache: map<nat, Entry<Layer>>, i: nat) {
    exists k :: k >= i && HasLayer(o, steps, cache, k)
  }

  /** Everything looked up before a pulled layer was found. */
  lemma FetchedBefore<Cmd, Layer>(o: Options, steps: Steps<Cmd, Layer>, cache: map<nat, Entry<Layer>>, i: nat, k: nat)
    requires i <= k && HasLayer(o, steps, cache, k)
    ensures Pullable(o, steps, i) ==> Fetched(o, steps, cache, i)
    ensures i < k && i > 0 && !Pullable(o, steps, i) ==> !steps[i].commit && !Forced(o, |steps|, i)
  {
  }

  // ----- latestFetched -----

  /** What latestFetched returns: the last annotated node before the first one
      without layers. */
  lemma {:induction false} LatestIs<Cmd, Layer>(steps: Steps<Cmd, Layer>, digests: seq<Digests<Layer>>, i: nat,
      latest: int)
    requires i <= |steps| == |digests| && latest < i
    ensures var r := LatestFrom(steps, digests, i, latest);
            && (r == latest || (i <= r < |steps| && steps[r].commit && Holds(digests[r])))
            && (forall j | i <= j < r && steps[j].commit :: Holds(digests[j]))
            && (forall k | i <= k < |steps| && steps[k].commit
                && (forall j | i <= j <= k && steps[j].commit :: Holds(digests[j])) :: k <= r)
    decreases |steps| - i
  {
    if i < |steps| {
      if !steps[i].commit {
        LatestIs(steps, digests, i + 1, latest);
      } else if Holds(digests[i]) {
        LatestIs(steps, digests, i + 1, i);
      }
    }
  }

  /** A step is skipped exactly when a later annotated node holds layers and no
      annotated node up to that one lacks them. */
  lemma SkippedIsCovered<Cmd, Layer>(steps: Steps<Cmd, Layer>, digests: seq<Digests<Layer>>, i: nat)
    requires 0 < i < |steps| == |digests|
    ensures Skipped(steps, digests, i) <==>
            exists k :: i < k < |steps| && steps[k].commit
                && (forall j | 1 <= j <= k && steps[j].commit :: Holds(digests[j]))
  {
    LatestIs(steps, digests, 1, -1);
    var r := Latest(steps, digests);
    if i < r {
      assert forall j | 1 <= j <= r && steps[j].commit :: Holds(digests[j]);
    }
  }

  // ----- the uncached build -----

  /** What holds before every node of an uncached build. */
  ghost predicate UncachedInv<FS, Cmd, Config, Layer>(b: Job<FS, Cmd, Config, Layer>, i: nat,
      u: State<FS, Cmd, Config, Layer>) {
    && |u.digests| == |b.steps|
    && (forall j | i <= j < |b.steps| :: u.digests[j] == None)
    && (forall x | x in u.pushed :: x < i)
    && DiskAgrees(b, u.ctx)
    && (i == 0 ==> !u.ctx.Pending() && u.ctx.mem == u.ctx.disk)
  }

  /** With the disk in use it is the merged view plus what is pending. */
  ghost predicate DiskAgrees<FS, Cmd, Config, Layer>(b: Job<FS, Cmd, Config, Layer>, ctx: Context<FS, Cmd, Config>) {
    if b.o.modifyFS then !ctx.mustScan ==> ctx.disk == b.w.CopyAll(ctx.ops, ctx.mem)
    else !ctx.mustScan
  }

  lemma NothingSkipped<FS, Cmd, Config, Layer>(b: Job<FS, Cmd, Config, Layer>, i: nat, u: State<FS, Cmd, Config, Layer>)
    requires i < |b.steps| && UncachedInv(b, i, u)
    ensures !Skipped(b.steps, u.digests, i)
  {
    LatestIs(b.steps, u.digests, 1, -1);
  }

  lemma ExecuteAgrees<FS, Cmd, Config, Layer>(
    b: Job<FS, Cmd, Config, Layer>, i: nat, ctx: Context<FS, Cmd, Config>, config: Config,
    ctx': Context<FS, Cmd, Config>)
    requires i < |b.steps| && IsStage(b.steps, b.o) && DiskAgrees(b, ctx)
    requires i == 0 ==> !ctx.Pending() && ctx.mem == ctx.disk
    requires Execute(b.w, b.steps[i], ctx, config, b.o.modifyFS) == Ok(ctx')
    ensures DiskAgrees(b, ctx')
    ensures i == 0 ==> !ctx'.Pending()
    ensures i > 0 ==> ctx'.mem == ctx.mem && (ctx'.Pending() <==> ctx.Pending() || b.steps[i].Changes())
    ensures i > 0 && !b.steps[i].Changes() ==> ctx' == ctx
  {
    if b.steps[i].action.Copy? {
      var op := (b.steps[i].action.cmd, config);
      assert (ctx.ops + [op])[..|ctx.ops|] == ctx.ops;
    }
  }

  lemma CommitAgrees<FS(!new), Cmd(!new), Config(!new), Layer>(b: Job<FS, Cmd, Config, Layer>,
      ctx: Context<FS, Cmd, Config>)
    requires Lawful(b.w) && DiskAgrees(b, ctx)
    ensures var (ctx', d) := CommitLayer(b.w, ctx);
            && !ctx'.Pending()
            && (b.o.modifyFS ==> ctx'.disk == ctx'.mem)
            && (!b.o.modifyFS ==> ctx'.disk == ctx.disk)
            && (d.Some? <==> ctx.Pending())
            && (d.None? ==> ctx' == ctx)
            && (d.Some? ==> |d.value| == 1 && ctx'.mem == b.w.apply(d.value[0], ctx.mem))
  {
  }

  lemma UncachedNode<FS(!new), Cmd(!new), Config(!new), Layer>(
    b: Job<FS, Cmd, Config, Layer>, i: nat, u: State<FS, Cmd, Config, Layer>, u': State<FS, Cmd, Config, Layer>)
    requires i < |b.steps| && IsStage(b.steps, b.o) && Lawful(b.w) && UncachedInv(b, i, u)
    requires BuildNode(b.w, b.o, b.steps, i, false, u) == Ok(u')
    ensures UncachedInv(b, i + 1, u')
  {
    hide Lawful, CommitLayer, Execute, DiskAgrees;
    var e := Execute(b.w, b.steps[i], u.ctx, u.config, b.o.modifyFS);
    ExecuteAgrees(b, i, u.ctx, u.config, e.value);
    CommitAgrees(b, e.value);
    if b.Commits(i) { CleanAgrees(b, CommitLayer(b.w, e.value).0, e.value); }
  }

  lemma CleanAgrees<FS, Cmd, Config, Layer>(b: Job<FS, Cmd, Config, Layer>, ctx: Context<FS, Cmd, Config>,
      before: Context<FS, Cmd, Config>)
    requires !ctx.Pending() && (b.o.modifyFS ==> ctx.disk == ctx.mem)
    ensures DiskAgrees(b, ctx)
  {
  }

  lemma {:induction false} UncachedHas<FS(!new), Cmd(!new), Config(!new), Layer>(b: Job<FS, Cmd, Config, Layer>, i: nat)
    requires i <= |b.steps| && IsStage(b.steps, b.o) && Lawful(b.w) && b.Uncached(i).Ok?
    ensures UncachedInv(b, i, b.Uncached(i).value)
    ensures forall j | 0 <= j < i :: b.Uncached(j).Ok?
    ensures i > 0 ==> b.StepsTo(i - 1, b.Uncached(i - 1).value, b.Uncached(i).value)
  {
    if i > 0 {
      hide Lawful, UncachedInv, BuildNode, Skipped;
      UncachedHas(b, i - 1);
      var u := b.Uncached(i - 1).value;
      NothingSkipped(b, i - 1, u);
      UncachedNode(b, i - 1, u, b.Uncached(i).value);
    } else {
      hide Lawful;
    }
  }
}
