/** The stage as the program keeps it: a class whose build loop fills in the
    digests of its nodes while it consults them. */
module BuildStage {
  import opened Wrappers
  import opened BuildSpec

  class Stage<FS, Cmd, Config, Layer> {
    const w: World<FS, Cmd, Config, Layer>
    const o: Options
    const steps: Steps<Cmd, Layer>
    var digests: seq<Digests<Layer>>
    var ctx: Context<FS, Cmd, Config>
    var config: Config
    var pushed: map<nat, Entry<Layer>>
    var diffIDs: seq<Layer>

    constructor (w: World<FS, Cmd, Config, Layer>, o: Options, steps: Steps<Cmd, Layer>,
                 ctx: Context<FS, Cmd, Config>, config: Config)
      ensures this.w == w && this.o == o && this.steps == steps
      ensures this.ctx == ctx && this.config == config && pushed == map[] && diffIDs == []
      ensures digests == Nothing(|steps|)
    {
      this.w, this.o, this.steps := w, o, steps;
      this.ctx, this.config, pushed, diffIDs := ctx, config, map[], [];
      digests := Nothing(|steps|);
    }

    function Current(): State<FS, Cmd, Config, Layer>
      reads this
    {
      State(ctx, config, digests, pushed)
    }

    method PullCacheLayers(cache: map<nat, Entry<Layer>>)
      requires digests == Nothing(|steps|)
      modifies this`digests
      ensures digests == Pulled(o, steps, cache)
    {
      if |steps| > 1 {
        for i := 1 to |steps|
          invariant |digests| == |steps|
          invariant forall j | 0 <= j < i :: digests[j] == FetchedDigests(o, steps, cache, j)
          invariant forall j | i <= j < |steps| :: digests[j] == None
          invariant forall j | 0 < j < i && Pullable(o, steps, j) :: j in cache
        {
          if steps[i].commit || o.forceCommit {
            if i !in cache {
              assert forall j | i <= j < |steps| :: FetchedDigests(o, steps, cache, j) == None;
              return;
            }
            if cache[i].LayerEntry? {
              digests := digests[i := Some([cache[i].layer])];
            }
          }
        }
      }
    }

    method LatestFetched() returns (latest: int)
      requires 1 <= |steps| == |digests|
      ensures latest == Latest(steps, digests)
    {
      latest := -1;
      if |steps| > 1 {
        for i := 1 to |steps|
          invariant LatestFrom(steps, digests, i, latest) == Latest(steps, digests)
        {
          if steps[i].commit {
            if Holds(digests[i]) {
              latest := i;
            } else {
              return;
            }
          }
        }
      }
    }

    /** commitLayer: scans or records copies, then forgets what was pending. */
    method CommitLayer() returns (d: Digests<Layer>)
      modifies this`ctx
      ensures (ctx, d) == BuildSpec.CommitLayer(w, old(ctx))
    {
      if ctx.mustScan {
        var l := w.scan(ctx.mem, ctx.disk);
        ctx := ctx.(mem := w.apply(l, ctx.mem), mustScan := false, ops := []);
        d := Some([l]);
      } else if |ctx.ops| > 0 {
        var l := w.copyLayer(ctx.ops, ctx.mem);
        ctx := ctx.(mem := w.apply(l, ctx.mem), mustScan := false, ops := []);
        d := Some([l]);
      } else {
        d := None;
      }
    }

    method ApplyLayers(layers: seq<Layer>)
      modifies this`ctx
      ensures ctx == BuildSpec.ApplyLayers(w, layers, old(ctx), o.modifyFS)
    {
      for k := 0 to |layers|
        invariant ctx == BuildSpec.ApplyLayers(w, layers[..k], old(ctx), o.modifyFS)
      {
        assert layers[..k + 1][..k] == layers[..k];
        ctx := ctx.(mem := w.apply(layers[k], ctx.mem),
                    disk := if o.modifyFS then w.apply(layers[k], ctx.disk) else ctx.disk);
      }
      assert layers[..|layers|] == layers;
    }

    method Execute(i: nat) returns (r: Result<(), BuildError>)
      requires i < |steps|
      modifies this`ctx
      ensures match BuildSpec.Execute(w, steps[i], old(ctx), config, o.modifyFS)
              case Ok(c) => r == Ok(()) && ctx == c
              case Err(e) => r == Err(e) && ctx == old(ctx)
    {
      match steps[i].action {
        case From(base) =>
          if base.Some? {
            ApplyLayers(base.value);
          }
        case Run(cmd) =>
          if !o.modifyFS {
            return Err(RunWithoutDisk);
          }
          var fs := w.run(cmd, config, ctx.disk);
          if fs.None? {
            return Err(RunFailed);
          }
          ctx := ctx.(mustScan := true, disk := fs.value);
        case Copy(cmd) =>
          var op := (cmd, config);
          ctx := ctx.(ops := ctx.ops + [op]);
          if o.modifyFS {
            ctx := ctx.(disk := w.copy(op, ctx.disk));
          }
        case Noop =>
      }
      return Ok(());
    }

    method DoCommit(i: nat)
      requires i < |steps| == |digests|
      modifies this`ctx, this`digests, this`pushed
      ensures var (c, d) := BuildSpec.Commit(w, steps[i], old(ctx));
              ctx == c && digests == old(digests)[i := d] && pushed == old(pushed) + PushOf(i, d)
    {
      var d: Digests<Layer>;
      if steps[i].action.From? {
        d := steps[i].action.base;
      } else {
        d := CommitLayer();
      }
      digests := digests[i := d];
      if d.Some? && |d.value| > 1 {
        return;
      }
      if d.Some? && |d.value| != 0 {
        pushed := pushed[i := LayerEntry(d.value[0])];
      } else {
        pushed := pushed[i := EmptyEntry];
      }
    }

    method BuildNode(i: nat, skip: bool, force: bool) returns (r: Result<(), BuildError>)
      requires i < |steps| == |digests| && force == Forced(o, |steps|, i)
      modifies this`ctx, this`digests, this`pushed, this`config
      ensures match BuildSpec.BuildNode(w, o, steps, i, skip, old(Current()))
              case Ok(st) => r == Ok(()) && Current() == st
              case Err(e) => r == Err(e)
    {
      var cached := digests[i].Some?;
      if cached {
        ApplyLayers(digests[i].value);
      }
      if skip {
      } else if cached {
      } else {
        var e := Execute(i);
        if e.Err? {
          return e;
        }
        if !steps[i].commit && !force {
        } else {
          DoCommit(i);
        }
      }
      config := w.update(steps[i], config);
      return Ok(());
    }

    /** The build loop: what it leaves is what the specification says, and the
        layers of the image are those of the nodes, in order. */
    method Build() returns (r: Result<(), BuildError>)
      requires 1 <= |steps| == |digests|
      modifies this
      ensures match BuildTo(w, o, steps, old(Current()), |steps|)
              case Ok(st) => r == Ok(()) && Current() == st && diffIDs == Concat(digests)
              case Err(e) => r == Err(e)
    {
      hide BuildTo, BuildSpec.BuildNode, Latest, LatestFrom, Concat, Skipped, Forced;
      diffIDs := [];
      ghost var start := Current();
      BuildStarts(w, o, steps, start);
      NoDigestsYet(digests);
      for i := 0 to |steps|
        invariant |digests| == |steps|
        invariant BuildTo(w, o, steps, start, i) == Ok(Current())
        invariant diffIDs == Concat(digests[..i])
      {
        ghost var st := Current();
        BuildAdvances(w, o, steps, start, i, st);
        if o.modifyFS && !o.allowModifyFS {
          BuildStops(w, o, steps, start, i + 1, |steps|);
          return Err(ModifyNotAllowed);
        }
        var latest := LatestFetched();
        var skip := i < latest && i > 0;
        var force := i == 0 || (o.lastStage && i == |steps| - 1) || o.forceCommit;
        SkipAndForce(o, steps, digests, i, latest);
        var e := BuildNode(i, skip, force);
        if e.Err? {
          BuildStops(w, o, steps, start, i + 1, |steps|);
          return e;
        }
        diffIDs := diffIDs + if digests[i].Some? then digests[i].value else [];
        NodeAddsItsDigests(st.digests, digests, i);
      }
      assert digests[..|steps|] == digests;
      return Ok(());
    }
  }

  lemma BuildStarts<FS, Cmd, Config, Layer>(
    w: World<FS, Cmd, Config, Layer>, o: Options, steps: Steps<Cmd, Layer>, start: State<FS, Cmd, Config, Layer>)
    requires |steps| == |start.digests|
    ensures BuildTo(w, o, steps, start, 0) == Ok(start)
  {
  }

  lemma NoDigestsYet<Layer>(digests: seq<Digests<Layer>>)
    ensures Concat(digests[..0]) == []
  {
  }

  lemma NodeAddsItsDigests<Layer>(before: seq<Digests<Layer>>, after: seq<Digests<Layer>>, i: nat)
    requires i < |after| == |before| && forall j | 0 <= j < |after| && j != i :: after[j] == before[j]
    ensures Concat(after[..i + 1]) == Concat(before[..i]) + if after[i].Some? then after[i].value else []
  {
    assert after[..i + 1][..i] == before[..i];
  }

  lemma SkipAndForce<Cmd, Layer>(o: Options, steps: Steps<Cmd, Layer>, digests: seq<Digests<Layer>>, i: nat,
      latest: int)
    requires i < |steps| == |digests| && latest == Latest(steps, digests)
    ensures Skipped(steps, digests, i) == (i < latest && i > 0)
    ensures Forced(o, |steps|, i) == (i == 0 || (o.lastStage && i == |steps| - 1) || o.forceCommit)
  {
  }

  lemma BuildAdvances<FS, Cmd, Config, Layer>(
    w: World<FS, Cmd, Config, Layer>, o: Options, steps: Steps<Cmd, Layer>, start: State<FS, Cmd, Config, Layer>,
    i: nat,
    st: State<FS, Cmd, Config, Layer>)
    requires i < |steps| == |start.digests| && BuildTo(w, o, steps, start, i) == Ok(st)
    ensures |st.digests| == |steps|
    ensures BuildTo(w, o, steps, start, i + 1) ==
            if o.modifyFS && !o.allowModifyFS then Err(ModifyNotAllowed)
            else BuildSpec.BuildNode(w, o, steps, i, Skipped(steps, st.digests, i), st)
  {
  }

  /** A failed step ends the build. */
  lemma {:induction false} BuildStops<FS, Cmd, Config, Layer>(
    w: World<FS, Cmd, Config, Layer>, o: Options, steps: Steps<Cmd, Layer>, start: State<FS, Cmd, Config, Layer>,
    i: nat, n: nat)
    requires i <= n <= |steps| == |start.digests|
    requires BuildTo(w, o, steps, start, i).Err?
    ensures BuildTo(w, o, steps, start, n) == BuildTo(w, o, steps, start, i)
  {
    if i < n { BuildStops(w, o, steps, start, i, n - 1); }
  }
}
