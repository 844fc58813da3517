/** What building one stage means (lib/builder/build_stage.go, build_node.go and
    step/common.go): the state before every step, for any set of layers the
    nodes hold when the build starts. */
module BuildSpec {
  import opened Wrappers

  /** FROM with the layers of its image (None for scratch), RUN, COPY or ADD, and
      the directives that only change the image config. */
  datatype Action<Cmd, Layer> =
    | From(base: Option<seq<Layer>>)
    | Run(cmd: Cmd)
    | Copy(cmd: Cmd)
    | Noop

  /** `commit` is the #!COMMIT annotation. */
  datatype Step<Cmd, Layer> = Step(action: Action<Cmd, Layer>, commit: bool)
  {
    predicate Changes() { action.Run? || action.Copy? }
  }

  type CopyOp<Cmd, Config> = (Cmd, Config)

  /** Everything a step or a layer does to a file system. */
  datatype World<!FS, !Cmd, !Config, !Layer> = World(
    run: (Cmd, Config, FS) -> Option<FS>,
    copy: (CopyOp<Cmd, Config>, FS) -> FS,
    scan: (FS, FS) -> Layer,
    copyLayer: (seq<CopyOp<Cmd, Config>>, FS) -> Layer,
    apply: (Layer, FS) -> FS,
    update: (Step<Cmd, Layer>, Config) -> Config)
  {
    function CopyAll(ops: seq<CopyOp<Cmd, Config>>, fs: FS): FS {
      if ops == [] then fs else copy(ops[|ops| - 1], CopyAll(ops[..|ops| - 1], fs))
    }

    function ApplyAll(layers: seq<Layer>, fs: FS): FS {
      if layers == [] then fs else apply(layers[|layers| - 1], ApplyAll(layers[..|layers| - 1], fs))
    }
  }

  /** The diff law: a layer turns the state it was made from into the state it
      was made for. */
  ghost predicate Lawful<FS(!new), Cmd(!new), Config(!new), Layer>(w: World<FS, Cmd, Config, Layer>) {
    && (forall a, b :: w.apply(w.scan(a, b), a) == b)
    && (forall ops, fs :: w.apply(w.copyLayer(ops, fs), fs) == w.CopyAll(ops, fs))
  }

  /** The build context: the merged view in memory, the disk, and what happened
      since the last commit. */
  datatype Context<FS, Cmd, Config> = Context(mem: FS, disk: FS, mustScan: bool, ops: seq<CopyOp<Cmd, Config>>)
  {
    predicate Pending() { mustScan || ops != [] }
  }

  datatype Options = Options(forceCommit: bool, allowModifyFS: bool, modifyFS: bool, lastStage: bool)

  datatype Entry<Layer> = EmptyEntry | LayerEntry(layer: Layer)

  type Digests<Layer> = Option<seq<Layer>>

  datatype BuildError = RunFailed | RunWithoutDisk | ModifyNotAllowed

  /** The state before a step: `digests[i]` is what node i holds, `pushed` what
      went to the cache. */
  datatype State<FS, Cmd, Config, Layer> = State(
    ctx: Context<FS, Cmd, Config>,
    config: Config,
    digests: seq<Digests<Layer>>,
    pushed: map<nat, Entry<Layer>>)

  type Steps<Cmd, Layer> = seq<Step<Cmd, Layer>>

  /** FROM comes first and only first; without the disk there is no RUN. */
  predicate IsStage<Cmd, Layer>(steps: Steps<Cmd, Layer>, o: Options) {
    && |steps| > 0 && steps[0].action.From? && !steps[0].commit
    && (forall i | 0 < i < |steps| :: !steps[i].action.From?)
    && (!o.modifyFS ==> forall i | 0 <= i < |steps| :: !steps[i].action.Run?)
  }

  // ----- commit -----

  /** commitLayer: scan, or record the copy operations, or nothing to do. */
  function CommitLayer<FS, Cmd, Config, Layer>(
    w: World<FS, Cmd, Config, Layer>, ctx: Context<FS, Cmd, Config>): (Context<FS, Cmd, Config>, Digests<Layer>)
  {
    if ctx.mustScan then
      var l := w.scan(ctx.mem, ctx.disk);
      (Context(w.apply(l, ctx.mem), ctx.disk, false, []), Some([l]))
    else if ctx.ops != [] then
      var l := w.copyLayer(ctx.ops, ctx.mem);
      (Context(w.apply(l, ctx.mem), ctx.disk, false, []), Some([l]))
    else (ctx, None)
  }

  function Commit<FS, Cmd, Config, Layer>(
    w: World<FS, Cmd, Config, Layer>, step: Step<Cmd, Layer>, ctx: Context<FS, Cmd, Config>)
    : (Context<FS, Cmd, Config>, Digests<Layer>)
  {
    if step.action.From? then (ctx, step.action.base) else CommitLayer(w, ctx)
  }

  // ----- one node -----

  function ApplyLayers<FS, Cmd, Config, Layer>(
    w: World<FS, Cmd, Config, Layer>, layers: seq<Layer>, ctx: Context<FS, Cmd, Config>, modifyFS: bool)
    : Context<FS, Cmd, Config>
  {
    ctx.(mem := w.ApplyAll(layers, ctx.mem), disk := if modifyFS then w.ApplyAll(layers, ctx.disk) else ctx.disk)
  }

  function Execute<FS, Cmd, Config, Layer>(
    w: World<FS, Cmd, Config, Layer>, step: Step<Cmd, Layer>, ctx: Context<FS, Cmd, Config>, config: Config,
    modifyFS: bool)
    : Result<Context<FS, Cmd, Config>, BuildError>
  {
    match step.action
    case From(None) => Ok(ctx)
    case From(Some(layers)) => Ok(ApplyLayers(w, layers, ctx, modifyFS))
    case Run(cmd) =>
      if !modifyFS then Err(RunWithoutDisk)
      else
        (match w.run(cmd, config, ctx.disk)
         case None => Err(RunFailed)
         case Some(fs) => Ok(ctx.(mustScan := true, disk := fs)))
    case Copy(cmd) =>
      var op := (cmd, config);
      Ok(ctx.(ops := ctx.ops + [op], disk := if modifyFS then w.copy(op, ctx.disk) else ctx.disk))
    case Noop => Ok(ctx)
  }

  /** What is pushed for the digests of a commit: nothing if there are several. */
  function PushOf<Layer>(i: nat, d: Digests<Layer>): map<nat, Entry<Layer>> {
    match d
    case None => map[i := EmptyEntry]
    case Some(layers) =>
      if |layers| > 1 then map[]
      else if |layers| == 1 then map[i := LayerEntry(layers[0])]
      else map[i := EmptyEntry]
  }

  predicate Forced(o: Options, n: nat, i: nat) {
    i == 0 || (o.lastStage && i == n - 1) || o.forceCommit
  }

  /** Node i is built: its config applied, its step skipped, replaced by its
      layers, or executed and perhaps committed. */
  function BuildNode<FS, Cmd, Config, Layer>(
    w: World<FS, Cmd, Config, Layer>, o: Options, steps: Steps<Cmd, Layer>, i: nat, skip: bool,
    st: State<FS, Cmd, Config, Layer>)
    : (r: Result<State<FS, Cmd, Config, Layer>, BuildError>)
    requires i < |steps| == |st.digests|
    ensures r.Ok? ==> |r.value.digests| == |steps| && forall j | 0 <= j < |steps| && j != i ::
            r.value.digests[j] == st.digests[j]
  {
    var config := w.update(steps[i], st.config);
    if st.digests[i].Some? then
      Ok(State(ApplyLayers(w, st.digests[i].value, st.ctx, o.modifyFS), config, st.digests, st.pushed))
    else if skip then
      Ok(st.(config := config))
    else
      match Execute(w, steps[i], st.ctx, st.config, o.modifyFS)
      case Err(e) => Err(e)
      case Ok(ctx) =>
        if !steps[i].commit && !Forced(o, |steps|, i) then Ok(State(ctx, config, st.digests, st.pushed))
        else
          var (ctx', d) := Commit(w, steps[i], ctx);
          Ok(State(ctx', config, st.digests[i := d], st.pushed + PushOf(i, d)))
  }

  // ----- which steps are skipped -----

  predicate Holds<Layer>(d: Digests<Layer>) {
    d.Some? && d.value != []
  }

  /** latestFetched, scanning from node i with the latest found so far. */
  function LatestFrom<Cmd, Layer>(steps: Steps<Cmd, Layer>, digests: seq<Digests<Layer>>, i: nat, latest: int): int
    requires i <= |steps| == |digests|
    decreases |steps| - i
  {
    if i == |steps| then latest
    else if !steps[i].commit then LatestFrom(steps, digests, i + 1, latest)
    else if Holds(digests[i]) then LatestFrom(steps, digests, i + 1, i)
    else latest
  }

  function Latest<Cmd, Layer>(steps: Steps<Cmd, Layer>, digests: seq<Digests<Layer>>): int
    requires 1 <= |steps| == |digests|
  {
    LatestFrom(steps, digests, 1, -1)
  }

  // ----- the whole stage -----

  /** The state before node i. */
  function BuildTo<FS, Cmd, Config, Layer>(
    w: World<FS, Cmd, Config, Layer>, o: Options, steps: Steps<Cmd, Layer>, start: State<FS, Cmd, Config, Layer>,
    i: nat)
    : (r: Result<State<FS, Cmd, Config, Layer>, BuildError>)
    requires i <= |steps| == |start.digests|
    ensures r.Ok? ==> |r.value.digests| == |steps|
  {
    if i == 0 then Ok(start)
    else
      match BuildTo(w, o, steps, start, i - 1)
      case Err(e) => Err(e)
      case Ok(st) =>
        if o.modifyFS && !o.allowModifyFS then Err(ModifyNotAllowed)
        else BuildNode(w, o, steps, i - 1, Skipped(steps, st.digests, i - 1), st)
  }

  predicate Skipped<Cmd, Layer>(steps: Steps<Cmd, Layer>, digests: seq<Digests<Layer>>, i: nat)
    requires 1 <= |steps| == |digests|
  {
    i < Latest(steps, digests) && i > 0
  }

  function Concat<Layer>(digests: seq<Digests<Layer>>): seq<Layer> {
    if digests == [] then []
    else
      var last := digests[|digests| - 1];
      Concat(digests[..|digests| - 1]) + (if last.Some? then last.value else [])
  }

  // ----- pulling cached layers -----

  /** Is node i asked for in the cache? FROM never is. */
  predicate Pullable<Cmd, Layer>(o: Options, steps: Steps<Cmd, Layer>, i: nat)
    requires i < |steps|
  {
    i > 0 && (steps[i].commit || o.forceCommit)
  }

  /** Nodes are asked for in order until one is missing. */
  ghost predicate Fetched<Cmd, Layer>(o: Options, steps: Steps<Cmd, Layer>, cache: map<nat, Entry<Layer>>, i: nat)
    requires i < |steps|
  {
    Pullable(o, steps, i) && forall j | 0 < j <= i && Pullable(o, steps, j) :: j in cache
  }

  ghost function FetchedDigests<Cmd, Layer>(o: Options, steps: Steps<Cmd, Layer>, cache: map<nat, Entry<Layer>>,
      i: nat): Digests<Layer>
    requires i < |steps|
  {
    if Fetched(o, steps, cache, i) && cache[i].LayerEntry? then Some([cache[i].layer]) else None
  }

  ghost function Pulled<Cmd, Layer>(o: Options, steps: Steps<Cmd, Layer>, cache: map<nat, Entry<Layer>>)
      : seq<Digests<Layer>> {
    seq(|steps|, i requires 0 <= i < |steps| => FetchedDigests(o, steps, cache, i))
  }

  function Nothing<Layer>(n: nat): seq<Digests<Layer>> {
    seq(n, i => None)
  }
}
