/** The condition of the cache theorem cannot be weakened: in a world that
    counts changes, a step that runs again by mistake is counted twice. */
module CacheExact {
  import opened Wrappers
  import opened BuildSpec
  import opened CachedBuild
  import opened CacheProof
  import opened CacheTheorem

  // ----- the counting world -----

  function Counting<Cmd, Config>(): World<int, Cmd, Config, int> {
    World(
      (cmd, config, fs) => Some(fs + 1),
      (op, fs) => fs + 1,
      (mem, disk) => disk - mem,
      (ops, fs) => |ops|,
      (layer, fs) => fs + layer,
      (step, config) => config)
  }

  lemma {:induction false} CountingCopies<Cmd, Config>(ops: seq<CopyOp<Cmd, Config>>, fs: int)
    ensures Counting<Cmd, Config>().CopyAll(ops, fs) == fs + |ops|
  {
    if ops != [] { CountingCopies(ops[..|ops| - 1], fs); }
  }

  lemma CountingIsLawful<Cmd(!new), Config(!new)>()
    ensures Lawful(Counting<Cmd, Config>())
  {
    forall ops: seq<CopyOp<Cmd, Config>>, fs: int
      ensures Counting<Cmd, Config>().CopyAll(ops, fs) == fs + |ops|
    {
      CountingCopies(ops, fs);
    }
  }

  /** The changes counted so far, pending ones included. */
  function Count<Cmd, Config>(o: Options, ctx: Context<int, Cmd, Config>): int {
    if o.modifyFS then ctx.disk else ctx.mem + |ctx.ops|
  }

  ghost predicate Counts<Cmd, Config>(b: Job<int, Cmd, Config, int>) {
    b.w == Counting<Cmd, Config>()
  }

  /** One node of either build, counted. */
  lemma NodeCounts<Cmd, Config>(
    b: Job<int, Cmd, Config, int>, i: nat, skip: bool, st: State<int, Cmd, Config, int>)
    requires Counts(b) && 0 < i < |b.steps| == |st.digests| && IsStage(b.steps, b.o)
    requires b.o.modifyFS || !st.ctx.mustScan
    requires st.digests[i].Some? ==> |st.digests[i].value| == 1
    ensures var r := BuildNode(b.w, b.o, b.steps, i, skip, st);
            && r.Ok? && (b.o.modifyFS || !r.value.ctx.mustScan)
            && Count(b.o, r.value.ctx) == Count(b.o, st.ctx) +
               (if st.digests[i].Some? then st.digests[i].value[0]
                else if !skip && b.steps[i].Changes() then 1 else 0)
  {
    if st.digests[i].Some? {
      var l := st.digests[i].value[0];
      assert st.digests[i].value == [l];
      OneLayer(b.w, l, st.ctx, b.o.modifyFS);
    }
  }

  /** The uncached build counts every change once; what is not pending is in memory. */
  lemma {:induction false} UncachedCounts<Cmd(!new), Config(!new)>(b: Job<int, Cmd, Config, int>, i: nat)
    requires Counts(b) && IsStage(b.steps, b.o) && (b.o.modifyFS ==> b.o.allowModifyFS)
    requires 1 <= i <= |b.steps|
    ensures b.Uncached(i).Ok? && UncachedInv(b, i, b.Uncached(i).value)
    ensures !b.Uncached(i).value.ctx.Pending() ==> Count(b.o, b.Uncached(i).value.ctx) == b.Uncached(i).value.ctx.mem
  {
    CountingIsLawful<Cmd, Config>();
    hide Lawful, UncachedInv, BuildNode, Skipped, Counting;
    CachedStep(b, Nothing(|b.steps|), i - 1);
    if i == 1 {
      FromCounts(b);
    } else {
      UncachedCounts(b, i - 1);
      var u := b.Uncached(i - 1).value;
      NothingSkipped(b, i - 1, u);
      NothingHeld(b, i - 1, u);
      NodeCounts(b, i - 1, false, u);
    }
    UncachedHas(b, i);
    if !b.Uncached(i).value.ctx.Pending() { CountIsMem(b, i, b.Uncached(i).value); }
  }

  lemma FromCounts<Cmd, Config>(b: Job<int, Cmd, Config, int>)
    requires IsStage(b.steps, b.o) && (b.o.modifyFS ==> b.o.allowModifyFS)
    ensures b.Uncached(1).Ok?
  {
    var start := State(Context(b.fs, b.fs, false, []), b.config, Nothing(|b.steps|), map[]);
    assert BuildTo(b.w, b.o, b.steps, start, 0) == Ok(start);
    assert !Skipped(b.steps, start.digests, 0);
  }

  lemma NothingHeld<FS, Cmd, Config, Layer>(b: Job<FS, Cmd, Config, Layer>, i: nat, u: State<FS, Cmd, Config, Layer>)
    requires i < |b.steps| && UncachedInv(b, i, u)
    ensures u.digests[i] == None && (b.o.modifyFS || !u.ctx.mustScan)
  {
  }

  lemma CountIsMem<Cmd, Config>(b: Job<int, Cmd, Config, int>, i: nat, u: State<int, Cmd, Config, int>)
    requires UncachedInv(b, i, u) && !u.ctx.Pending()
    ensures Count(b.o, u.ctx) == u.ctx.mem
  {
  }

  // ----- counting a cached build -----

  ghost predicate LastLayer<Cmd>(o: Options, steps: Steps<Cmd, int>, cache: map<nat, Entry<int>>, last: nat) {
    HasLayer(o, steps, cache, last) && forall k | k > last :: !HasLayer(o, steps, cache, k)
  }

  ghost predicate Counted<Cmd, Config>(b: Job<int, Cmd, Config, int>, cache: map<nat, Entry<int>>, i: nat,
      c: State<int, Cmd, Config, int>) {
    && |c.digests| == |b.steps|
    && (forall j | i <= j < |b.steps| :: c.digests[j] == FetchedDigests(b.o, b.steps, cache, j))
    && (b.o.modifyFS || !c.ctx.mustScan)
  }

  /** What the uncached build has done where the cached one should stand. */
  function Target<Cmd, Config>(o: Options, i: nat, last: nat, ctx: Context<int, Cmd, Config>): int {
    if i <= last then ctx.mem else Count(o, ctx)
  }

  /** Is the change of node i made although a layer that holds it follows? */
  ghost predicate Doubles<Cmd, Config>(b: Job<int, Cmd, Config, int>, i: nat, last: nat,
      c: State<int, Cmd, Config, int>)
    requires i < |b.steps| == |c.digests|
  {
    i < last && !Pullable(b.o, b.steps, i) && b.steps[i].Changes() && !Skipped(b.steps, c.digests, i)
  }

  ghost predicate Valid<Cmd(!new), Config(!new)>(b: Job<int, Cmd, Config, int>, cache: map<nat, Entry<int>>,
      last: nat) {
    Counts(b) && Ready(b, cache) && (b.o.modifyFS ==> b.o.allowModifyFS) && LastLayer(b.o, b.steps, cache, last)
  }

  lemma DriftStep<Cmd(!new), Config(!new)>(
    b: Job<int, Cmd, Config, int>, cache: map<nat, Entry<int>>, i: nat, last: nat, c: State<int, Cmd, Config, int>)
    requires Valid(b, cache, last) && 0 < i < |b.steps|
    requires b.Cached(cache, i) == Ok(c) && Counted(b, cache, i, c)
    requires b.Uncached(i).Ok? && b.Uncached(i + 1).Ok?
    ensures var r := b.Cached(cache, i + 1);
            && r.Ok? && Counted(b, cache, i + 1, r.value)
            && Count(b.o, r.value.ctx) - Target(b.o, i + 1, last, b.Uncached(i + 1).value.ctx)
               == Count(b.o, c.ctx) - Target(b.o, i, last, b.Uncached(i).value.ctx)
                  + if Doubles(b, i, last, c) then 1 else 0
  {
    hide Lawful, UncachedInv, b.Sound, BuildNode, HasLayer, Fetched, Skipped, Counting;
    var u, u' := b.Uncached(i).value, b.Uncached(i + 1).value;
    UncachedHas(b, i);
    UncachedHas(b, i + 1);
    UncachedCounts(b, i + 1);
    NodeEffect(b, i, u, u');
    CachedStep(b, Pulled(b.o, b.steps, cache), i);
    LayerIsPullable(b.o, b.steps, cache, last);
    var skip := Skipped(b.steps, c.digests, i);
    if HasLayer(b.o, b.steps, cache, i) {
      LayerIsPullable(b.o, b.steps, cache, i);
      SoundAt(b, cache, i);
      NodeCounts(b, i, skip, c);
      CountingApplies(b, cache[i].layer, u.ctx.mem);
    } else {
      NoLayerNoDigests(b.o, b.steps, cache, i);
      NodeCounts(b, i, skip, c);
      if i < last {
        FetchedBefore(b.o, b.steps, cache, i, last);
        if Fetched(b.o, b.steps, cache, i) { MarkerIsQuiet(b, cache, i, u, u'); }
      } else {
        NothingAhead(b, cache, i, last, c);
        NothingSkipped(b, i, u);
        NothingHeld(b, i, u);
        NodeCounts(b, i, false, u);
      }
    }
  }

  lemma NothingAhead<Cmd, Config>(
    b: Job<int, Cmd, Config, int>, cache: map<nat, Entry<int>>, i: nat, last: nat, c: State<int, Cmd, Config, int>)
    requires LastLayer(b.o, b.steps, cache, last) && last < i < |b.steps| && Counted(b, cache, i, c)
    ensures !Skipped(b.steps, c.digests, i)
  {
    forall j | i <= j < |b.steps| ensures c.digests[j] == None {
      assert !HasLayer(b.o, b.steps, cache, j);
    }
    LatestIs(b.steps, c.digests, 1, -1);
  }

  lemma CountingApplies<Cmd, Config>(b: Job<int, Cmd, Config, int>, layer: int, mem: int)
    requires Counts(b)
    ensures b.w.apply(layer, mem) == mem + layer
  {
  }

  lemma {:induction false} DriftGrows<Cmd(!new), Config(!new)>(
    b: Job<int, Cmd, Config, int>, cache: map<nat, Entry<int>>, i: nat, m: nat, last: nat,
    c: State<int, Cmd, Config, int>)
    requires Valid(b, cache, last) && 0 < i <= m <= |b.steps|
    requires b.Cached(cache, i) == Ok(c) && Counted(b, cache, i, c)
    requires b.Uncached(i).Ok?
    ensures var r := b.Cached(cache, m);
            && r.Ok? && Counted(b, cache, m, r.value) && b.Uncached(m).Ok?
            && Count(b.o, r.value.ctx) - Target(b.o, m, last, b.Uncached(m).value.ctx)
               >= Count(b.o, c.ctx) - Target(b.o, i, last, b.Uncached(i).value.ctx)
  {
    hide *;
    if i < m {
      DriftGrows(b, cache, i, m - 1, last, c);
      UncachedEverywhere(b, cache, last, m);
      DriftStep(b, cache, m - 1, last, b.Cached(cache, m - 1).value);
    }
  }

  lemma UncachedEverywhere<Cmd(!new), Config(!new)>(b: Job<int, Cmd, Config, int>, cache: map<nat, Entry<int>>,
      last: nat, m: nat)
    requires Valid(b, cache, last) && 0 < m <= |b.steps|
    ensures b.Uncached(m).Ok?
  {
    UncachedCounts(b, m);
  }

  /** The first step that runs again by mistake. */
  lemma {:induction false} FirstAgain<Cmd, Layer>(o: Options, steps: Steps<Cmd, Layer>,
      cache: map<nat, Entry<Layer>>, i: nat)
    returns (e: nat, j: nat, k: nat)
    requires !Calm(o, steps, cache, i)
    ensures RunsAgain(o, steps, cache, e, j, k) && Calm(o, steps, cache, j)
  {
    e, j, k :| RunsAgain(o, steps, cache, e, j, k) && j < i;
    if !Calm(o, steps, cache, j) {
      e, j, k := FirstAgain(o, steps, cache, j);
    }
  }

  lemma {:induction false} FindLastLayer<Cmd>(o: Options, steps: Steps<Cmd, int>, cache: map<nat, Entry<int>>,
      k: nat, n: nat)
    returns (last: nat)
    requires HasLayer(o, steps, cache, k) && k <= n && forall x | x > n :: !HasLayer(o, steps, cache, x)
    ensures last >= k && LastLayer(o, steps, cache, last)
    decreases n
  {
    if HasLayer(o, steps, cache, n) {
      last := n;
    } else {
      last := FindLastLayer(o, steps, cache, k, n - 1);
    }
  }

  /** The first step that runs again is counted twice. */
  lemma FirstDoubles<Cmd(!new), Config(!new)>(
    b: Job<int, Cmd, Config, int>, cache: map<nat, Entry<int>>, e: nat, j: nat, k: nat, last: nat)
    requires Valid(b, cache, last) && RunsAgain(b.o, b.steps, cache, e, j, k) && Calm(b.o, b.steps, cache, j)
             && k <= last
    ensures 0 < j < |b.steps| && b.Uncached(j).Ok? && b.Cached(cache, j).Ok?
    ensures var c := b.Cached(cache, j).value;
            && Counted(b, cache, j, c) && Doubles(b, j, last, c)
            && Count(b.o, c.ctx) == Target(b.o, j, last, b.Uncached(j).value.ctx)
  {
    hide Lawful, UncachedInv, b.Sound, BuildNode, HasLayer, Fetched, Skipped, Counting;
    LayerIsPullable(b.o, b.steps, cache, k);
    ReachesLayer(b, cache, j, k);
    MatchesUpTo(b, cache, j);
    var u, c := b.Uncached(j).value, b.Cached(cache, j).value;
    assert Ahead(b.o, b.steps, cache, j);
    MarkerStays(b, cache, e, j);
    SkippedIsCovered(b.steps, c.digests, j);
    FetchedBefore(b.o, b.steps, cache, e, k);
  }

  lemma MarkerStays<FS(!new), Cmd(!new), Config(!new), Layer>(
    b: Job<FS, Cmd, Config, Layer>, cache: map<nat, Entry<Layer>>, e: nat, j: nat)
    requires Ready(b, cache) && HasMarker(b.o, b.steps, cache, e) && e < j <= |b.steps| && b.Uncached(j).Ok?
    ensures 0 < e && b.steps[e].commit && b.Uncached(j).value.digests[e] == None
  {
    hide Lawful, UncachedInv, b.Sound, BuildNode, Fetched;
    DigestsStay(b, e, j);
    UncachedHas(b, e + 1);
    UncachedHas(b, e);
    MarkerIsQuiet(b, cache, e, b.Uncached(e).value, b.Uncached(e + 1).value);
  }

  /** Counting changes, the cached build agrees with the uncached one exactly
      when no step runs again by mistake. */
  lemma CachedBuildIsUncachedExactly<Cmd(!new), Config(!new)>(b: Job<int, Cmd, Config, int>,
      cache: map<nat, Entry<int>>)
    requires Counts(b) && IsStage(b.steps, b.o) && b.Sound(cache) && (b.o.modifyFS ==> b.o.allowModifyFS)
    ensures b.Uncached(|b.steps|).Ok? && b.Cached(cache, |b.steps|).Ok?
    ensures b.Cached(cache, |b.steps|).value.ctx == b.Uncached(|b.steps|).value.ctx
            <==> !SomeRunsAgain(b.o, b.steps, cache)
  {
    CountingIsLawful<Cmd, Config>();
    UncachedCounts(b, |b.steps|);
    hide *;
    if !SomeRunsAgain(b.o, b.steps, cache) {
      CachedBuildIsUncached(b, cache);
    } else {
      AgainDiffers(b, cache);
    }
  }

  /** A step that runs again is still counted at the end. */
  lemma AgainDiffers<Cmd(!new), Config(!new)>(b: Job<int, Cmd, Config, int>, cache: map<nat, Entry<int>>)
    requires Counts(b) && IsStage(b.steps, b.o) && b.Sound(cache) && (b.o.modifyFS ==> b.o.allowModifyFS)
    requires Lawful(b.w) && SomeRunsAgain(b.o, b.steps, cache) && b.Uncached(|b.steps|).Ok?
    ensures b.Cached(cache, |b.steps|).Ok?
    ensures b.Cached(cache, |b.steps|).value.ctx != b.Uncached(|b.steps|).value.ctx
  {
    hide b.Sound, BuildNode, HasLayer, HasMarker, Fetched, Skipped, Counting, BuildTo, UncachedInv, IsStage,
        Counted, Doubles, Lawful, Calm;
    RunsWithin(b.o, b.steps, cache);
    var e, j, k := FirstAgain(b.o, b.steps, cache, |b.steps|);
    NoLayerBeyond(b.o, b.steps, cache);
    LayerIsPullable(b.o, b.steps, cache, k);
    var last := FindLastLayer(b.o, b.steps, cache, k, |b.steps|);
    LayerIsPullable(b.o, b.steps, cache, last);
    FirstDoubles(b, cache, e, j, k, last);
    UncachedCounts(b, j + 1);
    DriftStep(b, cache, j, last, b.Cached(cache, j).value);
    DriftGrows(b, cache, j + 1, |b.steps|, last, b.Cached(cache, j + 1).value);
  }

  lemma RunsWithin<Cmd, Layer>(o: Options, steps: Steps<Cmd, Layer>, cache: map<nat, Entry<Layer>>)
    requires SomeRunsAgain(o, steps, cache)
    ensures !Calm(o, steps, cache, |steps|)
  {
    var e, j, k :| RunsAgain(o, steps, cache, e, j, k);
  }

  lemma NoLayerBeyond<Cmd, Layer>(o: Options, steps: Steps<Cmd, Layer>, cache: map<nat, Entry<Layer>>)
    ensures forall x | x > |steps| :: !HasLayer(o, steps, cache, x)
  {
  }

  // ----- an example -----

  /** FROM; RUN #!COMMIT; ENV #!COMMIT; RUN; RUN #!COMMIT */
  function ExampleSteps(): Steps<int, int> {
    [Step(From(Some([])), false), Step(Run(1), true), Step(Noop, true), Step(Run(2), false), Step(Run(3), true)]
  }

  function ExampleJob(): Job<int, int, int, int> {
    Job(Counting(), Options(false, true, true, false), ExampleSteps(), 0, 0)
  }

  /** What the uncached build of the example pushes. */
  function ExampleCache(): map<nat, Entry<int>> {
    map[0 := EmptyEntry, 1 := LayerEntry(1), 2 := EmptyEntry, 4 := LayerEntry(2)]
  }

  type ExampleState = State<int, int, int, int>

  /** One step of the uncached example, worked out. */
  function ExampleNext(i: nat, st: ExampleState): ExampleState
    requires i < 5 == |st.digests|
  {
    var now := st.ctx.disk + 1;
    var l := now - st.ctx.mem;
    match i
    case 0 => st.(digests := st.digests[0 := Some([])], pushed := st.pushed + map[0 := EmptyEntry])
    case 2 => st.(digests := st.digests[2 := None], pushed := st.pushed + map[2 := EmptyEntry])
    case 3 => st.(ctx := st.ctx.(disk := now, mustScan := true))
    case _ => State(Context(now, now, false, []), st.config, st.digests[i := Some([l])],
        st.pushed + map[i := LayerEntry(l)])
  }

  lemma ExampleNode(i: nat, st: ExampleState)
    requires i < 5 == |st.digests| && st.digests[i] == None && (i == 2 ==> !st.ctx.Pending())
    ensures var b := ExampleJob(); BuildNode(b.w, b.o, b.steps, i, false, st) == Ok(ExampleNext(i, st))
  {
    var b := ExampleJob();
    var s := b.steps[i];
    if i == 0 {
      assert s == Step(From(Some([])), false);
      assert ApplyLayers(b.w, [], st.ctx, true) == st.ctx;
    } else if i == 1 {
      assert s == Step(Run(1), true);
    } else if i == 2 {
      assert s == Step(Noop, true);
    } else if i == 3 {
      assert s == Step(Run(2), false);
    } else {
      assert s == Step(Run(3), true);
    }
  }

  lemma ExampleUncachedStep(i: nat, u: ExampleState)
    requires i < 5 && ExampleJob().Uncached(i) == Ok(u) && (i == 2 ==> !u.ctx.Pending())
    ensures |u.digests| == 5 && ExampleJob().Uncached(i + 1) == Ok(ExampleNext(i, u))
  {
    var b := ExampleJob();
    CountingIsLawful<int, int>();
    UncachedHas(b, i);
    NothingSkipped(b, i, u);
    hide BuildNode, Lawful, Skipped;
    assert u.digests[i] == None;
    ExampleNode(i, u);
    CachedStep(b, Nothing(5), i);
  }

  function ExampleAt(i: nat): (u: ExampleState)
    requires i <= 5
    ensures |u.digests| == 5
  {
    if i == 0 then State(Context(0, 0, false, []), 0, Nothing(5), map[]) else ExampleNext(i - 1, ExampleAt(i - 1))
  }

  lemma {:induction false} ExampleReaches(i: nat)
    requires i <= 5
    ensures ExampleJob().Uncached(i) == Ok(ExampleAt(i))
  {
    if i > 0 {
      hide ExampleNext;
      ExampleReaches(i - 1);
      if i - 1 == 2 { ExampleQuiet(); }
      ExampleUncachedStep(i - 1, ExampleAt(i - 1));
    }
  }

  lemma ExampleQuiet()
    ensures !ExampleAt(2).ctx.Pending() && ExampleAt(2).ctx.disk == ExampleAt(2).ctx.mem == 1
  {
    assert ExampleAt(1) == ExampleNext(0, ExampleAt(0));
  }

  lemma ExamplePushes(i: nat)
    requires i in ExampleCache()
    ensures i < 5 && ExampleJob().Pushes(i, ExampleCache()[i])
  {
    ExampleQuiet();
    hide BuildTo, Counting;
    ExampleReaches(i + 1);
    assert ExampleAt(i + 1) == ExampleNext(i, ExampleAt(i));
    if i == 4 {
      assert ExampleAt(4) == ExampleNext(3, ExampleAt(3)) && ExampleAt(3) == ExampleNext(2, ExampleAt(2));
    }
  }

  /** The second RUN runs again although the layer of the third holds it: the
      cache is sound, yet the cached build ends elsewhere. */
  lemma ExampleRunsAgain()
    ensures var b := ExampleJob();
            && IsStage(b.steps, b.o) && Lawful(b.w) && b.Sound(ExampleCache())
            && b.Uncached(5).Ok? && b.Cached(ExampleCache(), 5).Ok?
            && b.Cached(ExampleCache(), 5).value.ctx != b.Uncached(5).value.ctx
  {
    var b, cache := ExampleJob(), ExampleCache();
    CountingIsLawful<int, int>();
    hide BuildTo, Lawful, Counting, ExampleCache, b.Pushes;
    forall i | i in cache ensures i < 5 && b.Pushes(i, cache[i]) { ExamplePushes(i); }
    ExampleMarker(cache);
    CachedBuildIsUncachedExactly(b, cache);
  }

  lemma ExampleMarker(cache: map<nat, Entry<int>>)
    requires cache == ExampleCache()
    ensures SomeRunsAgain(ExampleJob().o, ExampleSteps(), cache)
  {
    assert RunsAgain(ExampleJob().o, ExampleSteps(), cache, 2, 3, 4);
  }
}
