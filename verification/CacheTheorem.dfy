/** A cached build means the same as an uncached one, for as long as its cache
    has been filled by builds of the same stage. */
module CacheTheorem {
  import opened Wrappers
  import opened BuildSpec
  import opened CachedBuild
  import opened CacheProof

  // ----- a step that still matters is skipped -----

  /** What is pending is committed by the next annotated step, whose layer is then in the cache. */
  lemma {:induction false} PendingIsCovered<FS(!new), Cmd(!new), Config(!new), Layer>(
    b: Job<FS, Cmd, Config, Layer>, cache: map<nat, Entry<Layer>>, i: nat, k: nat) returns (next: nat)
    requires Ready(b, cache) && 0 < i <= k && HasLayer(b.o, b.steps, cache, k) && !b.o.forceCommit
    requires b.Uncached(k + 1).Ok? && b.Uncached(i).Ok? && b.Uncached(i).value.ctx.Pending()
    ensures i <= next <= k && b.steps[next].commit && HasLayer(b.o, b.steps, cache, next)
    ensures forall j | i <= j < next :: !b.steps[j].commit
    decreases k - i
  {
    hide Lawful, UncachedInv, b.Sound, BuildNode, HasLayer, Fetched;
    LayerIsPullable(b.o, b.steps, cache, k);
    UncachedHas(b, k + 1);
    UncachedHas(b, i);
    assert b.Uncached(i + 1).Ok?;
    UncachedHas(b, i + 1);
    NodeEffect(b, i, b.Uncached(i).value, b.Uncached(i + 1).value);
    if b.steps[i].commit {
      FetchedBefore(b.o, b.steps, cache, i, k);
      SoundAt(b, cache, i);
      LayerHere(b.o, b.steps, cache, i);
      next := i;
    } else if i == k {
      LayerIsPullable(b.o, b.steps, cache, k);
      next := k;
    } else {
      FetchedBefore(b.o, b.steps, cache, i, k);
      next := PendingIsCovered(b, cache, i + 1, k);
    }
  }

  lemma LayerHere<Cmd, Layer>(o: Options, steps: Steps<Cmd, Layer>, cache: map<nat, Entry<Layer>>, i: nat)
    requires i < |steps| && Fetched(o, steps, cache, i) && cache[i].LayerEntry?
    ensures HasLayer(o, steps, cache, i)
  {
  }

  lemma LayerIsPullable<Cmd, Layer>(o: Options, steps: Steps<Cmd, Layer>, cache: map<nat, Entry<Layer>>, k: nat)
    requires HasLayer(o, steps, cache, k)
    ensures k < |steps| && Pullable(o, steps, k) && Fetched(o, steps, cache, k) && cache[k].LayerEntry?
    ensures FetchedDigests(o, steps, cache, k) == Some([cache[k].layer])
  {
  }

  /** The digests of a node are set once. */
  lemma {:induction false} DigestsStay<FS(!new), Cmd(!new), Config(!new), Layer>(b: Job<FS, Cmd, Config, Layer>,
      j: nat, i: nat)
    requires IsStage(b.steps, b.o) && Lawful(b.w) && j < i <= |b.steps| && b.Uncached(i).Ok?
    ensures b.Uncached(j + 1).Ok? && b.Uncached(i).value.digests[j] == b.Uncached(j + 1).value.digests[j]
  {
    hide Lawful, UncachedInv, BuildNode;
    UncachedHas(b, i);
    if j < i - 1 {
      UncachedHas(b, i - 1);
      NodeEffect(b, i - 1, b.Uncached(i - 1).value, b.Uncached(i).value);
      DigestsStay(b, j, i - 1);
    }
  }

  /** A node whose layer was pulled holds that layer in the uncached build. */
  lemma HoldsInUncached<FS(!new), Cmd(!new), Config(!new), Layer>(
    b: Job<FS, Cmd, Config, Layer>, cache: map<nat, Entry<Layer>>, j: nat, i: nat)
    requires Ready(b, cache) && j < i <= |b.steps| && b.Uncached(i).Ok? && HasLayer(b.o, b.steps, cache, j)
    ensures Holds(b.Uncached(i).value.digests[j])
  {
    hide Lawful, UncachedInv, b.Sound, BuildNode, HasLayer, Fetched;
    DigestsStay(b, j, i);
    LayerIsPullable(b.o, b.steps, cache, j);
    UncachedHas(b, j + 1);
    UncachedHas(b, j);
    NodeEffect(b, j, b.Uncached(j).value, b.Uncached(j + 1).value);
    SoundAt(b, cache, j);
  }

  /** A step that changes something, was not looked up and has a pulled layer
      ahead is skipped, unless it runs again by mistake. */
  lemma SkipsWhatMatters<FS(!new), Cmd(!new), Config(!new), Layer>(
    b: Job<FS, Cmd, Config, Layer>, cache: map<nat, Entry<Layer>>, i: nat, k: nat, c: State<FS, Cmd, Config, Layer>)
    requires Ready(b, cache) && 0 < i < k && HasLayer(b.o, b.steps, cache, k)
    requires !Pullable(b.o, b.steps, i) && b.steps[i].Changes()
    requires b.Uncached(k + 1).Ok? && b.Uncached(i).Ok?
    requires |c.digests| == |b.steps| && InStep(b, cache, i, b.Uncached(i).value, c)
    requires forall e | 0 < e < i :: !HasMarker(b.o, b.steps, cache, e)
    ensures Skipped(b.steps, c.digests, i)
  {
    hide Lawful, UncachedInv, b.Sound, BuildNode, HasLayer, Fetched, Skipped, Latest, Settled;
    LayerIsPullable(b.o, b.steps, cache, k);
    UncachedHas(b, k + 1);
    UncachedHas(b, i);
    UncachedHas(b, i + 1);
    NodeEffect(b, i, b.Uncached(i).value, b.Uncached(i + 1).value);
    FetchedBefore(b.o, b.steps, cache, i, k);
    var next := PendingIsCovered(b, cache, i + 1, k);
    forall j | 1 <= j <= next && b.steps[j].commit ensures Holds(c.digests[j]) {
      if j < i {
        FetchedBefore(b.o, b.steps, cache, j, k);
        assert !HasMarker(b.o, b.steps, cache, j);
        LayerHere(b.o, b.steps, cache, j);
        HoldsInUncached(b, cache, j, i);
      } else {
        assert j == next;
        LayerIsPullable(b.o, b.steps, cache, j);
      }
    }
    SkippedIsCovered(b.steps, c.digests, i);
  }

  // ----- the whole build -----

  /** How the cached build relates to the uncached one before node i. */
  ghost predicate Matches<FS, Cmd, Config, Layer>(b: Job<FS, Cmd, Config, Layer>, cache: map<nat, Entry<Layer>>, i: nat)
    requires i <= |b.steps|
  {
    match b.Uncached(i)
    case Err(e) => b.Cached(cache, i) == Err(e)
    case Ok(u) => b.Cached(cache, i).Ok? && InStep(b, cache, i, u, b.Cached(cache, i).value)
  }

  lemma MatchesStart<FS(!new), Cmd(!new), Config(!new), Layer>(b: Job<FS, Cmd, Config, Layer>,
      cache: map<nat, Entry<Layer>>)
    ensures Matches(b, cache, 0)
  {
  }

  /** The uncached build reaches every pulled layer. */
  lemma ReachesLayer<FS(!new), Cmd(!new), Config(!new), Layer>(
    b: Job<FS, Cmd, Config, Layer>, cache: map<nat, Entry<Layer>>, i: nat, k: nat)
    requires Ready(b, cache) && i <= k && HasLayer(b.o, b.steps, cache, k)
    ensures k < |b.steps| && b.Uncached(k + 1).Ok? && b.Uncached(i).Ok? && b.Uncached(i + 1).Ok?
    ensures b.StepsTo(i, b.Uncached(i).value, b.Uncached(i + 1).value)
  {
    hide Lawful, UncachedInv, b.Sound, BuildNode, HasLayer, Fetched;
    LayerIsPullable(b.o, b.steps, cache, k);
    SoundAt(b, cache, k);
    UncachedHas(b, k + 1);
    UncachedHas(b, i + 1);
  }

  lemma CachedStep<FS, Cmd, Config, Layer>(b: Job<FS, Cmd, Config, Layer>, digests: seq<Digests<Layer>>, i: nat)
    requires i < |b.steps| == |digests|
    ensures b.From(digests, i).Err? ==> b.From(digests, i + 1) == b.From(digests, i)
    ensures b.From(digests, i).Ok? ==>
              var st := b.From(digests, i).value;
              b.From(digests, i + 1) ==
              if b.o.modifyFS && !b.o.allowModifyFS then Err(ModifyNotAllowed)
              else BuildNode(b.w, b.o, b.steps, i, Skipped(b.steps, st.digests, i), st)
  {
  }

  /** With pulled layers ahead. */
  lemma MatchesBehind<FS(!new), Cmd(!new), Config(!new), Layer>(
    b: Job<FS, Cmd, Config, Layer>, cache: map<nat, Entry<Layer>>, i: nat, k: nat)
    requires Ready(b, cache) && Calm(b.o, b.steps, cache, i + 1)
    requires 0 < i <= k && HasLayer(b.o, b.steps, cache, k) && Matches(b, cache, i)
    ensures i < |b.steps| && Matches(b, cache, i + 1)
  {
    hide Lawful, UncachedInv, b.Sound, BuildNode, HasLayer, Fetched, Skipped, Settled, InStep;
    ReachesLayer(b, cache, i, k);
    UncachedHas(b, i);
    var u, u', c := b.Uncached(i).value, b.Uncached(i + 1).value, b.Cached(cache, i).value;
    var skip := Skipped(b.steps, c.digests, i);
    CachedStep(b, Nothing(|b.steps|), i);
    CachedStep(b, Pulled(b.o, b.steps, cache), i);
    FetchedBefore(b.o, b.steps, cache, i, k);
    if HasLayer(b.o, b.steps, cache, i) {
      StepLayer(b, cache, i, u, u', c, skip);
    } else if Fetched(b.o, b.steps, cache, i) {
      StepMarker(b, cache, i, u, u', c, skip);
    } else {
      if !skip && b.steps[i].Changes() {
        forall e | 0 < e < i ensures !HasMarker(b.o, b.steps, cache, e) {
          assert !RunsAgain(b.o, b.steps, cache, e, i, k);
        }
        SkipsWhatMatters(b, cache, i, k, c);
      }
      StepUnlooked(b, cache, i, u, u', c, skip);
    }
  }

  /** Without. */
  lemma MatchesAlone<FS(!new), Cmd(!new), Config(!new), Layer>(
    b: Job<FS, Cmd, Config, Layer>, cache: map<nat, Entry<Layer>>, i: nat)
    requires Ready(b, cache) && i < |b.steps| && Matches(b, cache, i)
    requires i == 0 || !Ahead(b.o, b.steps, cache, i)
    ensures Matches(b, cache, i + 1)
  {
    hide Lawful, UncachedInv, b.Sound, BuildNode, HasLayer, Fetched, Settled, InStep, Skipped;
    CachedStep(b, Nothing(|b.steps|), i);
    CachedStep(b, Pulled(b.o, b.steps, cache), i);
    if b.Uncached(i).Ok? {
      var u, c := b.Uncached(i).value, b.Cached(cache, i).value;
      UncachedHas(b, i);
      NothingSkipped(b, i, u);
      SameSkips(b, cache, i, u, c);
      StepAlone(b, cache, i, u, c);
    }
  }

  lemma SameSkips<FS(!new), Cmd(!new), Config(!new), Layer>(
    b: Job<FS, Cmd, Config, Layer>, cache: map<nat, Entry<Layer>>, i: nat,
    u: State<FS, Cmd, Config, Layer>, c: State<FS, Cmd, Config, Layer>)
    requires i < |b.steps| && UncachedInv(b, i, u) && !Skipped(b.steps, u.digests, i)
    requires |c.digests| == |b.steps| && InStep(b, cache, i, u, c)
    requires i == 0 || !Ahead(b.o, b.steps, cache, i)
    ensures !Skipped(b.steps, c.digests, i)
  {
    if i > 0 {
      forall j | i <= j < |b.steps| ensures c.digests[j] == None {
        assert !HasLayer(b.o, b.steps, cache, j);
      }
      assert c.digests == u.digests;
    }
  }

  lemma {:induction false} MatchesUpTo<FS(!new), Cmd(!new), Config(!new), Layer>(
    b: Job<FS, Cmd, Config, Layer>, cache: map<nat, Entry<Layer>>, i: nat)
    requires Ready(b, cache) && Calm(b.o, b.steps, cache, i) && i <= |b.steps|
    ensures Matches(b, cache, i)
  {
    hide Lawful, b.Sound, RunsAgain, HasLayer, Matches;
    if i == 0 {
      MatchesStart(b, cache);
    } else {
      MatchesUpTo(b, cache, i - 1);
      if i - 1 > 0 && Ahead(b.o, b.steps, cache, i - 1) {
        var k :| k >= i - 1 && HasLayer(b.o, b.steps, cache, k);
        MatchesBehind(b, cache, i - 1, k);
      } else {
        MatchesAlone(b, cache, i - 1);
      }
    }
  }

  /** With a cache filled by builds of this stage, and no step running again by
      mistake, the cached build fails as the uncached one does, or ends with
      the same layers, file systems and image config. */
  lemma CachedBuildIsUncached<FS(!new), Cmd(!new), Config(!new), Layer>(
    b: Job<FS, Cmd, Config, Layer>, cache: map<nat, Entry<Layer>>)
    requires IsStage(b.steps, b.o) && Lawful(b.w) && b.Sound(cache) && !SomeRunsAgain(b.o, b.steps, cache)
    ensures match b.Uncached(|b.steps|)
            case Err(e) => b.Cached(cache, |b.steps|) == Err(e)
            case Ok(u) =>
              var r := b.Cached(cache, |b.steps|);
              r.Ok? && r.value.ctx == u.ctx && r.value.config == u.config && r.value.digests == u.digests
  {
    MatchesUpTo(b, cache, |b.steps|);
  }

  // ----- the cache stays sound -----

  /** What an uncached build pushed is what its nodes pushed. */
  lemma {:induction false} PushedWhen<FS(!new), Cmd(!new), Config(!new), Layer>(b: Job<FS, Cmd, Config, Layer>,
      m: nat, x: nat)
    requires IsStage(b.steps, b.o) && Lawful(b.w) && m <= |b.steps| && b.Uncached(m).Ok?
             && x in b.Uncached(m).value.pushed
    ensures x < m && b.Pushes(x, b.Uncached(m).value.pushed[x])
  {
    hide Lawful, UncachedInv, BuildNode;
    UncachedHas(b, m);
    if m > 0 {
      PushedBelow(b, m, b.Uncached(m).value, x);
      if x < m - 1 {
        UncachedHas(b, m - 1);
        KeepsPushed(b, m - 1, b.Uncached(m - 1).value, b.Uncached(m).value, x);
        PushedWhen(b, m - 1, x);
      }
    }
  }

  lemma PushedBelow<FS, Cmd, Config, Layer>(b: Job<FS, Cmd, Config, Layer>, m: nat, u: State<FS, Cmd, Config, Layer>,
      x: nat)
    requires UncachedInv(b, m, u) && x in u.pushed
    ensures x < m
  {
  }

  lemma KeepsPushed<FS, Cmd, Config, Layer>(
    b: Job<FS, Cmd, Config, Layer>, i: nat, u: State<FS, Cmd, Config, Layer>, u': State<FS, Cmd, Config, Layer>, x: nat)
    requires i < |b.steps| == |u.digests| && BuildNode(b.w, b.o, b.steps, i, false, u) == Ok(u') && x != i
    ensures (x in u'.pushed <==> x in u.pushed) && (x in u.pushed ==> u'.pushed[x] == u.pushed[x])
  {
  }

  /** What a cached build pushes, whole or cut short, keeps the cache sound. */
  lemma PushesStaySound<FS(!new), Cmd(!new), Config(!new), Layer>(
    b: Job<FS, Cmd, Config, Layer>, cache: map<nat, Entry<Layer>>, m: nat)
    requires IsStage(b.steps, b.o) && Lawful(b.w) && b.Sound(cache) && !SomeRunsAgain(b.o, b.steps, cache)
    requires m <= |b.steps| && b.Cached(cache, m).Ok?
    ensures b.Sound(cache + b.Cached(cache, m).value.pushed)
  {
    hide Lawful, UncachedInv, BuildNode, RunsAgain, BuildTo, b.Pushes;
    MatchesUpTo(b, cache, m);
    var p := b.Cached(cache, m).value.pushed;
    forall x | x in p ensures x < |b.steps| && b.Pushes(x, p[x]) {
      PushedWhen(b, m, x);
    }
  }

  /** One build after another, on this host or others: each pulls from part of
      what all builds before it pushed and may stop at any node. */
  ghost predicate IsHistory<FS, Cmd, Config, Layer>(
    b: Job<FS, Cmd, Config, Layer>, caches: seq<map<nat, Entry<Layer>>>, stops: seq<nat>)
  {
    && |caches| == |stops| + 1 && caches[0] == map[]
    && forall n | 0 <= n < |stops| ::
      && stops[n] <= |b.steps| && b.Cached(caches[n], stops[n]).Ok?
      && var full := caches[n] + b.Cached(caches[n], stops[n]).value.pushed;
         caches[n + 1].Items <= full.Items
  }

  /** Whatever builds came before, the next one means what the uncached one means. */
  lemma {:induction false} EveryBuildIsUncached<FS(!new), Cmd(!new), Config(!new), Layer>(
    b: Job<FS, Cmd, Config, Layer>, caches: seq<map<nat, Entry<Layer>>>, stops: seq<nat>, n: nat)
    requires IsStage(b.steps, b.o) && Lawful(b.w) && IsHistory(b, caches, stops) && n < |caches|
    requires forall m | 0 <= m <= n :: !SomeRunsAgain(b.o, b.steps, caches[m])
    ensures b.Sound(caches[n])
    ensures match b.Uncached(|b.steps|)
            case Err(e) => b.Cached(caches[n], |b.steps|) == Err(e)
            case Ok(u) =>
              var r := b.Cached(caches[n], |b.steps|);
              r.Ok? && r.value.ctx == u.ctx && r.value.config == u.config && r.value.digests == u.digests
  {
    hide Lawful, SomeRunsAgain, BuildTo, b.Pushes;
    if n > 0 {
      EveryBuildIsUncached(b, caches, stops, n - 1);
      PushesStaySound(b, caches[n - 1], stops[n - 1]);
      var full := caches[n - 1] + b.Cached(caches[n - 1], stops[n - 1]).value.pushed;
      forall i | i in caches[n] ensures i in full && full[i] == caches[n][i] {
        assert (i, caches[n][i]) in caches[n].Items;
      }
    }
    CachedBuildIsUncached(b, caches[n]);
  }

  /** Where every step commits, no step can run again. */
  lemma ForceCommitIsSafe<Cmd, Layer>(o: Options, steps: Steps<Cmd, Layer>, cache: map<nat, Entry<Layer>>)
    requires o.forceCommit
    ensures !SomeRunsAgain(o, steps, cache)
  {
  }
}
