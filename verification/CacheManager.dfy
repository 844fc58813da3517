/** The cache manager (lib/cache/cache_manager.go): layers are pushed in the
    background while later builds pull, and other hosts share the same stores. */
module CacheManager {
  import opened Wrappers
  import opened CacheEntries

  type Id = string

  /** A background push: `uploaded` once its layer is in the registry, if it has one. */
  datatype Job = Job(id: Id, pair: Option<DigestPair>, uploaded: bool)

  datatype Push = Push(id: Id, pair: Option<DigestPair>)

  datatype State = State(
    mem: map<Id, string>,               // memKVStore
    kv: map<Id, string>,                // the key-value store, shared
    registry: set<Digest>,              // layers in the registry, shared
    local: set<string>,                 // layers in the image store, by hex
    jobs: map<nat, Job>,                // background goroutines
    failed: bool,                       // a push error was recorded
    pushes: seq<Push>,                  // every PushCache so far
    stored: set<Push>)                  // what this manager has put in the key-value store

  datatype Step =
    | PushCache(push: Push, job: nat, hasClient: bool)
    | Upload(job: nat, ok: bool)
    | Put(job: nat, ok: bool)
    | PullCache(id: Id, found: Option<string>, pulled: bool)
    | LayerBuilt(hex: string)
    | LayerEvicted(hex: string)
    | OtherUpload(d: Digest)
    | OtherPut(id: Id, entry: string)
    | OtherDrop(id: Id)

  datatype PullError = NotFound | PullFailed

  /** What PullCache looks up: the mapping in memory first. `found` is what the
      key-value store answers when asked. */
  function Lookup(s: State, id: Id, found: Option<string>): Option<string> {
    if id in s.mem then Some(s.mem[id])
    else if found == Some("") then None
    else found
  }

  /** PullCache: `pulled` tells whether the registry delivers a layer that is
      not on disk. */
  function Pull(s: State, id: Id, found: Option<string>, pulled: bool): Result<Option<DigestPair>, PullError> {
    match Lookup(s, id, found)
    case None => Err(NotFound)
    case Some(entry) =>
      if entry == EMPTY_ENTRY then Ok(None)
      else
        match ParseEntry(entry)
        case None => Err(NotFound)
        case Some(p) =>
          if Hex(p.gzip) in s.local || (pulled && p.gzip in s.registry) then Ok(Some(p)) else Err(PullFailed)
  }

  predicate Enabled(s: State, step: Step) {
    match step
    case PushCache(_, job, _) => job !in s.jobs
    case Upload(job, _) => job in s.jobs && s.jobs[job].pair.Some? && !s.jobs[job].uploaded
    case Put(job, _) => job in s.jobs && (s.jobs[job].pair.Some? ==> s.jobs[job].uploaded)
    case PullCache(id, found, _) => found.Some? ==> id in s.kv && s.kv[id] == found.value
    case _ => true
  }

  function Take(s: State, step: Step): State
    requires Enabled(s, step)
  {
    match step
    case PushCache(push, job, hasClient) =>
      var s' := s.(mem := s.mem[push.id := CreateEntry(push.pair)], pushes := s.pushes + [push]);
      if !hasClient then s'.(failed := true)
      else s'.(jobs := s.jobs[job := Job(push.id, push.pair, false)])
    case Upload(job, ok) =>
      var j := s.jobs[job];
      if ok then s.(registry := s.registry + {j.pair.value.gzip}, jobs := s.jobs[job := j.(uploaded := true)])
      else s.(failed := true, jobs := s.jobs - {job})
    case Put(job, ok) =>
      var j := s.jobs[job];
      if ok then
        s.(kv := s.kv[j.id := CreateEntry(j.pair)], stored := s.stored + {Push(j.id, j.pair)}, jobs := s.jobs - {job})
      else s.(failed := true, jobs := s.jobs - {job})
    case PullCache(id, found, pulled) =>
      (match Pull(s, id, found, pulled)
       case Ok(Some(p)) => s.(local := s.local + {Hex(p.gzip)})
       case _ => s)
    case LayerBuilt(hex) => s.(local := s.local + {hex})
    case LayerEvicted(hex) => s.(local := s.local - {hex})
    case OtherUpload(d) => s.(registry := s.registry + {d})
    case OtherPut(id, entry) => s.(kv := s.kv[id := entry])
    case OtherDrop(id) => s.(kv := s.kv - {id})
  }

  predicate Init(s: State) {
    s.mem == map[] && s.jobs == map[] && !s.failed && s.pushes == [] && s.stored == {}
  }

  ghost predicate Next(s: State, s': State) {
    exists step :: Enabled(s, step) && s' == Take(s, step)
  }

  ghost predicate IsRun(run: seq<State>) {
    |run| > 0 && Init(run[0]) && forall i | 0 <= i < |run| - 1 :: Next(run[i], run[i + 1])
  }

  // ----- what every state keeps -----

  /** The last PushCache for an ID. */
  function LatestPush(pushes: seq<Push>, id: Id): Option<Push> {
    if pushes == [] then None
    else if pushes[|pushes| - 1].id == id then Some(pushes[|pushes| - 1])
    else LatestPush(pushes[..|pushes| - 1], id)
  }

  ghost predicate MemInv(s: State) {
    forall id ::
      (id in s.mem <==> LatestPush(s.pushes, id).Some?)
      && (id in s.mem ==> s.mem[id] == CreateEntry(LatestPush(s.pushes, id).value.pair))
  }

  /** What was stored, and what is about to be, has its layer in the registry. */
  ghost predicate StoredInv(s: State) {
    && (forall p | p in s.stored && p.pair.Some? :: p.pair.value.gzip in s.registry)
    && (forall j | j in s.jobs && s.jobs[j].uploaded :: s.jobs[j].pair.Some? && s.jobs[j].pair.value.gzip in s.registry)
  }

  /** Every push is stored, under way, or an error was recorded; nothing else is stored. */
  ghost predicate PushInv(s: State) {
    && (forall p | p in s.pushes :: p in s.stored || s.failed || UnderWay(s.jobs, p))
    && (forall p | p in s.stored :: p in s.pushes)
    && (forall j | j in s.jobs :: Push(s.jobs[j].id, s.jobs[j].pair) in s.pushes)
  }

  ghost predicate UnderWay(jobs: map<nat, Job>, p: Push) {
    exists j :: j in jobs && Push(jobs[j].id, jobs[j].pair) == p
  }

  lemma {:induction false} LatestOfMore(pushes: seq<Push>, p: Push, id: Id)
    ensures LatestPush(pushes + [p], id) == if p.id == id then Some(p) else LatestPush(pushes, id)
  {
    assert (pushes + [p])[..|pushes|] == pushes;
  }

  lemma StepKeepsMem(s: State, step: Step)
    requires MemInv(s) && Enabled(s, step)
    ensures MemInv(Take(s, step))
  {
    hide Pull, CreateEntry, MemInv;
    var s' := Take(s, step);
    if step.PushCache? {
      PushKeepsMem(s, step.push, s');
    } else {
      SameMem(s, s');
    }
  }

  lemma PushKeepsMem(s: State, push: Push, s': State)
    requires MemInv(s) && s'.pushes == s.pushes + [push] && s'.mem == s.mem[push.id := CreateEntry(push.pair)]
    ensures MemInv(s')
  {
    hide CreateEntry;
    forall id ensures LatestPush(s'.pushes, id) == if push.id == id then Some(push) else LatestPush(s.pushes, id) {
      LatestOfMore(s.pushes, push, id);
    }
    hide LatestPush;
  }

  lemma SameMem(s: State, s': State)
    requires MemInv(s) && s'.mem == s.mem && s'.pushes == s.pushes
    ensures MemInv(s')
  {
  }

  lemma StepKeepsStored(s: State, step: Step)
    requires StoredInv(s) && Enabled(s, step)
    ensures StoredInv(Take(s, step))
  {
    hide Pull, CreateEntry;
  }

  lemma StepKeepsPushes(s: State, step: Step)
    requires PushInv(s) && Enabled(s, step)
    ensures PushInv(Take(s, step))
  {
    var s' := Take(s, step);
    JobsArePushes(s, step);
    forall p | p in s'.pushes ensures p in s'.stored || s'.failed || UnderWay(s'.jobs, p) {
      PushStays(s, step, p);
    }
    forall p | p in s'.stored ensures p in s'.pushes { StoredWasPushed(s, step, p); }
  }

  lemma JobsArePushes(s: State, step: Step)
    requires PushInv(s) && Enabled(s, step)
    ensures var s' := Take(s, step); forall j | j in s'.jobs :: Push(s'.jobs[j].id, s'.jobs[j].pair) in s'.pushes
  {
    hide Pull, CreateEntry, UnderWay;
  }

  lemma StoredWasPushed(s: State, step: Step, p: Push)
    requires PushInv(s) && Enabled(s, step) && p in Take(s, step).stored
    ensures p in Take(s, step).pushes
  {
    hide Pull, CreateEntry, UnderWay;
  }

  /** A job stays, or is stored, or fails. */
  lemma JobStays(s: State, step: Step, j: nat)
    requires Enabled(s, step) && j in s.jobs
    ensures var s' := Take(s, step);
            var p := Push(s.jobs[j].id, s.jobs[j].pair);
            p in s'.stored || s'.failed || (j in s'.jobs && Push(s'.jobs[j].id, s'.jobs[j].pair) == p)
  {
    hide Pull, CreateEntry;
  }

  lemma PushStarts(s: State, step: Step)
    requires Enabled(s, step)
    ensures var s' := Take(s, step);
            && (forall p | p in s'.pushes :: p in s.pushes || (step.PushCache? && p == step.push))
            && (step.PushCache? ==> s'.failed || UnderWay(s'.jobs, step.push))
            && (s.failed ==> s'.failed) && s.stored <= s'.stored
  {
    hide Pull, CreateEntry, UnderWay;
    var s' := Take(s, step);
    if step.PushCache? && step.hasClient {
      IsUnderWay(s'.jobs, step.job, step.push);
    }
  }

  lemma IsUnderWay(jobs: map<nat, Job>, j: nat, p: Push)
    requires j in jobs && Push(jobs[j].id, jobs[j].pair) == p
    ensures UnderWay(jobs, p)
  {
  }

  lemma PushStays(s: State, step: Step, p: Push)
    requires PushInv(s) && Enabled(s, step) && p in Take(s, step).pushes
    ensures var s' := Take(s, step); p in s'.stored || s'.failed || UnderWay(s'.jobs, p)
  {
    hide Take, Enabled;
    PushStarts(s, step);
    if p in s.pushes && UnderWay(s.jobs, p) {
      var j :| j in s.jobs && Push(s.jobs[j].id, s.jobs[j].pair) == p;
      JobStays(s, step, j);
    }
  }

  ghost predicate Inv(s: State) {
    MemInv(s) && StoredInv(s) && PushInv(s)
  }

  lemma {:induction false} ReachableInv(run: seq<State>)
    requires IsRun(run)
    ensures Inv(run[|run| - 1])
  {
    if |run| > 1 {
      var before := run[..|run| - 1];
      var s, s' := run[|run| - 2], run[|run| - 1];
      assert IsRun(before) by { assert forall i | 0 <= i < |before| - 1 :: Next(run[i], run[i + 1]); }
      ReachableInv(before);
      assert Next(run[|run| - 2], run[|run| - 2 + 1]);
      var step :| Enabled(s, step) && s' == Take(s, step);
      hide Take, MemInv, StoredInv, PushInv;
      StepKeepsMem(s, step);
      StepKeepsStored(s, step);
      StepKeepsPushes(s, step);
    }
  }

  // ----- what the manager guarantees -----

  /** In every interleaving, a non-empty entry of this manager in the key-value
      store has its layer in the registry. */
  lemma StoredLayersAreInRegistry(run: seq<State>, p: Push)
    requires IsRun(run) && p in run[|run| - 1].stored && p.pair.Some?
    ensures p.pair.value.gzip in run[|run| - 1].registry && p in run[|run| - 1].pushes
  {
    ReachableInv(run);
  }

  predicate Proper(p: DigestPair) {
    IsSha256(p.tar) && IsSha256(p.gzip) && ',' !in Hex(p.tar)
  }

  /** PullCache answers with the latest PushCache of the same ID, whatever the
      key-value store says, as long as the layer can be had. */
  lemma PullsLatestPush(run: seq<State>, id: Id, found: Option<string>, pulled: bool)
    requires IsRun(run)
    requires LatestPush(run[|run| - 1].pushes, id).Some?
    requires var p := LatestPush(run[|run| - 1].pushes, id).value.pair; p.Some? ==> Proper(p.value)
    ensures var s := run[|run| - 1];
            var p := LatestPush(s.pushes, id).value.pair;
            Pull(s, id, found, pulled) ==
            if p.None? || Hex(p.value.gzip) in s.local
                || (pulled && p.value.gzip in s.registry) then Ok(p) else Err(PullFailed)
  {
    ReachableInv(run);
    var s := run[|run| - 1];
    var p := LatestPush(s.pushes, id).value.pair;
    assert s.mem[id] == CreateEntry(p);
    if p.Some? { EntryRoundTrip(p.value); }
  }

  /** Without errors, once the background is idle everything pushed is stored
      and its layers are in the registry. */
  lemma WaitMeansStored(run: seq<State>, p: Push)
    requires IsRun(run)
    requires var s := run[|run| - 1]; s.jobs == map[] && !s.failed && p in s.pushes
    ensures var s := run[|run| - 1]; p in s.stored && (p.pair.Some? ==> p.pair.value.gzip in s.registry)
  {
    ReachableInv(run);
    assert !UnderWay(run[|run| - 1].jobs, p);
  }

  /** What has been written for an ID, or what never was, decides the answer of a
      manager that did not push the ID itself: the pair if its layer is on disk or
      delivered, nothing for the empty marker, and otherwise that it is not there. */
  lemma PullsWhatIsStored(run: seq<State>, id: Id, found: Option<string>, pulled: bool)
    requires IsRun(run) && forall p | p in run[|run| - 1].pushes :: p.id != id
    ensures var s := run[|run| - 1];
            && (found == None || found == Some("") ==> Pull(s, id, found, pulled) == Err(NotFound))
            && (found == Some(EMPTY_ENTRY) ==> Pull(s, id, found, pulled) == Ok(None))
            && (forall p | Proper(p) && found == Some(CreateEntry(Some(p))) ::
                  Pull(s, id, found, pulled) ==
                  if Hex(p.gzip) in s.local || (pulled && p.gzip in s.registry) then Ok(Some(p)) else Err(PullFailed))
            && (found.Some? && found.value != EMPTY_ENTRY && ',' !in found.value ==>
                Pull(s, id, found, pulled) == Err(NotFound))
  {
    ReachableInv(run);
    var s := run[|run| - 1];
    if LatestPush(s.pushes, id).Some? { LatestIsIn(s.pushes, id); }
    assert id !in s.mem;
    forall p | Proper(p) ensures ParseEntry(CreateEntry(Some(p))) == Some(p) && CreateEntry(Some(p)) != EMPTY_ENTRY
                                 && CreateEntry(Some(p)) != ""
    {
      EntryRoundTrip(p);
    }
  }

  lemma {:induction false} LatestIsIn(pushes: seq<Push>, id: Id)
    requires LatestPush(pushes, id).Some?
    ensures LatestPush(pushes, id).value in pushes && LatestPush(pushes, id).value.id == id
  {
    if pushes[|pushes| - 1].id != id { LatestIsIn(pushes[..|pushes| - 1], id); }
  }

  /** Two managers over the same stores: what one of them has stored under an ID,
      and nobody has replaced, any other that did not push the ID itself pulls. */
  lemma OthersPullIt(run: seq<State>, other: seq<State>, push: Push)
    requires IsRun(run) && IsRun(other)
    requires var s, t := run[|run| - 1], other[|other| - 1];
             && t.kv == s.kv && t.registry == s.registry
             && push in s.stored && push.id in s.kv && s.kv[push.id] == CreateEntry(push.pair)
             && (forall p | p in t.pushes :: p.id != push.id)
    requires push.pair.Some? ==> Proper(push.pair.value)
    ensures var t := other[|other| - 1];
            && Enabled(t, PullCache(push.id, Some(t.kv[push.id]), true))
            && Pull(t, push.id, Some(t.kv[push.id]), true) == Ok(push.pair)
            && forall found, pulled | Enabled(t, PullCache(push.id, found, pulled)) ::
                 var r := Pull(t, push.id, found, pulled); r.Ok? ==> r == Ok(push.pair)
  {
    var t := other[|other| - 1];
    if push.pair.Some? { StoredLayersAreInRegistry(run, push); }
    forall found, pulled | Enabled(t, PullCache(push.id, found, pulled))
      ensures var r := Pull(t, push.id, found, pulled); r.Ok? ==> r == Ok(push.pair)
    {
      PullsWhatIsStored(other, push.id, found, pulled);
    }
    PullsWhatIsStored(other, push.id, Some(t.kv[push.id]), true);
  }

  /** A layer that was pulled is on disk from then on: pulled again it needs neither
      the registry nor the network. */
  lemma PulledIsLocal(s: State, id: Id, found: Option<string>, pulled: bool, p: DigestPair)
    requires Enabled(s, PullCache(id, found, pulled)) && Pull(s, id, found, pulled) == Ok(Some(p))
    ensures var s' := Take(s, PullCache(id, found, pulled));
            && Pull(s', id, found, false) == Ok(Some(p))
            && s'.local == s.local + {Hex(p.gzip)} && s' == s.(local := s'.local)
  {
    hide ParseEntry, CreateEntry, Hex;
  }

  /** Steps change what they are for and nothing else: the shared stores change by
      uploads and puts that succeed and by other hosts, and a push that fails ends
      with its error recorded and both stores as they were. */
  lemma StoresChangeBy(s: State, step: Step)
    requires Enabled(s, step)
    ensures var s' := Take(s, step);
            && (s'.registry != s.registry ==> (step.Upload? && step.ok) || step.OtherUpload?)
            && (s'.kv != s.kv ==> (step.Put? && step.ok) || step.OtherPut? || step.OtherDrop?)
            && (step.Upload? || step.Put? ==> (s'.failed <==> s.failed || !step.ok))
            && (!step.PushCache? && !step.Upload? && !step.Put? ==> s'.failed == s.failed && s'.jobs == s.jobs)
            && ((step.Upload? && !step.ok) || step.Put? ==> step.job !in s'.jobs)
            && (step.Upload? && step.ok ==> step.job in s'.jobs && s'.jobs[step.job].uploaded)
            && (step.Upload? || step.Put? ==>
                forall j | j != step.job ::
                  (j in s'.jobs <==> j in s.jobs) && (j in s.jobs ==> s'.jobs[j] == s.jobs[j]))
  {
    hide Pull, CreateEntry;
  }

  /** What other hosts and the builder do. */
  lemma OthersChange(s: State, d: Digest, id: Id, entry: string, hex: string)
    ensures var t := Take(s, OtherUpload(d)); d in t.registry && s.registry <= t.registry
    ensures var t := Take(s, OtherPut(id, entry));
            id in t.kv && t.kv[id] == entry && forall x | x != id :: (x in t.kv <==> x in s.kv)
                                                                && (x in s.kv ==> t.kv[x] == s.kv[x])
    ensures var t := Take(s, OtherDrop(id)); id !in t.kv && forall x | x in s.kv && x != id :: x in t.kv
    ensures hex in Take(s, LayerBuilt(hex)).local && hex !in Take(s, LayerEvicted(hex)).local
    ensures s.local <= Take(s, LayerBuilt(hex)).local && s.local <= Take(s, LayerEvicted(hex)).local + {hex}
  {
  }
}
