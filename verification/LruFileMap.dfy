/** The file map used by one goroutine at a time (lib/storage/base/file_map.go):
    a dictionary that forgets the name unused for longest. */
module LruFileMap {
  import opened Wrappers
  import opened Queues

  /** Decides what directory a file is in. */
  datatype FileState = FileState(directory: string)

  class FileEntry {
    const name: string
    var state: FileState

    constructor (name: string, state: FileState)
      ensures this.name == name && this.state == state
    {
      this.name, this.state := name, state;
    }
  }

  type Elements = map<string, FileEntry>

  /** `elements` and `queue` hold the same entries, each once and under its own name. */
  ghost predicate Paired(elements: Elements, queue: seq<FileEntry>) {
    && NoDuplicates(queue)
    && (forall n | n in elements :: elements[n] in queue && elements[n].name == n)
    && (forall e | e in queue :: e.name in elements && elements[e.name] == e)
  }

  /** The queue is ordered by last use, latest first. */
  ghost predicate ByUse(queue: seq<FileEntry>, lastUsed: map<string, nat>, uses: nat) {
    && (forall e | e in queue :: e.name in lastUsed && lastUsed[e.name] < uses)
    && (forall i, j | 0 <= i < j < |queue| :: lastUsed[queue[i].name] > lastUsed[queue[j].name])
  }

  /** The name used longest ago. */
  ghost predicate IsOldest(n: string, elements: Elements, lastUsed: map<string, nat>)
    requires elements.Keys == lastUsed.Keys
  {
    n in elements && forall x | x in elements && x != n :: lastUsed[n] < lastUsed[x]
  }

  /** Exactly the name used longest ago is gone. */
  ghost predicate Forgets(elements: Elements, lastUsed: map<string, nat>, victim: FileEntry, elements': Elements,
      lastUsed': map<string, nat>) {
    var n := victim.name;
    && elements.Keys == lastUsed.Keys && IsOldest(n, elements, lastUsed) && victim == elements[n]
    && elements' == elements - {n} && |elements'| == |elements| - 1 && lastUsed' == lastUsed - {n}
  }

  lemma SameSize(elements: Elements, queue: seq<FileEntry>)
    requires Paired(elements, queue)
    ensures |elements| == |queue|
  {
    var keys := seq(|queue|, i requires 0 <= i < |queue| => queue[i].name);
    assert NoDuplicates(keys) by {
      forall i, j | 0 <= i < j < |keys| ensures keys[i] != keys[j] {
        assert elements[queue[i].name] == queue[i] && elements[queue[j].name] == queue[j];
      }
    }
    forall n | n in elements.Keys ensures n in keys {
      var i :| 0 <= i < |queue| && queue[i] == elements[n];
      assert keys[i] == n;
    }
    forall n | n in keys ensures n in elements.Keys {
      var i :| 0 <= i < |keys| && keys[i] == n;
      assert queue[i] in queue;
    }
    DistinctCount(keys, elements.Keys);
    assert |elements| == |elements.Keys|;
  }

  lemma {:induction false} RemoveKeepsOrder(queue: seq<FileEntry>, e: FileEntry, lastUsed: map<string, nat>, uses: nat)
    requires ByUse(queue, lastUsed, uses)
    ensures ByUse(Remove(queue, e), lastUsed, uses)
  {
    if queue != [] {
      var rest := queue[1..];
      RemoveKeepsOrder(rest, e, lastUsed, uses);
      RemoveIs(rest, e);
      assert forall x | x in rest :: lastUsed[queue[0].name] > lastUsed[x.name];
    }
  }

  lemma TouchedIsLatest(elements: Elements, queue: seq<FileEntry>, e: FileEntry, lastUsed: map<string, nat>, uses: nat)
    requires Paired(elements, queue) && ByUse(queue, lastUsed, uses) && e in queue
    ensures Paired(elements, MoveToFront(queue, e)) && ByUse(MoveToFront(queue, e), lastUsed[e.name := uses], uses + 1)
  {
    RemovedIsGone(elements, queue, e, lastUsed, uses);
    RemoveIs(queue, e);
    AddedIsLatest(elements - {e.name}, Remove(queue, e), e, lastUsed - {e.name}, uses);
    assert (elements - {e.name})[e.name := e] == elements;
    assert (lastUsed - {e.name})[e.name := uses] == lastUsed[e.name := uses];
  }

  lemma AddedIsLatest(elements: Elements, queue: seq<FileEntry>, e: FileEntry, lastUsed: map<string, nat>, uses: nat)
    requires Paired(elements, queue) && ByUse(queue, lastUsed, uses) && e.name !in elements
    ensures Paired(elements[e.name := e], [e] + queue) && ByUse([e] + queue, lastUsed[e.name := uses], uses + 1)
  {
    assert forall x | x in [e] + queue :: x == e || x in queue;
    assert forall x | x in queue :: x in [e] + queue;
  }

  lemma RemovedIsGone(elements: Elements, queue: seq<FileEntry>, e: FileEntry, lastUsed: map<string, nat>, uses: nat)
    requires Paired(elements, queue) && ByUse(queue, lastUsed, uses) && e in queue
    ensures Paired(elements - {e.name}, Remove(queue, e)) && ByUse(Remove(queue, e), lastUsed - {e.name}, uses)
  {
    RemoveIs(queue, e);
    RemoveKeepsOrder(queue, e, lastUsed, uses);
    forall x | x in Remove(queue, e) ensures x.name != e.name { assert elements[x.name] == x && elements[e.name] == e; }
  }

  lemma LastIsOldest(elements: Elements, queue: seq<FileEntry>, lastUsed: map<string, nat>, uses: nat)
    requires Paired(elements, queue) && ByUse(queue, lastUsed, uses) && elements.Keys == lastUsed.Keys && queue != []
    ensures IsOldest(queue[|queue| - 1].name, elements, lastUsed)
  {
    var e := queue[|queue| - 1];
    assert e in queue;
    forall x | x in elements && x != e.name ensures lastUsed[e.name] < lastUsed[x] {
      var i :| 0 <= i < |queue| && queue[i] == elements[x];
      assert queue[i].name == x;
    }
  }

  class LruFileMap {
    const size: int
    var queue: seq<FileEntry>
    var elements: Elements
    /** When each name was last stored or looked up, counting uses. */
    ghost var lastUsed: map<string, nat>
    ghost var uses: nat

    ghost predicate Valid()
      reads this
    {
      Paired(elements, queue) && ByUse(queue, lastUsed, uses) && elements.Keys == lastUsed.Keys
    }

    constructor (size: int)
      ensures Valid() && this.size == size && elements == map[]
    {
      this.size, queue, elements, lastUsed, uses := size, [], map[], map[], 0;
    }

    method Get(name: string) returns (r: Option<FileEntry>)
      requires Valid()
      modifies this`queue, this`lastUsed, this`uses
      ensures Valid()
      ensures r == if name in elements then Some(elements[name]) else None
      ensures lastUsed == if name in elements then old(lastUsed)[name := old(uses)] else old(lastUsed)
      ensures uses == if name in elements then old(uses) + 1 else old(uses)
    {
      if name in elements {
        hide Paired, ByUse, MoveToFront;
        var e := elements[name];
        assert e in queue && e.name == name by { Known(elements, queue, name); }
        TouchedIsLatest(elements, queue, e, lastUsed, uses);
        queue := MoveToFront(queue, e);
        lastUsed := lastUsed[name := uses];
        uses := uses + 1;
        return Some(e);
      }
      return None;
    }

    method Add(name: string, e: FileEntry) returns (added: bool)
      requires Valid() && e.name == name
      modifies this`queue, this`elements, this`lastUsed, this`uses
      ensures Valid()
      ensures added == (name !in old(elements))
      ensures elements == if added then old(elements)[name := e] else old(elements)
      ensures lastUsed == if added then old(lastUsed)[name := old(uses)] else old(lastUsed)
      ensures uses >= old(uses)
    {
      hide Paired, ByUse;
      if name in elements {
        return false;
      }
      AddedIsLatest(elements, queue, e, lastUsed, uses);
      queue := [e] + queue;
      elements := elements[name := e];
      lastUsed := lastUsed[name := uses];
      uses := uses + 1;
      return true;
    }

    method Remove(name: string) returns (r: Option<FileEntry>)
      requires Valid()
      modifies this`queue, this`elements, this`lastUsed
      ensures Valid()
      ensures r == if name in old(elements) then Some(old(elements)[name]) else None
      ensures elements == old(elements) - {name} && lastUsed == old(lastUsed) - {name}
    {
      if name in elements {
        hide Paired, ByUse;
        var e := elements[name];
        assert e in queue && e.name == name by { Known(elements, queue, name); }
        hide Queues.Remove;
        RemovedIsGone(elements, queue, e, lastUsed, uses);
        queue := Queues.Remove(queue, e);
        elements := elements - {name};
        lastUsed := lastUsed - {name};
        return Some(e);
      }
      return None;
    }

    /** Looking the oldest entry up again under its own lock finds it. */
    method RemoveOldest() returns (e: FileEntry)
      requires Valid() && queue != []
      modifies this`queue, this`elements, this`lastUsed, this`uses
      ensures Valid()
      ensures Forgets(old(elements), old(lastUsed), e, elements, lastUsed)
    {
      hide Paired, ByUse, IsOldest;
      e := queue[|queue| - 1];
      LastIsOldest(elements, queue, lastUsed, uses);
      Queued(elements, queue, e);
      SizeDrops(elements, e.name);
      TouchAndDrop(lastUsed, e.name, uses);
      var found := Get(e.name);
      var r := Remove(e.name);
    }

    /** The victim is the name used longest ago, and only if there are too many. */
    method RemoveOldestIfNeeded() returns (victim: Option<FileEntry>)
      requires Valid()
      modifies this`queue, this`elements, this`lastUsed, this`uses
      ensures Valid()
      ensures victim.Some? <==> 0 < size < |old(elements)|
      ensures victim.None? ==> elements == old(elements) && lastUsed == old(lastUsed)
      ensures victim.Some? ==> Forgets(old(elements), old(lastUsed), victim.value, elements, lastUsed)
    {
      SameSize(elements, queue);
      if size <= 0 || |queue| <= size {
        return None;
      }
      var e := RemoveOldest();
      return Some(e);
    }

    predicate Contains(name: string)
      reads this
    {
      name in elements
    }

    /** The part of TryStore under the entry's lock: `keep` is what the caller's
        function returns there. */
    method StoreNew(name: string, e: FileEntry, keep: bool) returns (stored: bool)
      requires Valid() && e.name == name
      modifies this`queue, this`elements, this`lastUsed, this`uses
      ensures Valid()
      ensures stored == (keep && name !in old(elements))
      ensures elements == if stored then old(elements)[name := e] else old(elements)
      ensures lastUsed == if stored || name in old(elements) then old(lastUsed)[name := old(uses)] else old(lastUsed)
    {
      hide Paired, ByUse;
      Growth(elements, name, e);
      var present := Get(name);
      if present.Some? {
        stored := false;
      } else {
        var added := Add(name, e);
        stored := keep;
        if !keep {
          var r := Remove(name);
        }
      }
    }

    method TryStore(name: string, e: FileEntry, keep: bool) returns (stored: bool, victim: Option<FileEntry>)
      requires Valid() && e.name == name
      modifies this`queue, this`elements, this`lastUsed, this`uses
      ensures Valid()
      ensures stored == (keep && name !in old(elements))
      ensures var now := if stored then old(elements)[name := e] else old(elements);
              var used := if stored || name in old(elements) then old(lastUsed)[name := old(uses)] else old(lastUsed);
              && (victim.Some? <==> 0 < size < |now|)
              && (victim.None? ==> elements == now && lastUsed == used)
              && (victim.Some? ==> Forgets(now, used, victim.value, elements, lastUsed))
      ensures stored && victim.Some? ==> victim.value.name != name
      ensures 0 < size && |old(elements)| <= size ==> |elements| <= size
      ensures stored && victim.Some? && 0 < |old(elements)|
              ==> IsOldest(victim.value.name, old(elements), old(lastUsed))
    {
      hide Paired, ByUse, IsOldest;
      UsesAreOver(elements, queue, lastUsed, uses);
      Growth(elements, name, e);
      stored := StoreNew(name, e, keep);
      victim := RemoveOldestIfNeeded();
      if stored && victim.Some? && |old(elements)| > 0 {
        OldestWas(old(elements), old(lastUsed), name, e, old(uses), victim.value.name);
        OldestIsIn(victim.value.name, old(elements), old(lastUsed));
      }
    }

    /** `drop` is what the caller's function returns under the entry's lock. */
    method Delete(name: string, drop: bool) returns (r: Option<FileEntry>)
      requires Valid()
      modifies this`queue, this`elements, this`lastUsed, this`uses
      ensures Valid()
      ensures r == if name in old(elements) && drop then Some(old(elements)[name]) else None
      ensures elements == if drop then old(elements) - {name} else old(elements)
      ensures forall n | n in lastUsed && n != name :: n in old(lastUsed) && lastUsed[n] == old(lastUsed)[n]
      ensures !drop && name in elements ==> lastUsed[name] >= old(uses)
    {
      hide Paired, ByUse;
      r := Load(name);
      if r.Some? && drop {
        r := Remove(name);
      } else {
        assert drop ==> elements == elements - {name};
        r := None;
      }
    }

    /** LoadForRead, LoadForWrite and LoadForPeek all look the name up twice. */
    method Load(name: string) returns (r: Option<FileEntry>)
      requires Valid()
      modifies this`queue, this`lastUsed, this`uses
      ensures Valid()
      ensures r == if name in elements then Some(elements[name]) else None
      ensures lastUsed.Keys == old(lastUsed).Keys && uses >= old(uses)
      ensures forall n | n in lastUsed && n != name :: lastUsed[n] == old(lastUsed)[n]
      ensures name in elements ==> lastUsed[name] >= old(uses)
    {
      r := Get(name);
      if r.Some? {
        r := Get(name);
      }
    }
  }

  lemma TouchAndDrop(lastUsed: map<string, nat>, n: string, uses: nat)
    ensures lastUsed[n := uses] - {n} == lastUsed - {n}
  {
  }

  lemma Queued(elements: Elements, queue: seq<FileEntry>, e: FileEntry)
    requires Paired(elements, queue) && e in queue
    ensures e.name in elements && elements[e.name] == e
  {
  }

  lemma UsesAreOver(elements: Elements, queue: seq<FileEntry>, lastUsed: map<string, nat>, uses: nat)
    requires Paired(elements, queue) && ByUse(queue, lastUsed, uses) && elements.Keys == lastUsed.Keys
    ensures forall n | n in lastUsed :: lastUsed[n] < uses
  {
    forall n | n in lastUsed ensures lastUsed[n] < uses { assert elements[n] in queue; }
  }

  lemma Growth(elements: Elements, name: string, e: FileEntry)
    ensures |elements[name := e]| == |elements| + if name in elements then 0 else 1
    ensures name !in elements ==> elements[name := e] - {name} == elements
  {
    var all := elements[name := e].Keys;
    assert all == elements.Keys + {name};
    assert |elements| == |elements.Keys| && |elements[name := e]| == |all|;
    if name in elements { assert all == elements.Keys; }
  }

  lemma OldestIsIn(n: string, elements: Elements, lastUsed: map<string, nat>)
    requires elements.Keys == lastUsed.Keys && IsOldest(n, elements, lastUsed)
    ensures n in elements
  {
  }

  /** A name just stored is not the victim unless it is alone. */
  lemma OldestWas(elements: Elements, lastUsed: map<string, nat>, name: string, e: FileEntry, uses: nat, victim: string)
    requires elements.Keys == lastUsed.Keys && |elements| > 0 && name !in elements
    requires forall n | n in lastUsed :: lastUsed[n] < uses
    requires IsOldest(victim, elements[name := e], lastUsed[name := uses])
    ensures IsOldest(victim, elements, lastUsed)
  {
    assert elements != map[];
    var x :| x in elements;
    assert x in elements[name := e] && lastUsed[name := uses][x] < uses;
    assert victim != name;
    forall y | y in elements && y != victim ensures lastUsed[victim] < lastUsed[y] {
      assert y in elements[name := e];
    }
  }

  lemma Known(elements: Elements, queue: seq<FileEntry>, name: string)
    requires Paired(elements, queue) && name in elements
    ensures elements[name] in queue && elements[name].name == name
  {
  }

  lemma SizeDrops(elements: Elements, name: string)
    requires name in elements
    ensures |elements - {name}| == |elements| - 1
  {
    assert (elements - {name}).Keys == elements.Keys - {name};
    assert |elements| == |elements.Keys| && |elements - {name}| == |(elements - {name}).Keys|;
  }
}
