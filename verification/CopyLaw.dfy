/** Exactly when a layer built entry by entry is a correct diff: replayed on the
    old tree it gives the tree in memory after every entry if and only if every
    entry fits where it is put. Nothing is assumed about links. */
module CopyLaw {
  import opened Wrappers
  import opened Paths
  import opened PathStrings
  import opened TarHeaders
  import opened Layers
  import opened ScanTheory
  import opened Ancestors
  import opened LayerSteps
  import opened CopyLayers

  /** The layer, replayed on the old tree in any order that puts ancestors
      first, gives the tree. */
  ghost predicate Law(v: View, st: FsState) {
    forall keys | Lists(keys, st.layer.Keys) && AncestorsFirst(keys) ::
      (forall k | k in keys :: k in st.layer) && Replay(v, st.layer, keys) == Ok(st.view)
  }

  /** Entries with a path of their own below the root. A whiteout of the empty name
      stands for the directory that holds it and has none. */
  ghost predicate PlainEntry(e: MemFile) {
    match e
    case Content(c) => c.dst.Sub? && !IsWhiteoutName(c.dst.name)
    case Whiteout(del) => del.Sub? && del.name != ""
  }

  ghost predicate PlainEntries(es: seq<MemFile>) {
    forall e | e in es :: PlainEntry(e)
  }

  ghost predicate KeyedLayer(l: Layer) {
    forall k | k in l :: PlainEntry(l[k]) && KeyOf(l[k]) == k
  }

  ghost predicate ParentsIn(v: View, l: Layer) {
    forall k | k in l :: k.Sub? && k.parent in Overlay(v, l)
  }

  /** The layer describes the tree, and can be replayed. */
  ghost predicate Described(v: View, st: FsState) {
    && KeyedLayer(st.layer) && ParentsIn(v, st.layer) && IsTree(st.view) && KeyedByDst(st.view)
    && Overlay(v, st.layer) == st.view
  }

  lemma NothingIsDescribed(v: View)
    requires IsTree(v) && KeyedByDst(v)
    ensures Described(v, FsState(v, map[]))
  {
    assert Overlay(v, map[]) == v;
  }

  // ----- replaying a layer whose keys have their parents -----

  /** One more entry, applied after everything above it. */
  lemma PutNext(v: View, l: Layer, e: MemFile)
    requires KeyedLayer(l) && PlainEntry(e) && KeyOf(e) !in l && KeyOf(e).parent in Overlay(v, l)
    requires forall j | j in l :: !Below(KeyOf(e), j)
    ensures Put(Overlay(v, l), e) == Ok(Overlay(v, l[KeyOf(e) := e]))
  {
    hide IsWhiteoutName;
    EntryPut(v, l, e);
  }

  /** Keys above the parent of the next key are all applied, so it is there. */
  lemma ParentApplied(v: View, l: Layer, part: Layer, k: Path)
    requires KeyedLayer(l) && k in l && k.parent in Overlay(v, l)
    requires (forall j | j in part :: j in l && part[j] == l[j]) && (k.parent in l ==> k.parent in part)
    ensures k.parent in Overlay(v, part)
  {
    var p := k.parent;
    if p !in l {
      forall a | a in part && Below(a, p) ensures part[a].Content? && part[a].file.hdr.IsDir() {
        assert a in l;
      }
    }
  }

  lemma {:induction false} ReplayDescribes(v: View, l: Layer, keys: seq<Path>, all: seq<Path>)
    requires KeyedLayer(l) && ParentsIn(v, l)
    requires Lists(all, l.Keys) && AncestorsFirst(all) && keys <= all
    ensures forall k | k in keys :: k in l
    ensures Replay(v, l, keys) == Ok(Overlay(v, Only(l, SetOf(keys))))
  {
    hide KeyedLayer, ParentsIn, Lists, AncestorsFirst, Overlay;
    if keys == [] {
      NothingApplied(v, l);
    } else {
      var front, k := keys[..|keys| - 1], keys[|keys| - 1];
      assert keys == front + [k];
      ReplayDescribes(v, l, front, all);
      NextApplied(v, l, front, k, all);
    }
  }

  lemma NothingApplied(v: View, l: Layer)
    ensures Overlay(v, Only(l, SetOf([]))) == v
  {
  }

  lemma NextApplied(v: View, l: Layer, front: seq<Path>, k: Path, all: seq<Path>)
    requires KeyedLayer(l) && ParentsIn(v, l)
    requires Lists(all, l.Keys) && AncestorsFirst(all) && front + [k] <= all
    ensures k in l
    ensures Put(Overlay(v, Only(l, SetOf(front))), l[k]) == Ok(Overlay(v, Only(l, SetOf(front + [k]))))
  {
    hide *;
    var part := Only(l, SetOf(front));
    NextInOrder(l, front, k, all);
    NextEntry(v, l, k);
    PartOf(l, front, k);
    ParentApplied(v, l, part, k);
    PutNext(v, part, l[k]);
  }

  lemma NextEntry(v: View, l: Layer, k: Path)
    requires KeyedLayer(l) && ParentsIn(v, l) && k in l
    ensures PlainEntry(l[k]) && KeyOf(l[k]) == k && k.Sub? && k.parent in Overlay(v, l)
  {
  }

  lemma PartOf(l: Layer, front: seq<Path>, k: Path)
    requires KeyedLayer(l) && k in l && k !in front
    ensures var part := Only(l, SetOf(front));
            && KeyedLayer(part) && k !in part && (forall j | j in part :: j in front && j in l && part[j] == l[j])
            && (forall j | j in front && j in l :: j in part)
            && Only(l, SetOf(front + [k])) == part[k := l[k]]
  {
  }

  lemma NextInOrder(l: Layer, front: seq<Path>, k: Path, all: seq<Path>)
    requires KeyedLayer(l) && Lists(all, l.Keys) && AncestorsFirst(all) && front + [k] <= all
    ensures k in l && k.Sub? && k !in front && (k.parent in l ==> k.parent in front)
    ensures forall j | j in front :: !Below(k, j)
  {
    var n := |front|;
    assert all[n] == (front + [k])[n] == k;
    assert k in all;
    forall j | j in front ensures j != k && !Below(k, j) {
      var m :| 0 <= m < n && front[m] == j;
      assert all[m] == (front + [k])[m] == j;
    }
    if k.parent in l {
      var i :| 0 <= i < |all| && all[i] == k.parent;
      assert Below(all[i], all[n]);
      assert front[i] == (front + [k])[i] == all[i];
    }
  }

  lemma DescribedIsLaw(v: View, st: FsState)
    requires Described(v, st)
    ensures Law(v, st)
  {
    ReplayIsLaw(v, st);
  }

  lemma ReplayIsLaw(v: View, st: FsState)
    requires KeyedLayer(st.layer) && ParentsIn(v, st.layer) && Overlay(v, st.layer) == st.view
    ensures Law(v, st)
  {
    hide KeyedLayer, ParentsIn, AncestorsFirst, Overlay;
    var l := st.layer;
    forall keys | Lists(keys, l.Keys) && AncestorsFirst(keys)
      ensures (forall k | k in keys :: k in l) && Replay(v, l, keys) == Ok(st.view)
    {
      ReplayDescribes(v, l, keys, keys);
      assert Only(l, SetOf(keys)) == l;
    }
  }

  // ----- one entry -----

  /** What an entry may be put on. A file must not take the place of a directory,
      or a link, below which the layer holds something, other than the whiteout of
      a child. A directory must not take the place of a file, or of a whiteout,
      that in this layer took the place of a directory of the old tree with
      something left in it. A whiteout must not have an entry below it. */
  ghost predicate Fits(v: View, l: Layer, e: MemFile) {
    var k := KeyOf(e);
    match e
    case Content(c) =>
      if c.hdr.IsDir() then
        k in l && !ProvidesDir(l, k) ==>
          forall p | p in v && p !in l && Below(k, p) :: !Sheltered(l[k := e], p)
      else forall j | j in l && Below(k, j) :: l[j].Whiteout? && j.parent == k
    case Whiteout(_) => forall j | j in l :: !Below(k, j)
  }

  ghost predicate PutsDir(e: MemFile) {
    e.Content? && e.file.hdr.IsDir()
  }

  lemma EntryPut(v: View, l: Layer, e: MemFile)
    requires KeyedLayer(l) && PlainEntry(e) && KeyOf(e).parent in Overlay(v, l) && Fits(v, l, e)
    ensures Put(Overlay(v, l), e) == Ok(Overlay(v, l[KeyOf(e) := e]))
  {
    var k, l' := KeyOf(e), l[KeyOf(e) := e];
    var w, w' := Overlay(v, l), Overlay(v, l');
    var r := Put(w, e).value;
    hide KeyedLayer, IsWhiteoutName;
    WithinCases(k, k);
    forall p
      ensures p in r <==> p in w'
      ensures p in r ==> r[p] == w'[p]
    {
      WithinCases(k, p);
      if p != k && p !in l && p in v { ShelterPut(v, l, e, p); }
    }
    assert r == w';
  }

  lemma ShelterPut(v: View, l: Layer, e: MemFile, p: Path)
    requires Fits(v, l, e) && p in v && p !in l
    ensures Sheltered(l[KeyOf(e) := e], p) <==> Sheltered(l, p) && (Below(KeyOf(e), p) ==> PutsDir(e))
  {
    var k := KeyOf(e);
    var l' := l[k := e];
    if Sheltered(l', p) {
      forall a | a in l && Below(a, p) ensures ProvidesDir(l, a) {
        assert a in l';
      }
      if Below(k, p) { assert k in l'; }
    }
  }

  /** An entry that fits keeps the layer a description of the tree. */
  lemma FittingKeeps(v: View, st: FsState, e: MemFile)
    requires Described(v, st) && PlainEntry(e) && Fits(v, st.layer, e) && AddEntry(st, e).Ok?
    ensures Described(v, AddEntry(st, e).value)
  {
    hide Fits, Overlay, IsTree, KeyedByDst, Put, IsWhiteoutName;
    PutKeepsShape(st.view, e);
    ParentsKept(v, st, e);
    EntryPut(v, st.layer, e);
  }

  lemma ParentsKept(v: View, st: FsState, e: MemFile)
    requires Described(v, st) && PlainEntry(e) && Fits(v, st.layer, e) && AddEntry(st, e).Ok?
    ensures KeyOf(e).Sub? && KeyOf(e).parent in st.view
    ensures var w := AddEntry(st, e).value.view;
            KeyOf(e).parent in w && forall j | j in st.layer :: j.Sub? && j.parent in w
  {
    hide IsWhiteoutName, IsTree, KeyedByDst;
    var k := KeyOf(e);
    BelowIsStrict(k.parent, k);
    WithinCases(k, k.parent);
    forall j | j in st.layer ensures j.Sub? && j.parent in AddEntry(st, e).value.view {
      assert j.Sub? && j.parent in st.view;
      WithinCases(k, j.parent);
    }
  }

  // ----- an entry that does not fit -----

  lemma FrontFirst(front: seq<Path>, c: Path)
    requires AncestorsFirst(front + [c])
    ensures AncestorsFirst(front) && forall k | k in front :: !Below(c, k)
  {
    var keys := front + [c];
    assert forall i | 0 <= i < |front| :: keys[i] == front[i];
    forall k | k in front ensures !Below(c, k) {
      var i :| 0 <= i < |front| && keys[i] == k;
      assert keys[|front|] == c;
    }
  }

  /** Putting an entry keeps the parents of earlier keys, and their files. */
  lemma PutHolds(v: View, e: MemFile, keys: seq<Path>, p: Path)
    requires PlainEntry(e) && Put(v, e).Ok? && p in v && !Within(KeyOf(e), p)
    ensures p in Put(v, e).value
  {
    WithinCases(KeyOf(e), p);
  }

  /** Does a view hold what a replay must have left of entry `k`? */
  ghost predicate Holds(v: View, l: Layer, k: Path)
    requires k in l
  {
    k.Sub? && k.parent in v && (l[k].Content? ==> k in v)
  }

  lemma PutHoldsAll(v: View, l: Layer, front: seq<Path>, c: Path)
    requires KeyedLayer(l) && c in l && Put(v, l[c]).Ok? && c !in front
    requires forall k | k in front :: k in l && Holds(v, l, k) && !Below(c, k)
    ensures forall k | k in front :: Holds(Put(v, l[c]).value, l, k)
    ensures Holds(Put(v, l[c]).value, l, c)
  {
    hide IsWhiteoutName;
    BelowIsStrict(c.parent, c);
    WithinCases(c, c.parent);
    forall k | k in front ensures Holds(Put(v, l[c]).value, l, k) {
      WithinCases(c, k);
      WithinCases(c, k.parent);
      PutHolds(v, l[c], front, k.parent);
      if l[k].Content? { PutHolds(v, l[c], front, k); }
    }
  }

  /** What a replay has put it does not lose. */
  lemma {:induction false} ReplayHolds(v: View, l: Layer, keys: seq<Path>)
    requires KeyedLayer(l) && AncestorsFirst(keys) && Distinct(keys) && forall k | k in keys :: k in l
    ensures var r := Replay(v, l, keys); r.Ok? ==> forall k | k in keys :: Holds(r.value, l, k)
  {
    if keys != [] {
      var front, c := keys[..|keys| - 1], keys[|keys| - 1];
      assert keys == front + [c];
      FrontFirst(front, c);
      hide Below, AncestorsFirst, IsWhiteoutName, KeyedLayer, Holds, Put;
      ReplayHolds(v, l, front);
      if Replay(v, l, keys).Ok? { PutHoldsAll(Replay(v, l, front).value, l, front, c); }
    }
  }

  ghost predicate Distinct(keys: seq<Path>) {
    forall i, j | 0 <= i < j < |keys| :: keys[i] != keys[j]
  }

  ghost function Deepest(s: set<Path>): (k: Path)
    requires s != {}
    ensures k in s && forall j | j in s :: Depth(j) <= Depth(k)
  {
    var x :| x in s;
    if s == {x} then x
    else
      var k := Deepest(s - {x});
      if Depth(k) < Depth(x) then x else k
  }

  /** Any set of paths can be listed with ancestors first. */
  ghost function Listing(s: set<Path>): (keys: seq<Path>)
    ensures Lists(keys, s) && AncestorsFirst(keys)
  {
    if s == {} then []
    else
      var k := Deepest(s);
      ListingStep(Listing(s - {k}), s, k);
      Listing(s - {k}) + [k]
  }

  lemma ListingStep(keys: seq<Path>, s: set<Path>, k: Path)
    requires k in s && (forall j | j in s :: Depth(j) <= Depth(k))
    requires Lists(keys, s - {k}) && AncestorsFirst(keys)
    ensures Lists(keys + [k], s) && AncestorsFirst(keys + [k])
  {
    var all := keys + [k];
    forall x ensures x in all <==> x in s {}
    forall i, j | 0 <= i < |all| && 0 <= j < |all| && Below(all[i], all[j]) ensures i < j {
      BelowIsStrict(all[i], all[j]);
      WithinDepth(all[i], all[j].parent);
      assert all[j] in all && all[i] in all;
    }
  }

  /** A layer with an entry whose file or directory is not in the tree is no diff
      for it. */
  lemma LostIsNoLaw(v: View, st: FsState, k: Path)
    requires KeyedLayer(st.layer) && k in st.layer && !Holds(st.view, st.layer, k)
    ensures !Law(v, st)
  {
    var keys := Listing(st.layer.Keys);
    hide KeyedLayer, Holds;
    ReplayHolds(v, st.layer, keys);
    assert k in keys;
  }

  /** A file or whiteout over something below which the layer holds an entry: the
      tree loses what the layer keeps. */
  lemma LostBelow(v: View, st: FsState, e: MemFile, j: Path)
    requires Described(v, st) && PlainEntry(e) && !PutsDir(e) && Put(st.view, e).Ok?
    requires j in st.layer && Below(KeyOf(e), j) && (e.Content? ==> !(st.layer[j].Whiteout? && j.parent == KeyOf(e)))
    ensures !Law(v, FsState(Put(st.view, e).value, st.layer[KeyOf(e) := e]))
  {
    var k := KeyOf(e);
    var st' := FsState(Put(st.view, e).value, st.layer[k := e]);
    WithinCases(k, k);
    hide Overlay, IsTree, ParentsIn, IsWhiteoutName;
    WithinCases(k, j.parent);
    assert KeyedLayer(st'.layer);
    assert !Holds(st'.view, st'.layer, j);
    LostIsNoLaw(v, st', j);
  }

  /** A directory over a file that took the place of a directory in this layer:
      the replay brings back what the tree had lost. */
  lemma BackAgain(v: View, st: FsState, c: ContentFile, p: Path)
    requires Described(v, st) && PlainEntry(Content(c)) && c.hdr.IsDir() && PutContent(st.view, c).Ok?
    requires c.dst in st.layer && !ProvidesDir(st.layer, c.dst) && p in v && p !in st.layer && Below(c.dst, p)
    requires Sheltered(st.layer[c.dst := Content(c)], p)
    ensures !Law(v, FsState(PutContent(st.view, c).value, st.layer[c.dst := Content(c)]))
  {
    var l' := st.layer[c.dst := Content(c)];
    WithinCases(c.dst, c.dst);
    assert p in Overlay(v, l');
    assert p !in st.view by { assert !Sheltered(st.layer, p); }
    ParentsStay(v, st, c);
    hide Overlay, Sheltered, IsTree;
    ReplayIsLaw(v, FsState(Overlay(v, l'), l'));
    var keys := Listing(l'.Keys);
    assert Replay(v, l', keys) == Ok(Overlay(v, l'));
  }

  lemma ParentsStay(v: View, st: FsState, c: ContentFile)
    requires Described(v, st) && PlainEntry(Content(c)) && c.hdr.IsDir() && PutContent(st.view, c).Ok?
    ensures KeyedLayer(st.layer[c.dst := Content(c)]) && ParentsIn(v, st.layer[c.dst := Content(c)])
  {
    var l' := st.layer[c.dst := Content(c)];
    forall k | k in l' ensures k.Sub? && k.parent in Overlay(v, l') {
      assert k.parent in st.view;
      if k.parent !in l' { StaysSheltered(st.layer, c, k.parent); }
    }
  }

  lemma StaysSheltered(l: Layer, c: ContentFile, p: Path)
    requires Sheltered(l, p) && c.hdr.IsDir()
    ensures Sheltered(l[c.dst := Content(c)], p)
  {
  }

  lemma MisfitBreaks(v: View, st: FsState, e: MemFile)
    requires Described(v, st) && PlainEntry(e) && !Fits(v, st.layer, e) && AddEntry(st, e).Ok?
    ensures !Law(v, AddEntry(st, e).value)
  {
    hide Described, Law, Overlay, Sheltered, PlainEntry;
    var k := Misplaced(v, st.layer, e);
    if PutsDir(e) { BackAgain(v, st, e.file, k); } else { LostBelow(v, st, e, k); }
  }

  ghost function Misplaced(v: View, l: Layer, e: MemFile): (p: Path)
    requires !Fits(v, l, e)
    ensures Below(KeyOf(e), p)
    ensures if PutsDir(e) then
              && KeyOf(e) in l && !ProvidesDir(l, KeyOf(e))
              && p in v && p !in l && Sheltered(l[KeyOf(e) := e], p)
            else p in l && (e.Content? ==> !(l[p].Whiteout? && p.parent == KeyOf(e)))
  {
    if PutsDir(e) then
      var p :| p in v && p !in l && Below(KeyOf(e), p) && Sheltered(l[KeyOf(e) := e], p);
      p
    else
      var p :| p in l && Below(KeyOf(e), p) && (e.Content? ==> !(l[p].Whiteout? && p.parent == KeyOf(e)));
      p
  }

  // ----- any number of entries -----

  /** The law holds now and after each entry. */
  ghost predicate LawKept(v: View, st: FsState, es: seq<MemFile>)
    decreases |es|
  {
    && Law(v, st)
    && (es != [] && AddEntry(st, es[0]).Ok? ==> LawKept(v, AddEntry(st, es[0]).value, es[1..]))
  }

  /** Each entry fits at the time it is added. */
  ghost predicate AllFit(v: View, st: FsState, es: seq<MemFile>)
    decreases |es|
  {
    es != [] && AddEntry(st, es[0]).Ok? ==>
      Fits(v, st.layer, es[0]) && AllFit(v, AddEntry(st, es[0]).value, es[1..])
  }

  /** The law holds all along if and only if every entry fits; and then it holds
      in the end, whatever is added. */
  lemma {:induction false} EntriesAreExact(v: View, st: FsState, es: seq<MemFile>)
    requires Described(v, st) && PlainEntries(es)
    ensures LawKept(v, st, es) <==> AllFit(v, st, es)
    ensures AllFit(v, st, es) && AddEntries(st, es).Ok? ==> Described(v, AddEntries(st, es).value)
    decreases |es|
  {
    hide Described, Law, AddEntry, PlainEntry, Fits;
    DescribedIsLaw(v, st);
    if es != [] && AddEntry(st, es[0]).Ok? {
      var st' := AddEntry(st, es[0]).value;
      PlainRest(es);
      if Fits(v, st.layer, es[0]) {
        FittingKeeps(v, st, es[0]);
        EntriesAreExact(v, st', es[1..]);
      } else {
        MisfitBreaks(v, st, es[0]);
      }
    }
  }

  lemma PlainRest(es: seq<MemFile>)
    requires PlainEntries(es) && es != []
    ensures PlainEntry(es[0]) && PlainEntries(es[1..])
  {
  }

  /** Entries that fit, followed by more that fit where these end. */
  lemma {:induction false} FitsAppend(v: View, st: FsState, a: seq<MemFile>, b: seq<MemFile>)
    requires AllFit(v, st, a) && AddEntries(st, a).Ok? && AllFit(v, AddEntries(st, a).value, b)
    ensures AllFit(v, st, a + b)
    decreases |a|
  {
    hide AddEntry, Fits;
    if a == [] {
      assert a + b == b;
    } else {
      assert (a + b)[0] == a[0] && (a + b)[1..] == a[1..] + b;
      FitsAppend(v, AddEntry(st, a[0]).value, a[1..], b);
    }
  }

  /** A layer without whiteouts. */
  ghost predicate OnlyContent(l: Layer) {
    forall k | k in l :: l[k].Content?
  }

  lemma {:induction false} ContentStays(st: FsState, es: seq<MemFile>)
    requires OnlyContent(st.layer) && forall e | e in es :: e.Content?
    ensures var r := AddEntries(st, es); r.Ok? ==> OnlyContent(r.value.layer)
    decreases |es|
  {
    hide Put;
    if es != [] && AddEntry(st, es[0]).Ok? { ContentStays(AddEntry(st, es[0]).value, es[1..]); }
  }

  // ----- the entries of copies -----

  /** The whiteout that a file named exactly like the whiteout prefix becomes. */
  predicate Nameless(e: MemFile) {
    e.Whiteout? && e.del.Sub? && e.del.name == ""
  }

  ghost predicate NamedEntries(es: seq<MemFile>) {
    forall e | e in es :: !Nameless(e) ==> PlainEntry(e)
  }

  lemma NamedAppend(a: seq<MemFile>, b: seq<MemFile>)
    requires NamedEntries(a) && NamedEntries(b)
    ensures NamedEntries(a + b)
  {
  }

  lemma NamedFor(src: Path, dst: Path, hdr: Header)
    requires dst.Sub?
    ensures NamedEntries([FileFor(src, dst, hdr)])
  {
  }

  ghost predicate IsKeyedTree(v: View) {
    IsTree(v) && KeyedByDst(v)
  }

  lemma EntryKeepsTree(st: FsState, e: MemFile)
    requires IsKeyedTree(st.view)
    ensures var r := AddEntry(st, e); r.Ok? ==> IsKeyedTree(r.value.view)
  {
    if Put(st.view, e).Ok? { PutKeepsShape(st.view, e); }
  }

  lemma {:induction false} EntriesKeepTree(st: FsState, es: seq<MemFile>)
    requires IsKeyedTree(st.view)
    ensures var r := AddEntries(st, es); r.Ok? ==> IsKeyedTree(r.value.view)
    decreases |es|
  {
    hide AddEntry, IsKeyedTree;
    if es != [] {
      EntryKeepsTree(st, es[0]);
      var r := AddEntry(st, es[0]);
      if r.Ok? { EntriesKeepTree(r.value, es[1..]); }
    }
  }

  lemma {:induction false} MissingAreNamed(parts: seq<string>, j: nat, end: nat, like: Header, owner: Owner)
    requires j <= end <= |parts|
    ensures NamedEntries(MissingEntries(parts, j, end, like, owner))
    decreases end - j
  {
    if j < end {
      PrefixStep(parts, j);
      var p := Prefix(parts, j + 1);
      hide NamedEntries, FileFor, MissingDirHeader;
      NamedFor(Root, p, MissingDirHeader(p, like, owner));
      MissingAreNamed(parts, j + 1, end, like, owner);
      NamedAppend([MissingDir(p, like, owner)], MissingEntries(parts, j + 1, end, like, owner));
    }
  }

  lemma {:induction false} AncestorsAreNamed(st: FsState, dst: Path, inclusive: bool, depth: nat, owner: Owner)
    requires IsKeyedTree(st.view) && Root in st.view
    ensures NamedEntries(AncestorEntries(st, dst, inclusive, depth, owner))
    decreases MAX_DEPTH - depth, 1, 0
  {
    if depth < MAX_DEPTH {
      ClimbIsNamed(st, dst, inclusive, depth, owner, 0, Root, st.view[Root].hdr);
    }
  }

  lemma {:induction false} ClimbIsNamed(st: FsState, dst: Path, inclusive: bool, depth: nat, owner: Owner, i: nat,
      curr: Path, like: Header)
    requires IsKeyedTree(st.view) && Root in st.view
    requires i <= End(dst, inclusive) <= Depth(dst) && depth < MAX_DEPTH
    ensures NamedEntries(ClimbEntries(st, dst, inclusive, depth, owner, i, curr, like))
    decreases MAX_DEPTH - depth, 0, End(dst, inclusive) - i
  {
    hide AddEntry, FileFor, AncestorEntries, MissingEntries, LinkTarget, FromParts, NamedEntries, IsKeyedTree;
    var parts, end := Parts(dst), End(dst, inclusive);
    if i == end || Sub(curr, parts[i]) !in st.view {
      MissingAreNamed(parts, i, end, like, owner);
    } else {
      var next := Sub(curr, parts[i]);
      var n := st.view[next];
      var e := FileFor(n.src, n.dst, n.hdr);
      KeyedAt(st.view, next);
      NamedFor(n.src, n.dst, n.hdr);
      EntryKeepsTree(st, e);
      var r := AddEntry(st, e);
      if r.Ok? {
        if n.hdr.IsDir() {
          ClimbIsNamed(r.value, dst, inclusive, depth, owner, i + 1, next, n.hdr);
          NamedAppend([e], ClimbEntries(r.value, dst, inclusive, depth, owner, i + 1, next, n.hdr));
        } else if n.hdr.IsSymlink() {
          var target := FromParts(LinkTarget(n.hdr.linkname, parts[i + 1..]));
          AncestorsAreNamed(r.value, target, inclusive, depth + 1, owner);
          NamedAppend([e], AncestorEntries(r.value, target, inclusive, depth + 1, owner));
        } else {
          ClimbIsNamed(r.value, dst, inclusive, depth, owner, i + 1, curr, like);
          NamedAppend([e], ClimbEntries(r.value, dst, inclusive, depth, owner, i + 1, curr, like));
        }
      }
    }
  }

  lemma KeyedAt(v: View, p: Path)
    requires IsKeyedTree(v) && p in v
    ensures v[p].dst == p
  {
  }

  lemma NothingNamed()
    ensures NamedEntries([])
  {
  }

  lemma FileIsNamed(st: FsState, f: CopiedFile, now: int)
    requires IsKeyedTree(st.view) && Root in st.view
    ensures NamedEntries(FileEntries(st, f, now))
    ensures var r := AddFile(st, f, now); r.Ok? ==> IsKeyedTree(r.value.view)
  {
    FileIsEntries(st, f, now);
    EntriesKeepTree(st, FileEntries(st, f, now));
    hide AddFile, FileFor, AncestorEntries, IsUpdated, NamedEntries, IsKeyedTree, AddEntries;
    NothingNamed();
    if f.dst.Sub? {
      AncestorsAreNamed(st, f.dst, false, 0, Owner(0, 0, now));
      NamedFor(f.src, f.dst, f.hdr);
      NamedAppend(AncestorEntries(st, f.dst, false, 0, Owner(0, 0, now)), [FileFor(f.src, f.dst, f.hdr)]);
    }
  }

  lemma {:induction false} FilesAreNamed(st: FsState, files: seq<CopiedFile>, now: int)
    requires IsKeyedTree(st.view) && Root in st.view
    ensures NamedEntries(FilesEntries(st, files, now))
    ensures var r := AddFiles(st, files, now); r.Ok? ==> IsKeyedTree(r.value.view)
  {
    hide AddFile, FileEntries, NamedEntries, IsKeyedTree;
    NothingNamed();
    if files != [] {
      var front := files[..|files| - 1];
      FilesAreNamed(st, front, now);
      var r := AddFiles(st, front, now);
      var more := if r.Ok? then FileEntries(r.value, files[|files| - 1], now) else [];
      if r.Ok? { FileIsNamed(r.value, files[|files| - 1], now); }
      NamedAppend(FilesEntries(st, front, now), more);
    }
  }

  lemma OperationIsNamed(st: FsState, op: CopyOperation, now: int)
    requires IsKeyedTree(st.view) && Root in st.view
    ensures NamedEntries(OperationEntries(st, op, now))
    ensures var r := AddToLayer(st, op, now); r.Ok? ==> IsKeyedTree(r.value.view)
  {
    hide NamedEntries, IsKeyedTree, AddAncestors, AncestorEntries, AddFiles, FilesEntries, CopiedFiles, AddEntries;
    var m, owner := MakeDst(st, op, now), Owner(op.uid, op.gid, now);
    NothingNamed();
    AncestorsAreNamed(st, op.dst, true, 0, owner);
    AncestorsAreEntries(st, op.dst, true, 0, owner);
    EntriesKeepTree(st, AncestorEntries(st, op.dst, true, 0, owner));
    var made := if op.MakesDst() then AncestorEntries(st, op.dst, true, 0, owner) else [];
    if m.Ok? {
      var files := CopiedFiles(op, |op.srcs|, m.value.1, m.value.2);
      FilesAreNamed(m.value.0, files, now);
      NamedAppend(made, FilesEntries(m.value.0, files, now));
    } else {
      NamedAppend(made, []);
    }
  }

  lemma {:induction false} CopiesAreNamed(st: FsState, ops: seq<CopyOperation>, now: int)
    requires IsKeyedTree(st.view) && Root in st.view
    ensures NamedEntries(CopyEntries(st, ops, now))
    ensures var r := AddOperations(st, ops, now); r.Ok? ==> IsKeyedTree(r.value.view)
  {
    hide AddToLayer, OperationEntries, NamedEntries, IsKeyedTree;
    NothingNamed();
    if ops != [] {
      var front := ops[..|ops| - 1];
      CopiesAreNamed(st, front, now);
      var r := AddOperations(st, front, now);
      var more := if r.Ok? then OperationEntries(r.value, ops[|ops| - 1], now) else [];
      if r.Ok? { OperationIsNamed(r.value, ops[|ops| - 1], now); }
      NamedAppend(CopyEntries(st, front, now), more);
    }
  }

  /** The law of copy layers, for any tree, any links and any operations that do
      not copy a file named exactly ".wh.": the layer under construction replays to
      the tree in memory after every entry if and only if every entry fits, and
      then the finished layer turns the old tree into the new one. */
  lemma CopyLayerLaw(v: View, ops: seq<CopyOperation>, now: int)
    requires IsTree(v) && KeyedByDst(v)
    requires forall e | e in CopyEntries(FsState(v, map[]), ops, now) :: !Nameless(e)
    ensures var st := FsState(v, map[]);
            var es, r := CopyEntries(st, ops, now), AddOperations(st, ops, now);
            && (LawKept(v, st, es) <==> AllFit(v, st, es))
            && (r.Ok? ==> AddEntries(st, es) == r)
            && (r.Ok? && AllFit(v, st, es) ==> Law(v, r.value) && Described(v, r.value))
  {
    var st := FsState(v, map[]);
    var es, r := CopyEntries(st, ops, now), AddOperations(st, ops, now);
    NothingIsDescribed(v);
    CopiesAreNamed(st, ops, now);
    CopiesAreEntries(st, ops, now);
    hide *;
    NamedIsPlain(es);
    EntriesAreExact(v, st, es);
    if r.Ok? && AllFit(v, st, es) { DescribedIsLaw(v, r.value); }
  }

  lemma NamedIsPlain(es: seq<MemFile>)
    requires NamedEntries(es) && forall e | e in es :: !Nameless(e)
    ensures PlainEntries(es)
  {
  }
}
