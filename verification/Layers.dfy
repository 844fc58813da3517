/** Layers over the merged file-system view (lib/snapshot/mem_layer.go), on
    values: what one entry does to the view, and what a whole layer does when
    its entries are applied in the order in which they are written out. */
module Layers {
  import opened Wrappers
  import opened Paths
  import opened TarHeaders

  datatype ContentFile = ContentFile(src: Path, dst: Path, hdr: Header)

  datatype MemFile = Content(file: ContentFile) | Whiteout(del: Path)

  /** The merged view: each existing path with the file that provides it. */
  type View = map<Path, ContentFile>

  /** memLayer.files. */
  type Layer = map<Path, MemFile>

  datatype TreeError = MissingIntermediate

  // ----- one entry -----

  function Erase(v: View, p: Path): View {
    map q | q in v && !Within(p, q) :: v[q]
  }

  function EraseBelow(v: View, p: Path): View {
    map q | q in v && !Below(p, q) :: v[q]
  }

  /** What a content entry does: the root is never replaced, a directory keeps
      what it contains, anything else takes the place of the whole subtree. */
  function PutContent(v: View, f: ContentFile): Result<View, TreeError> {
    if f.dst.Root? then Ok(v)
    else if f.dst.parent !in v then Err(MissingIntermediate)
    else Ok((if f.hdr.IsDir() then v else EraseBelow(v, f.dst))[f.dst := f])
  }

  /** A whiteout named exactly ".wh." designates the directory that holds it. */
  function Target(del: Path): Path {
    if del.Sub? && del.name == "" then del.parent else del
  }

  /** What a whiteout does; whiting out an absent path is only worth a warning. */
  function PutWhiteout(v: View, del: Path): Result<View, TreeError> {
    var t := Target(del);
    if t.Root? then Ok(v)
    else if t.parent !in v then Err(MissingIntermediate)
    else Ok(Erase(v, t))
  }

  function Put(v: View, f: MemFile): Result<View, TreeError> {
    match f
    case Content(c) => PutContent(v, c)
    case Whiteout(del) => PutWhiteout(v, del)
  }

  // ----- shape -----

  ghost predicate IsTree(v: View) {
    && Root in v
    && forall p, c | Sub(p, c) in v :: p in v
  }

  ghost predicate OnlyDirsHaveChildren(v: View) {
    forall p, c | Sub(p, c) in v && p in v :: v[p].hdr.IsDir()
  }

  ghost predicate KeyedByDst(v: View) {
    forall p | p in v :: v[p].dst == p
  }

  lemma {:induction false} AncestorsExist(v: View, a: Path, p: Path)
    requires IsTree(v) && p in v && Within(a, p)
    ensures a in v
    decreases p
  {
    if a != p { AncestorsExist(v, a, p.parent); }
  }

  lemma {:induction false} AncestorsAreDirs(v: View, a: Path, p: Path)
    requires IsTree(v) && OnlyDirsHaveChildren(v) && p in v && Below(a, p)
    ensures a in v && v[a].hdr.IsDir()
    decreases p
  {
    if a != p.parent { AncestorsAreDirs(v, a, p.parent); }
  }

  /** Entries keep the view a tree keyed by destination. A content entry whose
      parent is a directory also keeps files from having children. */
  lemma PutKeepsShape(v: View, f: MemFile)
    requires IsTree(v) && KeyedByDst(v) && Put(v, f).Ok?
    ensures IsTree(Put(v, f).value) && KeyedByDst(Put(v, f).value)
    ensures OnlyDirsHaveChildren(v)
            && (f.Content? && f.file.dst.Sub? ==> v[f.file.dst.parent].hdr.IsDir())
            ==> OnlyDirsHaveChildren(Put(v, f).value)
  {
    var w := Put(v, f).value;
    forall p | p in w && p.Sub?
      ensures p.parent in w
    {
      match f
      case Content(c) =>
        if p == c.dst { WithinCases(p, p.parent); BelowIsStrict(p.parent, p); }
      case Whiteout(del) =>
    }
    RootWithin(Root);
  }

  // ----- a whole layer -----

  ghost predicate EntryFor(k: Path, f: MemFile) {
    && k.Sub?
    && k.name != ""
    && match f case Content(c) => c.dst == k case Whiteout(del) => del == k
  }

  ghost predicate ProvidesDir(l: Layer, p: Path) {
    p in l && l[p].Content? && l[p].file.hdr.IsDir()
  }

  /** What a layer must satisfy to be applied entry by entry in written order:
      each key is the path of its entry, and everything above a key is a
      directory provided by the same layer. */
  ghost predicate WellFormed(l: Layer) {
    forall k | k in l :: EntryFor(k, l[k]) && (k.parent.Sub? ==> ProvidesDir(l, k.parent))
  }

  lemma {:induction false} KeysAbove(l: Layer, a: Path, k: Path)
    requires WellFormed(l) && k in l && a.Sub? && Below(a, k)
    ensures a in l && l[a].Content? && l[a].file.hdr.IsDir()
    decreases k
  {
    if a != k.parent { KeysAbove(l, a, k.parent); }
  }

  /** Does `p` of the old view survive below the entries of the layer? */
  ghost predicate Sheltered(l: Layer, p: Path) {
    forall a | a in l && Below(a, p) :: l[a].Content? && l[a].file.hdr.IsDir()
  }

  /** The view a layer describes on top of `v`: its entries, and everything of
      `v` that no whiteout or non-directory entry covers. */
  ghost function Overlay(v: View, l: Layer): View {
    map p | p in v.Keys + l.Keys
            && (if p in l then l[p].Content? else Sheltered(l, p))
         :: if p in l then l[p].file else v[p]
  }

  ghost function Replay(v: View, l: Layer, keys: seq<Path>): Result<View, TreeError>
    requires forall k | k in keys :: k in l
  {
    if keys == [] then Ok(v)
    else
      var r := Replay(v, l, keys[..|keys| - 1]);
      if r.Err? then r else Put(r.value, l[keys[|keys| - 1]])
  }

  ghost predicate AncestorsFirst(keys: seq<Path>) {
    forall i, j | 0 <= i < |keys| && 0 <= j < |keys| && Below(keys[i], keys[j]) :: i < j
  }

  ghost predicate Lists(keys: seq<Path>, s: set<Path>) {
    && (forall k :: k in keys <==> k in s)
    && forall i, j | 0 <= i < j < |keys| :: keys[i] != keys[j]
  }

  ghost function Only(l: Layer, s: set<Path>): Layer {
    map k | k in l && k in s :: l[k]
  }

  /** One more entry, applied when everything above it has been applied. */
  lemma OverlayStep(v: View, l: Layer, k: Path, f: MemFile)
    requires IsTree(v) && WellFormed(l) && k !in l && EntryFor(k, f)
    requires k.parent.Sub? ==> ProvidesDir(l, k.parent)
    requires forall j | j in l :: !Below(k, j)
    ensures Put(Overlay(v, l), f) == Ok(Overlay(v, l[k := f]))
  {
    assert k.parent in Overlay(v, l);
    var w := Overlay(v, l);
    var l' := l[k := f];
    var w' := Overlay(v, l');
    var r := Put(w, f).value;
    WithinCases(k, k);
    forall p
      ensures p in r <==> p in w'
      ensures p in r ==> r[p] == w'[p]
    {
      WithinCases(k, p);
      if p != k && p !in l { ShelterStep(l, k, f, p); }
    }
    assert r == w';
  }

  lemma ShelterStep(l: Layer, k: Path, f: MemFile, p: Path)
    requires k !in l
    ensures Sheltered(l[k := f], p) <==> Sheltered(l, p) && (Below(k, p) ==> f.Content? && f.file.hdr.IsDir())
  {
    var l' := l[k := f];
    if Sheltered(l', p) {
      forall a | a in l && Below(a, p) ensures l[a].Content? && l[a].file.hdr.IsDir() {
        assert a in l';
      }
      if Below(k, p) { assert k in l'; }
    }
  }

  ghost function SetOf(keys: seq<Path>): set<Path> {
    set k | k in keys
  }

  /** The next key in an ancestors-first listing: not applied yet, nothing
      below it applied yet, everything above it applied. */
  lemma NextKey(l: Layer, front: seq<Path>, k: Path, all: seq<Path>)
    requires WellFormed(l) && Lists(all, l.Keys) && AncestorsFirst(all)
    requires front + [k] <= all
    ensures k in l && k !in front && EntryFor(k, l[k])
    ensures forall j | j in front :: !Below(k, j)
    ensures k.parent.Sub? ==> ProvidesDir(Only(l, SetOf(front)), k.parent)
    ensures WellFormed(Only(l, SetOf(front)))
  {
    var n := |front|;
    assert (front + [k])[n] == k;
    assert all[n] == k;
    forall j | j in front
      ensures j != k && !Below(k, j)
      ensures j in l && (j.parent.Sub? ==> j.parent in front)
    {
      var m :| 0 <= m < n && front[m] == j;
      assert (front + [k])[m] == all[m] == j;
      ParentEarlier(l, all, m, front);
    }
    ParentEarlier(l, all, n, front);
  }

  lemma ParentEarlier(l: Layer, all: seq<Path>, m: nat, front: seq<Path>)
    requires WellFormed(l) && Lists(all, l.Keys) && AncestorsFirst(all)
    requires m <= |front| && m < |all| && front <= all
    ensures all[m] in l && (all[m].parent.Sub? ==> all[m].parent in front)
  {
    var k := all[m];
    assert k in l;
    if k.parent.Sub? {
      var i :| 0 <= i < |all| && all[i] == k.parent;
      assert Below(all[i], all[m]);
      assert front[i] == k.parent;
    }
  }

  /** Applying the entries of a well-formed layer, ancestors first, never fails
      and gives exactly the view the layer describes, whatever the order of
      unrelated entries. */
  lemma {:induction false} ReplayIsOverlay(v: View, l: Layer, keys: seq<Path>, all: seq<Path>)
    requires IsTree(v) && WellFormed(l)
    requires Lists(all, l.Keys) && AncestorsFirst(all) && keys <= all
    requires forall k | k in keys :: k in l
    ensures Replay(v, l, keys) == Ok(Overlay(v, Only(l, SetOf(keys))))
  {
    hide IsTree, WellFormed, Lists, AncestorsFirst;
    if keys == [] {
      assert Overlay(v, Only(l, SetOf(keys))) == v;
    } else {
      var front, k := keys[..|keys| - 1], keys[|keys| - 1];
      assert keys == front + [k];
      NextKey(l, front, k, all);
      ReplayIsOverlay(v, l, front, all);
      var part := Only(l, SetOf(front));
      OverlayStep(v, part, k, l[k]);
      assert Only(l, SetOf(keys)) == part[k := l[k]];
    }
  }

  lemma WholeReplayIsOverlay(v: View, l: Layer, all: seq<Path>)
    requires IsTree(v) && WellFormed(l)
    requires Lists(all, l.Keys) && AncestorsFirst(all)
    ensures Replay(v, l, all) == Ok(Overlay(v, l))
  {
    ReplayIsOverlay(v, l, all, all);
    assert Only(l, SetOf(all)) == l;
  }
}
