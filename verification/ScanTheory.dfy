/** What a scan of the disk must produce, stated on views: the merged tree it
    leaves behind and the layer it emits, and why that layer is a correct and
    exact diff. */
module ScanTheory {
  import opened Wrappers
  import opened Paths
  import opened TarHeaders
  import opened Layers

  /** The disk below the root: each path with the header made for it. */
  type Disk = map<Path, Header>

  const WHITEOUT_PREFIX: string := ".wh."

  predicate IsWhiteoutName(name: string) {
    WHITEOUT_PREFIX <= name
  }

  predicate PlainName(p: Path) {
    p.Sub? ==> p.name != "" && !IsWhiteoutName(p.name)
  }

  ghost predicate IsDisk(d: Disk) {
    && Root in d && d[Root].IsDir()
    && (forall p | p in d :: PlainName(p) && d[p].Supported() && (p.Sub? ==> d[p].name != ""))
    && (forall p, c | Sub(p, c) in d :: p in d && d[p].IsDir())
  }

  /** The views the scan is correct on: trees whose files come from their own
      disk path and whose types the header comparison supports. */
  ghost predicate Scannable(v: View) {
    && IsTree(v) && OnlyDirsHaveChildren(v) && KeyedByDst(v) && v[Root].hdr.IsDir()
    && forall p | p in v :: v[p].src == p && v[p].hdr.Supported() && PlainName(p)
  }

  /** A path whose file is new or whose header changed. */
  predicate Changed(v: View, d: Disk, p: Path) {
    p.Sub? && p in d && (p !in v || !Similar(v[p].hdr, d[p], false))
  }

  /** The topmost path of a removed subtree, where its parent is still a directory. */
  predicate Gone(v: View, d: Disk, p: Path) {
    p.Sub? && p in v && p !in d && p.parent in d && d[p.parent].IsDir()
  }

  function Fresh(d: Disk, p: Path): ContentFile
    requires p in d
  {
    ContentFile(p, p, d[p])
  }

  /** The file the merged view holds at a path of the disk. */
  function MergedFile(v: View, d: Disk, p: Path): ContentFile
    requires p in d && Root in v
  {
    if p.Root? then v[Root]
    else if Changed(v, d, p) then Fresh(d, p)
    else v[p]
  }

  ghost function Merged(v: View, d: Disk): View
    requires Root in v
  {
    map p | p in d :: MergedFile(v, d, p)
  }

  /** The paths the layer is made for, among those found at visited paths. */
  ghost predicate Reported(v: View, d: Disk, seen: set<Path>, x: Path) {
    (x in seen && Changed(v, d, x)) || (Gone(v, d, x) && x.parent in seen)
  }

  ghost predicate InLayer(v: View, d: Disk, seen: set<Path>, k: Path) {
    k.Sub? && exists x :: Reported(v, d, seen, x) && Within(k, x)
  }

  ghost function EntryAt(v: View, d: Disk, k: Path): MemFile
    requires Root in v
  {
    if k in d then Content(MergedFile(v, d, k)) else Whiteout(k)
  }

  /** The layer after visiting `seen`. */
  ghost function LayerOf(v: View, d: Disk, seen: set<Path>): Layer
    requires Root in v
  {
    map k | k in v.Keys + d.Keys && InLayer(v, d, seen, k) :: EntryAt(v, d, k)
  }

  ghost function ScanLayer(v: View, d: Disk): Layer
    requires Root in v
  {
    LayerOf(v, d, d.Keys)
  }

  // ----- the layer is well formed -----

  lemma {:induction false} DiskAncestors(d: Disk, a: Path, p: Path)
    requires IsDisk(d) && p in d && Within(a, p)
    ensures a in d && (a != p ==> d[a].IsDir())
    decreases p
  {
    if a != p { DiskAncestors(d, a, p.parent); }
  }

  lemma MergedKeepsType(v: View, d: Disk, p: Path)
    requires Scannable(v) && IsDisk(d) && p in d
    ensures MergedFile(v, d, p).dst == p && MergedFile(v, d, p).src == p
    ensures MergedFile(v, d, p).hdr.IsDir() <==> d[p].IsDir()
    ensures MergedFile(v, d, p).hdr.Supported()
    ensures p.Sub? ==> Similar(MergedFile(v, d, p).hdr, d[p], false)
  {
    SimilarIsAnEquivalence(d[p], d[p], d[p], false);
    if p.Sub? && !Changed(v, d, p) {
      SimilarIsAnEquivalence(v[p].hdr, d[p], d[p], false);
      SimilarIsAnEquivalence(d[p], v[p].hdr, d[p], false);
    }
  }

  /** Everything strictly above a reported path is a directory on disk. */
  lemma AboveReported(v: View, d: Disk, seen: set<Path>, k: Path, x: Path)
    requires Scannable(v) && IsDisk(d) && Reported(v, d, seen, x) && Within(k, x)
    ensures k in v.Keys + d.Keys
    ensures k != x ==> k in d && d[k].IsDir()
  {
    WithinCases(k, x);
    if k != x {
      DiskAncestors(d, k, x.parent);
    }
  }

  lemma LayerIsWellFormed(v: View, d: Disk, seen: set<Path>)
    requires Scannable(v) && IsDisk(d)
    ensures WellFormed(LayerOf(v, d, seen))
  {
    var l := LayerOf(v, d, seen);
    forall k | k in l
      ensures EntryFor(k, l[k]) && (k.parent.Sub? ==> ProvidesDir(l, k.parent))
    {
      if k in d { MergedKeepsType(v, d, k); }
      if k.parent.Sub? {
        var x :| Reported(v, d, seen, x) && Within(k, x);
        WithinTransitive(k.parent, k, x);
        BelowIsStrict(k.parent, k);
        AboveReported(v, d, seen, k.parent, x);
        MergedKeepsType(v, d, k.parent);
      }
    }
  }

  // ----- the layer is a correct diff -----

  /** For a path of the old view that is not on disk, the topmost ancestor
      that is not on disk either. */
  ghost function TopGone(d: Disk, p: Path): (t: Path)
    requires IsDisk(d) && p !in d
    ensures Within(t, p) && t.Sub? && t !in d && t.parent in d
    decreases p
  {
    if p.parent in d then p else TopGone(d, p.parent)
  }

  /** A removed path is covered by the layer. */
  lemma RemovedIsCovered(v: View, d: Disk, p: Path)
    requires Scannable(v) && IsDisk(d) && p in v && p !in d
    requires p !in ScanLayer(v, d)
    ensures !Sheltered(ScanLayer(v, d), p)
  {
    var l := ScanLayer(v, d);
    var t := TopGone(d, p);
    AncestorsExist(v, t, p);
    WithinCases(t, p);
    WithinCases(t.parent, p);
    WithinTransitive(t.parent, t, p);
    BelowIsStrict(t.parent, t);
    if d[t.parent].IsDir() {
      assert Reported(v, d, d.Keys, t);
      assert t in l;
    } else {
      var q := t.parent;
      assert Changed(v, d, q) by {
        AncestorsAreDirs(v, q, p);
        if q.Sub? { SimilarIsAnEquivalence(d[q], v[q].hdr, d[q], false); }
      }
      assert Reported(v, d, d.Keys, q) && Within(q, q);
      assert q in l;
      WithinDepth(t, p);
      WithinDepth(q, t.parent);
      MergedKeepsType(v, d, q);
    }
  }

  /** Applying the scan layer to the old view gives the merged view. */
  lemma ScanLayerIsTheDiff(v: View, d: Disk)
    requires Scannable(v) && IsDisk(d)
    ensures Overlay(v, ScanLayer(v, d)) == Merged(v, d)
  {
    var l := ScanLayer(v, d);
    var w := Overlay(v, l);
    var m := Merged(v, d);
    forall p
      ensures p in w <==> p in m
      ensures p in m ==> w[p] == m[p]
    {
      if p in l {
      } else if p in d {
        if p.Sub? && Changed(v, d, p) {
          assert Reported(v, d, d.Keys, p) && Within(p, p);
        }
        forall a | a in l && Below(a, p) ensures l[a].Content? && l[a].file.hdr.IsDir() {
          WithinCases(a, p);
          BelowIsStrict(a, p);
          DiskAncestors(d, a, p);
          MergedKeepsType(v, d, a);
        }
      } else if p in v {
        RemovedIsCovered(v, d, p);
      }
    }
    assert w == m;
  }

  /** The main law of the scan: its layer, replayed in any order that puts
      directories before what they contain, never errors on the old tree and
      gives a tree with exactly the disk's paths and similar headers. */
  lemma ScanDiffIsCorrect(v: View, d: Disk, order: seq<Path>)
    requires Scannable(v) && IsDisk(d)
    requires Lists(order, ScanLayer(v, d).Keys) && AncestorsFirst(order)
    ensures Replay(v, ScanLayer(v, d), order) == Ok(Merged(v, d))
    ensures Merged(v, d).Keys == d.Keys
    ensures forall p | p in d && p.Sub? :: Similar(Merged(v, d)[p].hdr, d[p], false)
    ensures Merged(v, d)[Root] == v[Root]
  {
    LayerIsWellFormed(v, d, d.Keys);
    WholeReplayIsOverlay(v, ScanLayer(v, d), order);
    ScanLayerIsTheDiff(v, d);
    forall p | p in d && p.Sub? ensures Similar(Merged(v, d)[p].hdr, d[p], false) {
      MergedKeepsType(v, d, p);
    }
  }

  /** The layer is exact: its keys are the changed paths, the topmost removed
      paths, and the directories above them. */
  lemma ScanLayerIsExact(v: View, d: Disk, k: Path)
    requires Scannable(v) && IsDisk(d)
    ensures k in ScanLayer(v, d) <==>
            k.Sub? && exists x :: (Changed(v, d, x) || Gone(v, d, x)) && Within(k, x)
    ensures Changed(v, d, k) ==> ScanLayer(v, d)[k] == Content(Fresh(d, k))
    ensures k in ScanLayer(v, d) ==> (ScanLayer(v, d)[k].Whiteout? <==> Gone(v, d, k))
  {
    if k.Sub? && exists x :: (Changed(v, d, x) || Gone(v, d, x)) && Within(k, x) {
      var x :| (Changed(v, d, x) || Gone(v, d, x)) && Within(k, x);
      assert Reported(v, d, d.Keys, x);
      AboveReported(v, d, d.Keys, k, x);
    }
    if Changed(v, d, k) {
      assert Reported(v, d, d.Keys, k) && Within(k, k);
    }
    if k in ScanLayer(v, d) && k !in d {
      var x :| Reported(v, d, d.Keys, x) && Within(k, x);
      AboveReported(v, d, d.Keys, k, x);
    }
  }

  /** The scan is idempotent: what it leaves behind is scannable again, and a
      second scan of an unchanged disk reports nothing and changes nothing. */
  lemma SecondScanIsEmpty(v: View, d: Disk)
    requires Scannable(v) && IsDisk(d)
    ensures Scannable(Merged(v, d))
    ensures ScanLayer(Merged(v, d), d) == map[]
    ensures Merged(Merged(v, d), d) == Merged(v, d)
  {
    var m := Merged(v, d);
    forall p | p in m
      ensures p.Sub? ==> p.parent in m && m[p.parent].hdr.IsDir() && Similar(m[p].hdr, d[p], false)
      ensures m[p].src == p && m[p].dst == p && m[p].hdr.Supported()
    {
      MergedKeepsType(v, d, p);
      if p.Sub? { MergedKeepsType(v, d, p.parent); }
    }
    forall x ensures !Reported(m, d, d.Keys, x) {}
  }
}
